/**
 * The string primitives the redaction relies on: `String.prototype.indexOf`,
 * `String.prototype.replace` with a string pattern, and `toLowerCase`.
 */
module Text {
  import opened Wrappers

  /** `p` occurs in `s` starting at position `i`. */
  predicate OccursAt(s: string, p: string, i: nat)
  {
    i + |p| <= |s| && s[i..i + |p|] == p
  }

  predicate Contains(s: string, p: string)
  {
    exists i: nat :: i <= |s| && OccursAt(s, p, i)
  }

  /** `i` is the leftmost position at which `p` occurs in `s`. */
  predicate IsFirstOccurrence(s: string, p: string, i: nat)
  {
    OccursAt(s, p, i) && forall j: nat :: j < i ==> !OccursAt(s, p, j)
  }

  function IndexFrom(s: string, p: string, k: nat): (r: Option<nat>)
    requires k <= |s|
    requires forall j: nat :: j < k ==> !OccursAt(s, p, j)
    ensures r.Some? ==> IsFirstOccurrence(s, p, r.value)
    ensures r.None? ==> !Contains(s, p)
    decreases |s| - k
  {
    if k + |p| > |s| then None
    else if s[k..k + |p|] == p then Some(k)
    else IndexFrom(s, p, k + 1)
  }

  /** `s.indexOf(p)`: the leftmost occurrence of `p` in `s`, if any. */
  function IndexOf(s: string, p: string): (r: Option<nat>)
    ensures r.Some? ==> IsFirstOccurrence(s, p, r.value)
    ensures r.None? <==> !Contains(s, p)
  {
    IndexFrom(s, p, 0)
  }

  /**
   * `s.replace(p, rep)` with a string pattern `p` (and a replacement free of
   * `$` patterns): only the leftmost occurrence of `p` is replaced.
   */
  function ReplaceFirst(s: string, p: string, rep: string): (r: string)
    ensures !Contains(s, p) ==> r == s
    ensures forall i: nat :: IsFirstOccurrence(s, p, i) ==> r == s[..i] + rep + s[i + |p|..]
  {
    match IndexOf(s, p)
    case None => s
    case Some(i) =>
      assert forall j: nat :: IsFirstOccurrence(s, p, j) ==> j == i;
      s[..i] + rep + s[i + |p|..]
  }

  /** ASCII lower-casing of one character. */
  function LowerChar(c: char): char
  {
    if 'A' <= c <= 'Z' then (c as int - 'A' as int + 'a' as int) as char else c
  }

  /** `s.toLowerCase()` on the ASCII range. */
  function ToLower(s: string): (r: string)
    ensures |r| == |s|
    ensures forall i :: 0 <= i < |s| ==> r[i] == LowerChar(s[i])
  {
    seq(|s|, i requires 0 <= i < |s| => LowerChar(s[i]))
  }

  /** A pattern whose first character the string lacks does not occur in it. */
  lemma AbsentFirstChar(s: string, p: string)
    requires |p| > 0 && p[0] !in s
    ensures !Contains(s, p)
  {
    forall i: nat | i <= |s| ensures !OccursAt(s, p, i) {
      if i + |p| <= |s| {
        assert s[i..i + |p|][0] == s[i];
      }
    }
  }

  /** No character of `p` appears in `q`. */
  predicate SharesNoChar(p: string, q: string)
  {
    forall i :: 0 <= i < |p| ==> p[i] !in q
  }

  /**
   * An occurrence of `p` in `a + rep + b` that lies neither inside `a` nor
   * inside `b` overlaps `rep`, so it cannot exist when `p` shares no character
   * with a non-empty `rep`.
   */
  lemma {:induction false} NotAcrossReplacement(a: string, rep: string, b: string, p: string)
    requires |p| > 0 && |rep| > 0 && SharesNoChar(p, rep)
    requires !Contains(a, p) && !Contains(b, p)
    ensures !Contains(a + rep + b, p)
  {
    var t := a + rep + b;
    forall j: nat | j <= |t| ensures !OccursAt(t, p, j) {
      if j + |p| > |t| {
      } else if j + |p| <= |a| {
        assert t[j..j + |p|] == a[j..j + |p|];
        assert !OccursAt(a, p, j);
      } else if j >= |a| + |rep| {
        var m: nat := j - |a| - |rep|;
        assert t[j..j + |p|] == b[m..m + |p|];
        assert !OccursAt(b, p, m);
      } else {
        // some position of the occurrence falls on the replacement text
        var k := if j >= |a| then j else |a|;
        assert t[j..j + |p|][k - j] == rep[k - |a|];
        assert p[k - j] !in rep;
      }
    }
  }
}
