/**
 * `redact`: scrubbing known secret strings out of every string reachable in a
 * value, with the constant `REDACTED` as the placeholder.
 */
module Redaction {
  import opened Json
  import opened Text

  /** The placeholder written over every masked value. */
  const REDACTED: string := "**hidden**"

  /**
   * The string case of `redact`: `secrets.reduce((safe, secret) =>
   * safe.replace(secret, REDACTED), s)`, a left fold in list order in which
   * each step replaces only the leftmost occurrence of its secret in what the
   * previous steps left.
   */
  function RedactString(s: string, secrets: seq<string>): string
    decreases |secrets|
  {
    if secrets == [] then s else RedactString(ReplaceFirst(s, secrets[0], REDACTED), secrets[1..])
  }

  /**
   * `redact(v, secrets)`: strings are scrubbed, arrays are mapped element by
   * element, plain objects have every entry's value redacted in place, and
   * every other value (Buffers, numbers, booleans, null, undefined) is
   * returned as it is.
   */
  function Redact(v: Value, secrets: seq<string>): (r: Value)
    ensures r.Str? <==> v.Str?
    ensures v.Arr? <==> r.Arr?
    ensures v.Obj? <==> r.Obj?
    ensures v.Arr? ==> |r.items| == |v.items|
    ensures v.Obj? ==> Keys(r.fields) == Keys(v.fields)
    ensures !(v.Str? || v.Arr? || v.Obj?) ==> r == v
  {
    match v
    case Str(s) => Str(RedactString(s, secrets))
    case Arr(xs) => Arr(RedactItems(xs, secrets))
    case Obj(fs) => Obj(RedactFields(fs, secrets))
    case _ => v
  }

  function RedactItems(xs: seq<Value>, secrets: seq<string>): (r: seq<Value>)
    ensures |r| == |xs|
    decreases xs, 0
  {
    seq(|xs|, i requires 0 <= i < |xs| => Redact(xs[i], secrets))
  }

  function RedactFields(fs: seq<Field>, secrets: seq<string>): (r: seq<Field>)
    ensures |r| == |fs|
    ensures forall i :: 0 <= i < |fs| ==> r[i].key == fs[i].key
    ensures Keys(r) == Keys(fs)
    decreases fs, 0
  {
    seq(|fs|, i requires 0 <= i < |fs| => Field(fs[i].key, Redact(fs[i].val, secrets)))
  }

  /** Folding over `a + b` is folding over `a`, then over `b`: the secrets are applied strictly in list order. */
  lemma {:induction false} RedactStringConcat(s: string, a: seq<string>, b: seq<string>)
    ensures RedactString(s, a + b) == RedactString(RedactString(s, a), b)
    decreases |a|
  {
    if a == [] {
      assert a + b == b;
    } else {
      assert (a + b)[1..] == a[1..] + b;
      RedactStringConcat(ReplaceFirst(s, a[0], REDACTED), a[1..], b);
    }
  }

  /** The last secret of the list acts on what all earlier secrets left, replacing its first occurrence there. */
  lemma RedactStringLast(s: string, secrets: seq<string>, p: string)
    ensures RedactString(s, secrets + [p]) == ReplaceFirst(RedactString(s, secrets), p, REDACTED)
  {
    RedactStringConcat(s, secrets, [p]);
  }

  /** None of `secrets` occurs in `s`. */
  predicate FreeOf(s: string, secrets: seq<string>)
  {
    forall i :: 0 <= i < |secrets| ==> !Contains(s, secrets[i])
  }

  /** A string containing none of the secrets comes back unchanged. */
  lemma {:induction false} RedactStringFreeOf(s: string, secrets: seq<string>)
    requires FreeOf(s, secrets)
    ensures RedactString(s, secrets) == s
    decreases |secrets|
  {
    if secrets != [] {
      assert !Contains(s, secrets[0]);
      assert FreeOf(s, secrets[1..]) by {
        forall i | 0 <= i < |secrets[1..]| ensures !Contains(s, secrets[1..][i]) {
          assert secrets[1..][i] == secrets[i + 1];
        }
      }
      RedactStringFreeOf(s, secrets[1..]);
    }
  }

  /** Every string reachable in `v` is free of the secrets. */
  predicate Clean(v: Value, secrets: seq<string>)
  {
    match v
    case Str(s) => FreeOf(s, secrets)
    case Arr(xs) => forall i :: 0 <= i < |xs| ==> Clean(xs[i], secrets)
    case Obj(fs) => forall i :: 0 <= i < |fs| ==> Clean(fs[i].val, secrets)
    case _ => true
  }

  /** Redaction changes nothing in a value in which no secret occurs. */
  lemma {:induction false} RedactClean(v: Value, secrets: seq<string>)
    requires Clean(v, secrets)
    ensures Redact(v, secrets) == v
  {
    match v
    case Str(s) => RedactStringFreeOf(s, secrets);
    case Arr(xs) =>
      forall i | 0 <= i < |xs| ensures RedactItems(xs, secrets)[i] == xs[i] {
        RedactClean(xs[i], secrets);
      }
      assert RedactItems(xs, secrets) == xs;
    case Obj(fs) =>
      forall i | 0 <= i < |fs| ensures RedactFields(fs, secrets)[i] == fs[i] {
        RedactClean(fs[i].val, secrets);
      }
      assert RedactFields(fs, secrets) == fs;
    case _ =>
  }

  /** Reading a property of a redacted object is redacting the property read from the original. */
  lemma {:induction false} GetRedactFields(fs: seq<Field>, secrets: seq<string>, k: string)
    ensures Get(RedactFields(fs, secrets), k) == Redact(Get(fs, k), secrets)
  {
    if fs != [] {
      assert RedactFields(fs, secrets)[1..] == RedactFields(fs[1..], secrets);
      GetRedactFields(fs[1..], secrets, k);
    }
  }

  lemma {:induction false} CleanOfNoSecrets(v: Value)
    ensures Clean(v, [])
  {
    match v
    case Arr(xs) =>
      forall i | 0 <= i < |xs| ensures Clean(xs[i], []) { CleanOfNoSecrets(xs[i]); }
    case Obj(fs) =>
      forall i | 0 <= i < |fs| ensures Clean(fs[i].val, []) { CleanOfNoSecrets(fs[i].val); }
    case _ =>
  }

  /** Redacting with an empty list of secrets changes nothing. */
  lemma RedactNoSecrets(v: Value)
    ensures Redact(v, []) == v
  {
    CleanOfNoSecrets(v);
    RedactClean(v, []);
  }

  /** When no secret occurs in the placeholder, an already masked value stays masked. */
  lemma RedactKeepsPlaceholder(secrets: seq<string>)
    requires FreeOf(REDACTED, secrets)
    ensures Redact(Str(REDACTED), secrets) == Str(REDACTED)
  {
    RedactStringFreeOf(REDACTED, secrets);
  }

  /**
   * Only the first occurrence is replaced: a secret that occurs twice in a
   * string still occurs once in the redacted string.
   */
  lemma SecondOccurrenceSurvives()
    ensures RedactString("ab ab", ["ab"]) == "**hidden** ab"
    ensures Contains(RedactString("ab ab", ["ab"]), "ab")
  {
    var s := "ab ab";
    assert IsFirstOccurrence(s, "ab", 0) by { assert s[0..2] == "ab"; }
    var r := ReplaceFirst(s, "ab", REDACTED);
    assert r == "**hidden** ab";
    assert RedactString(s, ["ab"]) == RedactString(r, []);
    assert OccursAt(r, "ab", 11) by { assert r[11..13] == "ab"; }
  }

  /** An empty secret matches at position 0, so the placeholder is put in front of the string. */
  lemma EmptySecretPrefixes(s: string)
    ensures RedactString(s, [""]) == REDACTED + s
  {
    assert IsFirstOccurrence(s, "", 0) by { assert s[0..0] == ""; }
    assert RedactString(s, [""]) == RedactString(ReplaceFirst(s, "", REDACTED), []);
    assert s[0..] == s;
  }

  /**
   * The placeholder itself is scrubbed when a secret occurs in it: a value
   * already masked as `**hidden**` is rewritten by the secret `hidden`.
   */
  lemma PlaceholderRewritten()
    ensures Redact(Str(REDACTED), ["hidden"]) == Str("****hidden****")
    ensures !FreeOf(REDACTED, ["hidden"])
  {
    var r := REDACTED;
    assert r == ['*', '*', 'h', 'i', 'd', 'd', 'e', 'n', '*', '*'];
    assert r[2..8] == "hidden" by {
      assert |r[2..8]| == 6;
      forall i | 0 <= i < 6 ensures r[2..8][i] == "hidden"[i] { assert r[2..8][i] == r[i + 2]; }
    }
    assert OccursAt(r, "hidden", 2);
    assert !OccursAt(r, "hidden", 0) by { assert r[0..6][0] == r[0] == '*'; }
    assert !OccursAt(r, "hidden", 1) by { assert r[1..7][0] == r[1] == '*'; }
    assert IsFirstOccurrence(r, "hidden", 2);
    assert r[..2] + REDACTED + r[8..] == "****hidden****";
    assert RedactString(r, ["hidden"]) == RedactString(ReplaceFirst(r, "hidden", REDACTED), []);
  }

  /**
   * A secret that occurs exactly once in a string, and has no character in
   * common with the placeholder, is gone after redaction.
   */
  lemma SoleOccurrenceRemoved(s: string, p: string, i: nat)
    requires |p| > 0 && SharesNoChar(p, REDACTED)
    requires OccursAt(s, p, i)
    requires forall j: nat :: j != i ==> !OccursAt(s, p, j)
    ensures !Contains(RedactString(s, [p]), p)
  {
    assert IsFirstOccurrence(s, p, i);
    var a, b := s[..i], s[i + |p|..];
    assert RedactString(s, [p]) == RedactString(a + REDACTED + b, []);
    forall j: nat | j <= |a| ensures !OccursAt(a, p, j) {
      if j + |p| <= |a| {
        assert a[j..j + |p|] == s[j..j + |p|];
        assert j != i && !OccursAt(s, p, j);
      }
    }
    forall m: nat | m <= |b| ensures !OccursAt(b, p, m) {
      if m + |p| <= |b| {
        assert b[m..m + |p|] == s[i + |p| + m..i + |p| + m + |p|];
        assert !OccursAt(s, p, i + |p| + m);
      }
    }
    NotAcrossReplacement(a, REDACTED, b, p);
  }

  /**
   * The code of `redact`: arrays are mapped into a new array, plain objects are
   * overwritten entry by entry in `Object.entries` order.
   */
  method RedactValue(v: Value, secrets: seq<string>) returns (r: Value)
    ensures r == Redact(v, secrets)
    decreases v
  {
    match v {
      case Str(s) =>
        r := Str(RedactString(s, secrets));
      case Arr(xs) =>
        var out: seq<Value> := [];
        for i := 0 to |xs|
          invariant |out| == i
          invariant forall j :: 0 <= j < i ==> out[j] == Redact(xs[j], secrets)
        {
          var x := RedactValue(xs[i], secrets);
          out := out + [x];
        }
        assert out == RedactItems(xs, secrets);
        r := Arr(out);
      case Obj(fs) =>
        var entries := fs;
        for i := 0 to |fs|
          invariant |entries| == |fs|
          invariant forall j :: 0 <= j < i ==> entries[j] == Field(fs[j].key, Redact(fs[j].val, secrets))
          invariant forall j :: i <= j < |fs| ==> entries[j] == fs[j]
        {
          var x := RedactValue(fs[i].val, secrets);
          entries := entries[i := Field(fs[i].key, x)];
        }
        assert entries == RedactFields(fs, secrets);
        r := Obj(entries);
      case _ =>
        r := v;
    }
  }
}
