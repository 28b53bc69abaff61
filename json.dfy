/**
 * JavaScript values as the HTTP Request node sees them: JSON-like data,
 * `undefined`, and Node.js Buffers. A plain object is the ordered list of its
 * own entries, in the order `Object.keys` reports them.
 */
module Json {
  import opened Wrappers

  newtype byte = x: int | 0 <= x < 256

  datatype Value =
    | Undefined
    | Null
    | Bool(b: bool)
    | Num(n: int)
    | Str(s: string)
    | Arr(items: seq<Value>)
    | Obj(fields: seq<Field>)
    | Bytes(data: seq<byte>)   // a Node.js Buffer

  datatype Field = Field(key: string, val: Value)

  /** What the modelled code can throw, or what a caller-supplied callback can reject with. */
  datatype Error =
    | TypeError(message: string)
    | Rejected(reason: string)

  /** The keys of an object, in entry order. */
  function Keys(fs: seq<Field>): (ks: seq<string>)
    ensures |ks| == |fs|
    ensures forall i :: 0 <= i < |fs| ==> ks[i] == fs[i].key
  {
    if fs == [] then [] else [fs[0].key] + Keys(fs[1..])
  }

  /** JavaScript objects never hold two entries with the same key. */
  predicate UniqueKeys(fs: seq<Field>)
  {
    fs == [] || (fs[0].key !in Keys(fs[1..]) && UniqueKeys(fs[1..]))
  }

  /** Property read `o[k]`: the value of the entry with key `k`, `undefined` when there is none. */
  function Get(fs: seq<Field>, k: string): (v: Value)
    ensures k !in Keys(fs) ==> v == Undefined
  {
    if fs == [] then Undefined
    else if fs[0].key == k then fs[0].val
    else Get(fs[1..], k)
  }

  /**
   * Property write `o[k] = v`: an existing entry keeps its position and takes
   * the new value; a new key is appended at the end.
   */
  function Put(fs: seq<Field>, k: string, v: Value): (r: seq<Field>)
    ensures Get(r, k) == v
    ensures forall k' :: k' != k ==> Get(r, k') == Get(fs, k')
  {
    if fs == [] then [Field(k, v)]
    else if fs[0].key == k then [Field(k, v)] + fs[1..]
    else [fs[0]] + Put(fs[1..], k, v)
  }

  /** Writing an existing key keeps the key order; writing a new key appends it. */
  lemma {:induction false} PutKeys(fs: seq<Field>, k: string, v: Value)
    ensures Keys(Put(fs, k, v)) == if k in Keys(fs) then Keys(fs) else Keys(fs) + [k]
    ensures UniqueKeys(fs) ==> UniqueKeys(Put(fs, k, v))
  {
    if fs != [] {
      assert Keys(fs) == [fs[0].key] + Keys(fs[1..]);
      if fs[0].key != k {
        var tail := Put(fs[1..], k, v);
        PutKeys(fs[1..], k, v);
        assert Keys([fs[0]] + tail) == [fs[0].key] + Keys(tail);
      } else {
        assert Keys([Field(k, v)] + fs[1..]) == [k] + Keys(fs[1..]);
      }
    }
  }

  /** The second of two writes to the same key wins. */
  lemma {:induction false} PutPut(fs: seq<Field>, k: string, a: Value, b: Value)
    ensures Put(Put(fs, k, a), k, b) == Put(fs, k, b)
  {
    if fs == [] {
      ConsParts(Field(k, a), []);
    } else if fs[0].key == k {
      ConsParts(Field(k, a), fs[1..]);
    } else {
      ConsParts(fs[0], Put(fs[1..], k, a));
      PutPut(fs[1..], k, a, b);
    }
  }

  lemma ConsParts<T>(x: T, t: seq<T>)
    ensures ([x] + t)[0] == x && ([x] + t)[1..] == t
  {
  }

  /** Moving the head of `s` onto the end of `a`. */
  lemma ShiftHead<T>(a: seq<T>, s: seq<T>)
    requires s != []
    ensures (a + [s[0]]) + s[1..] == a + s
  {
  }

  lemma ConsAppend<T>(s: seq<T>, x: T)
    requires s != []
    ensures [s[0]] + (s[1..] + [x]) == s + [x]
  {
  }

  lemma AppendAssoc<T>(a: seq<T>, x: T, t: seq<T>)
    ensures (a + [x]) + t == a + ([x] + t)
  {
  }

  lemma {:induction false} PutNewKey(fs: seq<Field>, k: string, v: Value)
    requires k !in Keys(fs)
    ensures Put(fs, k, v) == fs + [Field(k, v)]
  {
    if fs != [] {
      assert fs[0].key != k && k !in Keys(fs[1..]);
      PutNewKey(fs[1..], k, v);
      ConsAppend(fs, Field(k, v));
    }
  }

  /** Keys of a concatenation. */
  lemma {:induction false} KeysConcat(a: seq<Field>, b: seq<Field>)
    ensures Keys(a + b) == Keys(a) + Keys(b)
  {
    assert |Keys(a + b)| == |Keys(a) + Keys(b)|;
    forall i | 0 <= i < |a + b| ensures Keys(a + b)[i] == (Keys(a) + Keys(b))[i] {
      if i < |a| { assert (a + b)[i] == a[i]; } else { assert (a + b)[i] == b[i - |a|]; }
    }
  }

  /** Distinct keys at distinct positions give `UniqueKeys`. */
  lemma {:induction false} PairwiseDistinctKeys(fs: seq<Field>)
    requires forall i, j :: 0 <= i < j < |fs| ==> fs[i].key != fs[j].key
    ensures UniqueKeys(fs)
  {
    if fs != [] {
      var tail := fs[1..];
      forall i | 0 <= i < |tail| ensures fs[0].key != Keys(tail)[i] {
        assert tail[i] == fs[i + 1];
      }
      PairwiseDistinctKeys(tail);
    }
  }

  /** The entries whose key is not `k`, in order (what `const { k, ...rest } = o` leaves in `rest`). */
  function Without(fs: seq<Field>, k: string): (r: seq<Field>)
    ensures k !in Keys(r)
    ensures forall k' :: k' != k ==> Get(r, k') == Get(fs, k')
    ensures forall k' :: k' in Keys(r) <==> k' in Keys(fs) && k' != k
    ensures UniqueKeys(fs) ==> UniqueKeys(r)
  {
    if fs == [] then []
    else if fs[0].key == k then Without(fs[1..], k)
    else
      var tail := Without(fs[1..], k);
      assert Keys([fs[0]] + tail) == [fs[0].key] + Keys(tail);
      [fs[0]] + tail
  }

  function DigitChar(d: nat): (c: char)
    requires d < 10
    ensures '0' <= c <= '9' && c as int - '0' as int == d
  {
    (d + '0' as int) as char
  }

  predicate IsDigits(s: string)
  {
    forall i :: 0 <= i < |s| ==> '0' <= s[i] <= '9'
  }

  /** Decimal rendering of a natural number, as JavaScript's `String(n)` and template literals produce it. */
  function NatToString(n: nat): (r: string)
    ensures |r| >= 1 && IsDigits(r)
    ensures r[0] == '0' ==> n == 0 && r == "0"
  {
    if n < 10 then [DigitChar(n)] else NatToString(n / 10) + [DigitChar(n % 10)]
  }

  /** The number a string of decimal digits denotes. */
  function DecimalValue(s: string): nat
    requires IsDigits(s)
  {
    if s == [] then 0 else 10 * DecimalValue(s[..|s| - 1]) + (s[|s| - 1] as int - '0' as int)
  }

  lemma {:induction false} DecimalValueOfNatToString(n: nat)
    ensures DecimalValue(NatToString(n)) == n
  {
    var r := NatToString(n);
    if n >= 10 {
      DecimalValueOfNatToString(n / 10);
      assert r[..|r| - 1] == NatToString(n / 10);
    }
  }

  lemma NatToStringInjective(m: nat, n: nat)
    requires m != n
    ensures NatToString(m) != NatToString(n)
  {
    DecimalValueOfNatToString(m);
    DecimalValueOfNatToString(n);
  }

  /** Largest integer a JavaScript number represents exactly (`Number.MAX_SAFE_INTEGER`). */
  const MAX_SAFE_INTEGER: nat := 9007199254740991

  /**
   * Lodash's `isIndex` on a string: a canonical decimal (`0` or no leading zero)
   * below `Number.MAX_SAFE_INTEGER`.
   */
  predicate IsIndex(k: string)
  {
    |k| >= 1 && IsDigits(k) && (k[0] == '0' ==> k == "0") && DecimalValue(k) < MAX_SAFE_INTEGER
  }

  /** The key `Object.keys` reports for position `i` of a string, array or Buffer. */
  function IndexKey(i: nat): string
  {
    NatToString(i)
  }

  /**
   * `Object.entries(v)`, i.e. `Object.keys(v)` paired with `v[key]`: its own
   * entries for an object; index keys for a string (one character each), an
   * array or a Buffer (one byte each, as a number); nothing for a boolean or a
   * number; a TypeError for `undefined` and `null`.
   */
  function OwnEntries(v: Value): (r: Result<seq<Field>, Error>)
    ensures r.Err? <==> v.Undefined? || v.Null?
    ensures v.Obj? ==> r == Ok(v.fields)
    ensures v.Bool? || v.Num? ==> r == Ok([])
  {
    match v
    case Undefined => Err(TypeError("Cannot convert undefined or null to object"))
    case Null => Err(TypeError("Cannot convert undefined or null to object"))
    case Bool(_) => Ok([])
    case Num(_) => Ok([])
    case Str(s) => Ok(seq(|s|, i requires 0 <= i < |s| => Field(IndexKey(i), Str([s[i]]))))
    case Arr(xs) => Ok(seq(|xs|, i requires 0 <= i < |xs| => Field(IndexKey(i), xs[i])))
    case Obj(fs) => Ok(fs)
    case Bytes(d) => Ok(seq(|d|, i requires 0 <= i < |d| => Field(IndexKey(i), Num(d[i] as int))))
  }

  /** A string, an array and a Buffer have one entry per position, keyed by the position's index. */
  lemma OwnEntriesIndexed(v: Value)
    ensures v.Str? ==> OwnEntries(v).Ok? && |OwnEntries(v).value| == |v.s| &&
                       forall i :: 0 <= i < |v.s| ==> OwnEntries(v).value[i] == Field(IndexKey(i), Str([v.s[i]]))
    ensures v.Arr? ==> OwnEntries(v).Ok? && |OwnEntries(v).value| == |v.items| &&
                       forall i :: 0 <= i < |v.items| ==> OwnEntries(v).value[i] == Field(IndexKey(i), v.items[i])
    ensures v.Bytes? ==> OwnEntries(v).Ok? && |OwnEntries(v).value| == |v.data| &&
                         forall i :: 0 <= i < |v.data| ==> OwnEntries(v).value[i] == Field(IndexKey(i), Num(v.data[i] as int))
  {
  }

  /** The entries `Object.entries` gives a value have distinct keys when the value's own object keys are distinct. */
  lemma OwnEntriesUnique(v: Value)
    requires v.Obj? ==> UniqueKeys(v.fields)
    requires OwnEntries(v).Ok?
    ensures UniqueKeys(OwnEntries(v).value)
  {
    var es := OwnEntries(v).value;
    OwnEntriesIndexed(v);
    if !v.Obj? {
      forall i, j | 0 <= i < j < |es| ensures es[i].key != es[j].key {
        NatToStringInjective(i, j);
      }
      PairwiseDistinctKeys(es);
    }
  }
}
