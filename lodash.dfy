/**
 * Lodash `set(object, path, value)` and `get(object, path)` on an already
 * split path, as the JSON body builder uses them.
 */
module Lodash {
  import opened Json

  /** Keys at which `set` stops without writing. */
  const FORBIDDEN_KEYS: set<string> := {"__proto__", "constructor", "prototype"}

  /** Array indices run below 2^32 - 1; larger canonical numeric keys name ordinary properties. */
  const MAX_ARRAY_LENGTH: nat := 4294967295

  /** Lodash `isObject`: arrays, plain objects and Buffers (everything here that is not a primitive). */
  predicate IsObjectLike(v: Value)
  {
    v.Arr? || v.Obj? || v.Bytes?
  }

  /** A key that addresses an element of a JavaScript array. */
  predicate IsArrayIndex(k: string)
  {
    IsIndex(k) && DecimalValue(k) < MAX_ARRAY_LENGTH
  }

  /** `v[k]`: an object's own property, an array's element or a Buffer's byte; `undefined` otherwise. */
  function Read(v: Value, k: string): Value
  {
    match v
    case Obj(fs) => Get(fs, k)
    case Arr(xs) => if IsArrayIndex(k) && DecimalValue(k) < |xs| then xs[DecimalValue(k)] else Undefined
    case Bytes(d) => if IsArrayIndex(k) && DecimalValue(k) < |d| then Num(d[DecimalValue(k)] as int) else Undefined
    case _ => Undefined
  }

  /** The values the model can write `v[k] = x` into: objects, and arrays at an array index. */
  predicate Writable(v: Value, k: string)
  {
    v.Obj? || (v.Arr? && IsArrayIndex(k))
  }

  /** `n` holes, as reading them gives `undefined`. */
  function Holes(n: nat): (r: seq<Value>)
    ensures |r| == n && forall i :: 0 <= i < n ==> r[i] == Undefined
  {
    seq(n, _ => Undefined)
  }

  /**
   * `v[k] = x`: an object takes or replaces the entry; an array at an index
   * past its end grows, the gap reading as `undefined`. Other writes leave
   * the modelled value as it is.
   */
  function Assign(v: Value, k: string, x: Value): (r: Value)
    ensures r.Obj? <==> v.Obj?
    ensures r.Arr? <==> v.Arr?
    ensures !Writable(v, k) ==> r == v
  {
    match v
    case Obj(fs) => Obj(Put(fs, k, x))
    case Arr(xs) =>
      if IsArrayIndex(k) then
        var n := DecimalValue(k);
        if n < |xs| then Arr(xs[n := x]) else Arr(xs + Holes(n - |xs|) + [x])
      else v
    case _ => v
  }

  /**
   * `baseSet`'s walk from `nested` along `path`: a forbidden key stops it; on
   * the way, a value that is not object-like is replaced by `[]` when the
   * next key is an index and by `{}` otherwise; the last key takes `x`.
   */
  function SetIn(nested: Value, path: seq<string>, x: Value): Value
    decreases |path|
  {
    if path == [] || path[0] in FORBIDDEN_KEYS then nested
    else if |path| == 1 then Assign(nested, path[0], x)
    else
      var child := Child(nested, path[0], path[1]);
      Assign(nested, path[0], SetIn(child, path[1..], x))
  }

  /** The container `set` walks into below `nested[key]`. */
  function Child(nested: Value, key: string, next: string): Value
  {
    var objValue := Read(nested, key);
    if IsObjectLike(objValue) then objValue else if IsIndex(next) then Arr([]) else Obj([])
  }

  /** `set(target, path, x)`: a value that is not object-like comes back as it is. */
  function SetPath(target: Value, path: seq<string>, x: Value): Value
  {
    if IsObjectLike(target) then SetIn(target, path, x) else target
  }

  /** `get(object, path)`: reads key after key; an empty path gives the object itself. */
  function ReadPath(v: Value, path: seq<string>): Value
    decreases |path|
  {
    if path == [] then v else ReadPath(Read(v, path[0]), path[1..])
  }

  // ------------------------------------------------------------ properties

  /** Reading the key just written gives what was written. */
  lemma ReadAssign(v: Value, k: string, x: Value)
    requires Writable(v, k)
    ensures Read(Assign(v, k, x), k) == x
  {
  }

  /** Of two writes to the same key, the second wins. */
  lemma AssignAssign(v: Value, k: string, a: Value, b: Value)
    ensures Assign(Assign(v, k, a), k, b) == Assign(v, k, b)
  {
    match v
    case Obj(fs) => PutPut(fs, k, a, b);
    case Arr(xs) =>
      if IsArrayIndex(k) {
        var n := DecimalValue(k);
        if n >= |xs| {
          var grown := xs + Holes(n - |xs|);
          assert (grown + [a])[n := b] == grown + [b];
        }
      }
    case _ =>
  }

  /** The walk keeps the shape of the value it starts from. */
  lemma SetInShape(v: Value, path: seq<string>, x: Value)
    ensures SetIn(v, path, x).Obj? <==> v.Obj?
    ensures IsObjectLike(v) ==> IsObjectLike(SetIn(v, path, x))
    ensures !Writable(v, if path == [] then "" else path[0]) ==> SetIn(v, path, x) == v
  {
  }

  /** Setting the same path twice: the later value wins (last write wins). */
  lemma {:induction false} SetInOverwrite(v: Value, path: seq<string>, a: Value, b: Value)
    ensures SetIn(SetIn(v, path, a), path, b) == SetIn(v, path, b)
    decreases |path|
  {
    if path != [] && path[0] !in FORBIDDEN_KEYS {
      var k := path[0];
      if |path| == 1 {
        AssignAssign(v, k, a, b);
      } else if Writable(v, k) {
        var c := Child(v, k, path[1]);
        var inner := SetIn(c, path[1..], a);
        var v1 := Assign(v, k, inner);
        assert SetIn(v, path, a) == v1;
        ReadAssign(v, k, inner);
        SetInShape(c, path[1..], a);
        assert Child(v1, k, path[1]) == inner;
        SetInOverwrite(c, path[1..], a, b);
        AssignAssign(v, k, inner, SetIn(c, path[1..], b));
      }
    }
  }

  /** `set` on a path: a later `set` of the same path wins. */
  lemma SetPathOverwrite(v: Value, path: seq<string>, a: Value, b: Value)
    ensures SetPath(SetPath(v, path, a), path, b) == SetPath(v, path, b)
  {
    SetInShape(v, path, a);
    SetInOverwrite(v, path, a, b);
  }

  /** The walk from an object adds at most the path's first key to it and changes no other key. */
  lemma SetInObject(fs: seq<Field>, path: seq<string>, x: Value)
    ensures SetIn(Obj(fs), path, x).Obj?
    ensures path == [] || path[0] in FORBIDDEN_KEYS ==> SetIn(Obj(fs), path, x) == Obj(fs)
    ensures path != [] && path[0] !in FORBIDDEN_KEYS ==>
              Keys(SetIn(Obj(fs), path, x).fields) ==
              if path[0] in Keys(fs) then Keys(fs) else Keys(fs) + [path[0]]
    ensures path != [] ==> forall k :: k != path[0] ==> Get(SetIn(Obj(fs), path, x).fields, k) == Get(fs, k)
  {
    if path != [] && path[0] !in FORBIDDEN_KEYS {
      var w := if |path| == 1 then x else SetIn(Child(Obj(fs), path[0], path[1]), path[1..], x);
      assert SetIn(Obj(fs), path, x) == Obj(Put(fs, path[0], w));
      PutKeys(fs, path[0], w);
    }
  }

  /** No array and no Buffer lies along the path. */
  predicate NoArrayAlong(v: Value, path: seq<string>)
    decreases |path|
  {
    path == [] || (!Read(v, path[0]).Arr? && !Read(v, path[0]).Bytes? && NoArrayAlong(Read(v, path[0]), path[1..]))
  }

  lemma {:induction false} NoArrayAlongEmpty(path: seq<string>)
    ensures NoArrayAlong(Obj([]), path)
    ensures NoArrayAlong(Undefined, path)
    decreases |path|
  {
    if path != [] {
      NoArrayAlongEmpty(path[1..]);
    }
  }

  /**
   * Read after write: `get` of the path just set gives the value set, when no
   * key is forbidden, no key after the first is an index and no array or
   * Buffer lies along the path (so every level is an object).
   */
  lemma {:induction false} ReadPathSetIn(v: Value, path: seq<string>, x: Value)
    requires v.Obj? && path != []
    requires forall i :: 0 <= i < |path| ==> path[i] !in FORBIDDEN_KEYS
    requires forall i :: 1 <= i < |path| ==> !IsIndex(path[i])
    requires NoArrayAlong(v, path)
    ensures ReadPath(SetIn(v, path, x), path) == x
    decreases |path|
  {
    var k := path[0];
    if |path| == 1 {
      ReadAssign(v, k, x);
    } else {
      var c := Child(v, k, path[1]);
      var tail := path[1..];
      assert c.Obj? by {
        if !IsObjectLike(Read(v, k)) {
          assert !IsIndex(path[1]);
        }
      }
      assert NoArrayAlong(c, tail) by {
        if !IsObjectLike(Read(v, k)) {
          NoArrayAlongEmpty(tail);
        }
      }
      forall i | 0 <= i < |tail| ensures tail[i] !in FORBIDDEN_KEYS {
        assert tail[i] == path[i + 1];
      }
      forall i | 1 <= i < |tail| ensures !IsIndex(tail[i]) {
        assert tail[i] == path[i + 1];
      }
      ReadPathSetIn(c, tail, x);
      ReadAssign(v, k, SetIn(c, tail, x));
    }
  }

  /** A path through a forbidden key leaves the levels below that key untouched. */
  lemma ForbiddenKeyStops(v: Value, path: seq<string>, x: Value)
    requires path != [] && path[0] in FORBIDDEN_KEYS
    ensures SetPath(v, path, x) == v
  {
  }
}
