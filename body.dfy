/**
 * `reduceAsync` and `prepareRequestBody`: the body of a request built from an
 * ordered list of body parameters, as a JSON object (`json`, from version 4),
 * as a multipart form (`multipart-form-data`, from version 4.2) or by the
 * caller's reducer (every other case).
 */
module BodyBuilder {
  import opened Wrappers
  import opened Json
  import opened Lodash

  datatype ParameterType = Unspecified | FormData | FormBinaryData

  /** One body parameter of the node: `{ name, value, parameterType? }`. */
  datatype BodyParameter = BodyParameter(name: string, value: string, parameterType: ParameterType)

  /** One `formData.append(name, value, options)`; a plain field has no options. */
  datatype FormPart = FormPart(name: string, value: Value, options: Value)

  /** What `prepareRequestBody` resolves to: an object, or a form. */
  datatype Body = ObjectBody(value: Value) | FormBody(parts: seq<FormPart>)

  // ------------------------------------------------------------ reduceAsync

  /**
   * `reduceAsync(arr, reducer, init)`: the reducer is awaited on each item in
   * turn; once a promise rejects, every later step rejects with the same
   * reason and the reducer is not called again.
   */
  function ReduceAsync<T, R>(arr: seq<T>, reducer: (R, T) -> Result<R, Error>, init: Result<R, Error>): Result<R, Error>
    decreases |arr|
  {
    if arr == [] || init.Err? then init
    else ReduceAsync(arr[1..], reducer, reducer(init.value, arr[0]))
  }

  /** The reference left fold of a reducer that cannot fail, taken from the last item backwards. */
  function FoldLeft<T, R>(arr: seq<T>, f: (R, T) -> R, init: R): R
    decreases |arr|
  {
    if arr == [] then init else f(FoldLeft(arr[..|arr| - 1], f, init), arr[|arr| - 1])
  }

  /** Folding over two runs of items is folding over the second from where the first ended. */
  lemma {:induction false} ReduceAsyncConcat<T, R>(a: seq<T>, b: seq<T>, reducer: (R, T) -> Result<R, Error>, init: Result<R, Error>)
    ensures ReduceAsync(a + b, reducer, init) == ReduceAsync(b, reducer, ReduceAsync(a, reducer, init))
    decreases |a|
  {
    if a == [] {
      assert a + b == b;
    } else if init.Err? {
      ReduceAsyncRejected(b, reducer, init);
      ReduceAsyncRejected(a + b, reducer, init);
    } else {
      assert (a + b)[0] == a[0] && (a + b)[1..] == a[1..] + b;
      ReduceAsyncConcat(a[1..], b, reducer, reducer(init.value, a[0]));
    }
  }

  /** A rejected start rejects the whole fold with the same reason. */
  lemma {:induction false} ReduceAsyncRejected<T, R>(arr: seq<T>, reducer: (R, T) -> Result<R, Error>, init: Result<R, Error>)
    requires init.Err?
    ensures ReduceAsync(arr, reducer, init) == init
  {
  }

  /** The last item is reduced into what the items before it gave. */
  lemma ReduceAsyncSnoc<T, R>(arr: seq<T>, x: T, reducer: (R, T) -> Result<R, Error>, init: Result<R, Error>)
    ensures ReduceAsync(arr + [x], reducer, init) ==
            match ReduceAsync(arr, reducer, init)
            case Err(e) => Err(e)
            case Ok(acc) => reducer(acc, x)
  {
    ReduceAsyncConcat(arr, [x], reducer, init);
  }

  /** With a reducer that never rejects, `reduceAsync` is the left fold of the reducer, in order. */
  lemma {:induction false} ReduceAsyncIsFoldLeft<T, R>(arr: seq<T>, f: (R, T) -> R, init: R)
    ensures ReduceAsync(arr, (acc: R, item: T) => Ok(f(acc, item)), Ok(init)) == Ok(FoldLeft(arr, f, init))
    decreases |arr|
  {
    if arr != [] {
      var front := arr[..|arr| - 1];
      assert arr == front + [arr[|arr| - 1]];
      ReduceAsyncIsFoldLeft(front, f, init);
      ReduceAsyncSnoc(front, arr[|arr| - 1], (acc: R, item: T) => Ok(f(acc, item)), Ok(init));
    }
  }

  /** The first rejection decides the result: the reason of the first item whose step rejects. */
  lemma ReduceAsyncFirstFailure<T, R>(arr: seq<T>, reducer: (R, T) -> Result<R, Error>, init: Result<R, Error>, i: nat, acc: R)
    requires i < |arr|
    requires ReduceAsync(arr[..i], reducer, init) == Ok(acc)
    requires reducer(acc, arr[i]).Err?
    ensures ReduceAsync(arr, reducer, init) == reducer(acc, arr[i])
  {
    assert arr == arr[..i] + ([arr[i]] + arr[i + 1..]);
    ReduceAsyncConcat(arr[..i], [arr[i]] + arr[i + 1..], reducer, init);
    assert ([arr[i]] + arr[i + 1..])[0] == arr[i] && ([arr[i]] + arr[i + 1..])[1..] == arr[i + 1..];
    ReduceAsyncRejected(arr[i + 1..], reducer, reducer(acc, arr[i]));
  }

  // ------------------------------------------------------------ json branch

  /**
   * Lodash `castPath(name, result)`: a name that is already a key of the
   * object is used whole; any other name is split by `toPath` (lodash's own
   * parsing of dots and brackets, which this model takes as given).
   */
  function CastPath(result: Value, name: string, toPath: string -> seq<string>): seq<string>
  {
    if result.Obj? && name in Keys(result.fields) then [name] else toPath(name)
  }

  /** `set(result, entry.name, entry.value)`. */
  function SetEntry(result: Value, entry: BodyParameter, toPath: string -> seq<string>): Value
  {
    SetPath(result, CastPath(result, entry.name, toPath), Str(entry.value))
  }

  /** The `parameters.reduce` of the json branch, from `acc`. */
  function JsonBody(acc: Value, parameters: seq<BodyParameter>, toPath: string -> seq<string>): Value
    decreases |parameters|
  {
    if parameters == [] then acc else JsonBody(SetEntry(acc, parameters[0], toPath), parameters[1..], toPath)
  }

  /** Lodash's splitting never gives a first key equal to the whole name unless it gives the name alone. */
  predicate SplitsCleanly(toPath: string -> seq<string>, name: string)
  {
    toPath(name) == [name] || toPath(name) == [] || toPath(name)[0] != name
  }

  /** The json fold over two runs of parameters is the fold over the second from where the first ended. */
  lemma {:induction false} JsonBodyConcat(acc: Value, a: seq<BodyParameter>, b: seq<BodyParameter>, toPath: string -> seq<string>)
    ensures JsonBody(acc, a + b, toPath) == JsonBody(JsonBody(acc, a, toPath), b, toPath)
    decreases |a|
  {
    if a == [] {
      assert a + b == b;
    } else {
      assert (a + b)[0] == a[0] && (a + b)[1..] == a[1..] + b;
      JsonBodyConcat(SetEntry(acc, a[0], toPath), a[1..], b, toPath);
    }
  }

  /** Setting entries into an object gives an object. */
  lemma {:induction false} JsonBodyObject(acc: Value, parameters: seq<BodyParameter>, toPath: string -> seq<string>)
    requires acc.Obj?
    ensures JsonBody(acc, parameters, toPath).Obj?
    decreases |parameters|
  {
    if parameters != [] {
      var path := CastPath(acc, parameters[0].name, toPath);
      SetInObject(acc.fields, path, Str(parameters[0].value));
      JsonBodyObject(SetEntry(acc, parameters[0], toPath), parameters[1..], toPath);
    }
  }

  /** Setting a name twice in a row: the path is the same both times, so the second value wins. */
  lemma SetEntryOverwrite(result: Value, first: BodyParameter, second: BodyParameter, toPath: string -> seq<string>)
    requires result.Obj?
    requires first.name == second.name && SplitsCleanly(toPath, first.name)
    ensures SetEntry(SetEntry(result, first, toPath), second, toPath) == SetEntry(result, second, toPath)
  {
    var name := first.name;
    var path := CastPath(result, name, toPath);
    var r1 := SetEntry(result, first, toPath);
    SetInObject(result.fields, path, Str(first.value));
    assert CastPath(r1, name, toPath) == path;
    SetPathOverwrite(result, path, Str(first.value), Str(second.value));
  }

  /** In the json branch a later parameter with the same name overwrites an earlier one. */
  lemma JsonBodyLastWriteWins(parameters: seq<BodyParameter>, first: BodyParameter, second: BodyParameter, toPath: string -> seq<string>)
    requires first.name == second.name && SplitsCleanly(toPath, first.name)
    ensures JsonBody(Obj([]), parameters + [first, second], toPath) == JsonBody(Obj([]), parameters + [second], toPath)
  {
    var before := JsonBody(Obj([]), parameters, toPath);
    JsonBodyConcat(Obj([]), parameters, [first, second], toPath);
    JsonBodyConcat(Obj([]), parameters, [second], toPath);
    JsonBodyObject(Obj([]), parameters, toPath);
    SetEntryOverwrite(before, first, second, toPath);
    assert [first, second][1..] == [second];
  }

  /**
   * In the json branch, a parameter whose name splits into keys that are
   * neither forbidden nor (after the first) indices can be read back at its
   * path, when it is the first parameter.
   */
  lemma JsonBodyReadBack(entry: BodyParameter, toPath: string -> seq<string>)
    requires toPath(entry.name) != []
    requires forall i :: 0 <= i < |toPath(entry.name)| ==> toPath(entry.name)[i] !in FORBIDDEN_KEYS
    requires forall i :: 1 <= i < |toPath(entry.name)| ==> !IsIndex(toPath(entry.name)[i])
    ensures ReadPath(JsonBody(Obj([]), [entry], toPath), toPath(entry.name)) == Str(entry.value)
  {
    NoArrayAlongEmpty(toPath(entry.name));
    ReadPathSetIn(Obj([]), toPath(entry.name), Str(entry.value));
  }

  /** A later parameter at another top-level key leaves the earlier key's value alone. */
  lemma SetEntryFrame(result: Value, entry: BodyParameter, toPath: string -> seq<string>, k: string)
    requires result.Obj?
    requires CastPath(result, entry.name, toPath) != [] && k != CastPath(result, entry.name, toPath)[0]
    ensures SetEntry(result, entry, toPath).Obj?
    ensures Get(SetEntry(result, entry, toPath).fields, k) == Get(result.fields, k)
  {
    SetInObject(result.fields, CastPath(result, entry.name, toPath), Str(entry.value));
  }

  // ------------------------------------------------------------ multipart branch

  /** `data.value` (or `data.options`) of a value that is not `undefined` or `null`. */
  function Prop(data: Value, key: string): Value
  {
    if data.Obj? then Get(data.fields, key) else Undefined
  }

  const READ_OF_UNDEFINED: string := "Cannot read properties of undefined"
  const READ_OF_NULL: string := "Cannot read properties of null"

  /**
   * The field appended for a binary parameter, from the reducer's `entry`:
   * the first key of `Object.keys(entry)`, with `entry[key].value` and
   * `entry[key].options`. An entry without keys, or a `null`/`undefined`
   * `entry[key]`, makes the property read throw.
   */
  function BinaryPart(entry: Value): Result<FormPart, Error>
  {
    match OwnEntries(entry)
    case Err(e) => Err(e)
    case Ok(es) =>
      if es == [] then Err(TypeError(READ_OF_UNDEFINED))
      else
        var data := es[0].val;
        if data == Undefined then Err(TypeError(READ_OF_UNDEFINED))
        else if data == Null then Err(TypeError(READ_OF_NULL))
        else Ok(FormPart(es[0].key, Prop(data, "value"), Prop(data, "options")))
  }

  /** The field one parameter appends; only a binary parameter calls the reducer, with `{}`. */
  function PartOf(parameter: BodyParameter, reducer: (Value, BodyParameter) -> Result<Value, Error>): Result<FormPart, Error>
  {
    if parameter.parameterType == FormBinaryData then
      match reducer(Obj([]), parameter)
      case Err(e) => Err(e)
      case Ok(entry) => BinaryPart(entry)
    else Ok(FormPart(parameter.name, Str(parameter.value), Undefined))
  }

  /** The loop of the multipart branch, appending to the fields `acc` already holds. */
  function FormParts(acc: seq<FormPart>, parameters: seq<BodyParameter>,
                     reducer: (Value, BodyParameter) -> Result<Value, Error>): Result<seq<FormPart>, Error>
    decreases |parameters|
  {
    if parameters == [] then Ok(acc)
    else
      match PartOf(parameters[0], reducer)
      case Err(e) => Err(e)
      case Ok(part) => FormParts(acc + [part], parameters[1..], reducer)
  }

  /**
   * A completed form holds one field per parameter, in parameter order, each
   * the field that parameter appends.
   */
  lemma {:induction false} FormPartsInOrder(acc: seq<FormPart>, parameters: seq<BodyParameter>,
                                            reducer: (Value, BodyParameter) -> Result<Value, Error>)
    requires FormParts(acc, parameters, reducer).Ok?
    ensures var parts := FormParts(acc, parameters, reducer).value;
            |parts| == |acc| + |parameters| && parts[..|acc|] == acc &&
            forall i :: 0 <= i < |parameters| ==> PartOf(parameters[i], reducer) == Ok(parts[|acc| + i])
    decreases |parameters|
  {
    if parameters != [] {
      var part := PartOf(parameters[0], reducer).value;
      var tail := parameters[1..];
      FormPartsInOrder(acc + [part], tail, reducer);
      var parts := FormParts(acc, parameters, reducer).value;
      assert parts[..|acc|] == (parts[..|acc| + 1])[..|acc|];
      forall i | 0 <= i < |parameters| ensures PartOf(parameters[i], reducer) == Ok(parts[|acc| + i]) {
        if i == 0 {
          assert parts[..|acc| + 1][|acc|] == part;
        } else {
          assert tail[i - 1] == parameters[i];
        }
      }
    }
  }

  /** The form fails exactly when some parameter's field fails. */
  lemma {:induction false} FormPartsFails(acc: seq<FormPart>, parameters: seq<BodyParameter>,
                                          reducer: (Value, BodyParameter) -> Result<Value, Error>)
    ensures FormParts(acc, parameters, reducer).Err? <==>
            exists i :: 0 <= i < |parameters| && PartOf(parameters[i], reducer).Err?
    decreases |parameters|
  {
    if parameters != [] {
      var tail := parameters[1..];
      if PartOf(parameters[0], reducer).Ok? {
        FormPartsFails(acc + [PartOf(parameters[0], reducer).value], tail, reducer);
        if exists i :: 0 <= i < |parameters| && PartOf(parameters[i], reducer).Err? {
          var i :| 0 <= i < |parameters| && PartOf(parameters[i], reducer).Err?;
          assert tail[i - 1] == parameters[i];
        }
        if exists i :: 0 <= i < |tail| && PartOf(tail[i], reducer).Err? {
          var i :| 0 <= i < |tail| && PartOf(tail[i], reducer).Err?;
          assert tail[i] == parameters[i + 1];
        }
      }
    }
  }

  /** Plain fields only: the reducer is never called, so any two reducers give the same form. */
  lemma {:induction false} PlainFormIgnoresReducer(acc: seq<FormPart>, parameters: seq<BodyParameter>,
                                                   r1: (Value, BodyParameter) -> Result<Value, Error>,
                                                   r2: (Value, BodyParameter) -> Result<Value, Error>)
    requires forall i :: 0 <= i < |parameters| ==> parameters[i].parameterType != FormBinaryData
    ensures FormParts(acc, parameters, r1) == FormParts(acc, parameters, r2)
    ensures FormParts(acc, parameters, r1).Ok?
    decreases |parameters|
  {
    if parameters != [] {
      var tail := parameters[1..];
      forall i | 0 <= i < |tail| ensures tail[i].parameterType != FormBinaryData {
        assert tail[i] == parameters[i + 1];
      }
      PlainFormIgnoresReducer(acc + [PartOf(parameters[0], r1).value], tail, r1, r2);
    }
  }

  /** A binary field is appended under the first key of the reducer's result, with that entry's `value` and `options`. */
  lemma BinaryPartOfObject(fs: seq<Field>, data: seq<Field>)
    requires fs != [] && fs[0].val == Obj(data)
    ensures BinaryPart(Obj(fs)) == Ok(FormPart(fs[0].key, Get(data, "value"), Get(data, "options")))
  {
  }

  /** A reducer result without keys cannot be appended: the read of `.value` throws. */
  lemma BinaryPartOfEmpty()
    ensures BinaryPart(Obj([])).Err?
  {
  }

  // ------------------------------------------------------------ prepareRequestBody

  const JSON_TYPE: string := "json"
  const MULTIPART_TYPE: string := "multipart-form-data"

  /** What `prepareRequestBody(parameters, bodyType, version, defaultReducer)` resolves to or rejects with. */
  function RequestBody(parameters: seq<BodyParameter>, bodyType: string, version: real,
                       defaultReducer: (Value, BodyParameter) -> Result<Value, Error>,
                       toPath: string -> seq<string>): Result<Body, Error>
  {
    if bodyType == JSON_TYPE && version >= 4.0 then
      Ok(ObjectBody(JsonBody(Obj([]), parameters, toPath)))
    else if bodyType == MULTIPART_TYPE && version >= 4.2 then
      match FormParts([], parameters, defaultReducer)
      case Err(e) => Err(e)
      case Ok(parts) => Ok(FormBody(parts))
    else
      match ReduceAsync(parameters, defaultReducer, Ok(Obj([])))
      case Err(e) => Err(e)
      case Ok(v) => Ok(ObjectBody(v))
  }

  /** `prepareRequestBody`, with its loops. */
  method PrepareRequestBody(parameters: seq<BodyParameter>, bodyType: string, version: real,
                            defaultReducer: (Value, BodyParameter) -> Result<Value, Error>,
                            toPath: string -> seq<string>) returns (r: Result<Body, Error>)
    ensures r == RequestBody(parameters, bodyType, version, defaultReducer, toPath)
  {
    if bodyType == JSON_TYPE && version >= 4.0 {
      var result := Obj([]);
      for i := 0 to |parameters|
        invariant JsonBody(result, parameters[i..], toPath) == JsonBody(Obj([]), parameters, toPath)
      {
        assert parameters[i..][1..] == parameters[i + 1..];
        result := SetEntry(result, parameters[i], toPath);
      }
      assert parameters[|parameters|..] == [];
      return Ok(ObjectBody(result));
    } else if bodyType == MULTIPART_TYPE && version >= 4.2 {
      var formData: seq<FormPart> := [];
      for i := 0 to |parameters|
        invariant FormParts(formData, parameters[i..], defaultReducer) == FormParts([], parameters, defaultReducer)
      {
        var parameter := parameters[i];
        assert parameters[i..][0] == parameter && parameters[i..][1..] == parameters[i + 1..];
        if parameter.parameterType == FormBinaryData {
          var entry := defaultReducer(Obj([]), parameter);
          if entry.Err? {
            return Err(entry.error);
          }
          var part := BinaryPart(entry.value);
          if part.Err? {
            return Err(part.error);
          }
          formData := formData + [part.value];
        } else {
          formData := formData + [FormPart(parameter.name, Str(parameter.value), Undefined)];
        }
      }
      assert parameters[|parameters|..] == [];
      return Ok(FormBody(formData));
    } else {
      var reduced := ReduceAsync(parameters, defaultReducer, Ok(Obj([])));
      if reduced.Err? {
        return Err(reduced.error);
      }
      return Ok(ObjectBody(reduced.value));
    }
  }

  // ------------------------------------------------------------ strategy choice

  /** The json branch never calls the reducer and never rejects. */
  lemma JsonIgnoresReducer(parameters: seq<BodyParameter>, version: real,
                           r1: (Value, BodyParameter) -> Result<Value, Error>,
                           r2: (Value, BodyParameter) -> Result<Value, Error>,
                           toPath: string -> seq<string>)
    requires version >= 4.0
    ensures RequestBody(parameters, JSON_TYPE, version, r1, toPath) == RequestBody(parameters, JSON_TYPE, version, r2, toPath)
    ensures RequestBody(parameters, JSON_TYPE, version, r1, toPath).Ok?
  {
  }

  /** Below its version gate, each special body type falls back to the reducer's fold. */
  lemma BelowGateUsesReducer(parameters: seq<BodyParameter>, bodyType: string, version: real,
                             reducer: (Value, BodyParameter) -> Result<Value, Error>,
                             toPath: string -> seq<string>)
    requires (bodyType == JSON_TYPE && version < 4.0) || (bodyType == MULTIPART_TYPE && version < 4.2) ||
             (bodyType != JSON_TYPE && bodyType != MULTIPART_TYPE)
    ensures RequestBody(parameters, bodyType, version, reducer, toPath) ==
            match ReduceAsync(parameters, reducer, Ok(Obj([])))
            case Err(e) => Err(e)
            case Ok(v) => Ok(ObjectBody(v))
  {
  }

  /** Version 4.1 with a multipart body sits below the 4.2 gate; version 4 with json is at its gate. */
  lemma GateBoundaries(parameters: seq<BodyParameter>, reducer: (Value, BodyParameter) -> Result<Value, Error>,
                       toPath: string -> seq<string>)
    ensures RequestBody(parameters, MULTIPART_TYPE, 4.1, reducer, toPath) ==
            RequestBody(parameters, "form-urlencoded", 4.1, reducer, toPath)
    ensures RequestBody(parameters, JSON_TYPE, 4.0, reducer, toPath) == Ok(ObjectBody(JsonBody(Obj([]), parameters, toPath)))
  {
  }

  /**
   * The multipart branch yields one field per parameter in parameter order:
   * a plain parameter as its name and value, a binary one as the reducer made it.
   */
  lemma MultipartFields(parameters: seq<BodyParameter>, version: real,
                        reducer: (Value, BodyParameter) -> Result<Value, Error>,
                        toPath: string -> seq<string>)
    requires version >= 4.2
    requires RequestBody(parameters, MULTIPART_TYPE, version, reducer, toPath).Ok?
    ensures var body := RequestBody(parameters, MULTIPART_TYPE, version, reducer, toPath).value;
            body.FormBody? && |body.parts| == |parameters| &&
            forall i :: 0 <= i < |parameters| ==>
              (parameters[i].parameterType != FormBinaryData ==>
                 body.parts[i] == FormPart(parameters[i].name, Str(parameters[i].value), Undefined)) &&
              (parameters[i].parameterType == FormBinaryData ==>
                 reducer(Obj([]), parameters[i]).Ok? && BinaryPart(reducer(Obj([]), parameters[i]).value) == Ok(body.parts[i]))
  {
    FormPartsInOrder([], parameters, reducer);
  }
}
