/**
 * `sanitizeUiMessage`: the display copy of an outgoing request. In order: the
 * copy itself, the large-Buffer guard, masking of listed keys under
 * auth-bearing request properties, masking of security headers, and the
 * secret scrub.
 */
module Sanitize {
  import opened Wrappers
  import opened Json
  import opened Text
  import opened Redaction

  /** A Buffer body longer than this many bytes is not shown. */
  const BINARY_LIMIT: nat := 250000

  /** Header names, in lower case, whose values are always masked. */
  const HEADER_BLOCKLIST: set<string> :=
    {"authorization", "x-api-key", "x-auth-token", "cookie", "proxy-authorization", "sslclientcert"}

  /** Header names are compared with the blocklist after lower-casing. */
  predicate IsBlockedHeader(name: string)
  {
    ToLower(name) in HEADER_BLOCKLIST
  }

  /** The text that stands in for a Buffer body over the limit. */
  const SUMMARY_HEAD: string := "Binary data got replaced with this text. Original was a Buffer with a size of "
  const SUMMARY_TAIL: string := " bytes."

  function BinarySummary(size: nat): string
  {
    SUMMARY_HEAD + NatToString(size) + SUMMARY_TAIL
  }

  /** One entry of `authDataKeys`: a request property and the keys under it to mask. */
  datatype AuthKeys = AuthKeys(property: string, keys: seq<string>)

  /** Properties of an `authDataKeys` object are distinct. */
  predicate DistinctProperties(authDataKeys: seq<AuthKeys>)
  {
    forall i, j :: 0 <= i < j < |authDataKeys| ==> authDataKeys[i].property != authDataKeys[j].property
  }

  predicate ListsProperty(authDataKeys: seq<AuthKeys>, p: string)
  {
    exists i :: 0 <= i < |authDataKeys| && authDataKeys[i].property == p
  }

  // ---------------------------------------------------------------- stage 1

  /** `for (const [key, value] of Object.entries(rest)) sendRequest[key] = deepCopy(value)` */
  function CopyRest(acc: seq<Field>, rest: seq<Field>): seq<Field>
    decreases |rest|
  {
    if rest == [] then acc else CopyRest(Put(acc, rest[0].key, rest[0].val), rest[1..])
  }

  /** `{ body, ...rest } = request`, then `{ body }` extended with copies of `rest`. */
  function DisplayCopy(request: seq<Field>): seq<Field>
  {
    CopyRest([Field("body", Get(request, "body"))], Without(request, "body"))
  }

  // ---------------------------------------------------------------- stage 2

  /**
   * A Buffer body over the limit: the copy is rebuilt as `{ ...request, body:
   * summary }`; otherwise the copy stays. (The copy's body is the request's
   * body itself, so its length is the length the summary reports.)
   */
  function GuardBinary(request: seq<Field>, copy: seq<Field>): seq<Field>
  {
    match Get(copy, "body")
    case Bytes(d) =>
      if |d| > BINARY_LIMIT then Put(request, "body", Str(BinarySummary(|d|))) else copy
    case _ => copy
  }

  /** The request after the first two stages. */
  function Guarded(request: seq<Field>): seq<Field>
  {
    GuardBinary(request, DisplayCopy(request))
  }

  // ---------------------------------------------------------------- stage 3

  /** The `reduce` that rebuilds one auth-bearing property, writing `acc[curr]` per key. */
  function MaskEntries(acc: seq<Field>, entries: seq<Field>, keys: seq<string>): seq<Field>
    decreases |entries|
  {
    if entries == [] then acc
    else
      var e := entries[0];
      MaskEntries(Put(acc, e.key, if e.key in keys then Str(REDACTED) else e.val), entries[1..], keys)
  }

  /**
   * Rebuilds one listed property from `Object.keys` of its value; a
   * property that is absent, `undefined` or `null` makes `Object.keys` throw.
   */
  function MaskProperty(props: seq<Field>, a: AuthKeys): Result<seq<Field>, Error>
  {
    match OwnEntries(Get(props, a.property))
    case Err(e) => Err(e)
    case Ok(entries) => Ok(Put(props, a.property, Obj(MaskEntries([], entries, a.keys))))
  }

  function MaskAuthData(props: seq<Field>, authDataKeys: seq<AuthKeys>): Result<seq<Field>, Error>
    decreases |authDataKeys|
  {
    if authDataKeys == [] then Ok(props)
    else
      match MaskProperty(props, authDataKeys[0])
      case Err(e) => Err(e)
      case Ok(next) => MaskAuthData(next, authDataKeys[1..])
  }

  // ---------------------------------------------------------------- stage 4

  /** Every blocklisted header of an object of headers is overwritten with the placeholder. */
  function MaskHeaderFields(hs: seq<Field>): (r: seq<Field>)
    ensures |r| == |hs| && Keys(r) == Keys(hs)
  {
    seq(|hs|, i requires 0 <= i < |hs| =>
      if IsBlockedHeader(hs[i].key) then Field(hs[i].key, Str(REDACTED)) else hs[i])
  }

  /**
   * Header masking runs on `headers` when it is truthy. Only an object can
   * have a blocklisted key: `Object.keys` of a string, array or Buffer gives
   * index keys, and of a number or boolean none.
   */
  function MaskHeaders(props: seq<Field>): seq<Field>
  {
    match Get(props, "headers")
    case Obj(hs) => Put(props, "headers", Obj(MaskHeaderFields(hs)))
    case _ => props
  }

  // ---------------------------------------------------------------- stage 5

  /** `redact` runs only when `secrets` is given and non-empty. */
  function ScrubSecrets(props: seq<Field>, secrets: Option<seq<string>>): Value
  {
    if secrets.Some? && |secrets.value| > 0 then Redact(Obj(props), secrets.value) else Obj(props)
  }

  /** What `sanitizeUiMessage(request, authDataKeys, secrets)` returns, or the error it throws. */
  function Sanitized(request: seq<Field>, authDataKeys: seq<AuthKeys>, secrets: Option<seq<string>>): Result<Value, Error>
  {
    match MaskAuthData(Guarded(request), authDataKeys)
    case Err(e) => Err(e)
    case Ok(masked) => Ok(ScrubSecrets(MaskHeaders(masked), secrets))
  }

  /** The first loop of `sanitizeUiMessage`: `{ body }`, then every other property assigned in turn. */
  method CopyForDisplay(request: seq<Field>) returns (sendRequest: seq<Field>)
    ensures sendRequest == DisplayCopy(request)
  {
    var rest := Without(request, "body");
    sendRequest := [Field("body", Get(request, "body"))];
    for i := 0 to |rest|
      invariant CopyRest(sendRequest, rest[i..]) == DisplayCopy(request)
    {
      assert rest[i..][1..] == rest[i + 1..];
      sendRequest := Put(sendRequest, rest[i].key, rest[i].val);
    }
    assert rest[|rest|..] == [];
  }

  /** The `reduce` over `Object.keys(sendRequest[property])` for one listed property. */
  method MaskPropertyEntries(value: Value, keys: seq<string>) returns (r: Result<seq<Field>, Error>)
    ensures OwnEntries(value).Err? ==> r == Err(OwnEntries(value).error)
    ensures OwnEntries(value).Ok? ==> r == Ok(MaskEntries([], OwnEntries(value).value, keys))
  {
    var own := OwnEntries(value);
    if own.Err? {
      return Err(own.error);
    }
    var entries := own.value;
    var acc: seq<Field> := [];
    for j := 0 to |entries|
      invariant MaskEntries(acc, entries[j..], keys) == MaskEntries([], entries, keys)
    {
      assert entries[j..][1..] == entries[j + 1..];
      acc := Put(acc, entries[j].key, if entries[j].key in keys then Str(REDACTED) else entries[j].val);
    }
    assert entries[|entries|..] == [];
    return Ok(acc);
  }

  /** The loop over `Object.keys(authDataKeys)`, reassigning `sendRequest` each time. */
  method RemoveCredentials(props: seq<Field>, authDataKeys: seq<AuthKeys>) returns (r: Result<seq<Field>, Error>)
    ensures r == MaskAuthData(props, authDataKeys)
  {
    var sendRequest := props;
    for i := 0 to |authDataKeys|
      invariant MaskAuthData(sendRequest, authDataKeys[i..]) == MaskAuthData(props, authDataKeys)
    {
      assert authDataKeys[i..][1..] == authDataKeys[i + 1..];
      var masked := MaskPropertyEntries(Get(sendRequest, authDataKeys[i].property), authDataKeys[i].keys);
      if masked.Err? {
        return Err(masked.error);
      }
      sendRequest := Put(sendRequest, authDataKeys[i].property, Obj(masked.value));
    }
    assert authDataKeys[|authDataKeys|..] == [];
    return Ok(sendRequest);
  }

  /** `headers[headerName] = REDACTED` for every blocklisted header, in place. */
  method MaskHeadersInPlace(props: seq<Field>) returns (r: seq<Field>)
    ensures r == MaskHeaders(props)
  {
    var headers := Get(props, "headers");
    if !headers.Obj? {
      return props;
    }
    var hs := headers.fields;
    for i := 0 to |hs|
      invariant |hs| == |headers.fields|
      invariant forall j :: 0 <= j < i ==> hs[j] == MaskHeaderFields(headers.fields)[j]
      invariant forall j :: i <= j < |hs| ==> hs[j] == headers.fields[j]
    {
      if IsBlockedHeader(hs[i].key) {
        hs := hs[i := Field(hs[i].key, Str(REDACTED))];
      }
    }
    assert hs == MaskHeaderFields(headers.fields);
    return Put(props, "headers", Obj(hs));
  }

  /** Protects the browser from large binary data by rebuilding the copy without it. */
  method ProtectFromLargeBinary(request: seq<Field>, sendRequest: seq<Field>) returns (r: seq<Field>)
    ensures r == GuardBinary(request, sendRequest)
  {
    r := sendRequest;
    var body := Get(sendRequest, "body");
    if body.Bytes? && |body.data| > BINARY_LIMIT {
      r := Put(request, "body", Str(BinarySummary(|body.data|)));
    }
  }

  /** The code of `sanitizeUiMessage`. */
  method SanitizeUiMessage(request: seq<Field>, authDataKeys: seq<AuthKeys>, secrets: Option<seq<string>>)
    returns (r: Result<Value, Error>)
    ensures r == Sanitized(request, authDataKeys, secrets)
  {
    var sendRequest := CopyForDisplay(request);
    sendRequest := ProtectFromLargeBinary(request, sendRequest);
    var masked := RemoveCredentials(sendRequest, authDataKeys);
    if masked.Err? {
      return Err(masked.error);
    }
    sendRequest := MaskHeadersInPlace(masked.value);
    if secrets.Some? && |secrets.value| > 0 {
      var redacted := RedactValue(Obj(sendRequest), secrets.value);
      r := Ok(redacted);
    } else {
      r := Ok(Obj(sendRequest));
    }
  }

  // ---------------------------------------------------------------- properties

  lemma GetCons(f: Field, rest: seq<Field>, k: string)
    ensures Get([f] + rest, k) == if f.key == k then f.val else Get(rest, k)
  {
    assert ([f] + rest)[1..] == rest;
  }

  lemma {:induction false} CopyRestAppends(acc: seq<Field>, rest: seq<Field>)
    requires UniqueKeys(rest)
    requires forall k :: k in Keys(rest) ==> k !in Keys(acc)
    ensures CopyRest(acc, rest) == acc + rest
    decreases |rest|
  {
    if rest != [] {
      var x := rest[0];
      assert Put(acc, x.key, x.val) == acc + [x] by { PutNewKey(acc, x.key, x.val); }
      assert forall k :: k in Keys(rest[1..]) ==> k !in Keys(acc + [x]) by {
        KeysConcat(acc, [x]);
        assert Keys(rest) == [x.key] + Keys(rest[1..]);
      }
      CopyRestAppends(acc + [x], rest[1..]);
      ShiftHead(acc, rest);
    }
  }

  /**
   * The display copy holds the body first, then every other property of the
   * request in its original order and with its original value.
   */
  lemma DisplayCopyLayout(request: seq<Field>)
    requires UniqueKeys(request)
    ensures DisplayCopy(request) == [Field("body", Get(request, "body"))] + Without(request, "body")
  {
    CopyRestAppends([Field("body", Get(request, "body"))], Without(request, "body"));
  }

  /** The body is a Buffer of more than `BINARY_LIMIT` bytes. */
  predicate LargeBuffer(request: seq<Field>)
  {
    Get(request, "body").Bytes? && |Get(request, "body").data| > BINARY_LIMIT
  }

  /**
   * The binary guard: a Buffer body over the limit is replaced by the summary
   * and the copy keeps the request's key order; any other body (a Buffer of
   * at most `BINARY_LIMIT` bytes included) is kept as it is, in the copy that
   * starts with it. All other properties keep their values either way.
   */
  lemma GuardedSpec(request: seq<Field>)
    requires UniqueKeys(request)
    ensures UniqueKeys(Guarded(request))
    ensures forall k :: k != "body" ==> Get(Guarded(request), k) == Get(request, k)
    ensures LargeBuffer(request) ==>
              Keys(Guarded(request)) == Keys(request) &&
              Get(Guarded(request), "body") == Str(BinarySummary(|Get(request, "body").data|))
    ensures !LargeBuffer(request) ==>
              Guarded(request) == [Field("body", Get(request, "body"))] + Without(request, "body")
  {
    DisplayCopyLayout(request);
    var copy := DisplayCopy(request);
    var w := Without(request, "body");
    forall k ensures Get(copy, k) == if k == "body" then Get(request, "body") else Get(request, k) {
      GetCons(Field("body", Get(request, "body")), w, k);
    }
    assert copy[1..] == w;
    if LargeBuffer(request) {
      PutKeys(request, "body", Str(BinarySummary(|Get(request, "body").data|)));
    }
  }

  /** The summary states the Buffer's size in decimal. */
  lemma BinarySummaryReportsSize(size: nat)
    ensures OccursAt(BinarySummary(size), NatToString(size), |SUMMARY_HEAD|)
  {
    var s := BinarySummary(size);
    var n := NatToString(size);
    assert s[|SUMMARY_HEAD|..|SUMMARY_HEAD| + |n|] == n;
  }

  /** The boundary: a Buffer of 250001 bytes is replaced, one of 250000 bytes is not. */
  lemma BinaryLimitBoundary(d: seq<byte>)
    ensures |d| == 250001 ==> LargeBuffer([Field("body", Bytes(d))])
    ensures |d| == 250000 ==> !LargeBuffer([Field("body", Bytes(d))])
    ensures NatToString(250001) == "250001"
  {
    GetCons(Field("body", Bytes(d)), [], "body");
    assert NatToString(2) == "2";
    assert NatToString(25) == "25";
    assert NatToString(250) == "250";
    assert NatToString(2500) == "2500";
    assert NatToString(25000) == "25000";
  }

  /** What the `reduce` writes for one key of the rebuilt property. */
  function MaskedEntry(e: Field, keys: seq<string>): Field
  {
    Field(e.key, if e.key in keys then Str(REDACTED) else e.val)
  }

  /** The entries of the rebuilt property, one per original entry. */
  function MaskedList(es: seq<Field>, keys: seq<string>): (r: seq<Field>)
    ensures |r| == |es|
    ensures forall i :: 0 <= i < |es| ==> r[i] == MaskedEntry(es[i], keys)
  {
    if es == [] then [] else [MaskedEntry(es[0], keys)] + MaskedList(es[1..], keys)
  }

  lemma {:induction false} MaskEntriesAppends(acc: seq<Field>, es: seq<Field>, keys: seq<string>)
    requires UniqueKeys(es)
    requires forall k :: k in Keys(es) ==> k !in Keys(acc)
    ensures MaskEntries(acc, es, keys) == acc + MaskedList(es, keys)
    decreases |es|
  {
    if es != [] {
      var e := MaskedEntry(es[0], keys);
      assert Put(acc, e.key, e.val) == acc + [e] by { PutNewKey(acc, e.key, e.val); }
      assert forall k :: k in Keys(es[1..]) ==> k !in Keys(acc + [e]) by {
        KeysConcat(acc, [e]);
        assert Keys(es) == [es[0].key] + Keys(es[1..]);
      }
      MaskEntriesAppends(acc + [e], es[1..], keys);
      AppendAssoc(acc, e, MaskedList(es[1..], keys));
    }
  }

  /**
   * Auth-key masking of one property: the rebuilt object has exactly the
   * keys of the original, in order; every listed key holds the placeholder,
   * whatever its value was; every other key keeps its value.
   */
  lemma MaskEntriesSpec(es: seq<Field>, keys: seq<string>)
    requires UniqueKeys(es)
    ensures var r := MaskEntries([], es, keys);
            Keys(r) == Keys(es) &&
            forall i :: 0 <= i < |es| ==> r[i].val == if es[i].key in keys then Str(REDACTED) else es[i].val
  {
    MaskEntriesAppends([], es, keys);
    assert [] + MaskedList(es, keys) == MaskedList(es, keys);
  }

  /**
   * Auth-key masking of one property value, whatever its type: the rebuilt
   * object has one key per key `Object.keys` gives (index keys for a string,
   * an array or a Buffer), in order; listed keys hold the placeholder and
   * every other key its own value.
   */
  lemma MaskedPropertyShape(v: Value, keys: seq<string>)
    requires v.Obj? ==> UniqueKeys(v.fields)
    requires OwnEntries(v).Ok?
    ensures var es := OwnEntries(v).value;
            var r := MaskEntries([], es, keys);
            Keys(r) == Keys(es) && UniqueKeys(es) &&
            forall i :: 0 <= i < |es| ==> r[i].val == if es[i].key in keys then Str(REDACTED) else es[i].val
  {
    OwnEntriesUnique(v);
    MaskEntriesSpec(OwnEntries(v).value, keys);
  }

  lemma {:induction false} MaskEntriesOther(acc: seq<Field>, es: seq<Field>, keys: seq<string>, k: string)
    requires k !in Keys(es)
    ensures Get(MaskEntries(acc, es, keys), k) == Get(acc, k)
    decreases |es|
  {
    if es != [] {
      assert Keys(es) == [es[0].key] + Keys(es[1..]);
      var e := MaskedEntry(es[0], keys);
      MaskEntriesOther(Put(acc, e.key, e.val), es[1..], keys, k);
    }
  }

  /** A listed key present in the property reads as the placeholder, whatever else the property holds. */
  lemma {:induction false} MaskEntriesListed(acc: seq<Field>, es: seq<Field>, keys: seq<string>, k: string)
    requires k in keys && k in Keys(es)
    ensures Get(MaskEntries(acc, es, keys), k) == Str(REDACTED)
    decreases |es|
  {
    assert Keys(es) == [es[0].key] + Keys(es[1..]);
    var e := MaskedEntry(es[0], keys);
    if k in Keys(es[1..]) {
      MaskEntriesListed(Put(acc, e.key, e.val), es[1..], keys, k);
    } else {
      MaskEntriesOther(Put(acc, e.key, e.val), es[1..], keys, k);
    }
  }

  predicate Nullish(v: Value)
  {
    v.Undefined? || v.Null?
  }

  /** Some property that `authDataKeys` lists is absent, `undefined` or `null` in `props`. */
  predicate ListsNullish(props: seq<Field>, aks: seq<AuthKeys>)
  {
    exists i :: 0 <= i < |aks| && Nullish(Get(props, aks[i].property))
  }

  lemma ListsNullishCons(props: seq<Field>, aks: seq<AuthKeys>)
    requires aks != []
    ensures ListsNullish(props, aks) <==> Nullish(Get(props, aks[0].property)) || ListsNullish(props, aks[1..])
  {
    if ListsNullish(props, aks) && !Nullish(Get(props, aks[0].property)) {
      var i :| 0 <= i < |aks| && Nullish(Get(props, aks[i].property));
      assert aks[1..][i - 1] == aks[i];
    }
    if ListsNullish(props, aks[1..]) {
      var i :| 0 <= i < |aks[1..]| && Nullish(Get(props, aks[1..][i].property));
      assert aks[1..][i] == aks[i + 1];
    }
  }

  /** Writing a non-nullish value over a non-nullish one changes no property's nullishness. */
  lemma PutKeepsNullish(props: seq<Field>, k: string, v: Value, aks: seq<AuthKeys>)
    requires !Nullish(Get(props, k)) && !Nullish(v)
    ensures ListsNullish(Put(props, k, v), aks) == ListsNullish(props, aks)
  {
    forall i | 0 <= i < |aks| ensures Nullish(Get(Put(props, k, v), aks[i].property)) == Nullish(Get(props, aks[i].property)) {
    }
  }

  /** `sanitizeUiMessage` throws exactly when a listed property is absent, `undefined` or `null`. */
  lemma {:induction false} MaskAuthDataThrows(props: seq<Field>, aks: seq<AuthKeys>)
    ensures MaskAuthData(props, aks).Err? <==> ListsNullish(props, aks)
    decreases |aks|
  {
    if aks != [] {
      var a := aks[0];
      ListsNullishCons(props, aks);
      var own := OwnEntries(Get(props, a.property));
      if own.Ok? {
        var next := Put(props, a.property, Obj(MaskEntries([], own.value, a.keys)));
        assert MaskAuthData(props, aks) == MaskAuthData(next, aks[1..]);
        MaskAuthDataThrows(next, aks[1..]);
        PutKeepsNullish(props, a.property, Obj(MaskEntries([], own.value, a.keys)), aks[1..]);
      }
    }
  }

  /** Properties that `authDataKeys` does not list are left as they are. */
  lemma {:induction false} MaskAuthDataOther(props: seq<Field>, aks: seq<AuthKeys>, k: string)
    requires !ListsProperty(aks, k)
    requires MaskAuthData(props, aks).Ok?
    ensures Get(MaskAuthData(props, aks).value, k) == Get(props, k)
    ensures Keys(MaskAuthData(props, aks).value) == Keys(props)
    ensures UniqueKeys(props) ==> UniqueKeys(MaskAuthData(props, aks).value)
    decreases |aks|
  {
    if aks != [] {
      var next := MaskProperty(props, aks[0]).value;
      var es := OwnEntries(Get(props, aks[0].property)).value;
      PutKeys(props, aks[0].property, Obj(MaskEntries([], es, aks[0].keys)));
      assert !ListsProperty(aks[1..], k) by {
        forall i | 0 <= i < |aks[1..]| ensures aks[1..][i].property != k { assert aks[1..][i] == aks[i + 1]; }
      }
      assert aks[0].property != k;
      MaskAuthDataOther(next, aks[1..], k);
    }
  }

  /** One step of stage 3: the first listed property succeeds and the rest runs on its result. */
  lemma MaskAuthDataStep(props: seq<Field>, aks: seq<AuthKeys>)
    requires aks != [] && MaskAuthData(props, aks).Ok?
    ensures OwnEntries(Get(props, aks[0].property)).Ok?
    ensures MaskProperty(props, aks[0]).Ok?
    ensures MaskProperty(props, aks[0]).value ==
            Put(props, aks[0].property, Obj(MaskEntries([], OwnEntries(Get(props, aks[0].property)).value, aks[0].keys)))
    ensures MaskAuthData(props, aks) == MaskAuthData(MaskProperty(props, aks[0]).value, aks[1..])
  {
  }

  /** The tail of a list of distinct properties does not list the head's property and is distinct itself. */
  lemma DistinctTail(aks: seq<AuthKeys>)
    requires aks != [] && DistinctProperties(aks)
    ensures !ListsProperty(aks[1..], aks[0].property)
    ensures DistinctProperties(aks[1..])
  {
    var tail := aks[1..];
    forall j | 0 <= j < |tail| ensures tail[j].property != aks[0].property { assert tail[j] == aks[j + 1]; }
    forall j, l | 0 <= j < l < |tail| ensures tail[j].property != tail[l].property {
      assert tail[j] == aks[j + 1] && tail[l] == aks[l + 1];
    }
  }

  /**
   * Every listed property is rebuilt from the value the property had before
   * masking (the properties of `authDataKeys` being distinct).
   */
  lemma {:induction false} MaskAuthDataListed(props: seq<Field>, aks: seq<AuthKeys>, i: nat)
    requires DistinctProperties(aks)
    requires i < |aks|
    requires MaskAuthData(props, aks).Ok?
    ensures OwnEntries(Get(props, aks[i].property)).Ok?
    ensures Get(MaskAuthData(props, aks).value, aks[i].property) ==
            Obj(MaskEntries([], OwnEntries(Get(props, aks[i].property)).value, aks[i].keys))
    decreases |aks|
  {
    MaskAuthDataStep(props, aks);
    DistinctTail(aks);
    var next := MaskProperty(props, aks[0]).value;
    var tail := aks[1..];
    var p := aks[i].property;
    if i == 0 {
      MaskAuthDataOther(next, tail, p);
    } else {
      assert tail[i - 1] == aks[i];
      assert aks[0].property != p;
      assert Get(next, p) == Get(props, p);
      MaskAuthDataListed(next, tail, i - 1);
    }
  }

  lemma {:induction false} GetMaskHeaderFields(hs: seq<Field>, k: string)
    ensures Get(MaskHeaderFields(hs), k) ==
            if IsBlockedHeader(k) && k in Keys(hs) then Str(REDACTED) else Get(hs, k)
  {
    if hs != [] {
      assert MaskHeaderFields(hs)[1..] == MaskHeaderFields(hs[1..]);
      assert Keys(hs) == [hs[0].key] + Keys(hs[1..]);
      GetMaskHeaderFields(hs[1..], k);
    }
  }

  /**
   * Header matching lower-cases the name first: `Authorization`,
   * `AUTHORIZATION` and `authorization` are all masked, and so is a
   * mixed-case `X-API-Key`.
   */
  lemma HeaderCaseInsensitive()
    ensures IsBlockedHeader("Authorization") && IsBlockedHeader("AUTHORIZATION") && IsBlockedHeader("authorization")
    ensures IsBlockedHeader("X-API-Key")
  {
    assert ToLower("Authorization") == "authorization";
    assert ToLower("AUTHORIZATION") == "authorization";
    assert ToLower("authorization") == "authorization";
    assert ToLower("X-API-Key") == "x-api-key";
  }

  /** A header outside the blocklist is not masked. */
  lemma OrdinaryHeaderNotBlocked()
    ensures !IsBlockedHeader("X-Host")
  {
    assert ToLower("X-Host") == "x-host";
  }

  /** The secrets the scrub actually applies. */
  function ActiveSecrets(secrets: Option<seq<string>>): seq<string>
  {
    if secrets.Some? then secrets.value else []
  }

  /**
   * The secret-scrub gate only skips work: skipping the scrub for a missing
   * or empty list gives what the scrub itself would have given.
   */
  lemma ScrubSecretsGate(props: seq<Field>, secrets: Option<seq<string>>)
    ensures ScrubSecrets(props, secrets) == Redact(Obj(props), ActiveSecrets(secrets))
    ensures (secrets.None? || secrets.value == []) ==> ScrubSecrets(props, secrets) == Obj(props)
  {
    RedactNoSecrets(Obj(props));
  }

  /** Every blocklisted header of the displayed headers object shows the placeholder. */
  predicate HeadersMasked(v: Value)
  {
    v.Obj? &&
    match Get(v.fields, "headers")
    case Obj(hs) => forall i :: 0 <= i < |hs| && IsBlockedHeader(hs[i].key) ==> hs[i].val == Str(REDACTED)
    case _ => true
  }

  /** Stage 4 leaves no blocklisted header unmasked. */
  lemma MaskHeadersMasks(props: seq<Field>)
    ensures HeadersMasked(Obj(MaskHeaders(props)))
  {
    match Get(props, "headers") {
      case Obj(hs) =>
        assert Get(MaskHeaders(props), "headers") == Obj(MaskHeaderFields(hs));
      case _ =>
    }
  }

  /** Stage 4 touches nothing but `headers`. */
  lemma GetMaskHeaders(props: seq<Field>, k: string)
    requires k != "headers"
    ensures Get(MaskHeaders(props), k) == Get(props, k)
  {
  }

  /** Stage 5 scrubs each property on its own. */
  lemma GetScrubSecrets(props: seq<Field>, secrets: Option<seq<string>>, k: string)
    ensures ScrubSecrets(props, secrets).Obj?
    ensures Get(ScrubSecrets(props, secrets).fields, k) == Redact(Get(props, k), ActiveSecrets(secrets))
  {
    ScrubSecretsGate(props, secrets);
    GetRedactFields(props, ActiveSecrets(secrets), k);
  }

  /** Stage 5 keeps the headers masked, the placeholder being free of secrets. */
  lemma ScrubKeepsHeadersMasked(props: seq<Field>, secrets: Option<seq<string>>)
    requires FreeOf(REDACTED, ActiveSecrets(secrets))
    requires HeadersMasked(Obj(props))
    ensures HeadersMasked(ScrubSecrets(props, secrets))
  {
    var s := ActiveSecrets(secrets);
    GetScrubSecrets(props, secrets, "headers");
    match Get(props, "headers") {
      case Obj(hs) =>
        RedactKeepsPlaceholder(s);
      case _ =>
    }
  }

  /**
   * End to end: no blocklisted header value reaches the display copy (when
   * no secret occurs in the placeholder itself, which the scrub would
   * otherwise rewrite).
   */
  lemma SanitizedHidesBlockedHeaders(request: seq<Field>, aks: seq<AuthKeys>, secrets: Option<seq<string>>)
    requires FreeOf(REDACTED, ActiveSecrets(secrets))
    requires Sanitized(request, aks, secrets).Ok?
    ensures HeadersMasked(Sanitized(request, aks, secrets).value)
  {
    var masked := MaskAuthData(Guarded(request), aks).value;
    MaskHeadersMasks(masked);
    ScrubKeepsHeadersMasked(MaskHeaders(masked), secrets);
  }

  /** `props[p][k]` is the placeholder. */
  predicate PlaceholderAt(v: Value, p: string, k: string)
  {
    v.Obj? && Get(v.fields, p).Obj? && Get(Get(v.fields, p).fields, k) == Str(REDACTED)
  }

  /** Stage 4 keeps a placeholder where stage 3 wrote one. */
  lemma MaskHeadersKeepsPlaceholder(props: seq<Field>, p: string, k: string)
    requires PlaceholderAt(Obj(props), p, k)
    ensures PlaceholderAt(Obj(MaskHeaders(props)), p, k)
  {
    if p == "headers" {
      var hs := Get(props, "headers").fields;
      GetMaskHeaderFields(hs, k);
      assert MaskHeaders(props) == Put(props, "headers", Obj(MaskHeaderFields(hs)));
    } else {
      GetMaskHeaders(props, p);
    }
  }

  /** Stage 5 keeps a placeholder too, the placeholder being free of secrets. */
  lemma ScrubKeepsPlaceholder(props: seq<Field>, secrets: Option<seq<string>>, p: string, k: string)
    requires FreeOf(REDACTED, ActiveSecrets(secrets))
    requires PlaceholderAt(Obj(props), p, k)
    ensures PlaceholderAt(ScrubSecrets(props, secrets), p, k)
  {
    var s := ActiveSecrets(secrets);
    GetScrubSecrets(props, secrets, p);
    GetRedactFields(Get(props, p).fields, s, k);
    RedactKeepsPlaceholder(s);
  }

  /**
   * End to end: a key listed under a property of `authDataKeys` shows the
   * placeholder whatever its value's type (when no secret occurs in the
   * placeholder itself).
   */
  lemma SanitizedHidesListedKeys(request: seq<Field>, aks: seq<AuthKeys>, secrets: Option<seq<string>>, i: nat, k: string)
    requires FreeOf(REDACTED, ActiveSecrets(secrets))
    requires DistinctProperties(aks)
    requires Sanitized(request, aks, secrets).Ok?
    requires i < |aks| && k in aks[i].keys
    requires OwnEntries(Get(Guarded(request), aks[i].property)).Ok?
    requires k in Keys(OwnEntries(Get(Guarded(request), aks[i].property)).value)
    ensures PlaceholderAt(Sanitized(request, aks, secrets).value, aks[i].property, k)
  {
    var p := aks[i].property;
    var masked := MaskAuthData(Guarded(request), aks).value;
    MaskAuthDataListed(Guarded(request), aks, i);
    MaskEntriesListed([], OwnEntries(Get(Guarded(request), p)).value, aks[i].keys, k);
    assert PlaceholderAt(Obj(masked), p, k);
    MaskHeadersKeepsPlaceholder(masked, p, k);
    ScrubKeepsPlaceholder(MaskHeaders(masked), secrets, p, k);
  }

  /** The body after stages 1-3, the body not being listed in `authDataKeys`. */
  lemma MaskedBody(request: seq<Field>, aks: seq<AuthKeys>)
    requires UniqueKeys(request)
    requires !ListsProperty(aks, "body")
    requires MaskAuthData(Guarded(request), aks).Ok?
    requires Get(request, "body").Bytes?
    ensures var d := Get(request, "body").data;
            Get(MaskAuthData(Guarded(request), aks).value, "body") ==
            if |d| > BINARY_LIMIT then Str(BinarySummary(|d|)) else Bytes(d)
  {
    GuardedSpec(request);
    if !LargeBuffer(request) {
      GetCons(Field("body", Get(request, "body")), Without(request, "body"), "body");
    }
    MaskAuthDataOther(Guarded(request), aks, "body");
  }

  /**
   * End to end (the body not being listed in `authDataKeys`): a Buffer body
   * over the limit is shown as the scrubbed summary, never as bytes; a
   * Buffer body of at most `BINARY_LIMIT` bytes is shown as it is.
   */
  lemma SanitizedBinaryGuard(request: seq<Field>, aks: seq<AuthKeys>, secrets: Option<seq<string>>)
    requires UniqueKeys(request)
    requires !ListsProperty(aks, "body")
    requires Sanitized(request, aks, secrets).Ok?
    requires Get(request, "body").Bytes?
    ensures var out := Sanitized(request, aks, secrets).value;
            var d := Get(request, "body").data;
            out.Obj? &&
            (|d| > BINARY_LIMIT ==>
               Get(out.fields, "body") == Str(RedactString(BinarySummary(|d|), ActiveSecrets(secrets)))) &&
            (|d| <= BINARY_LIMIT ==> Get(out.fields, "body") == Bytes(d))
  {
    var masked := MaskAuthData(Guarded(request), aks).value;
    MaskedBody(request, aks);
    GetMaskHeaders(masked, "body");
    GetScrubSecrets(MaskHeaders(masked), secrets, "body");
  }
}
