/**
 * The two small helpers that change their argument in place:
 * `replaceNullValues` on an execution item and `setAgentOptions` on the
 * request options.
 */
module Helpers {
  import opened Wrappers
  import opened Json

  /** The `json` of an item, once a `null` has been replaced by `{}`. */
  function NullReplaced(json: Value): (r: Value)
    ensures r != Null
    ensures json != Null ==> r == json
    ensures json == Null ==> r == Obj([])
  {
    if json == Null then Obj([]) else json
  }

  /** Replacing twice is replacing once: an item whose `json` is not `null` is left alone. */
  lemma NullReplacedIdempotent(json: Value)
    ensures NullReplaced(NullReplaced(json)) == NullReplaced(json)
  {
  }

  /** One item of node execution data; only its `json` is modelled. */
  class ExecutionItem {
    var json: Value

    constructor(json: Value)
      ensures this.json == json
    {
      this.json := json;
    }

    /** `replaceNullValues(item)`: the item itself comes back. */
    method ReplaceNullValues() returns (item: ExecutionItem)
      modifies this
      ensures item == this
      ensures json == NullReplaced(old(json))
    {
      if json == Null {
        json := Obj([]);
      }
      return this;
    }
  }

  /** The SSL credential fields `setAgentOptions` reads, each possibly absent. */
  datatype SslCredentials = SslCredentials(ca: Option<string>, cert: Option<string>, key: Option<string>, passphrase: Option<string>)

  /** A string field is truthy when it is present and not empty. */
  predicate Truthy(field: Option<string>)
  {
    field.Some? && field.value != ""
  }

  /** Writes `name: format(field)` into `acc` when the field is truthy. */
  function WithField(acc: seq<Field>, name: string, field: Option<string>, format: string -> string): seq<Field>
  {
    if Truthy(field) then Put(acc, name, Str(format(field.value))) else acc
  }

  /**
   * The `agentOptions` object: `ca`, `cert`, `key` and `passphrase`, in that
   * order, each formatted, each only when truthy.
   */
  function AgentOptions(ssl: SslCredentials, format: string -> string): seq<Field>
  {
    var withCa := WithField([], "ca", ssl.ca, format);
    var withCert := WithField(withCa, "cert", ssl.cert, format);
    var withKey := WithField(withCert, "key", ssl.key, format);
    WithField(withKey, "passphrase", ssl.passphrase, format)
  }

  /** The certificate field `setAgentOptions` copies under `name`. */
  function SslField(ssl: SslCredentials, name: string): Option<string>
  {
    if name == "ca" then ssl.ca
    else if name == "cert" then ssl.cert
    else if name == "key" then ssl.key
    else if name == "passphrase" then ssl.passphrase
    else None
  }

  /** `[name]` when the field is truthy, `[]` otherwise. */
  function OptionalName(name: string, field: Option<string>): seq<string>
  {
    if Truthy(field) then [name] else []
  }

  /** The certificate field names whose fields are truthy, in the order `setAgentOptions` tests them. */
  function TruthyNames(ssl: SslCredentials): seq<string>
  {
    OptionalName("ca", ssl.ca) + OptionalName("cert", ssl.cert) +
    OptionalName("key", ssl.key) + OptionalName("passphrase", ssl.passphrase)
  }

  /** Writing a new key appends it to the keys. */
  lemma WithFieldKeys(acc: seq<Field>, name: string, field: Option<string>, format: string -> string)
    requires name !in Keys(acc)
    ensures Keys(WithField(acc, name, field, format)) == Keys(acc) + OptionalName(name, field)
    ensures UniqueKeys(acc) ==> UniqueKeys(WithField(acc, name, field, format))
  {
    if Truthy(field) {
      PutKeys(acc, name, Str(format(field.value)));
    } else {
      assert Keys(acc) + [] == Keys(acc);
    }
  }

  /**
   * The keys of `agentOptions` are the truthy certificate fields, in the order
   * `ca`, `cert`, `key`, `passphrase`, with no key twice.
   */
  lemma AgentOptionsKeys(ssl: SslCredentials, format: string -> string)
    ensures Keys(AgentOptions(ssl, format)) == TruthyNames(ssl)
    ensures UniqueKeys(AgentOptions(ssl, format))
  {
    var withCa := WithField([], "ca", ssl.ca, format);
    var withCert := WithField(withCa, "cert", ssl.cert, format);
    var withKey := WithField(withCert, "key", ssl.key, format);
    WithFieldKeys([], "ca", ssl.ca, format);
    assert Keys(withCa) == OptionalName("ca", ssl.ca);
    assert "cert" !in Keys(withCa);
    WithFieldKeys(withCa, "cert", ssl.cert, format);
    assert "key" !in Keys(withCert);
    WithFieldKeys(withCert, "key", ssl.key, format);
    assert "passphrase" !in Keys(withKey);
    WithFieldKeys(withKey, "passphrase", ssl.passphrase, format);
  }

  /**
   * Each certificate field shows in `agentOptions` as its formatted value when
   * truthy, and is absent otherwise.
   */
  lemma AgentOptionsValues(ssl: SslCredentials, format: string -> string, name: string)
    requires name in {"ca", "cert", "key", "passphrase"}
    ensures Get(AgentOptions(ssl, format), name) ==
            if Truthy(SslField(ssl, name)) then Str(format(SslField(ssl, name).value)) else Undefined
  {
    AgentOptionsKeys(ssl, format);
  }

  /** A field that is present but empty is not copied. */
  lemma EmptyFieldSkipped(ssl: SslCredentials, format: string -> string)
    requires ssl.ca == Some("")
    ensures "ca" !in Keys(AgentOptions(ssl, format))
  {
    AgentOptionsKeys(ssl, format);
  }

  /** The request options object; only its own entries are modelled. */
  class RequestOptions {
    var fields: seq<Field>

    constructor(fields: seq<Field>)
      ensures this.fields == fields
    {
      this.fields := fields;
    }

    /**
     * `setAgentOptions(requestOptions, sslCertificates)`: with credentials,
     * `agentOptions` is (re)written; without them nothing changes.
     */
    method SetAgentOptions(sslCertificates: Option<SslCredentials>, format: string -> string)
      modifies this
      ensures sslCertificates.None? ==> fields == old(fields)
      ensures sslCertificates.Some? ==>
                fields == Put(old(fields), "agentOptions", Obj(AgentOptions(sslCertificates.value, format)))
    {
      if sslCertificates.Some? {
        var ssl := sslCertificates.value;
        var agentOptions: seq<Field> := [];
        if Truthy(ssl.ca) {
          agentOptions := Put(agentOptions, "ca", Str(format(ssl.ca.value)));
        }
        if Truthy(ssl.cert) {
          agentOptions := Put(agentOptions, "cert", Str(format(ssl.cert.value)));
        }
        if Truthy(ssl.key) {
          agentOptions := Put(agentOptions, "key", Str(format(ssl.key.value)));
        }
        if Truthy(ssl.passphrase) {
          agentOptions := Put(agentOptions, "passphrase", Str(format(ssl.passphrase.value)));
        }
        fields := Put(fields, "agentOptions", Obj(agentOptions));
      }
    }
  }
}
