/**
 * `getSecrets`: the credential strings that the display copy of a request must
 * not show. A credential value is secret when its key names a node property
 * whose `typeOptions.password` is truthy; an OAuth2 access token is secret too.
 */
module Secrets {
  import opened Wrappers
  import opened Json

  /** A node property: its name and whether `typeOptions?.password` is truthy. */
  datatype Property = Property(name: string, password: bool)

  /** `new Set(properties.filter((prop) => prop.typeOptions?.password).map((prop) => prop.name))` */
  function SensitiveNames(properties: seq<Property>): (names: set<string>)
    ensures forall n :: n in names <==> exists i :: 0 <= i < |properties| && properties[i].password && properties[i].name == n
  {
    set i | 0 <= i < |properties| && properties[i].password :: properties[i].name
  }

  /** A credential entry whose key is sensitive and whose value is a string. */
  predicate IsPasswordEntry(names: set<string>, e: Field)
  {
    e.key in names && e.val.Str?
  }

  /**
   * `Object.entries(credentials)`, kept when the key is sensitive, mapped to
   * the value, kept when the value is a string: in entry order, duplicates
   * included.
   */
  function PasswordValues(names: set<string>, credentials: seq<Field>): (r: seq<string>)
    ensures |r| <= |credentials|
    decreases |credentials|
  {
    if credentials == [] then []
    else
      var e := credentials[0];
      (if IsPasswordEntry(names, e) then [e.val.s] else []) + PasswordValues(names, credentials[1..])
  }

  /** The key lodash `get` tries first: a path string that is itself a key of the object is not split. */
  const TOKEN_PATH: string := "oauthTokenData.access_token"

  /**
   * `get(credentials, 'oauthTokenData.access_token')`: the own property of
   * that name when there is one, otherwise `credentials.oauthTokenData.access_token`
   * (undefined unless `oauthTokenData` is an object).
   */
  function OAuthAccessToken(credentials: seq<Field>): Value
  {
    if TOKEN_PATH in Keys(credentials) then Get(credentials, TOKEN_PATH)
    else
      match Get(credentials, "oauthTokenData")
      case Obj(fs) => Get(fs, "access_token")
      case _ => Undefined
  }

  /** `getSecrets(properties, credentials)`. */
  function GetSecrets(properties: seq<Property>, credentials: seq<Field>): seq<string>
  {
    var secrets := PasswordValues(SensitiveNames(properties), credentials);
    match OAuthAccessToken(credentials)
    case Str(token) => secrets + [token]
    case _ => secrets
  }

  // ------------------------------------------------------------ properties

  /** Collecting over two runs of entries is collecting over each in turn. */
  lemma {:induction false} PasswordValuesConcat(names: set<string>, a: seq<Field>, b: seq<Field>)
    ensures PasswordValues(names, a + b) == PasswordValues(names, a) + PasswordValues(names, b)
    decreases |a|
  {
    if a == [] {
      assert a + b == b;
    } else {
      assert (a + b)[1..] == a[1..] + b;
      PasswordValuesConcat(names, a[1..], b);
      var head := if IsPasswordEntry(names, a[0]) then [a[0].val.s] else [];
      assert head + (PasswordValues(names, a[1..]) + PasswordValues(names, b)) ==
             (head + PasswordValues(names, a[1..])) + PasswordValues(names, b);
    }
  }

  /**
   * One entry contributes its value exactly when it is a password entry; with
   * the lemma above this fixes the collected list: the password values in
   * entry order, a value that occurs twice being collected twice.
   */
  lemma PasswordValuesSingle(names: set<string>, e: Field)
    ensures PasswordValues(names, [e]) == if IsPasswordEntry(names, e) then [e.val.s] else []
  {
    assert [e][1..] == [];
  }

  /**
   * The collected values are the string values of sensitive keys: each
   * collected value comes from such an entry, and every such entry's value
   * is collected.
   */
  lemma {:induction false} PasswordValuesMembers(names: set<string>, credentials: seq<Field>, x: string)
    ensures x in PasswordValues(names, credentials) <==>
            exists i :: 0 <= i < |credentials| && IsPasswordEntry(names, credentials[i]) && credentials[i].val.s == x
    decreases |credentials|
  {
    if credentials != [] {
      var tail := credentials[1..];
      PasswordValuesMembers(names, tail, x);
      if x in PasswordValues(names, tail) {
        var i :| 0 <= i < |tail| && IsPasswordEntry(names, tail[i]) && tail[i].val.s == x;
        assert credentials[i + 1] == tail[i];
      }
      if exists i :: 0 <= i < |credentials| && IsPasswordEntry(names, credentials[i]) && credentials[i].val.s == x {
        var i :| 0 <= i < |credentials| && IsPasswordEntry(names, credentials[i]) && credentials[i].val.s == x;
        if i > 0 {
          assert tail[i - 1] == credentials[i];
        }
      }
    }
  }

  /**
   * `getSecrets` is the password values in entry order, followed by the
   * OAuth2 access token exactly when that is a string.
   */
  lemma GetSecretsLayout(properties: seq<Property>, credentials: seq<Field>)
    ensures var secrets := GetSecrets(properties, credentials);
            var values := PasswordValues(SensitiveNames(properties), credentials);
            (OAuthAccessToken(credentials).Str? ==>
               secrets == values + [OAuthAccessToken(credentials).s] && secrets[|secrets| - 1] == OAuthAccessToken(credentials).s) &&
            (!OAuthAccessToken(credentials).Str? ==> secrets == values)
  {
  }

  /**
   * A string is a secret exactly when it is the value of a credential entry
   * whose key names a password property, or it is the OAuth2 access token.
   */
  lemma GetSecretsMembers(properties: seq<Property>, credentials: seq<Field>, x: string)
    ensures x in GetSecrets(properties, credentials) <==>
            (exists i :: 0 <= i < |credentials| && credentials[i].key in SensitiveNames(properties) &&
                         credentials[i].val == Str(x)) ||
            OAuthAccessToken(credentials) == Str(x)
  {
    var names := SensitiveNames(properties);
    PasswordValuesMembers(names, credentials, x);
    if exists i :: 0 <= i < |credentials| && credentials[i].key in names && credentials[i].val == Str(x) {
      var i :| 0 <= i < |credentials| && credentials[i].key in names && credentials[i].val == Str(x);
      assert IsPasswordEntry(names, credentials[i]) && credentials[i].val.s == x;
    }
  }

  /** A credential whose value is not a string contributes nothing, whatever its key. */
  lemma NonStringSkipped(properties: seq<Property>, credentials: seq<Field>, e: Field)
    requires !e.val.Str?
    ensures PasswordValues(SensitiveNames(properties), credentials + [e]) == PasswordValues(SensitiveNames(properties), credentials)
  {
    var names := SensitiveNames(properties);
    PasswordValuesConcat(names, credentials, [e]);
    PasswordValuesSingle(names, e);
  }
}
