/**
 * One request end to end: an API key flagged as a password, sent both in an
 * `Authorization` header and nowhere else. The header rule masks the
 * header; the secret scrub leaves the unrelated `X-Host` header alone.
 */
module Scenario {
  import opened Wrappers
  import opened Json
  import opened Text
  import opened Redaction
  import opened Sanitize
  import opened Secrets

  const API_KEY: string := "SECRET123"
  const HOST: string := "example.com"
  const BEARER: string := "Bearer SECRET123"

  const CREDENTIALS: seq<Field> := [Field("apiKey", Str(API_KEY)), Field("host", Str(HOST))]
  const PROPERTIES: seq<Property> := [Property("apiKey", true), Property("host", false)]
  const HEADERS: seq<Field> := [Field("Authorization", Str(BEARER)), Field("X-Host", Str(HOST))]

  /** Only the API key is collected: `host` is not a password property and there is no OAuth2 token. */
  lemma ScenarioSecrets()
    ensures GetSecrets(PROPERTIES, CREDENTIALS) == [API_KEY]
  {
    var names := SensitiveNames(PROPERTIES);
    assert PROPERTIES[0].password && PROPERTIES[0].name == "apiKey";
    assert "apiKey" in names;
    assert "host" !in names;
    PasswordValuesConcat(names, [CREDENTIALS[0]], [CREDENTIALS[1]]);
    assert CREDENTIALS == [CREDENTIALS[0]] + [CREDENTIALS[1]];
    PasswordValuesSingle(names, CREDENTIALS[0]);
    PasswordValuesSingle(names, CREDENTIALS[1]);
    assert OAuthAccessToken(CREDENTIALS) == Undefined;
  }

  /** Neither the placeholder nor the host contains the API key. */
  lemma ScenarioFreeOfKey()
    ensures FreeOf(REDACTED, [API_KEY]) && FreeOf(HOST, [API_KEY])
  {
    AbsentFirstChar(REDACTED, API_KEY);
    AbsentFirstChar(HOST, API_KEY);
  }

  /** The header rule masks `Authorization` and keeps `X-Host`. */
  lemma ScenarioMaskedHeaders()
    ensures MaskHeaderFields(HEADERS) == [Field("Authorization", Str(REDACTED)), Field("X-Host", Str(HOST))]
  {
    assert ToLower("Authorization") == "authorization";
    OrdinaryHeaderNotBlocked();
  }

  /** The displayed headers: `Authorization` hidden, `X-Host` as sent. */
  lemma ScenarioHeaders()
    ensures var out := Sanitized([Field("headers", Obj(HEADERS))], [], Some(GetSecrets(PROPERTIES, CREDENTIALS)));
            out.Ok? && out.value.Obj? &&
            Get(out.value.fields, "headers") == Obj([Field("Authorization", Str(REDACTED)), Field("X-Host", Str(HOST))])
  {
    ScenarioSecrets();
    var request := [Field("headers", Obj(HEADERS))];
    var masked := [Field("Authorization", Str(REDACTED)), Field("X-Host", Str(HOST))];
    assert UniqueKeys(request);
    GuardedSpec(request);
    var g := Guarded(request);
    assert Get(g, "headers") == Obj(HEADERS);
    ScenarioMaskedHeaders();
    assert Get(MaskHeaders(g), "headers") == Obj(masked);
    GetScrubSecrets(MaskHeaders(g), Some([API_KEY]), "headers");
    ScenarioFreeOfKey();
    assert Clean(Obj(masked), [API_KEY]);
    RedactClean(Obj(masked), [API_KEY]);
  }
}
