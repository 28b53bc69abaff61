# HTTP Request node: display sanitising, secret collection and body building

This project models the request-payload and redaction logic of n8n's HTTP
Request node (`packages/nodes-base/nodes/HttpRequest/GenericFunctions.ts`) in
Dafny and proves properties of it.

- **Display redaction** (`sanitizeUiMessage`, `redact`, `REDACTED`, the
  header blocklist). The display copy of an outgoing request is built in
  five stages:
  1. copy;
  2. large-Buffer guard;
  3. masking of listed keys under auth-bearing properties;
  4. masking of blocklisted headers, compared case-insensitively;
  5. scrubbing of known secret strings from every string leaf.

  Every stage is a specification function: `Sanitize.DisplayCopy`,
  `Sanitize.GuardBinary`, `Sanitize.MaskAuthData`, `Sanitize.MaskHeaders`
  and `Sanitize.ScrubSecrets`. Stages 1, 3 and 4 loop in the source. Each
  of them is also a method with that loop, proved equal to its function.
  Stage 2 has no loop; `Sanitize.ProtectFromLargeBinary` is the same
  one-branch reassignment written as a statement. Stage 5 is the gate in
  `Sanitize.SanitizeUiMessage`, which calls `Redaction.RedactValue`.
  `Sanitize.SanitizeUiMessage` chains the stages.
- **Secret collection** (`getSecrets`): a pure filter/map pipeline over the
  credential entries, plus the OAuth2 access token.
- **Body building** (`reduceAsync`, `prepareRequestBody`). `reduceAsync` is a
  sequential fold that stops at the first rejection. `prepareRequestBody`
  picks one of three strategies and is a method with the json and multipart
  loops. Lodash `set` is modelled on an already split path (module
  `Lodash`).
- **Helpers.** `replaceNullValues` and `setAgentOptions` change their
  argument, so each is a class method: `Helpers.ExecutionItem` and
  `Helpers.RequestOptions`.

JavaScript values are the datatype `Json.Value`:
- `undefined`, `null`, booleans and numbers (integers);
- strings;
- arrays;
- plain objects, as the ordered list of their entries;
- Node.js Buffers, as byte sequences.

`Object.keys`/`Object.entries` is `Json.OwnEntries`:
- `undefined` and `null` throw a TypeError;
- strings, arrays and Buffers give index keys;
- numbers and booleans give no keys.

A caller-supplied callback and lodash's path parsing are function
parameters (`defaultReducer`, `toPath`). `formatPrivateKey` is also a
function parameter (`format`).

Where the code and a natural reading of its purpose differ, the model
follows the code:
- **First occurrence only.** Each secret replaces only its first occurrence,
  because `String.prototype.replace` with a string pattern does so.
  `Redaction.SecondOccurrenceSurvives` shows a second occurrence surviving.
  `Redaction.SoleOccurrenceRemoved` states when a secret does disappear.
- **Absent auth property throws.** An `authDataKeys` entry naming a property
  that is absent, `undefined` or `null` makes `Object.keys` throw; it is not
  a no-op. `Sanitize.MaskAuthDataThrows` states exactly when this happens.
- **Non-object auth property.** A listed property that is a string, array or
  Buffer is rebuilt into an object keyed by index. Its values are
  characters, elements or byte values.
- **Placeholder can be rewritten.** A secret that occurs in `**hidden**`
  itself is scrubbed out of the placeholder again.
  `Redaction.PlaceholderRewritten` shows the secret `hidden` turning
  `**hidden**` into `****hidden****`. The end-to-end masking lemmas
  therefore assume that no secret occurs in the placeholder.

## Model

| member | source | states |
|---|---|---|
| Redaction.Redact | packages/nodes-base/nodes/HttpRequest/GenericFunctions.ts:39-56 | A string stays a string, an array keeps its length, a plain object keeps exactly its keys in order; a Buffer, number, boolean, null or undefined comes back unchanged |
| Redaction.RedactValue | packages/nodes-base/nodes/HttpRequest/GenericFunctions.ts:43-57 | The recursive walk (array map, in-place loop over object entries, string fold) computes `Redact` |
| Redaction.RedactStringConcat | packages/nodes-base/nodes/HttpRequest/GenericFunctions.ts:45 | Secrets are applied in list order: scrubbing with `a + b` is scrubbing with `a`, then with `b` |
| Redaction.RedactStringLast | packages/nodes-base/nodes/HttpRequest/GenericFunctions.ts:45 | Each step replaces the first occurrence of its secret in the string the earlier steps left |
| Redaction.RedactStringFreeOf | packages/nodes-base/nodes/HttpRequest/GenericFunctions.ts:45 | A string containing none of the secrets is left as it is |
| Redaction.RedactClean | packages/nodes-base/nodes/HttpRequest/GenericFunctions.ts:43-56 | A value none of whose strings contains a secret is left as it is |
| Redaction.RedactNoSecrets | packages/nodes-base/nodes/HttpRequest/GenericFunctions.ts:43-56 | Redacting with no secrets is the identity |
| Redaction.GetRedactFields | packages/nodes-base/nodes/HttpRequest/GenericFunctions.ts:50-54 | Reading a property of a redacted object equals redacting the property read from the original |
| Redaction.RedactKeepsPlaceholder | packages/nodes-base/nodes/HttpRequest/GenericFunctions.ts:37-45 | The placeholder survives a scrub when no secret occurs in it |
| Redaction.SecondOccurrenceSurvives | packages/nodes-base/nodes/HttpRequest/GenericFunctions.ts:45 | `"ab ab"` scrubbed of `"ab"` is `"**hidden** ab"`, which still contains the secret |
| Redaction.EmptySecretPrefixes | packages/nodes-base/nodes/HttpRequest/GenericFunctions.ts:45 | An empty secret inserts the placeholder at the front of every string |
| Redaction.PlaceholderRewritten | packages/nodes-base/nodes/HttpRequest/GenericFunctions.ts:37-45 | A secret occurring in the placeholder rewrites it: `**hidden**` scrubbed of `hidden` is `****hidden****` |
| Redaction.SoleOccurrenceRemoved | packages/nodes-base/nodes/HttpRequest/GenericFunctions.ts:45 | A non-empty secret that occurs exactly once and shares no character with the placeholder no longer occurs after the scrub |
| Text.ReplaceFirst | packages/nodes-base/nodes/HttpRequest/GenericFunctions.ts:45 | `replace` with a string pattern: unchanged when the pattern is absent, otherwise the text before its first occurrence, the replacement, and the text after |
| Json.OwnEntries | packages/nodes-base/nodes/HttpRequest/GenericFunctions.ts:85 | `Object.keys`: throws exactly for undefined and null; an object's own entries; nothing for numbers and booleans |
| Json.OwnEntriesIndexed | packages/nodes-base/nodes/HttpRequest/GenericFunctions.ts:85-89 | A string, array or Buffer has one entry per position, keyed by its decimal index, holding the character, element or byte; a string position is a Unicode scalar value, not a UTF-16 code unit |
| Json.Put | packages/nodes-base/nodes/HttpRequest/GenericFunctions.ts:68 | A property write: the key reads back the new value and every other key reads as before |
| Json.PutKeys | packages/nodes-base/nodes/HttpRequest/GenericFunctions.ts:68 | A write to an existing key keeps the key order, a new key is appended; distinct keys stay distinct |
| Json.Without | packages/nodes-base/nodes/HttpRequest/GenericFunctions.ts:64 | The rest of `{ body, ...rest }`: no `body`, every other key as before |
| Sanitize.SanitizeUiMessage | packages/nodes-base/nodes/HttpRequest/GenericFunctions.ts:59-119 | The method's result is `Sanitized`: the five stages in order, or the TypeError a listed nullish property raises |
| Sanitize.CopyForDisplay | packages/nodes-base/nodes/HttpRequest/GenericFunctions.ts:64-69 | The copy loop computes `DisplayCopy` |
| Sanitize.DisplayCopyLayout | packages/nodes-base/nodes/HttpRequest/GenericFunctions.ts:64-69 | The copy is `body` first, then every other property in order with its value |
| Sanitize.ProtectFromLargeBinary | packages/nodes-base/nodes/HttpRequest/GenericFunctions.ts:71-79 | The guard computes `GuardBinary` |
| Sanitize.GuardedSpec | packages/nodes-base/nodes/HttpRequest/GenericFunctions.ts:71-79 | A Buffer body over the limit becomes the summary, keeping the request's key order; any other body is kept; every other property keeps its value |
| Sanitize.BinarySummaryReportsSize | packages/nodes-base/nodes/HttpRequest/GenericFunctions.ts:75-77 | The summary text holds the Buffer's length in decimal right after its fixed head |
| Sanitize.BinaryLimitBoundary | packages/nodes-base/nodes/HttpRequest/GenericFunctions.ts:72 | 250001 bytes is over the limit, 250000 bytes is not, and 250001 is written `"250001"` |
| Sanitize.SanitizedBinaryGuard | packages/nodes-base/nodes/HttpRequest/GenericFunctions.ts:71-118 | End to end, with `body` not listed: a Buffer over the limit shows as the scrubbed summary, a Buffer of at most 250000 bytes as its bytes |
| Sanitize.MaskedBody | packages/nodes-base/nodes/HttpRequest/GenericFunctions.ts:64-95 | After the first three stages the body is the summary or the Buffer, by its size |
| Sanitize.MaskPropertyEntries | packages/nodes-base/nodes/HttpRequest/GenericFunctions.ts:85-93 | The `reduce` over one property's keys throws for a nullish value and otherwise computes `MaskEntries` |
| Sanitize.RemoveCredentials | packages/nodes-base/nodes/HttpRequest/GenericFunctions.ts:82-95 | The loop over `authDataKeys` computes `MaskAuthData` |
| Sanitize.MaskEntriesSpec | packages/nodes-base/nodes/HttpRequest/GenericFunctions.ts:85-93 | The rebuilt property has the original keys in order; a listed key holds the placeholder whatever its type, an unlisted key keeps its value |
| Sanitize.MaskedPropertyShape | packages/nodes-base/nodes/HttpRequest/GenericFunctions.ts:85-93 | For a property of any type that `Object.keys` accepts, the rebuilt object has its keys in order, without repeats; listed keys hold the placeholder and the others their value |
| Sanitize.MaskEntriesListed | packages/nodes-base/nodes/HttpRequest/GenericFunctions.ts:87-88 | A listed key that is present reads as the placeholder |
| Sanitize.MaskEntriesOther | packages/nodes-base/nodes/HttpRequest/GenericFunctions.ts:85-93 | A key the property lacks is not written |
| Sanitize.MaskAuthDataThrows | packages/nodes-base/nodes/HttpRequest/GenericFunctions.ts:82-95 | Masking throws exactly when some listed property is absent, undefined or null |
| Sanitize.MaskAuthDataOther | packages/nodes-base/nodes/HttpRequest/GenericFunctions.ts:82-95 | A property not listed keeps its value; the top-level keys and their distinctness are preserved |
| Sanitize.MaskAuthDataListed | packages/nodes-base/nodes/HttpRequest/GenericFunctions.ts:82-95 | With distinct properties, each listed property ends up rebuilt from the value it had before masking |
| Sanitize.MaskHeadersInPlace | packages/nodes-base/nodes/HttpRequest/GenericFunctions.ts:105-113 | The in-place header loop computes `MaskHeaders` |
| Sanitize.MaskHeaderFields | packages/nodes-base/nodes/HttpRequest/GenericFunctions.ts:108-112 | Header masking keeps the number of headers and every header name |
| Sanitize.GetMaskHeaderFields | packages/nodes-base/nodes/HttpRequest/GenericFunctions.ts:108-112 | A present header reads as the placeholder exactly when its lower-cased name is blocklisted; any other header reads as before |
| Sanitize.MaskHeadersMasks | packages/nodes-base/nodes/HttpRequest/GenericFunctions.ts:105-113 | After the header stage no blocklisted header holds anything but the placeholder |
| Sanitize.GetMaskHeaders | packages/nodes-base/nodes/HttpRequest/GenericFunctions.ts:105-113 | The header stage changes no property but `headers` |
| Sanitize.HeaderCaseInsensitive | packages/nodes-base/nodes/HttpRequest/GenericFunctions.ts:96-109 | `Authorization`, `AUTHORIZATION`, `authorization` and `X-API-Key` are all blocklisted |
| Sanitize.OrdinaryHeaderNotBlocked | packages/nodes-base/nodes/HttpRequest/GenericFunctions.ts:96-109 | `X-Host` is not blocklisted |
| Sanitize.ScrubSecretsGate | packages/nodes-base/nodes/HttpRequest/GenericFunctions.ts:114-118 | The gated scrub is redaction with the given secrets (none when the list is missing), so a missing or empty list leaves the copy unchanged |
| Sanitize.GetScrubSecrets | packages/nodes-base/nodes/HttpRequest/GenericFunctions.ts:114-115 | After the scrub each property is its own redaction |
| Sanitize.ScrubKeepsHeadersMasked | packages/nodes-base/nodes/HttpRequest/GenericFunctions.ts:114-118 | The scrub keeps the headers masked, when no secret occurs in the placeholder |
| Sanitize.SanitizedHidesBlockedHeaders | packages/nodes-base/nodes/HttpRequest/GenericFunctions.ts:96-118 | End to end: no blocklisted header shows anything but the placeholder |
| Sanitize.MaskHeadersKeepsPlaceholder | packages/nodes-base/nodes/HttpRequest/GenericFunctions.ts:105-113 | The header stage keeps any placeholder the auth-key stage wrote |
| Sanitize.SanitizedHidesListedKeys | packages/nodes-base/nodes/HttpRequest/GenericFunctions.ts:81-118 | End to end: a listed key under a listed property shows the placeholder, whatever its value's type |
| Secrets.SensitiveNames | packages/nodes-base/nodes/HttpRequest/GenericFunctions.ts:125-127 | A name is sensitive exactly when some property of that name has `typeOptions.password` |
| Secrets.PasswordValuesConcat | packages/nodes-base/nodes/HttpRequest/GenericFunctions.ts:129-132 | The collected values keep credential-entry order: collecting over `a + b` is collecting over `a`, then `b` |
| Secrets.PasswordValuesSingle | packages/nodes-base/nodes/HttpRequest/GenericFunctions.ts:129-132 | One entry contributes its value exactly when its key is sensitive and its value a string (so duplicates are kept) |
| Secrets.PasswordValuesMembers | packages/nodes-base/nodes/HttpRequest/GenericFunctions.ts:129-132 | A string is collected exactly when it is the string value of an entry with a sensitive key |
| Secrets.NonStringSkipped | packages/nodes-base/nodes/HttpRequest/GenericFunctions.ts:132 | An entry whose value is not a string contributes nothing |
| Secrets.GetSecretsLayout | packages/nodes-base/nodes/HttpRequest/GenericFunctions.ts:133-138 | The OAuth2 access token, when a string, comes last after the password values; otherwise only the password values |
| Secrets.GetSecretsMembers | packages/nodes-base/nodes/HttpRequest/GenericFunctions.ts:121-139 | A string is a secret exactly when it is a sensitive credential's string value or the OAuth2 access token |
| Scenario.ScenarioSecrets | packages/nodes-base/nodes/HttpRequest/GenericFunctions.ts:121-139 | For credentials `{apiKey: "SECRET123", host: "example.com"}` with `apiKey` a password, the secrets are `["SECRET123"]` |
| Scenario.ScenarioHeaders | packages/nodes-base/nodes/HttpRequest/GenericFunctions.ts:59-119 | Headers `{Authorization: "Bearer SECRET123", X-Host: "example.com"}` display as `{Authorization: "**hidden**", X-Host: "example.com"}` |
| BodyBuilder.ReduceAsyncConcat | packages/nodes-base/nodes/HttpRequest/GenericFunctions.ts:237-245 | Folding over `a + b` is folding over `b` from where `a` ended |
| BodyBuilder.ReduceAsyncSnoc | packages/nodes-base/nodes/HttpRequest/GenericFunctions.ts:242-244 | The last item is reduced into what the items before it gave |
| BodyBuilder.ReduceAsyncIsFoldLeft | packages/nodes-base/nodes/HttpRequest/GenericFunctions.ts:237-245 | With a reducer that never rejects the result is the plain left fold, in order |
| BodyBuilder.ReduceAsyncRejected | packages/nodes-base/nodes/HttpRequest/GenericFunctions.ts:242-244 | A rejected start rejects the whole fold with the same reason |
| BodyBuilder.ReduceAsyncFirstFailure | packages/nodes-base/nodes/HttpRequest/GenericFunctions.ts:242-244 | The result is the rejection of the first item whose step rejects |
| BodyBuilder.PrepareRequestBody | packages/nodes-base/nodes/HttpRequest/GenericFunctions.ts:247-278 | The method with its json and multipart loops computes `RequestBody` |
| BodyBuilder.JsonBodyConcat | packages/nodes-base/nodes/HttpRequest/GenericFunctions.ts:254-258 | The json branch sets the parameters one after another, in order |
| BodyBuilder.JsonBodyObject | packages/nodes-base/nodes/HttpRequest/GenericFunctions.ts:254-258 | The json branch always yields an object |
| BodyBuilder.SetEntryOverwrite | packages/nodes-base/nodes/HttpRequest/GenericFunctions.ts:256 | Setting the same name twice in a row keeps only the second value |
| BodyBuilder.JsonBodyLastWriteWins | packages/nodes-base/nodes/HttpRequest/GenericFunctions.ts:253-258 | Of two consecutive parameters with the same name, the later value wins |
| BodyBuilder.JsonBodyReadBack | packages/nodes-base/nodes/HttpRequest/GenericFunctions.ts:256 | The first parameter's value can be read back at the path its name splits into, when no key of that path is forbidden and none after the first is an index |
| BodyBuilder.SetEntryFrame | packages/nodes-base/nodes/HttpRequest/GenericFunctions.ts:256 | Setting one name leaves every other top-level key alone |
| BodyBuilder.FormPartsInOrder | packages/nodes-base/nodes/HttpRequest/GenericFunctions.ts:262-272 | A completed form has one field per parameter, in parameter order, each the field that parameter appends |
| BodyBuilder.FormPartsFails | packages/nodes-base/nodes/HttpRequest/GenericFunctions.ts:262-272 | The form fails exactly when some parameter's field fails |
| BodyBuilder.PlainFormIgnoresReducer | packages/nodes-base/nodes/HttpRequest/GenericFunctions.ts:271 | With plain fields only, the form never fails and does not depend on the reducer |
| BodyBuilder.BinaryPartOfObject | packages/nodes-base/nodes/HttpRequest/GenericFunctions.ts:264-267 | A binary field is appended under the first key of the reducer's result, with that entry's `value` and `options` |
| BodyBuilder.BinaryPartOfEmpty | packages/nodes-base/nodes/HttpRequest/GenericFunctions.ts:265-267 | A reducer result without keys makes the `.value` read throw |
| BodyBuilder.MultipartFields | packages/nodes-base/nodes/HttpRequest/GenericFunctions.ts:259-274 | The multipart branch gives one field per parameter in order: a plain parameter as name and string value, a binary one as the reducer made it |
| BodyBuilder.JsonIgnoresReducer | packages/nodes-base/nodes/HttpRequest/GenericFunctions.ts:253-258 | The json branch never calls the reducer and never rejects |
| BodyBuilder.BelowGateUsesReducer | packages/nodes-base/nodes/HttpRequest/GenericFunctions.ts:253-277 | `json` below 4, `multipart-form-data` below 4.2 and every other body type use the reducer's fold from `{}` |
| BodyBuilder.GateBoundaries | packages/nodes-base/nodes/HttpRequest/GenericFunctions.ts:253-259 | Multipart at 4.1 falls back to the fold; json at exactly 4 takes the json branch |
| Lodash.Assign | packages/nodes-base/nodes/HttpRequest/GenericFunctions.ts:256 | A write keeps an object an object and an array an array; a write to anything but an object, or an array at an array index, changes nothing |
| Lodash.ReadAssign | packages/nodes-base/nodes/HttpRequest/GenericFunctions.ts:256 | Reading the key just written gives what was written |
| Lodash.AssignAssign | packages/nodes-base/nodes/HttpRequest/GenericFunctions.ts:256 | Of two writes to the same key, the second wins (an array grown by the first is overwritten in place) |
| Lodash.SetInShape | packages/nodes-base/nodes/HttpRequest/GenericFunctions.ts:256 | `set` keeps an object an object and an object-like value object-like, and leaves a value it cannot write into at the first key unchanged |
| Lodash.SetInOverwrite | packages/nodes-base/nodes/HttpRequest/GenericFunctions.ts:256 | Setting the same path twice equals setting it once with the later value |
| Lodash.SetPathOverwrite | packages/nodes-base/nodes/HttpRequest/GenericFunctions.ts:256 | The same for `set` on any value |
| Lodash.SetInObject | packages/nodes-base/nodes/HttpRequest/GenericFunctions.ts:256 | On an object, `set` adds at most the path's first key and changes no other key |
| Lodash.ReadPathSetIn | packages/nodes-base/nodes/HttpRequest/GenericFunctions.ts:256 | `get` of the path just set gives the value set, along a path of objects |
| Lodash.ForbiddenKeyStops | packages/nodes-base/nodes/HttpRequest/GenericFunctions.ts:256 | A path starting with `__proto__`, `constructor` or `prototype` changes nothing |
| Helpers.ExecutionItem.ReplaceNullValues | packages/nodes-base/nodes/HttpRequest/GenericFunctions.ts:30-35 | The item itself is returned; a `null` json becomes `{}`, any other json is kept |
| Helpers.NullReplaced | packages/nodes-base/nodes/HttpRequest/GenericFunctions.ts:30-35 | The result is never `null` and differs from the input only when that was `null` |
| Helpers.NullReplacedIdempotent | packages/nodes-base/nodes/HttpRequest/GenericFunctions.ts:30-35 | Replacing twice is replacing once |
| Helpers.RequestOptions.SetAgentOptions | packages/nodes-base/nodes/HttpRequest/GenericFunctions.ts:280-293 | With credentials, `agentOptions` is written and nothing else; without them the options are unchanged |
| Helpers.AgentOptionsKeys | packages/nodes-base/nodes/HttpRequest/GenericFunctions.ts:285-290 | `agentOptions` holds exactly the truthy fields, in the order `ca`, `cert`, `key`, `passphrase`, each once |
| Helpers.AgentOptionsValues | packages/nodes-base/nodes/HttpRequest/GenericFunctions.ts:285-290 | Each certificate field holds its formatted value when truthy and is absent otherwise |
| Helpers.EmptyFieldSkipped | packages/nodes-base/nodes/HttpRequest/GenericFunctions.ts:286 | An empty `ca` is not copied |

## Left out

- Aliasing and in-place mutation of the caller's objects are not modelled. Values are immutable here, so the model also does not capture one behaviour of the code: `body` is not deep-copied, and the large-Buffer path rebuilds the copy from a shallow spread of the request. In that path the header stage writes into the caller's own `headers` object.
- Asynchrony is not modelled. `await` only orders the folds, so each promise is its result: a `Result` that is `Err` for a rejection.
- Lodash's string-path parsing (`stringToPath` and the key regexes of `isKey`) is a function parameter `toPath`. The model keeps only `isKey`'s check that a name which is already a key of the result is used whole.
- BodyBuilder.JsonBodyLastWriteWins: assumes `toPath(name)` does not start with `name` unless it is `[name]`, as lodash's parsing ensures; it is stated for two consecutive parameters.
- Lodash.Assign: writes under a non-index key to an array, and any write to a Buffer, leave the value as it was. Named array properties and Buffer byte coercion are not modelled. The JSON branch never creates a Buffer, and it starts at an array only where the next key is an index.
- Lodash.ReadPathSetIn: stated only for paths along which every level is an object (no index keys after the first, no array or Buffer in the way).
- Inherited properties (`toString`, `hasOwnProperty`, …) are not modelled: an object has only its own entries. Property reads on primitives, arrays and Buffers other than index reads give `undefined`.
- The ordering JavaScript gives integer-like object keys is not modelled. Objects keep insertion order.
- Strings are sequences of Unicode scalar values, not UTF-16 code units. A character outside the Basic Multilingual Plane is one index key here and two in JavaScript, and lone surrogates are not modelled.
- Lower-casing of header names covers ASCII only. Unicode case mappings, such as the Kelvin sign, are not modelled.
- `isPlainObject` is taken to hold exactly for plain objects. Instances of other classes (Date, Map, …) are not modelled.
- `deepCopy` is a value copy. `setSafeObjectProperty` is a plain property write; its own guard keys are not modelled.
- The internals of `FormData` are not modelled: a form is the ordered list of its `append` calls.
- The caller's `defaultReducer` is an arbitrary function from the accumulator and parameter to a result. `formatPrivateKey` is an arbitrary string function.
- Numbers are integers. A Buffer's bytes become numbers. The node version is a real number. JavaScript `Number` rounding is not modelled.
- Sparse-array holes read as `undefined` and are modelled as `undefined` entries.
- `getOAuth2AdditionalParameters` and `binaryContentTypes` are constant tables with no logic, and are not part of this model.
- Type checks that TypeScript's types would have excluded are not modelled: a non-array `secrets` argument, and parameters whose `name` or `value` is not a string.
- `typeOptions.password` is reduced to its truthiness, a boolean on each property.
