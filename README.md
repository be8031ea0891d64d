# authsignal-ruby in Dafny

A model of the core of the Authsignal Ruby SDK, with proofs about it:

- **Webhook verification** (`Authsignal::Webhook`). Covers:
  - parsing the `t=<timestamp>,v2=<signature>[,v2=...]` header
  - the freshness window
  - the expected signature: unpadded Base64 of an HMAC-SHA256 over `"<timestamp>.<payload>"`
  - matching it against every candidate
  - decoding the payload only once every check has passed
- **The JSON response middleware.** It strips the top-level `actionCode` and rewrites every key, at every depth, from camelCase to snake_case (`underscore`, `transform_to_snake_case`, `on_complete`).
- **The JSON request middleware.** It rewrites the top-level keys of an outgoing body from snake_case to camelCase (`snake_to_camel`, `camelcase_keys`, `on_request`).
- **`Authsignal::Configuration`.** Option values stored over fixed defaults.
- **Response handling in `Authsignal`.** Covers:
  - `handle_response` and its success and error halves
  - the generated `!` methods, which raise `ApiError`
  - the lazily created configuration object
- **`Authsignal::ApiError`.** Status defaulting and `to_s`.

Files:

| file | module | contents |
|---|---|---|
| `results.dfy` | `Results` | `Option` and `Result` |
| `ruby_string.dfy` | `RubyString` | the Ruby string operations the core relies on: `split`, `join`, `delete`, ASCII `downcase`/`capitalize`, `Integer#to_s` and the lenient `String#to_i` |
| `base64.dfy` | `Base64` | `strict_encode64`, and the same with its padding deleted |
| `json.dfy` | `Json` | parsed JSON values; Hashes as insertion-ordered association lists with `[]`, `[]=`, `delete`, `transform_keys` |
| `webhook.dfy` | `Webhook` | the header parser, the gates, the `Webhook` class |
| `webhook_examples.dfy` | `WebhookExamples` | headers from the SDK's test suite and Ruby parsing corner cases |
| `json_response.dfy` | `JsonResponse` | `underscore`, `transform_to_snake_case`, `on_complete` |
| `json_request.dfy` | `JsonRequest` | `snake_to_camel`, `camelcase_keys`, `on_request` |
| `key_examples.dfy` | `KeyExamples` | worked keys for both converters |
| `configuration.dfy` | `Configuration` | the `Configuration` class |
| `api_error.dfy` | `ApiError` | the error record and its rendering |
| `authsignal.dfy` | `Authsignal` | the response handlers, the `!` wrappers, the configuration singleton |

Modelling conventions:

- **Exceptions are values.** `construct_event` returns a `Result` whose error is `InvalidSignatureError(reason)` or `ParserError`. A call on the `Authsignal` module has an `Outcome`: a returned hash, a raised `ApiError`, or the `NoMethodError` of calling `merge` on a String body.
- **Collaborators are parameters.** HMAC-SHA256 is `hmac: (string, string) -> Digest`, where a digest is 32 bytes. `JSON.parse` is `parse: string -> Option<Json>` (`None` stands for `JSON::ParserError`). `to_json` and `inspect` are functions passed in. `Time.now.to_i` is the integer `now`.
- **Integers are Ruby Integers**, so they are unbounded.
- **The two behave the same.** `transform_keys!` and `transform_keys` are both a left fold of `[]=` over the entries: a key renamed like an earlier one takes the later value and keeps the earlier position. The bang form deletes each old String key before storing its Symbol, so it ends the same way.
- **Imperative code stays imperative.**
  - `parse_signature`, the matching loop, and the hash loops of `transform_to_snake_case` are methods with loops. Each is proved equal to a specification function.
  - `Webhook`, `Configuration` and the module's configuration holder are classes.

Three details of the header parse:

- The timestamp is an unbounded Ruby Integer.
- Each fragment is split on every `=`. So `v2=a=b` is skipped, and `v2=abc=` yields `abc`.
- `t=abc` reads as timestamp 0, because `to_i` reads a non-number as 0, and it passes the format check.

## Model

| member | source | states |
|---|---|---|
| Webhook.Webhook.constructor | lib/authsignal/webhook.rb:15-17 | the webhook keeps the secret it was given |
| Webhook.Webhook.ParseSignature | lib/authsignal/webhook.rb:53-77 | the fragment loop returns exactly the header parse: nil, timestamp -1 or no v2 signature is the format error, otherwise the timestamp and the candidates |
| Webhook.ScanAppend | lib/authsignal/webhook.rb:61-70 | over consecutive header pieces, the candidates accumulate in header order and the last t fragment sets the timestamp |
| Webhook.IgnoredFragment | lib/authsignal/webhook.rb:62-69 | a fragment that is neither a two-part t nor a two-part v2 can be removed without changing the parse |
| Webhook.ParseFormattedHeader | lib/authsignal/webhook.rb:53-77 | a header written as t=<to_s of timestamp> followed by v2=<sig> fragments parses back to that timestamp and those candidates, in order |
| Webhook.ExpectedSignature | lib/authsignal/webhook.rb:28-35 | the expected signature is Base64 of the HMAC over the decimal timestamp, a dot and the payload, with padding removed: 43 characters, none of them `=` or `,` |
| Base64.DeletePadding | lib/authsignal/webhook.rb:35 | deleting `=` from strict_encode64 leaves the unpadded encoding |
| Base64.EncodeUnpadded | lib/authsignal/webhook.rb:35 | the unpadded encoding is ceil(4n/3) characters, all from the Base64 alphabet |
| Base64.Encode | lib/authsignal/webhook.rb:35 | strict_encode64 is 4 characters per started 3-byte group |
| Webhook.FindMatch | lib/authsignal/webhook.rb:37-44 | the flag-and-break loop reports a match exactly when some candidate equals the expected signature |
| Webhook.Webhook.ConstructEvent | lib/authsignal/webhook.rb:19-51 | construct_event returns what the four gates define, in order: format, freshness, signature, then the parse of the payload |
| Webhook.GateOrder | lib/authsignal/webhook.rb:19-50 | each outcome happens exactly when every earlier gate passed and its own gate failed, so a stale header with a bad signature reports the timestamp |
| Webhook.ParseOnlyAfterVerification | lib/authsignal/webhook.rb:46-50 | on success the result is the parse of the unmodified payload; signature errors do not depend on the parser; format and freshness errors do not depend on the HMAC |
| Webhook.Verify | lib/authsignal/webhook.rb:19-51 | a nil header is the format error; an event is returned only when the header parsed, is fresh, carries the expected signature, and the payload parses to that event |
| Webhook.Message | lib/authsignal/webhook.rb:25 | each reason's message is a non-empty sentence ending in a full stop |
| Webhook.MessagesDistinct | lib/authsignal/webhook.rb:25 | the three reasons raise three different messages (the other two are at webhook.rb:47 and webhook.rb:82) |
| Webhook.VerifyFormatted | lib/authsignal/webhook.rb:19-51 | a well-formed header reaches the later gates with exactly the timestamp and candidates written in it |
| Webhook.AcceptsSignedHeader | lib/authsignal/webhook.rb:37-50 | a fresh header that contains the expected signature at any position is accepted with the parsed payload |
| Webhook.ExtraCandidateIgnored | lib/authsignal/webhook.rb:37-48 | inserting a non-matching candidate anywhere does not change the outcome |
| Webhook.WrongLengthNeverMatches | lib/authsignal/webhook.rb:35-48 | a fresh header whose candidates all have a length other than 43 is a mismatch for every HMAC |
| Webhook.FreshnessBoundary | lib/authsignal/webhook.rb:24-26 | with tolerance > 0 the timestamp exactly tolerance minutes old is accepted and the one a second older is stale; tolerance <= 0 disables the check |
| Webhook.FreshnessMonotone | lib/authsignal/webhook.rb:24-26 | a timestamp newer than a fresh one is fresh, a later clock keeps a stale timestamp stale, and a wider tolerance accepts whatever a narrower positive one does |
| RubyString.Split | lib/authsignal/webhook.rb:61-62 | no field holds the separator |
| RubyString.SplitEnds | lib/authsignal/webhook.rb:61-62 | the last field is never empty, and an empty string gives no field |
| RubyString.ToI | lib/authsignal/webhook.rb:66 | a string without any digit reads as 0 |
| RubyString.DecimalPrefixSkipped | lib/authsignal/webhook.rb:66 | to_i skips a `0d` prefix in front of the digits and reads their decimal value |
| RubyString.ToIOfIntToS | lib/authsignal/webhook.rb:28 | to_i reads back every integer that to_s wrote, so the HMAC input's timestamp is the parsed one |
| RubyString.SplitJoin | lib/authsignal/webhook.rb:61-62 | split undoes join when no field holds the separator and the last field is not empty |
| WebhookExamples.HeaderWithoutEqualsRejected | lib/authsignal/webhook.rb:61-74 | a header with no `=`, such as "123", is the format error |
| WebhookExamples.ParseTwoFragments | lib/authsignal/webhook.rb:61-74 | a two-fragment header parses by two steps of the fragment rule |
| WebhookExamples.NonNumericTimestampReadsAsZero | lib/authsignal/webhook.rb:66 | t=abc gives timestamp 0 and passes the format check |
| WebhookExamples.SentinelTimestampRejected | lib/authsignal/webhook.rb:72-74 | a header whose timestamp is -1 is the format error even with a candidate |
| WebhookExamples.TrailingEqualsKept | lib/authsignal/webhook.rb:62-63 | a trailing `=` after a candidate is dropped by split and the header still parses |
| WebhookExamples.DoubleEqualsSkipped | lib/authsignal/webhook.rb:62-63 | a v2=a=b fragment has three parts and is neither a timestamp nor a candidate |
| WebhookExamples.StaleHeaderReportsTimestamp | lib/authsignal/webhook.rb:24-26 | the test suite's header with timestamp 1630000000 and a bad signature reports the timestamp error once more than five minutes have passed |
| WebhookExamples.InvalidSignatureMismatch | lib/authsignal/webhook.rb:37-48 | a fresh header whose only candidate is "invalid_signature" is a mismatch for every HMAC |
| JsonResponse.UnderscoreFixedPoint | lib/authsignal/middleware/json_response.rb:21-28 | underscore returns its key unchanged exactly when the key has no upper-case letter, no `-` and no `::` |
| JsonResponse.Underscore | lib/authsignal/middleware/json_response.rb:21-28 | whatever the key, the result has no upper-case letter, no `-` and no `::` |
| JsonResponse.UnderscoreIdempotent | lib/authsignal/middleware/json_response.rb:21-28 | underscore applied twice equals underscore applied once |
| JsonResponse.ReplaceDoubleColon | lib/authsignal/middleware/json_response.rb:23 | after the `::` replacement no `::` is left, and no upper-case letter or dash is introduced |
| JsonResponse.ReplaceDoubleColonAppend | lib/authsignal/middleware/json_response.rb:23 | the first `::` becomes `/` and the colon-free text before it is copied unchanged |
| JsonResponse.DashToUnderscore | lib/authsignal/middleware/json_response.rb:25 | tr turns each dash into `_` and keeps every other character in place |
| JsonResponse.InsertAfterLowerChar | lib/authsignal/middleware/json_response.rb:24 | after a lower-case letter or digit, `_` is inserted exactly when an upper-case letter follows |
| JsonResponse.InsertAfterUpperChar | lib/authsignal/middleware/json_response.rb:24 | after an upper-case letter not followed by another upper-case letter, nothing is inserted |
| JsonResponse.InsertAfterWord | lib/authsignal/middleware/json_response.rb:24 | inside a lower-case word or a capitalised word nothing is inserted, and one `_` goes after it when a capital follows |
| JsonResponse.InsertAfterHumps | lib/authsignal/middleware/json_response.rb:24 | on a camelCase key, the underscore insertion puts `_` exactly between the words |
| JsonResponse.UnderscoreCamelWords | lib/authsignal/middleware/json_response.rb:21-28 | a camelCase key made of a lower-case word and capitalised words becomes those words lower-cased and joined by `_` |
| KeyExamples.IsEnrolled | lib/authsignal/middleware/json_response.rb:21-28 | isEnrolled becomes is_enrolled |
| KeyExamples.StateUpdatedAt | lib/authsignal/middleware/json_response.rb:21-28 | stateUpdatedAt becomes state_updated_at |
| JsonResponse.SnakeCase | lib/authsignal/middleware/json_response.rb:30-42 | the conversion keeps arrays as arrays and objects as objects |
| JsonResponse.SnakeCaseNormalises | lib/authsignal/middleware/json_response.rb:30-42 | after the conversion no key at any depth needs rewriting |
| JsonResponse.SnakeCaseKeepsSnakeCased | lib/authsignal/middleware/json_response.rb:30-42 | a value whose keys need no rewriting at any depth is returned unchanged |
| JsonResponse.SnakeCaseIdempotent | lib/authsignal/middleware/json_response.rb:30-42 | converting twice equals converting once |
| JsonResponse.TransformToSnakeCase | lib/authsignal/middleware/json_response.rb:30-42 | the recursive method with its loops computes the conversion exactly: arrays elementwise, hashes with keys renamed and values converted, anything else unchanged |
| JsonResponse.TransformItems | lib/authsignal/middleware/json_response.rb:32-33 | the array map keeps length and order and converts each element |
| JsonResponse.RenameKeys | lib/authsignal/middleware/json_response.rb:35 | transform_keys! stores each entry in order under its underscored key |
| JsonResponse.TransformHash | lib/authsignal/middleware/json_response.rb:34-38 | renaming the keys, then replacing each value by its conversion, gives the converted object |
| Json.TransformKeysMapValues | lib/authsignal/middleware/json_response.rb:35-38 | renaming keys and converting values commute, so rename-then-convert equals convert-then-rename |
| Json.TransformKeysLastWins | lib/authsignal/middleware/json_response.rb:35 | when two keys are renamed alike, the later entry's value is kept |
| Json.TransformKeys | lib/authsignal/middleware/json_response.rb:35 | the renamed hash has unique keys, whatever collisions the renaming causes |
| Json.TransformKeysKeys | lib/authsignal/middleware/json_response.rb:35 | the keys of the renamed hash are exactly the renamed old keys |
| Json.TransformKeysEntries | lib/authsignal/middleware/json_response.rb:35 | each entry of the renamed hash is an old entry with its key renamed and its value unchanged |
| Json.Put | lib/authsignal/middleware/json_response.rb:37 | `[]=` stores the value under the key, keeps every other key's value, and appends a new key at the end |
| Json.PutInPlace | lib/authsignal/middleware/json_response.rb:37 | storing under an existing key replaces that one entry in its position and leaves every other entry as it was |
| Json.Delete | lib/authsignal/middleware/json_response.rb:12 | delete removes the key and leaves every other key's value |
| JsonResponse.OnComplete | lib/authsignal/middleware/json_response.rb:6-17 | on_complete leaves in the body what the response transformation defines |
| JsonResponse.ResponseBodyShape | lib/authsignal/middleware/json_response.rb:10-17 | an object body ends up keyed exactly by the underscored keys of its entries other than actionCode, snake-cased at every depth; a body that does not parse, or is not an object, is left as it was |
| JsonRequest.SnakeToCamel | lib/authsignal/middleware/json_request.rb:23-27 | snake_to_camel output has no `_` |
| JsonRequest.SnakeToCamelWithoutUnderscore | lib/authsignal/middleware/json_request.rb:23-27 | a key without `_` is returned unchanged |
| JsonRequest.SnakeToCamelWords | lib/authsignal/middleware/json_request.rb:23-27 | any key joined from `_`-free words whose last word is not empty (so `address_line_1`, `a_b`, `user_ID` too) becomes its first word followed by the later words capitalised |
| JsonRequest.CamelSnakeRoundTrip | lib/authsignal/middleware/json_request.rb:23-27 | underscore undoes snake_to_camel on snake_case keys whose later words have two or more characters |
| KeyExamples.OobChannel | lib/authsignal/middleware/json_request.rb:23-27 | oob_channel becomes oobChannel |
| JsonRequest.CamelcaseKeys | lib/authsignal/middleware/json_request.rb:19-21 | the result has unique keys, exactly the snake_to_camel of the old keys |
| JsonRequest.CamelcaseKeysDistinct | lib/authsignal/middleware/json_request.rb:19-21 | when no two keys collide, each entry keeps its place and its value under its camelCase key |
| JsonRequest.CamelcaseKeysValues | lib/authsignal/middleware/json_request.rb:19-21 | every value in the result, nested objects included, is an original value unchanged |
| JsonRequest.RequestBody | lib/authsignal/middleware/json_request.rb:6-15 | nil stays nil; an object body is replaced by the JSON of its camelCased form; any other body passes through |
| Configuration.Configuration.constructor | lib/authsignal/configuration.rb:20-29 | a new configuration stores nothing |
| Configuration.Configuration.SetValue | lib/authsignal/configuration.rb:48-50 | set_value stores the value, reads of that key return it, and reads of every other key are unchanged |
| Configuration.Configuration.Get | lib/authsignal/configuration.rb:31-33 | `[]` returns the stored value if the key is present, even nil, and the default otherwise |
| Configuration.Configuration.Set | lib/authsignal/configuration.rb:35-37 | `[]=` stores the value under the key and nothing else |
| Configuration.Configuration.Option | lib/authsignal/configuration.rb:5-13 | the generated reader reads the option's symbol like `[]` |
| Configuration.Configuration.SetOption | lib/authsignal/configuration.rb:5-13 | the generated writer stores under the option's symbol like `[]=` |
| Configuration.Default | lib/authsignal/configuration.rb:24-28 | exactly api_url, retry and debug have a default, by name whether symbol or string: api_url the API URL, retry and debug false; every other name reads nil |
| Configuration.FreshDefaults | lib/authsignal/configuration.rb:24-28 | unset, api_url reads https://signal.authsignal.com/v1/, retry and debug read false, api_secret_key reads nil |
| Configuration.ReadAfterWrite | lib/authsignal/configuration.rb:40-50 | after a write the key reads the written value and every other key reads as before |
| Configuration.StoredNilHidesDefault | lib/authsignal/configuration.rb:40-46 | a stored nil is returned instead of the default |
| Configuration.SymbolAndStringApart | lib/authsignal/configuration.rb:40-46 | a value set under a symbol is not seen through the string of the same name |
| ApiError.New | lib/authsignal/api_error.rb:7-13 | a nil or false status becomes 500, any other status is kept; error and description are stored unchanged |
| ApiError.NewWithDefaultMessage | lib/authsignal/api_error.rb:7 | with three arguments the message is "An unexpected API error occurred" |
| ApiError.Interpolate | lib/authsignal/api_error.rb:16 | nil interpolates as the empty string, strings as themselves, integers as text that to_i reads back |
| ApiError.ToS | lib/authsignal/api_error.rb:15-17 | to_s starts with the message followed by " status: " |
| ApiError.ToSLayout | lib/authsignal/api_error.rb:16 | to_s is the message, then " status: ", ", error: " and ", description: " each followed by the interpolation of its field |
| ApiError.DefaultErrorText | lib/authsignal/api_error.rb:15-17 | an error with no status and no details renders as the default message, status 500 and empty error and description |
| Authsignal.HandleSuccess | lib/authsignal.rb:92-94 | a Hash body gains success? = true, overwriting any earlier value, and keeps every other entry; a String body fails with NoMethodError |
| Authsignal.HandleError | lib/authsignal.rb:96-103 | the error hash is returned, never raised, and its success? is false |
| Authsignal.HandleErrorHash | lib/authsignal.rb:96-99 | a failed response with a Hash body gives exactly status_code, success? false, error_code from error, error_description from error_description |
| Authsignal.HandleErrorText | lib/authsignal.rb:100-101 | a failed response with any other body gives exactly the status (500 when missing) and success? false |
| Authsignal.HandleResponse | lib/authsignal.rb:84-90 | handle_response dispatches on the response's success flag |
| Authsignal.Bang | lib/authsignal.rb:106-117 | a `!` method returns the hash when success? is truthy, otherwise raises ApiError built from status_code, error_code and error_description |
| Authsignal.BangRaisesOnFailure | lib/authsignal.rb:106-117 | a `!` call raises exactly when the response failed, with the default message, the status (500 when missing) and the body's error and error_description |
| Authsignal.BangPassesSuccess | lib/authsignal.rb:109-115 | a successful response passes through its `!` variant unchanged |
| Authsignal.BangMethodsExactly | lib/authsignal.rb:106-108 | m! is defined exactly for the public methods outside NON_API_METHODS |
| Authsignal.NoBangForNonApiMethods | lib/authsignal.rb:11-14 | setup, configuration and default_configuration get no `!`; the API methods and the attr_writer `configuration=` do |
| Authsignal.Settings.GetConfiguration | lib/authsignal.rb:20-22 | the configuration is created on first use and the same object is returned afterwards |
| Authsignal.Settings.SetConfiguration | lib/authsignal.rb:14 | the writer replaces the configuration object |
| Authsignal.Settings.Setup | lib/authsignal.rb:16-18 | setup yields the same object configuration returns |

## Left out

- HMAC-SHA256, `JSON.parse`, `to_json` and `inspect` are parameters. Their results are not computed, and the test suite's signature vectors are not reproduced.
- `Time.now` is the parameter `now`.
- The timing behaviour of the `==` comparison of signatures is not modelled, only its result.
- `JSON.parse(payload, symbolize_names: true)` returns Symbol keys. The model does not separate Symbol from String keys in JSON values. The middlewares' `to_sym` is therefore invisible.
- `ParseSignature` and `ConstructEvent` raise exceptions in Ruby. Here they return `Err`. The message text of each reason is given by `Webhook.Message`.
- `String#to_i` is modelled as: leading whitespace, then an optional sign, then an optional `0d`/`0D` prefix, then decimal digits with single `_` separators; a string with no digits at that point reads as 0. Whitespace is the ASCII set that `RubyString.IsSpace` lists.
- JSON numbers with a fraction or an exponent (such as `400.00`) have no `Json` variant. Only integers are represented, so such a number in a body is outside the model.
- `construct_event` also accepts a Float tolerance, which Ruby compares after multiplying by 60. The model's tolerance is an Integer; its default is `DefaultTolerance`, 5 minutes.
- Upper- and lower-casing are ASCII only. Ruby's `downcase` and `capitalize` also map non-ASCII letters.
- `JsonResponse.OnComplete` takes the body as a string. In Ruby, a nil body would make `JSON.parse` raise `TypeError`, which the middleware does not rescue.
- `KeyExamples`: acronyms such as `HTMLParser` are covered only by the definition of `underscore`, not by a worked example.
- `default_configuration` (lib/authsignal.rb:24-26) is not modelled. It calls `defaults` on a `Configuration`, which defines no such method.
- `Configuration` reads defaults through an OpenStruct. Names that are OpenStruct's own methods (such as `to_h`), and names ending in `=`, behave differently in Ruby. The model gives every name other than api_url, retry and debug a nil default.
- The API methods at lib/authsignal.rb:28-80 and the HTTP client behind them (lib/authsignal/client.rb) are network calls and are not modelled. The declaration of `track` at lib/authsignal.rb:71 is not valid Ruby.
- Faraday's `env` objects and middleware chaining are not modelled. Only the body transformation of each middleware is.
- Authsignal.HandleError: its own contract only says that a hash with success? false is returned. The exact hash is stated by `Authsignal.HandleErrorHash` and `Authsignal.HandleErrorText`.
