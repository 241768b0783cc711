# OJS front-end utilities, modelled in Dafny

This project models the runtime logic of the OJS TypeScript front end. That logic lives in two small
files.

- `src/utils/api.ts` has three parts.
  - `getLocalizedString` picks a text from a locale-to-text record: the preferred locale, then the fallback locale, then the first stored text.
  - `fetchFromApi` prepares a request. It builds the URL from the registry's base URL and the endpoint with its leading slashes stripped. It defaults `Content-Type` to JSON and attaches the CSRF token. It turns a non-2xx response into an error whose message is the server's or a status message. The exception is an error body that parses to JSON `null`: there the code as written throws a TypeError instead. The model records this under "## Findings", and its response handling (`Api.CompleteFetch`, `Api.FetchFromApi`, `Api.FetchSubmission`, `Api.FetchCurrentUser`) uses the corrected behaviour, which gives the status message.
  - `fetchSubmission` and `fetchCurrentUser` project `.data` out of the response. `fetchCurrentUser` swallows every failure into `null`.
- `src/utils/hello.ts` holds `sayHello`, the nested-property reader `getNested` (split the path on `.` and fold a property read over it), the type guards `isObject` and `isString`, and `getCurrentUsername`.

The global `pkp.registry` is passed in explicitly as `Option<Pkp.Registry>`, where `None` stands for a `pkp` or `registry` that is `null` or `undefined` (what `?.` tolerates). The network is a parameter too: a function `Request -> Exchange` from the prepared request to what came back.

Files:

- `wrappers.dfy`: `Option`, `Result`.
- `js_value.dfy` (module `JsValue`): JSON-like values plus `undefined`. It covers truthiness, `typeof`, `Array.isArray`, `instanceof String`, the property read `v[key]` (a TypeError on `undefined`/`null`; array and string indices; `length`) and the decimal rendering that template literals use for numbers. The rendering comes with its inverse, the canonical-index parser.
- `pkp.dfy` (module `Pkp`): the registry and the user record.
- `hello.dfy` (module `Hello`) and `api.dfy` (module `Api`): the two source files.

The doc comment of `getLocalizedString` (src/utils/api.ts:76-82) differs from its code in two places, and the model follows the code:

- The comment says the fallback locale defaults to the primary locale (line 80), but the default is the fixed `'en'` (line 86): `Api.DefaultLocale`.
- The comment says the result is an empty string if the text is not found (line 81), but when neither locale gives a non-empty text the first stored text is returned (lines 101-102). That text is returned even when it is empty and later texts are not (`LocalizedExamples` shows `{fr: "", de: "Hallo"}` with `fr` preferred giving `""`). A preferred or fallback text counts as found only when it is non-empty (lines 91, 96).

## Model

| member | source | states |
|---|---|---|
| JsValue.Get | src/utils/hello.ts:26 | Property read `v[key]`: fails (TypeError) exactly on `undefined` and `null`; on an object it is the own property or `undefined` |
| JsValue.Truthy | src/utils/hello.ts:22-26 | The falsy values are exactly `undefined`, `null`, `false`, `0` and `""` (the coercions of `!obj`, `acc &&`, the logical or, and `if (...)`) |
| JsValue.TypeOf | src/utils/hello.ts:48-53 | `typeof` is `object` exactly for `null`, boxed strings, arrays and objects, and `string` exactly for primitive strings |
| JsValue.StringProperty | src/utils/hello.ts:26 | A string's `length` is its length; any other defined property is a one-character string |
| JsValue.GetStringIndex | src/utils/hello.ts:26 | Reading a string by the decimal rendering of an in-range index gives the character at that index |
| JsValue.GetArrayIndex | src/utils/hello.ts:26 | Reading an array by the decimal rendering of an in-range index gives that element |
| JsValue.NatToString | src/utils/api.ts:41 | `${n}` for a natural number: non-empty, digits only, leading `0` only for zero |
| JsValue.IntToString | src/utils/api.ts:58 | `${n}` for an integer: a `-` exactly when negative, followed by the rendering of the magnitude |
| JsValue.CanonicalIndex | src/utils/hello.ts:26 | A key names an index only if it is a non-empty digit string |
| JsValue.CanonicalIndexOfNatToString | src/utils/hello.ts:26 | Parsing the rendering of an index gives the index back |
| JsValue.NatToStringOfCanonicalIndex | src/utils/hello.ts:26 | Every index key is the rendering of the index it names (the other direction of the round trip) |
| Hello.SayHello | src/utils/hello.ts:6-8 | The greeting is `Hello, `, then the name, then `!`, and has length of the name plus 8 |
| Hello.SayHelloDefault | src/utils/hello.ts:6 | With the default argument the greeting is `Hello, World!` |
| Hello.GreetingRoundTrip | src/utils/hello.ts:6-8 | The name can be read back from its greeting, and only that name gives that greeting |
| Hello.Split | src/utils/hello.ts:24-25 | `split('.')` gives one more segment than there are dots, and no segment contains a dot (empty segments are kept) |
| Hello.JoinSplit | src/utils/hello.ts:25 | Joining the segments with `.` gives back the path |
| Hello.SplitJoin | src/utils/hello.ts:25 | Splitting a join of dot-free segments gives back the segments |
| Hello.SplitDotted | src/utils/hello.ts:25 | A path `k.rest` splits into `k` followed by the segments of `rest` |
| Hello.Fold | src/utils/hello.ts:24-26 | `reduce` over no keys leaves the object as it is; a falsy accumulator with keys left ends in `undefined` |
| Hello.Step | src/utils/hello.ts:26 | The reduce callback yields `undefined` for a falsy accumulator and otherwise the property read, which cannot throw |
| Hello.GetNested | src/utils/hello.ts:17-29 | The default when `obj` is falsy or the fold yields `undefined`, otherwise the folded value unchanged |
| Hello.FoldUndefined | src/utils/hello.ts:26 | Once the lookup is `undefined`, it stays `undefined` for any remaining keys |
| Hello.FoldAppend | src/utils/hello.ts:26 | Folding over two key sequences in a row is folding over their concatenation |
| Hello.GetNestedFalsyObject | src/utils/hello.ts:22 | A null, undefined or other falsy `obj` gives the default |
| Hello.GetNestedFalsyIntermediate | src/utils/hello.ts:24-28 | If the value reached before some segment is falsy, the result is the default |
| Hello.GetNestedSingleKey | src/utils/hello.ts:24-28 | For a one-segment path the result is `obj[key]` when defined, even `0`, `""`, `false` or `null`, else the default |
| Hello.GetNestedDotted | src/utils/hello.ts:17-29 | `getNested(o, "k.rest", d)` equals `getNested(o[k], "rest", d)` for a truthy `o` |
| JsValue.IsArray | src/utils/hello.ts:48 | `Array.isArray` holds only for values whose `typeof` is `object` and that are truthy |
| Hello.IsObject | src/utils/hello.ts:47-49 | True exactly for plain objects and boxed strings: not null, not an array, not a primitive |
| JsValue.IsStringInstance | src/utils/hello.ts:53 | `instanceof String` holds only for truthy non-array objects, even when the boxed string is empty |
| Hello.IsString | src/utils/hello.ts:52-54 | True exactly for primitive strings and `String` objects |
| Hello.ObjectAndString | src/utils/hello.ts:47-54 | Both guards hold exactly for boxed strings |
| Hello.GetCurrentUsername | src/utils/hello.ts:42-44 | The registry user's username when a user is present, otherwise null |
| Pkp.CurrentLocale | src/utils/api.ts:85 | `pkp?.registry?.currentLocale` is kept exactly when present and non-empty, and is then the registry's value |
| Api.Lookup | src/utils/api.ts:91-96 | `record[locale]` is the text of an entry with that key, and is missing exactly when no entry has the key |
| Api.LookupAt | src/utils/api.ts:91-96 | In a record with distinct keys every entry is what its key looks up |
| Api.DefaultPreferredLocale | src/utils/api.ts:85 | The preferred-locale default is the registry's current locale when non-empty, otherwise `en` |
| Api.GetLocalizedString | src/utils/api.ts:83-103 | `""` for an undefined record; the result is always `""` or one of the record's texts |
| Api.LocalizedPreferred | src/utils/api.ts:91-93 | A non-empty preferred text is returned, whatever the other entries hold |
| Api.LocalizedFallback | src/utils/api.ts:96-98 | With the preferred text missing or empty, a non-empty fallback text is returned |
| Api.LocalizedFirst | src/utils/api.ts:100-102 | Otherwise the first stored text is returned, or `""` for an empty record |
| Api.LocalizedNonEmpty | src/utils/api.ts:88-102 | The result is non-empty iff the preferred or fallback locale has a non-empty text or the first text is non-empty |
| Api.LocalizedExamples | src/utils/api.ts:83-103 | Worked cases of each tier, including an empty first text hiding a later non-empty one |
| Pkp.ApiBaseUrl | src/utils/api.ts:17 | `pkp?.registry?.apiBaseUrl` is kept exactly when present and non-empty, and is then the registry's value |
| Api.BaseUrl | src/utils/api.ts:17 | `apiBaseUrl` when non-empty, otherwise `/api` |
| Api.StripLeadingSlashes | src/utils/api.ts:18 | Removes exactly the leading run of slashes: the endpoint is that run followed by the result, and the result does not start with `/` |
| Api.BuildUrl | src/utils/api.ts:18 | The URL is the base, then one `/`, then something that does not start with `/` |
| Api.StripIdempotent | src/utils/api.ts:18 | Stripping twice is stripping once |
| Api.StripSlashes | src/utils/api.ts:18 | Any number of extra leading slashes is stripped away |
| Api.UrlHasOneSlash | src/utils/api.ts:18 | The URL is base, one `/`, and the endpoint as written (without leading slashes), however many slashes it had |
| Api.Headers.constructor | src/utils/api.ts:21 | `new Headers(init)` holds exactly the caller's headers |
| Api.Headers.Has | src/utils/api.ts:22 | `headers.has(name)` holds exactly when a header of that name is stored |
| Api.Headers.Set | src/utils/api.ts:23 | `set` adds or replaces one header and leaves the others |
| Pkp.CsrfToken | src/utils/api.ts:27-28 | `pkp?.registry?.csrfToken` is kept exactly when present and non-empty, and is then the registry's value |
| Api.DefaultedHeaders | src/utils/api.ts:21-29 | The header names sent are the caller's, plus Content-Type, plus X-Csrf-Token exactly when a non-empty token is present |
| Api.HeaderDefaults | src/utils/api.ts:21-29 | Content-Type defaults to `application/json` and a caller's value is kept. `X-Csrf-Token` is exactly the token iff the token is non-empty, and otherwise stays as the caller set it. No other header changes |
| Api.HeaderDefaultsIdempotent | src/utils/api.ts:21-29 | Applying the defaults twice is applying them once |
| Api.RequestFor | src/utils/api.ts:32-36 | `fetch` gets the caller's method and body, a Content-Type header, `credentials: 'include'`, and a URL starting with the base and `/` |
| Api.PrepareRequest | src/utils/api.ts:17-36 | The imperative preparation (URL, in-place `Headers` updates, `credentials: 'include'`, other options passed through) produces the specified request |
| Api.IsOk | src/utils/api.ts:38 | `response.ok` holds exactly for statuses in the 2xx class |
| Api.ErrorBody | src/utils/api.ts:39 | A parse failure becomes `{}`, so reading `message` of the error body throws only when the body parsed to `null` |
| Api.StatusMessage | src/utils/api.ts:41 | The fallback message is the fixed prefix followed by digits that read back as the status |
| Api.ErrorArgumentAsWritten | src/utils/api.ts:39-42 | As written, the error argument throws exactly when the error body parses to `null` |
| Api.ErrorArgument | src/utils/api.ts:39-42 | The body's `message` when truthy, otherwise `API request failed with status <status>` |
| Api.NullErrorBodyThrows | src/utils/api.ts:39-41 | A `null` error body throws a TypeError as written; the corrected version gives the status message |
| Api.ErrorArgumentAgrees | src/utils/api.ts:39-42 | For every other body the as-written and corrected versions agree |
| Api.CompleteFetch | src/utils/api.ts:38-45 | Resolves exactly on a 2xx status with a parseable body, to that body unchanged. A network failure, a non-2xx status and a malformed 2xx body each give their own rejection. The non-2xx branch uses the corrected `ErrorArgument`, so a `null` error body gives the status message where the code as written throws (see Findings) |
| Api.CompleteFetchExamples | src/utils/api.ts:38-45 | A 200 body comes back unchanged; a 404 with a message rejects with it; a 500 with an unparsable body rejects with the status message |
| Api.FetchFromApi | src/utils/api.ts:13-50 | The call's outcome is the completion of whatever the network answers to the prepared request. Through `CompleteFetch`, this includes the corrected handling of a `null` error body (see Findings) |
| Api.DataOf | src/utils/api.ts:57-60 | `response.data`: rejections pass through unchanged, a `null` response throws a TypeError, an object gives its `data` property or `undefined` |
| Api.IdToString | src/utils/api.ts:58 | `${submissionId}` for an ID that is a number or a string: the integer's decimal rendering, with `-` exactly when negative, or the string itself |
| Api.SubmissionEndpoint | src/utils/api.ts:58 | `submissions/` followed by the rendered ID, never starting with a slash |
| Api.FetchSubmission | src/utils/api.ts:57-60 | The `data` of the response to `submissions/<id>`, with failures propagated |
| Api.SubmissionUrl | src/utils/api.ts:58 | `fetchSubmission` requests `<base>/submissions/<id>` |
| Api.CurrentUserOf | src/utils/api.ts:66-74 | Every failure, including reading `data` of `null`, becomes `null`; success gives `response.data` |
| Api.FetchCurrentUser | src/utils/api.ts:66-74 | Never rejects: the user is `CurrentUserOf` the response to `users/me` |
| Api.CurrentUserUrl | src/utils/api.ts:68 | `fetchCurrentUser` requests `<base>/users/me` |

## Findings

| source | as written | input that shows it | evidently intended | confidence | as-written member | corrected member |
|---|---|---|---|---|---|---|
| src/utils/api.ts:39-41 | `error.message` is read from whatever the error body parsed to, and the `.catch(() => ({}))` guard only covers parse failures | a 500 response whose body is the JSON text `null`: reading `message` of `null` throws a TypeError, so the rejection carries that TypeError | the status message `API request failed with status 500`, as for an unparsable body | medium, not executed | Api.ErrorArgumentAsWritten (shown by Api.NullErrorBodyThrows) | Api.ErrorArgument (used by Api.CompleteFetch; Api.ErrorArgumentAgrees) |

## Left out

- The `fetch` call, `credentials` handling by the browser, Promise/async sequencing and `response.json()` parsing are network I/O. They are replaced by the `network: Request -> Exchange` parameter and the `Body` outcome (`Parsed` or `Unparsable`).
- `console.error` logging (src/utils/api.ts:47, 71) is a side effect with nothing to state.
- Header-name case folding of `Headers`: headers are a map keyed by lower-cased names, and callers' header maps are assumed to use lower-case names.
- `RequestInit` fields other than `method` and `body` (mode, cache, signal, ...) are passed through by the source and are not modelled.
- Numbers are integers: floating point, `NaN` and `-0` (both falsy in JavaScript) and the rendering of non-integral IDs are not modelled.
- Inherited (prototype) properties such as `toString` or `constructor` are not modelled. `v[key]` sees only own properties, array and string indices, and `length`, so a locale or path key naming a prototype property reads as missing.
- JsValue.StringProperty: a string's `length` and indices count Unicode characters, while JavaScript counts UTF-16 code units, so the model differs for text outside the Basic Multilingual Plane (an emoji has length 1 here and 2 in JavaScript, which changes `getNested(o, "a.length", d)`).
- Api.ErrorArgument: the argument passed to `new Error(...)` is kept as a JSON value. The `Error` constructor's string conversion of a non-string `message` is not modelled.
- Api.LocalizedString: the record is a sequence of pairs in `Object.values` order. The JavaScript rule that lists integer-like keys first is not modelled (locale codes are not integer-like), and texts are strings only.
- Hello.GetNested: the default value of type `T` is a `Value`.
- Hello.GetCurrentUsername: the username is typed as a string, so a `null` or missing username at run time, which `??` would also turn into `null`, is not modelled.
- src/types/php/core.d.ts and src/types/global.d.ts are ambient type declarations with no runtime behaviour. Only the registry and user shapes are borrowed (`Pkp.Registry`, `Pkp.User`). The `ApiResponse`/`ApiError` shapes are not checked by the code and are not modelled: a response is any JSON value.
- vite.config.ts is build configuration and is not part of this model.
