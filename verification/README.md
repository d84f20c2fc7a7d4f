# axios-http-client: URL normalization and client construction

This project models in Dafny the small core of `HttpClient`, a base class that
configures an axios instance bound to one base URL. Its only logic is
`normalizeUrl` and the constructor that feeds it. `normalizeUrl` does three
things in order:

1. it splits the URL on a scheme separator and keeps element `[1]`;
2. it collapses every run of two or more `/` into one, using the regular
   expression `/([\/])\1+/g`;
3. it puts `https://` or `http://` back in front, as the security flag says.

The repository ships two variants, and both are modelled:

- `dist/index.es.js` is the compiled class. Its flag is `useHttps`, and it
  splits on the scheme that flag selects (`DistHttpClient`).
- `src/http/http.ts` is the TypeScript class. Its flag is
  `isBaseEndpointSecure`, and it always splits on `https://` (`SrcHttpClient`).

Modules:

- `JsSplit` models `String.prototype.split` on a non-empty literal separator,
  and `split(...)[1]`.
- `SlashRuns` models the regex replacement the way a regex engine scans the
  string (`ReplaceSlashRuns`). It also holds a simpler reference definition
  (`Collapse`) that the replacement is proved equal to.
- `UrlNormalize` holds the three steps with the separator as a parameter.
- `JsObject` models JavaScript objects as maps and `__assign` (`Object.assign`)
  as a left-to-right fold of right-biased unions.
- `ClientInput` holds the template join `${baseUrl}/${endpoint}`, in which an
  omitted endpoint prints as `undefined`. It also holds the error the
  constructor throws.
- `DistHttpClient` and `SrcHttpClient` each hold one variant's `normalizeUrl`
  and constructor.

The code throws a `TypeError` when the separator is missing, because
`splittedUrl[1]` is then undefined. The model keeps that failure and adds no
validation of its own: `Normalize` returns `None`, and the constructors return
`Failure(ReplaceOnUndefined)`. There is no separate error type for a bad base
URL.

## Model

| member | source | states |
|---|---|---|
| ClientInput.TemplateText | src/http/http.ts:14 | a template literal prints a present endpoint as itself and an omitted one as `undefined`; the text is `undefined` exactly when the endpoint is omitted or is that very word |
| ClientInput.JoinedUrl | dist/index.es.js:33 | the URL handed to `normalizeUrl` is the base URL, then one `/`, then the endpoint's text, and ends in `/undefined` when the endpoint is omitted |
| JsSplit.Split | dist/index.es.js:36 | `split` gives at least one piece, at least two exactly when the separator occurs, no piece contains the separator, and the first cut is at the leftmost occurrence |
| JsSplit.SplitJoin | dist/index.es.js:36 | joining the pieces of a split with the separator gives back the original string |
| JsSplit.SplitSecond | dist/index.es.js:36-37 | `split(sep)[1]` is undefined exactly when `sep` does not occur; otherwise it is the text that runs from the end of the first occurrence to the next occurrence or to the end of the string |
| JsSplit.SplitSecondComplete | src/http/http.ts:20-21 | conversely, the text between the first occurrence and the next one (or the end) is always what `[1]` returns; text before the first occurrence and from the second one on is dropped |
| JsSplit.SplitSecondAfterPrefix | dist/index.es.js:36-37 | a string that starts with the separator and has no other occurrence of it splits to exactly the text after it |
| SlashRuns.ReplaceSlashRuns | dist/index.es.js:37 | after the replacement there are no two adjacent `/`, the non-slash characters are the same and in the same order, the length never grows, and the result starts with `/` exactly when the input does |
| SlashRuns.ReplaceSlashRunsIsCollapse | src/http/http.ts:21 | the greedy, left-to-right regex replacement equals the reference definition "drop every `/` followed by another `/`" on every input |
| SlashRuns.ReplaceSlashRunsFixpoint | src/http/http.ts:21 | a string is left unchanged exactly when it has no `//`, and it becomes strictly shorter exactly when it has one |
| SlashRuns.ReplaceSlashRunsIdempotent | dist/index.es.js:37 | collapsing twice equals collapsing once |
| UrlNormalize.Normalize | dist/index.es.js:35-41 | normalization succeeds exactly when the separator occurs; the output starts with the scheme the flag selects, the rest of it has no `//`, and it keeps the non-slash text of the kept segment |
| UrlNormalize.SchemeAbsentWithoutDoubleSlash | dist/index.es.js:36-40 | a string with no `//` cannot contain `https://` or `http://` |
| UrlNormalize.NormalizeIdempotent | dist/index.es.js:35-41 | when the separator is the scheme the flag prepends, normalizing the output again returns it unchanged |
| JsObject.Assign | dist/index.es.js:18-27 | `__assign` yields exactly the keys of the target and the sources; each key takes its value from the last source that has it, or from the target if no source has it |
| JsObject.OverlayOneKey | dist/index.es.js:33 | `__assign({baseURL: v}, config)` has exactly the keys of `config` plus `baseURL`; `config`'s values win, and `v` is kept only when `config` has no `baseURL` |
| JsObject.AssignOneSource | dist/index.es.js:33 | with a single source, `__assign` is the right-biased union of the two maps |
| DistHttpClient.NormalizeUrl | dist/index.es.js:35-41 | it splits on `https://` when `useHttps` is true and on `http://` otherwise, and fails exactly when that separator is missing; the output starts with the same scheme and has no `//` after it |
| DistHttpClient.NormalizeUrlIdempotent | dist/index.es.js:35-41 | for a fixed `useHttps`, normalizing the output again gives the same string |
| DistHttpClient.NormalizeUrlKeepsSegment | dist/index.es.js:36-37 | the output is the scheme followed by the collapsed text between the first separator and the next one (or the end) |
| DistHttpClient.TripleSlashAfterScheme | dist/index.es.js:37-40 | only the part after the scheme is free of `//`: `http:///a` normalizes to itself, with three slashes |
| DistHttpClient.InsecureExample | dist/index.es.js:35-41 | with the flag off, `http://h/v1//u` (the join of base URL `http://h` and endpoint `v1//u`) normalizes to `http://h/v1/u` |
| DistHttpClient.New | dist/index.es.js:30-34 | the constructor throws exactly when the joined URL lacks the separator; `useHttps` is true only when given as true; the axios options hold `baseURL` plus every key of `config`, `config`'s values win, and an unclashed `baseURL` is a normalized URL |
| DistHttpClient.UseHttpsDefaultsToFalse | dist/index.es.js:31 | an omitted `useHttps` behaves exactly like `false` |
| DistHttpClient.OmittedEndpointIsUndefinedText | dist/index.es.js:33 | an omitted endpoint behaves exactly like the endpoint text `undefined` |
| DistHttpClient.NewBaseUrl | dist/index.es.js:33 | the client's `baseURL` is `config.baseURL` when `config` has one, and otherwise the normalized join of base URL and endpoint |
| DistHttpClient.HttpBaseUrlAccepted | dist/index.es.js:31-37 | every `http://` base URL is accepted when `useHttps` is off or omitted |
| SrcHttpClient.NormalizeUrl | src/http/http.ts:19-26 | it always splits on `https://`, so it succeeds exactly when the input contains `https://`, whatever the flag; the output starts with the scheme the flag selects and has no `//` after it |
| SrcHttpClient.NormalizeUrlKeepsSegment | src/http/http.ts:20-25 | whatever the flag, the output is the flag's scheme followed by the collapsed text between the first `https://` and the next one (or the end) |
| SrcHttpClient.FlagOnlyChoosesScheme | src/http/http.ts:20-25 | the flag does not change whether the call succeeds or what is kept; with the flag off the output is `http://` followed by the same remainder |
| SrcHttpClient.HttpPrefixContainsHttps | src/http/http.ts:20 | `http://` followed by `x` contains `https://` exactly when `x` does |
| SrcHttpClient.HttpUrlRejected | src/http/http.ts:20-21 | an `http://` URL fails, whatever the flag, unless `https://` occurs later in it |
| SrcHttpClient.SecureNormalizeIdempotent | src/http/http.ts:19-26 | with the flag on, normalizing the output again gives the same string |
| SrcHttpClient.InsecureSecondCallFails | src/http/http.ts:19-26 | with the flag off, the output contains no `https://`, so normalizing it again fails with either flag |
| SrcHttpClient.New | src/http/http.ts:8-17 | the constructor throws exactly when the joined URL lacks `https://`; the flag is true only when given as true; the axios options hold `baseURL` plus every key of `config`, `config`'s values win, and an unclashed `baseURL` is a normalized URL |
| SrcHttpClient.NewBaseUrl | src/http/http.ts:13-16 | the client's `baseURL` is `config.baseURL` when `config` has one, since the spread comes after it, and otherwise the normalized join of base URL and endpoint |
| SrcHttpClient.SecureFlagDefaultsToFalse | src/http/http.ts:9 | an omitted `isBaseEndpointSecure` behaves exactly like `false` |
| SrcHttpClient.OmittedEndpointIsUndefinedText | src/http/http.ts:14 | an omitted endpoint behaves exactly like the endpoint text `undefined` |
| SrcHttpClient.HttpBaseUrlRejected | src/http/http.ts:13-21 | the constructor throws, whatever the flag, for every `http://` base URL whose joined tail (host, `/`, endpoint text) does not contain `https://` |
| SrcHttpClient.HttpBaseUrlExample | src/http/http.ts:13-21 | base URL `http://a` with endpoint `b` and the flag omitted makes the constructor throw |

## Left out

- The `get`, `post`, `put`, `patch` and `delete` methods (dist/index.es.js:42-56, src/http/http.ts:28-58) are left out. Each is a one-line call into axios and has no logic of its own.
- `axios.create` and the axios instance are a foreign library. The client is modelled only as the options map it receives.
- The TypeScript generics and the `Omit<..., 'baseURL'>` typing exist only at compile time. At run time a `baseURL` key in `config` still wins, and the model keeps that.
- The declaration files (dist/http/http.d.ts, dist/types/httpClient.d.ts, src/types/httpClient.ts) have no behaviour.
- DistHttpClient.New, SrcHttpClient.New: the model assumes that no subclass overrides `normalizeUrl`. The constructor calls it as `this.normalizeUrl(...)`, which is dispatched dynamically. The TypeScript class is abstract and the method is public, so a subclass could replace it and change the `baseURL` these members describe.
- JsSplit.Split: the separator must be non-empty. Both call sites pass a non-empty literal, so JavaScript's splitting of a string into single characters on an empty separator is not modelled.
- Flags other than `true`, `false` or omitted are not modelled. JavaScript would treat a `null` or other falsy value as off.
- An omitted `config` in the compiled JavaScript is not modelled. `__assign` skips an undefined source, so it would behave like an empty map. The TypeScript signature requires `config`.
- Option values are passed through and never inspected, so `JsValue` models them as a small set of kinds; `Number` holds an integer where JavaScript holds a double, such as `timeout: 1.5`. The insertion order of the options' keys is not modelled either, because nothing here depends on it.
- Objects are modelled as their own string-keyed properties. Prototype properties, symbol keys, getters and setters are not modelled.
- Strings are sequences of characters rather than UTF-16 code units. Every character the code inspects is ASCII, so this changes nothing.

## Findings

| source | as written | input that shows it | evidently intended | confidence | as-written member | corrected member |
|---|---|---|---|---|---|---|
| src/http/http.ts:20 | `normalizeUrl` always splits on `https://`, even when `isBaseEndpointSecure` is false, so `splittedUrl[1]` is undefined, and `.replace` throws, for any `http://` base URL whose joined URL has no later `https://` | `isBaseEndpointSecure` omitted, `baseUrl` `"http://a"`, `endpoint` `"b"`: the joined URL `http://a/b` has no `https://` and the constructor throws | split on the scheme that the flag selects, as the compiled `normalizeUrl` does at dist/index.es.js:36 | medium, not executed | SrcHttpClient.HttpBaseUrlRejected | DistHttpClient.HttpBaseUrlAccepted |
