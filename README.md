# z1-utils in Dafny

This project models three small, pure parts of the z1-utils front-end helper library and proves properties about them.

- **The URL and request builder** (src/api.js). It covers:
  - query-string encoding with `encodeURIComponent` (`encodeQueryParams`, `stringifyParam`, `encodeParam`, `encodeParamMap`);
  - path-template substitution (`withRouteParams`, `replaceParams`, `trim`, `notEmpty`);
  - resolving a dotted route name to a full URL through the `api` configuration section (`makeQueryUrl`);
  - the request record `{url, method, headers?, body?}` that `makeQuery` hands to the HTTP client (`getTypedParams`, `makeHeaders`, `withContent`, `makeBody`).
- **The action-creator factory** (src/actions.js). It covers `makeActionCreator`, status detection with `isStatusParam`, `makeActionPayload`, `fromArgs` and `withParams`, id merging with `withId`, and the `SUCCESS` and `ERROR` markers.
- **The configuration resolver** (src/config.js). It covers `getConfig`.

All three files are pure expression code. The model is therefore datatypes, functions and lemmas, in these modules:

| file | module | contents |
|---|---|---|
| outcomes.dfy | `Outcomes` | `Option`; `Result`, either a value or a thrown `Exception` |
| strings.dfy | `Strings` | `split` on one character, `join`, `trim` and `startsWith`, with the split/join round trips |
| values.dfy | `JsValues` | the JavaScript values the code handles, written out: truthiness, `typeof … === 'object'`, `String(v)`, `Object.getOwnPropertyNames`, spread and property reads |
| uri.dfy | `UriComponent` | `encodeURIComponent`: UTF-8 percent-encoding of everything outside the unescaped set (the unreserved characters of section 2.3 of RFC 3986 plus `!*'()`); a decoder, proved to be its left inverse |
| config.dfy | `Config` | `getConfig` |
| api.dfy | `Api` | query strings, path templates, `makeQueryUrl`, the request record |
| actions.dfy | `Actions` | `makeActionCreator` and its helpers |

Modelling choices:
- An object is modelled as the list of its own properties in enumeration order.
- A thrown JavaScript error becomes `Throw(e)`. The exception `e` is one of:
  - `UnknownRoute(route)`, for `makeQueryUrl(): неправильный роут …`;
  - `MissingRouteParam(name, path)`, for `withRouteParams(): не задан параметр …`;
  - `TypeError(…)`, for what the language itself throws, such as reading a property of `undefined` or `null`, or calling `split` on a non-string.
- External inputs become parameters:
  - the configuration object is an explicit parameter, given as its list of sections;
  - `cuid()` is the `id` value it would return;
  - `mapParams` is an optional total function on values.

Behaviour of the code worth knowing, which the model follows:
- `withParams` tests the name at a position, not the value (src/actions.js:104), so an `undefined` argument is still written under its name. See `Actions.UndefinedArgumentNamed`.
- A two-chunk route whose group is missing makes `endpoints[group][name]` throw a `TypeError`, not the "unknown route" error. A route whose endpoint is falsy throws `UnknownRoute`.
- `null` route parameters together with a template that has a placeholder throw a `TypeError` when the placeholder is read. A template without placeholders never reads its parameters, so `null` is accepted there.
- Substituted values are inserted as `Array.prototype.join` renders them (src/api.js:37-38): `String(value)`, unchanged, except that `null` gives the empty string. Only the template's segments are trimmed and non-empty. A value `''` gives an empty segment (`'/a/:x'` with `{x: ''}` builds `/a/`), a padded value stays padded, and a value holding `/` adds segments to the built path.

## Operations

Each modelled function of the source is a Dafny function. The table below names it, together with the lemmas
or contracts that say what it computes. A function whose meaning is stated by lemmas keeps only cheap ensures of its own, and its
rows in "## Model" are those lemmas.

| source | Dafny function | what it computes is stated by |
|---|---|---|
| `encodeQueryParams` (src/api.js:12-16) | `Api.EncodeQueryParams` | its own contract, `QueryRoundTrip`, `EncodeAsPieces`, `ScalarPairs`, `EmptyQuery` |
| `stringifyParam` (src/api.js:95-103) | `Api.StringifyParam`, `Api.Stringified` | `StringifiedAt`, `PropPiecesParse`, `StringifyAsPieces` |
| `encodeParam`, `encodeParamMap` (src/api.js:105-113) | `Api.EncodeParam` | `ParseEncodedParam`, `ArrayPieceRaw`, `EscapedSeparators` |
| `encodeURIComponent` | `UriComponent.EncodeURIComponent` | its own contract, `DecodeEncode`, `EscapeUpperHex` |
| `withRouteParams` (src/api.js:33-39) | `Api.WithRouteParams` | its own contract, `RouteParamsBound`, `RouteSubstitution`, `MissingParamRaised`, `MissingParamReported`, `StaticRoute` |
| `path.split('/').map(trim).filter(notEmpty)` (src/api.js:34-36) | `Api.Segments`, `Api.TrimAll`, `Api.NonEmpty` | `SegmentsShape`, `TrimAllAt`, `NonEmptyAppend`, `NonEmptySingle`, `SegmentsOfJoined` |
| `replaceParams` (src/api.js:115-129) | `Api.ReplaceParam`, `Api.ReplaceAll` | `ReplaceParamBound`, `ReplaceAllBound`, `ReplaceAllValues`, `ReplaceAllFirstError`, `ReplaceAllFailsAt`, `MissingParamChunk` |
| `makeQueryUrl` (src/api.js:41-55) | `Api.MakeQueryUrl`, `Api.ResolveEndpoint`, `Api.RouteTemplate`, `Api.QueryString` | `QueryUrlBuilt`, `QueryUrlShape`, `UnresolvedRouteThrows`, `ResolveUndotted`, `ResolveDotted`, `TwoChunksOnly`, the contracts of `RouteTemplate` and `QueryString` |
| `makeQuery` (src/api.js:64-74) | `Api.MakeQuery`, `Api.Destructure` | `RequestBuilt`, `RequestRules`, the contract of `Destructure` |
| `getTypedParams` (src/api.js:153-163) | `Api.GetTypedParams` | its own contract, `DefaultPlacement`, `MappedPlacement` |
| `makeHeaders`, `withContent` (src/api.js:131-138, 146-151) | `Api.MakeHeaders`, `Api.WithContent` | `HeaderRules`, `HeaderNames` |
| `makeBody` (src/api.js:140-144) | `Api.MakeBody` | `RequestRules` |
| `makeActionCreator` (src/actions.js:59-66) | `Actions.CreateAction`, `Actions.ActionObject` | their contracts, `NoArguments`, `StatusFirst`, `NamedPayload`, `NamedPayloadWithId`, `UnnamedPayload`, `ExtraArgumentsDropped`, with `IdMerge` and `NoIdPayload` for the payload |
| `isStatusParam` (src/actions.js:70-72) | `Actions.IsStatusParam` | `StatusMarkers` |
| `makeActionPayload` (src/actions.js:86-93) | `Actions.DerivedPayload` | `NoArguments`, `StatusFirst`, `UnnamedPayload`, `NamedPayload` |
| `fromArgs`, `withParams` (src/actions.js:95-108) | `Actions.FromArgs`, `Actions.Reduce` | `ReduceLookup`, `AssignedMeaning`, `ReduceKeys`, `NamedValues`, `ReducePrefix`, `ReduceBeyondNames`, `UndefinedArgumentNamed` |
| `withId` (src/actions.js:74-84) | `Actions.WithId` | `IdMerge`, `ScalarWithId`, `NoIdPayload` |
| `{...r, [k]: v}` (src/actions.js:105) | `JsValues.Put` | `PutLookup`, `PutKeys`, `PutDistinct` |
| `trim` | `Strings.Trim` | `TrimShape`, `TrimOfTrimmed` |
| `split`, `join` | `Strings.Split`, `Strings.Join` | `Split`'s contract, `JoinSplit`, `SplitJoin`, `JoinAppend` |
| `getConfig` (src/config.js:8-10) | `Config.GetConfig` | its own contract |

## Model

| member | source | states |
|---|---|---|
| Strings.Split | src/api.js:34 | `split` yields at least one piece and no piece holds the separator |
| Strings.JoinSplit | src/api.js:34-38 | joining the pieces of a split with the separator gives back the string |
| Strings.SplitJoin | src/api.js:34-38 | splitting a join of separator-free parts gives back the parts |
| Strings.SplitPrefix | src/api.js:43 | splitting `a + t`, where `a` has no separator, glues `a` to the first piece of `t` |
| Strings.JoinAppend | src/api.js:15 | the join of a concatenation is the two joins with one separator between them |
| Strings.TrimStart | src/api.js:173-175 | the result is a suffix, everything removed is white space, and the result does not start with white space |
| Strings.TrimEnd | src/api.js:173-175 | the result is a prefix, everything removed is white space, and the result does not end with white space |
| Strings.TrimShape | src/api.js:173-175 | the trimmed string neither starts nor ends with white space, and holds only characters of the original |
| Strings.TrimOfTrimmed | src/api.js:173-175 | trimming a trimmed string changes nothing |
| JsValues.NatToString | src/api.js:107 | a numeral is a non-empty string of digits with no leading zero |
| JsValues.NatToStringValue | src/api.js:107 | reading a numeral back gives the number |
| JsValues.IntToString | src/api.js:107 | `String(n)` starts with `-` exactly when `n` is negative |
| JsValues.IntToStringDigits | src/api.js:107 | after the sign, `String(n)` is a string of decimal digits whose value is the absolute value of `n` |
| JsValues.Keys | src/api.js:13 | the property names, one per property, in order |
| JsValues.Lookup | src/api.js:97 | a name is found exactly when it is a property name, and what is found is that property's value |
| JsValues.Get | src/api.js:119 | `v[k]` throws exactly on `undefined` and `null`; otherwise it reads the property's value, or `undefined` for a missing name |
| JsValues.PutLookup | src/actions.js:105 | after `{...r, [k]: v}`, `k` reads `v` and every other name reads as before |
| JsValues.PutKeys | src/actions.js:105 | the spread keeps the names and their order, and appends `k` when it is new |
| JsValues.PutDistinct | src/actions.js:105 | the spread keeps the names distinct |
| UriComponent.EncodeChar | src/api.js:106-107 | an unescaped character stands for itself; any other character becomes `%`-escapes, and only unescaped characters and `%` appear |
| UriComponent.EncodeURIComponent | src/api.js:106-107 | the encoding uses only unescaped characters and `%`, and is at least as long as its input |
| UriComponent.DecodeEncodeAppend | src/api.js:106-108 | decoding an encoded string followed by any text gives the string followed by that text's decoding |
| UriComponent.DecodeEncode | src/api.js:106-107 | decoding `encodeURIComponent(s)` gives `s` back |
| UriComponent.EscapeUpperHex | src/api.js:106-107 | an escaped character is written with `%` and upper-case hexadecimal digits only |
| UriComponent.PercentBytesUpperHex | src/api.js:106-107 | the `%XX` escapes of UTF-8 bytes use upper-case hexadecimal digits |
| UriComponent.DecodePlain | src/api.js:106 | text without `%` decodes to itself |
| Config.GetConfig | src/config.js:8-10 | the lookup never throws and the section is truthy; a present, truthy section is returned unchanged; an absent or falsy one gives `{}` |
| Api.Stringified | src/api.js:13-14 | one string per property name |
| Api.StringifiedAt | src/api.js:13-14 | string `i` is `stringifyParam` applied to property `i` |
| Api.EncodeQueryParams | src/api.js:12-16 | throws exactly when the parameters are `undefined` or `null` |
| Api.ParseEncodedParam | src/api.js:105-109 | a `name=value` piece parses back to the unescaped name (with `[]` for array elements) and `String(value)`; it holds no `&` and is never empty |
| Api.PropPiecesParse | src/api.js:95-103 | the pieces of one property parse back to its pairs: one for a scalar, one `name[]` pair per element of an array, in element order |
| Api.PiecesParse | src/api.js:111-113 | all the pieces parse back to all the pairs, in property order |
| Api.EncodeAsPieces | src/api.js:12-16 | when no array is empty, the query string is the `&`-join of all the pieces |
| Api.QueryRoundTrip | src/api.js:12-16 | parsing the query string gives every property's pairs, names and values unescaped, in property and element order |
| Api.ScalarPairs | src/api.js:12-16 | scalar-valued keys give exactly one `(name, String(value))` pair each, in key order |
| Api.EmptyQuery | src/api.js:12-16 | an object with no keys encodes as the empty string |
| Api.ArrayPieceRaw | src/api.js:105-109 | an array element's piece is the escaped name, a raw `[]=`, and the escaped value; the escaped name holds no bracket |
| Api.EscapedBrackets | src/api.js:106 | an escaped string holds no raw `[` or `]` |
| Api.EscapedSeparators | src/api.js:105-108 | an escaped name or value never holds a raw space, `&` or `=` |
| Api.TrimAll | src/api.js:35 | one trimmed chunk per chunk |
| Api.TrimAllAt | src/api.js:35 | every chunk is trimmed, in its own place |
| Api.TrimAllShape | src/api.js:34-35 | trimming chunks without a `/` leaves trimmed chunks without a `/` |
| Api.NonEmpty | src/api.js:36 | every kept chunk is non-empty, and there are no more chunks than in the input |
| Api.NonEmptyAppend | src/api.js:36 | filtering a concatenation filters each part and keeps their order |
| Api.NonEmptySingle | src/api.js:36 | a single chunk is kept exactly when it is not empty; with `NonEmptyAppend` this fixes the result for every input |
| Api.NonEmptyKeeps | src/api.js:36 | if every input chunk is trimmed and `/`-free, so is every kept chunk |
| Api.SegmentsShape | src/api.js:34-36 | no template segment is empty, padded with white space, or holds a `/` |
| Api.ReplaceAll | src/api.js:37 | a successful substitution gives one value per chunk |
| Api.ReplaceParamBound | src/api.js:115-129 | one chunk substitutes exactly when it is a literal or a placeholder with a defined value; a literal becomes itself and a placeholder its parameter's value; a placeholder whose value is `undefined` throws `MissingRouteParam(name, path)`, and one whose parameters cannot be read throws what reading throws |
| Api.ReplaceAllFailsAt | src/api.js:37 | substitution fails with the exception of the first unbound chunk |
| Api.ReplaceAllBound | src/api.js:37 | substituting all chunks succeeds exactly when every placeholder is bound |
| Api.ReplaceAllValues | src/api.js:37 | position by position, a literal substitutes to itself and a placeholder to its parameter's defined value |
| Api.ReplaceAllAt | src/api.js:37 | value `i` of a successful substitution is what chunk `i` substitutes to |
| Api.ReplaceAllFirstError | src/api.js:37 | a failed substitution fails at its first unbound chunk, with that chunk's exception |
| Api.WithRouteParams | src/api.js:33-39 | a built path starts with `/` |
| Api.RouteParamsBound | src/api.js:33-39 | the path is built exactly when every `:name` placeholder has a defined value |
| Api.MissingParamMessage | src/api.js:122-125 | the missing-parameter message contains the parameter name and the path |
| Api.MissingParamChunk | src/api.js:117-125 | only a placeholder whose value is `undefined` reports a missing parameter |
| Api.MissingParamRaised | src/api.js:115-129 | with readable parameters, the first placeholder in template order whose value is `undefined` makes the build throw `MissingRouteParam` with its name and the template |
| Api.MissingParamReported | src/api.js:115-129 | the error names the template and the first placeholder, in template order, whose value is `undefined` |
| Api.RouteSubstitution | src/api.js:33-39 | the path is `/` and the joined values. Literal segments appear trimmed and in order, and each placeholder becomes its parameter's defined value. |
| Api.SplitRooted | src/api.js:34 | splitting `/` plus a `/`-join gives an empty chunk and then the parts |
| Api.SegmentsOfJoined | src/api.js:34-36 | a generated path has exactly the segments it was built from |
| Api.StaticPath | src/api.js:33-39 | a template without placeholders gives `/` plus its clean segments joined by `/`, whatever the parameters |
| Api.StaticRoute | src/api.js:33-39 | building a path without placeholders again, with any parameters, changes nothing |
| Api.ResolveUndotted | src/api.js:43-48 | a route without a dot reads `endpoints[route]` |
| Api.ResolveDotted | src/api.js:43-45 | a route `group.name` reads `endpoints[group][name]`, and throws when the group cannot be read |
| Api.RouteTemplate | src/api.js:43-52 | the template is the resolved endpoint when it is a non-empty string; an endpoint that cannot be read throws what reading throws; a falsy one throws `UnknownRoute(route)` |
| Api.QueryString | src/api.js:53 | falsy query parameters give the empty query; truthy ones give `encodeQueryParams` of them |
| Api.QuerySuffix | src/api.js:54 | the suffix is empty exactly when the query is; otherwise it is `?` followed by the query |
| Api.QueryUrlBuilt | src/api.js:41-55 | the URL is built exactly when the route resolves to a template and every placeholder is bound (the query part never throws); it is then the host, the path and the query suffix, and otherwise the resolution or substitution error is thrown |
| Api.QueryUrlShape | src/api.js:41-55 | the URL is the host, then the substituted path (which starts with `/`), then the query suffix; absent query parameters add nothing, and truthy ones add `?` and their encoding when it is not empty |
| Api.UnresolvedRouteThrows | src/api.js:44-51 | a route whose endpoint cannot be read throws what reading throws; one whose endpoint is falsy throws `UnknownRoute(route)` |
| Api.TwoChunksOnly | src/api.js:43-45 | only the first two dotted chunks of a route are used |
| Api.GetTypedParams | src/api.js:153-163 | the typed parameters are always of type object, `null` included |
| Api.MappedPlacement | src/api.js:153-159 | with `mapParams`, an object or array result is destructured, a `null` result makes the destructuring throw, and any other result gives three `undefined` parts |
| Api.Destructure | src/api.js:67 | destructuring throws exactly on `undefined` or `null` |
| Api.HeaderRules | src/api.js:131-138 | `Authorization: Bearer <token>` exactly for a truthy token; `Content-Type: application/json` exactly for a body with POST or PUT; no headers when neither applies |
| Api.HeaderNames | src/api.js:131-138 | there are at most two headers, each is `Authorization` or `Content-Type`, and no name appears twice |
| Api.RequestBuilt | src/api.js:64-71 | the request is built exactly when the parameters destructure and their URL is built, and then carries that URL; otherwise the destructuring or URL error is thrown |
| Api.RequestRules | src/api.js:64-71 | the record has the URL built from the typed parameters and the given method; the body is present exactly when `bodyParams` is truthy, and equals it |
| Api.DefaultPlacement | src/api.js:160-162 | without `mapParams`, GET sends the parameters as the query and every other verb sends them as the body |
| Actions.Arg | src/actions.js:62 | `args[i]` is the argument, or `undefined` past the end |
| Actions.CreateAction | src/actions.js:59-66 | the action's type is the creator's type; the status is present exactly when the first argument is a status string, and is that argument; the payload is `withId` of the derived payload |
| Actions.ActionObject | src/actions.js:62-64 | the action object starts with `type`, has distinct keys, only `type`, `status` and `payload`, and only the parts that are present |
| Actions.StatusMarkers | src/actions.js:12-15 | `SUCCESS` and `ERROR` are statuses, and a status is exactly a string starting with `status/` |
| Actions.NoArguments | src/actions.js:86-93 | no arguments give `{type}`, or `{type, payload: id}` when ids are generated |
| Actions.StatusFirst | src/actions.js:87-91 | after a status, the second argument is the payload and later arguments are ignored; a status alone gives no payload |
| Actions.AssignedMeaning | src/actions.js:101-108 | the value last written under a name comes from an argument at a position with that name; no value means no such position |
| Actions.ReduceLookup | src/actions.js:97-108 | reading a name from the fold gives the value last written under it |
| Actions.AssignedDistinct | src/actions.js:101-108 | with distinct names, name `i` last receives argument `i` |
| Actions.ReduceKeys | src/actions.js:101-108 | with distinct names, the fold's keys are the first n names (or all of them, if there are fewer), in order |
| Actions.NamedValues | src/actions.js:95-108 | with distinct names, name `i` maps to argument `i` for every shared position, and there are no other keys |
| Actions.ReducePrefix | src/actions.js:97 | the fold over `n` arguments reads only those arguments |
| Actions.ReduceBeyondNames | src/actions.js:103-106 | arguments past the last name write nothing |
| Actions.NamedPayload | src/actions.js:86-108 | with distinct names and no status, the derived payload maps name `i` to argument `i` over the shared positions and has exactly those keys; without an id key it is the action's payload |
| Actions.NamedPayloadWithId | src/actions.js:74-108 | with distinct names, no status and an id key, the payload holds the id under the key and argument `i` under every other name `i` |
| Actions.ExtraArgumentsDropped | src/actions.js:95-108 | arguments beyond the name list do not change the action |
| Actions.UnnamedPayload | src/actions.js:86-99 | without names and without a status, the derived payload is the first argument; it is the action's payload without an id key, and is merged with the id by `withId` with one |
| Actions.ScalarWithId | src/actions.js:79 | `{value: p, [key]: id}` reads `id` under the key and `p` under `value` |
| Actions.IdMerge | src/actions.js:74-80 | with an id key, an object payload gains the id under the key and keeps every other entry; a scalar becomes `{value, [key]: id}`; no payload becomes the bare id |
| Actions.NoIdPayload | src/actions.js:81-83 | without an id key, the `payload` key is present exactly when the derived payload is not `undefined`, and then equals it |
| Actions.UndefinedArgumentNamed | src/actions.js:103-106 | an `undefined` argument is still written under its name |

`getConfig` and every other modelled function is a mathematical function of its arguments. So the configuration passed to a lookup is never modified by it.

## Left out

- `ajax(...)` and `.pipe(map(onlyResponse))` (src/api.js:71-72, 165-167): network I/O and an Observable. Only the record passed to `ajax` is modelled.
- `makeStubQuery` (src/api.js:81-83): a timer-delayed Observable, so it is about timing only.
- `getQuery`, `postQuery`, `putQuery` and `deleteQuery` (src/api.js:88-91): each only fixes the `method` argument of `makeQuery`.
- `encodeBodyParams` (src/api.js:23-25): an alias of `JSON.stringify`, which is not part of this model.
- `cuid()` (src/actions.js:1): randomness. The id it would return is a parameter.
- The default `mainConfig` (src/config.js:1): ../../config.js is not part of this model. The configuration is always passed explicitly.
- The message predicates `withTypeAndStatus` and `withTypeWithoutStatus`, which src/__tests__/actions.test.js:1 imports: neither is defined in src/actions.js, so there is nothing to model.
- Numbers: only integers are modelled. Floating-point values, `NaN`, `Infinity` and their `String` forms are not.
- Numbers are unbounded integers. JavaScript's doubles lose precision above 2^53, and `String(n)` switches to exponent form from 1e21 on. Neither is modelled.
- JsValues.OwnProps: a string's index properties and its `length` count characters (Unicode scalar values), not UTF-16 code units. So a character outside the Basic Multilingual Plane gives one index and `length` 1, where JavaScript gives two indices and `length` 2.
- Functions, symbols and prototype-inherited properties are not modelled as values. Neither is JavaScript's ordering of integer-like keys before other keys: an object's properties are taken in the order given.
- Strings are sequences of Unicode scalar values, so lone surrogates cannot occur. The `URIError` that `encodeURIComponent` throws on them is not modelled.
- `mapParams` is modelled as a total function on values. A mapping function that throws, or one that reads or changes state, is not.
- The names given to `makeActionCreator` are modelled as strings. An `undefined` or non-string entry inside the name list is not modelled. Only a position past the end of the list is skipped.
- Api.QueryRoundTrip: stated only for parameters without empty arrays. An empty array writes an empty piece, which leaves a stray `&` in the query string.
- Concrete test vectors, such as `sun=star%20%26%20light`, are covered only through the general lemmas. They are not stated as literal equalities.
