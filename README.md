# json-schema-validator: schema resolution, modelled in Dafny

The library validates a request payload against one operation of a
HAL/JSON-Schema style document. The caller passes a root schema, a
descriptor `{url, method}` and the payload. The library then:

1. checks that the descriptor has the keys `url` and `method` (`checkProps`);
2. derives the resource name from the URL (`resource`): the first non-empty
   `/`-segment, less one trailing `s`;
3. looks up `definitions[resource]` (`definition`);
4. finds the first entry of that definition's `links` whose `method` and
   `href` equal the descriptor's, ignoring case, and takes its `schema`
   (`schema`);
5. narrows the definition's `required` list to the link's own list. This is
   copy on write: the root is returned untouched when the link declares no
   `required`, and a modified copy otherwise (`mandatory`);
6. compiles the composed schema with the validator engine, validates the
   payload wrapped as `{[resource]: data}` (`namespaceData`), and settles the
   promise with the original payload or with the first error met
   (`validate`).

Files:

- `js_values.dfy` (module `JsValues`): JavaScript values, truthiness, and
  own-property reads.
- `js_strings.dfy` (module `JsStrings`): `split`, the filter that drops empty
  parts, and ASCII `toUpperCase`. It proves that `split` and `join` are
  inverses and pins down the first non-empty segment.
- `schema_docs.dfy` (module `SchemaDocs`): the root schema, definitions,
  links, the descriptor, the error kinds, and the engine's interface.
- `resolver.dfy` (module `Resolver`): `checkProps`, `resource`, `definition`,
  `schema`, `mandatory`, and their composition.
- `pipeline.dfy` (module `Pipeline`): `namespaceData`, `validate`, and lemmas
  about the whole resolution.
- `inherited_names.dfy` (module `InheritedNames`): the definition lookup as
  written, which follows the prototype chain (see Findings).

Design choices:

- A descriptor is a map from key to value, so "has the key" (`_.has`) and
  "has a string value" are separate questions, as they are in the code.
- A thrown exception is an `Err` value. The message constants become the
  `Error` constructors `MissingProp`, `DefinitionNotFound`, `LinksNotFound`,
  `SchemaNotFound` and `InvalidData`. JavaScript's own `TypeError` (a string
  method called on a non-string or on `undefined`) becomes `TypeError`, and a
  compile failure in the engine becomes `InvalidSchema`.
- The validator engine is the parameter `jsen: Root -> Validator`. A compiled
  validator maps the namespaced payload to a verdict and its list of errors.
- A root records whether it has a `definitions` object at all
  (`hasDefinitions`). A root without that key and a non-object root such as
  the string `'nope'` both have none. The `other` maps hold only the fields
  not modelled separately. `Root.WellFormed` and `Definition.WellFormed` say
  so, and `Mandatory`, `Specialise` and `Resolve` preserve them.
- Values cannot be mutated in place, so "the caller's root schema is never
  modified" holds by construction. What is proved is the content of the copy:
  it equals the root except for `definitions[resource].required`
  (`Mandatory`, `ResolveCopyOnWrite`).

`resource` throws a `TypeError` for a URL with no non-empty segment, since
`endsWith` is called on `undefined`, and `validate` rejects.

Where index.js and its tests disagree, the model follows index.js:

- test/index.js:107-111 calls `validate('nope', …)` and expects the message
  `'Invalid schema.'`. index.js never produces it. `_.get` reads no
  `definitions` from the string, so `validate` fails with the
  missing-definition error before the engine is called
  (`MissingDefinitionsRejected`).
- test/index.js:126 and :135 pass `{greedy: true}` as a fourth argument, and
  expect every error to be reported. `validate` takes three arguments
  (index.js:20), and index.js:34 calls `jsen` with no options. Nothing in
  index.js asks the engine to collect every error, so a validator reports
  whatever errors the engine reports by default. The model takes the verdict
  and its error list as the engine gives them.

## Model

| member | source | states |
|---|---|---|
| `JsStrings.JoinSplit` | index.js:111 | joining the parts of `url.split('/')` with `/` gives back the URL |
| `JsStrings.SplitJoin` | index.js:111 | splitting a join of slash-free parts gives back exactly those parts |
| `JsStrings.FirstSegment` | index.js:111 | the first element of the split-and-filter exists iff the URL holds a character other than `/`, and it is the run of non-slash characters after the leading slashes |
| `JsStrings.Upper` | index.js:120-122 | upper-casing keeps the length and upper-cases each character (ASCII letters only) |
| `JsStrings.EqualsIgnoreCasePointwise` | index.js:124-126 | `strCompare` holds iff both strings have the same length and agree at every position once upper-cased |
| `Resolver.FirstMissing` | index.js:101-107 | the result is none iff every required key is present; otherwise it is the first absent key in the list's order |
| `Resolver.CheckProps` | index.js:101-107 | tests `url` before `method`, by key presence only: a descriptor missing both fails naming `url`, one missing only `method` fails naming `method`, and a descriptor with both keys passes unchanged whatever their values; the loop's result is the one `FirstMissing` specifies |
| `Resolver.Singular` | index.js:112 | with `isPlural` (index.js:116-118): the result is a prefix of the word, one character shorter exactly when the word ends in `s`, and the word itself otherwise |
| `Resolver.Resource` | index.js:109-114 | a non-string URL fails with the `TypeError` of `split`; a string URL fails exactly when it is all slashes, with the `TypeError` of `endsWith` |
| `Resolver.ResourceIsFirstWord` | index.js:109-118 | for a string URL, `resource` fails (a `TypeError` from `endsWith`) iff the URL is all slashes; otherwise the result is the first slash-free word with exactly one trailing `s` removed when it ends in `s`, and nothing else changed |
| `Resolver.ResourceOfPath` | index.js:109-118 | for any number of leading slashes, a slash-free word, and nothing or a `/…` tail, the resource is the word with at most one trailing `s` dropped and its case unchanged |
| `Resolver.ResourceOfSup` | test/index.js:97-99 | `resource('/sup/')` is `'sup'` |
| `Resolver.ResourceOfPlurals` | test/index.js:101-103 | `resource('/bros')` is `'bro'`; the heuristic makes `'/status'` into `'statu'` |
| `Resolver.DefinitionOf` | index.js:50-59 | succeeds iff the resource is a key of `definitions` and then returns that entry; otherwise fails naming the path `definitions.<resource>` |
| `Resolver.StrCompare` | index.js:120-126 | fails with a `TypeError` exactly when either side is not a string; otherwise holds iff both have the same length and agree at every position once upper-cased |
| `Resolver.LinkMatches` | index.js:71-76 | fails exactly when the link and descriptor are not all strings, and is true exactly when method and href both match ignoring case |
| `Resolver.FindLink` | index.js:70-78 | scans the links in order: the first link that matches is returned, a comparison that throws before any match is a `TypeError`, and none if every link compares without a match |
| `Resolver.Schema` | index.js:62-87 | a definition without `links` fails with `LinksNotFound` before the descriptor is checked; then a missing `url`/`method` fails; otherwise the first case-insensitive match decides: its truthy `schema` is returned, and a falsy one gives `SchemaNotFound(method, url)` whatever later links hold, as does no match |
| `Resolver.FirstOfDuplicatesWins` | index.js:70-83 | of two links with the same method and href, the earlier one's schema decides the result |
| `Resolver.Mandatory` | index.js:89-98 | with no truthy `required` on the link schema the root itself is returned; otherwise the result equals the root except that `definitions[resource].required` is the link's list, even an empty one; other definitions, `links`, and other fields are unchanged |
| `Resolver.MandatoryIdempotent` | index.js:89-98 | applying the override twice equals applying it once |
| `Resolver.Specialise` | index.js:28-32 | a resource without a definition fails with `DefinitionNotFound('definitions.<resource>')`; otherwise it succeeds exactly when `schema` does, fails with its error, and yields the root specialised with the link schema; a well-formed root stays well formed |
| `Resolver.Resolve` | index.js:24-32 | a success has both descriptor keys, the resource derived from `url`, and the composed schema; a well-formed root gives a well-formed schema; resolution never fails with an engine error (`InvalidSchema`, `InvalidData`) |
| `Pipeline.Namespace` | index.js:128-132 | the validator's input is an object with exactly one key, the resource, holding the payload; for the resource `__proto__` the assignment goes to the inherited setter and the object has no own key |
| `Pipeline.Validate` | index.js:20-47 | rejects with the first failing step's error in the order descriptor, resource, definition, links/schema, compile; rejects with `InvalidData` carrying all validator errors only when the verdict is invalid and the list is non-empty; otherwise resolves with the original, un-namespaced payload |
| `Pipeline.ResolveStepOrder` | index.js:24-32 | the error of a failed resolution is the earliest step's: missing `url`, then missing `method`, then `resource`, then missing definition, then missing `links`, then the error of `schema` |
| `Pipeline.ResolveSucceeds` | index.js:24-32 | resolution succeeds iff both keys are present, the resource is defined with a `links` array, and the first matching link has a truthy schema; the composed schema is then the root specialised with that schema |
| `Pipeline.ResolveCopyOnWrite` | index.js:89-98 | the composed schema is the root with only `definitions[resource].required` possibly replaced, and any replacement is truthy |
| `Pipeline.ResolveIdempotent` | index.js:28-32 | resolving the composed schema again with the same descriptor gives the same resource and the same schema |
| `Pipeline.MissingDefinitionsRejected` | index.js:50-59 | a root without `definitions`, including a non-object one, is rejected with `DefinitionNotFound('definitions.x')` for `/x` |
| `Pipeline.TestsResource` | test/index.js:9-10 | `resource('/tests')` is `'test'` |
| `Pipeline.PostTestsMatches` | index.js:124-126 | a link `POST /TESTS` matches the descriptor `post /tests` |
| `Pipeline.PostTestsSpecialised` | test/index.js:86-93 | for that link the composed schema takes the link's `required` list for `test` |
| `Pipeline.PostTestsExample` | test/index.js:86-93 | `post /tests` resolves to resource `test` and a schema whose `test.required` is the link's list, everything else as in the root |
| `InheritedNames.DefinitionAsWritten` | index.js:50-59 | the lookup as written finds own definitions and, when the root has a `definitions` object, "finds" every name inherited from `Object.prototype`; it fails, naming `definitions.<resource>`, exactly for other absent names and for every absent name when there is no `definitions` object |
| `InheritedNames.InheritedNameMisreported` | index.js:50-66 | for a schema whose `definitions` object lacks `constructor`, the lookup as written fails later with `LinksNotFound`, while the own-property lookup reports `DefinitionNotFound('definitions.constructor')` |
| `InheritedNames.NoDefinitionsObjectReported` | index.js:50-57 | without a `definitions` object (the root `{}`, the string `'nope'`), the lookup as written reports `DefinitionNotFound('definitions.<resource>')` for every absent name, inherited ones included |
| `InheritedNames.ConstructorsResource` | index.js:109-114 | the URL `/constructors` names the resource `constructor` |
| `InheritedNames.AsWrittenAgreesElsewhere` | index.js:50-59 | for every name that is defined or is not inherited, and for every name when the root has no `definitions` object, the two lookups give the same composed schema |

## Findings

| source | as written | input that shows it | evidently intended | confidence | as-written member | corrected member |
|---|---|---|---|---|---|---|
| index.js:50-59 | `_.get(schemata, ['definitions', resource])` follows the prototype chain, so a resource named after an inherited member (`constructor`, `toString`, `__proto__`, …) counts as found even when the schema does not define it | URL `/constructors` with no `constructor` definition: rejected with "Schema does not contain links array." | "Could not find 'definitions.constructor'." | medium, not executed | `InheritedNames.InheritedNameMisreported` | `Resolver.DefinitionOf` |

## Left out

- The validator engine (`jsen`) is a parameter. JSON Schema validation itself is not modelled. index.js passes the engine no options.
- Pipeline.Validate, Resolver.Specialise, Resolver.Resolve and Resolver.DefinitionOf use the corrected own-key lookup, not the lookup as written. For a resource named after one of the twelve `Object.prototype` members (`constructor`, `hasOwnProperty`, `isPrototypeOf`, `propertyIsEnumerable`, `toLocaleString`, `toString`, `valueOf`, `__proto__`, `__defineGetter__`, `__defineSetter__`, `__lookupGetter__`, `__lookupSetter__`), against a `definitions` object that lacks it, they reject with `DefinitionNotFound` where index.js:53-66 rejects with the links-not-found error. `InheritedNames` models the lookup as written and proves where the two differ (see Findings).
- Pipeline.Namespace and Pipeline.Validate: for the resource `__proto__` (a JSON `definitions` object can have that own key), the body has no own key. The prototype change that the setter makes for object or `null` data is not modelled. In the source, the engine then sees the payload's fields as inherited properties of the body. The model gives the engine an empty object.
- A link keeps only its `href`, `method` and `schema`. Its other fields (`rel`, `title`, …) are not modelled, so the schema handed to the engine lacks them. A falsy `links` value (`null`, `false`) is the same `None` as an absent one; both give the links-not-found error, as in index.js:66.
- A `definitions` value that is not an object (a string, a number) is not modelled. It reads as a `definitions` object without own keys.
- The Promise and asynchrony are left out. After the `catch`, `validate` goes on to call an undefined `validator`. That `TypeError` is swallowed because the promise is already rejected, so the model rejects and stops.
- Message text (`util.format`) is left out. Each error kind carries its format arguments (the dotted path, the method and url, the property name) instead of the formatted string.
- The error class in libs/json_schema_error.js is replaced by the `Error` datatype. `validate` re-wraps inner errors by message, and the model keeps the kind.
- `toUpperCase` is ASCII-only in the model. Full Unicode case mapping is left out.
- Numbers are integers. NaN, fractions, and `-0` truthiness are not modelled.
- A truthy `links` value that is not an array is not modelled: lodash's `find` would iterate an object's values or a string's characters. Neither is a non-object entry in `links`. Such values are `None`, or links with `Undefined` fields.
- A definition stored as a falsy value (`null`, `false`, `0`, `''`) is not modelled. Every entry of `definitions` is an object here.
- `Property` reads own keys only. A link schema's `required` inherited from a prototype is not modelled.
- Aliasing is not modelled. In the source, the clone's `required` is the same array object as the link schema's `required` in the caller's root, because `_.assign` copies the reference. Values in the model share nothing.
- Resolver.Mandatory: for a resource the root does not define, the model returns the root unchanged. That is what index.js:96 does for a name that is neither own nor inherited: `_.assign(undefined, …)` writes nothing. For one of the twelve inherited names, when `definitions` is an object, `clone.definitions[resource]` is a shared built-in, and `_.assign` writes `required` onto it. For `__proto__` the built-in is `Object.prototype` itself, so from then on every object, the caller's root included, reads that `required` through inheritance. The model does not capture this. It cannot happen through `validate`, where `schema` fails first with the links-not-found error (index.js:64-66). A root without `definitions` would make `clone.definitions[resource]` throw; that case is not modelled either.
- The non-string `url` and `method` values a descriptor can carry are one case, `TypeError`. An object with its own `toUpperCase` method is not modelled.
- test/index.js is used as a source of examples only. Several of its assertions check less than they appear to: `assert(x, y)` (test/index.js:16, :61) checks only that `x` is truthy, `assert.equal(x == 2)` has one argument, and the `validate` tests do not return their promises.
