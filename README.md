# API-key resolution and skill-post editing, modelled in Dafny

This project models two pieces of a small Node.js authentication demo.

* **API-key resolution** (`utils/BenjaminUtils.js`). `getApiKey(name, options)`
  looks a secret up in the process environment under `name`, `NAME` and
  `API_NAME`, in that order, and returns the first truthy value. Failing that,
  and unless `options.fallbackToFile` is off, it reads `utils/api_keys.json`
  through `loadLocalKeys` and tests the exact name, then the upper-case name.
  `loadLocalKeys` gives an empty object when the file is missing, empty or
  not JSON. Module `ApiKeys` models all of this as pure functions. The
  environment is a `map<string, string>`, and the key file is the outcome of
  reading it (`Missing | Empty | Unparseable | Parsed(Json)`). The parsed value
  is a small JSON datatype over integer numbers, so JavaScript truthiness and
  the `in` operator on own properties can be modelled exactly. The result
  `None` is "no key found", the source's final `return null`. A key file that
  stores null under a present key gives `Some(JNull)`, which JavaScript also
  returns as null.
* **Skill posts** (`utils/SkillPostUtil.js`). `viewPosts`, `updatePost` and
  `deletePost` work on the JSON document `skillposts.json`, which holds two
  optional arrays, `offers` and `requests`. In module `SkillPosts`, that
  document is the `contents` field of class `PostFile`:
  `readPosts` reads the field and `writePosts` assigns it. The handlers are
  methods with loops, just as in the source:
  `FindIndex` is `findIndex`, and a `for` loop runs over the two collections
  with a `found` flag. Each handler is proved to do exactly what the
  specification function `UpdateSpec` or `DeleteSpec` says. The handlers'
  properties are then lemmas about those two functions: error ordering,
  ownership check, "nothing else changes", splice and idempotence.
  An HTTP response is a `Reply(status, success, message)` value.
* Module `Decimal` holds the decimal-string facts both parts need:
  `parseInt(s, 10)` for the route parameter, and JavaScript's
  canonical array-index keys for a key file that parses to an array.

## Model

| member | source | states |
|---|---|---|
| `ApiKeys.LoadLocalKeys` | utils/BenjaminUtils.js:8-19 | a missing, empty or unparseable key file gives the empty object; a parsed file gives the parsed value unchanged; no case throws |
| `ApiKeys.UnreadableFileHasNoKeys` | utils/BenjaminUtils.js:11-18 | an empty or unparseable key file resolves every name exactly as a missing one does, and then only environment strings can be found |
| `ApiKeys.AbsentNameIsNull` | utils/BenjaminUtils.js:32 | an absent or empty name gives null, whatever the environment, options and file |
| `ApiKeys.Upper` | utils/BenjaminUtils.js:34 | the upper-cased name has the same length and no lower-case letter; a lower-case letter becomes its capital, and every other character is kept |
| `ApiKeys.UpperIdempotent` | utils/BenjaminUtils.js:34 | upper-casing an upper-cased name changes nothing, so for an upper-case name the first two candidates coincide |
| `ApiKeys.Candidates` | utils/BenjaminUtils.js:34 | no contract of its own; the candidate order is stated by `ApiKeys.EnvCandidateOrder` and `ApiKeys.EnvResultIsFirstTruthy` |
| `ApiKeys.EnvLookup` | utils/BenjaminUtils.js:36-38 | no contract of its own; it returns the value at `ApiKeys.FirstEnvHit`, and `ApiKeys.EnvLookupAgrees`, `ApiKeys.EmptyEnvValueIsAbsent` and `ApiKeys.EnvCandidateOrder` carry its properties |
| `ApiKeys.FirstEnvHit` | utils/BenjaminUtils.js:36-38 | the loop's stopping point is the first candidate whose environment value is truthy; every earlier candidate is unset or empty; `None` means no candidate is truthy |
| `ApiKeys.EnvCandidateOrder` | utils/BenjaminUtils.js:34-38 | if candidate i (of name, Upper(name), "API_"+Upper(name)) is the first truthy one, the result is its environment value |
| `ApiKeys.EnvResultIsFirstTruthy` | utils/BenjaminUtils.js:34-38 | the three-way precedence spelled out: exact name over upper-case name over the API_ prefix |
| `ApiKeys.EnvLookupAgrees` | utils/BenjaminUtils.js:36-37 | the environment lookup depends only on which candidates are truthy and on their values |
| `ApiKeys.EmptyEnvValueIsAbsent` | utils/BenjaminUtils.js:37 | a variable set to "" resolves exactly as if it were unset |
| `ApiKeys.EnvHitIgnoresFile` | utils/BenjaminUtils.js:36-41 | any truthy environment hit gives the same string whatever the options and key file are, so the file is never consulted |
| `ApiKeys.NoFallbackIgnoresFile` | utils/BenjaminUtils.js:40 | with `fallbackToFile` off the result does not depend on the key file and is either an environment string or null |
| `ApiKeys.DefaultOptionsUseFile` | utils/BenjaminUtils.js:31 | omitting `options` is the same as `{ fallbackToFile: true }` |
| `ApiKeys.FileExactKeyFirst` | utils/BenjaminUtils.js:40-44 | with no environment hit, an exact key in the file wins over the upper-case key; whatever is stored under a present key is returned, even a falsy value; with neither key present the result is null |
| `ApiKeys.GetApiKey` | utils/BenjaminUtils.js:31-47 | no contract of its own; the corrected `getApiKey`, whose properties are stated by `ApiKeys.AbsentNameIsNull`, `ApiKeys.EnvHitIgnoresFile`, `ApiKeys.NoFallbackIgnoresFile`, `ApiKeys.DefaultOptionsUseFile`, `ApiKeys.FileExactKeyFirst`, `ApiKeys.NullIffNothingMatches`, `ApiKeys.StoredNullIsReturned` and `ApiKeys.PrimitiveKeyFileIsMissing` |
| `ApiKeys.FileLookup` | utils/BenjaminUtils.js:42-43 | no contract of its own; the exact key before the upper-case key is `ApiKeys.FileExactKeyFirst`, and a non-object file behaves as missing by `ApiKeys.PrimitiveKeyFileIsMissing` |
| `ApiKeys.StoredNullIsReturned` | utils/BenjaminUtils.js:42 | a null stored under a present file key is returned as that value, `Some(JNull)`, not as "no key found" |
| `ApiKeys.NullIffNothingMatches` | utils/BenjaminUtils.js:31-47 | no key is found (the final `return null`, `None`) exactly when no candidate is truthy in the environment and, if the file is consulted and holds an object or array, neither key is one of its properties |
| `ApiKeys.OwnProperty` | utils/BenjaminUtils.js:42-43 | on a parsed object, `key in keys` holds exactly for the object's keys, and `keys[key]` is the stored value |
| `ApiKeys.ArrayIndex` | utils/BenjaminUtils.js:42-43 | a key names an array position only if it is that position's canonical numeral `String(i)` |
| `ApiKeys.ArrayElementPresent` | utils/BenjaminUtils.js:42-43 | a key file that parses to an array has element i under the key `String(i)` |
| `ApiKeys.ScenarioApiPrefix` | tests/utils.test.js:49-53 | `API_CUSTOM_KEY` is found for the name `custom_key` |
| `ApiKeys.ScenarioFileKeys` | tests/utils.test.js:65-80 | the exact file key `my_key`, and failing it `MY_KEY`, are returned from the file |
| `ApiKeys.ScenarioMissingEverywhere` | tests/utils.test.js:83-89 | a name found in neither the environment nor the file gives null |
| `ApiKeys.FileLookupAsWritten` | utils/BenjaminUtils.js:42-43 | no contract of its own; the source's file lookup, including the TypeError that `in` raises on a truthy primitive; `ApiKeys.AsWrittenAgreesUnlessThrows` states when it throws |
| `ApiKeys.GetApiKeyAsWritten` | utils/BenjaminUtils.js:31-47 | no contract of its own; the source's `getApiKey` with that TypeError, related to the corrected one by `ApiKeys.AsWrittenAgreesUnlessThrows` and `ApiKeys.PrimitiveKeyFileThrows` |
| `ApiKeys.PrimitiveKeyFileThrows` | utils/BenjaminUtils.js:42 | as written, a key file holding `1` makes the lookup of an unset name throw; the corrected lookup gives null |
| `ApiKeys.AsWrittenAgreesUnlessThrows` | utils/BenjaminUtils.js:40-44 | the code as written throws exactly when the file is consulted and holds a truthy number, string or boolean; otherwise it returns what the corrected lookup returns |
| `ApiKeys.PrimitiveKeyFileIsMissing` | utils/BenjaminUtils.js:40-44 | in the corrected lookup, a key file that parses to a primitive resolves every name like a missing file |
| `Decimal.ParseInt` | utils/SkillPostUtil.js:38 | no contract of its own; `parseInt(s, 10)`, whose properties are `Decimal.ParseIntOfRendered`, `Decimal.ParseIntSkipsWhiteSpace` and `Decimal.ParseIntNaN` |
| `Decimal.ParseIntOfRendered` | utils/SkillPostUtil.js:38 | `parseInt(String(n) + tail, 10)` is n when the tail does not start with a digit (so "12abc" reads as 12) |
| `Decimal.ParseIntSkipsWhiteSpace` | utils/SkillPostUtil.js:38 | leading JavaScript white space never changes what `parseInt` reads |
| `Decimal.ParseIntNaN` | utils/SkillPostUtil.js:38 | a parameter without any digit parses to NaN |
| `SkillPosts.FirstMatch` | utils/SkillPostUtil.js:54 | `findIndex` on values: the first position whose id equals the parsed id, with no match before it, or none at all |
| `SkillPosts.FindIndex` | utils/SkillPostUtil.js:103 | returns -1 exactly when no post matches; otherwise a matching position with no match before it, the same one `FirstMatch` gives |
| `SkillPosts.Locate` | utils/SkillPostUtil.js:52-55 | a location found is an array collection, an index inside it, and a post whose id matches |
| `SkillPosts.LocateScansOffersFirst` | utils/SkillPostUtil.js:49-55 | the post acted on is the first match in `offers`, or, only when `offers` is not an array or has no match, the first match in `requests` |
| `SkillPosts.NonNumericIdNotFound` | utils/SkillPostUtil.js:52-76 | a NaN id matches no post, so both handlers give 404 and leave the document as it is (update only once its fields pass) |
| `SkillPosts.RouteIdSelectsId` | utils/SkillPostUtil.js:38 | the route parameter `String(n)`, with or without a non-digit tail, selects the posts carrying id n |
| `SkillPosts.UpdateReply` | utils/SkillPostUtil.js:41-83 | the response of `updatePost`: success exactly with status 200; 400, 403 and 404 are failures |
| `SkillPosts.DeleteReply` | utils/SkillPostUtil.js:106-131 | the response of `deletePost`: success exactly with status 200; 403 and 404 are failures |
| `SkillPosts.UpdateSpec` | utils/SkillPostUtil.js:36-91 | no contract of its own; the outcome and new document of `updatePost`, stated by `SkillPosts.UpdateOutcomes`, `SkillPosts.UpdateValidatesFirst`, `SkillPosts.UpdateEditsOnlyMatchedPost` and `SkillPosts.UpdateIdempotent`, and reached by `SkillPosts.PostFile.UpdatePost` |
| `SkillPosts.DeleteSpec` | utils/SkillPostUtil.js:93-139 | no contract of its own; the outcome and new document of `deletePost`, stated by `SkillPosts.DeleteOutcomes` and `SkillPosts.DeleteRemovesOnlyMatchedPost`, and reached by `SkillPosts.PostFile.DeletePost` |
| `SkillPosts.UpdateOutcomes` | utils/SkillPostUtil.js:41-76 | `updatePost` gives 400 exactly when a field is missing or empty; 404 exactly when the fields are present and no post matches; 403 exactly when the matched post belongs to another supplied username; any failure leaves the document unchanged |
| `SkillPosts.UpdateValidatesFirst` | utils/SkillPostUtil.js:41-48 | missing fields are rejected whatever the document, before it is read |
| `SkillPosts.UpdateEditsOnlyMatchedPost` | utils/SkillPostUtil.js:63-67 | a successful update sets skill, category and description of the matched post; its id and username, every other post, the collection's length and the other collection stay unchanged |
| `SkillPosts.FirstMatchDependsOnIds` | utils/SkillPostUtil.js:54 | the first match depends only on the posts' ids |
| `SkillPosts.UpdateIdempotent` | utils/SkillPostUtil.js:63-67 | repeating a successful update succeeds again and leaves the document as the first one left it |
| `SkillPosts.DeleteOutcomes` | utils/SkillPostUtil.js:101-124 | `deletePost` gives 404 exactly when no post matches and 403 exactly when the matched post belongs to another supplied username; it never gives 400; any failure leaves the document unchanged |
| `SkillPosts.DeleteRemovesOnlyMatchedPost` | utils/SkillPostUtil.js:113 | a successful delete removes exactly the matched post: the collection is one shorter, the posts before and after it keep their order, the multiset loses just that post, and the other collection is unchanged |
| `SkillPosts.ListedCountAfterSuccess` | utils/SkillPostUtil.js:113 | after a successful delete, `viewPosts` lists one post fewer; after any update it lists as many as before |
| `SkillPosts.Listed` | utils/SkillPostUtil.js:23-24 | a collection is listed as stored, or as [] when it is absent |
| `SkillPosts.PostFile.ReadPosts` | utils/SkillPostUtil.js:7-10 | `readPosts` returns the stored document |
| `SkillPosts.PostFile.WritePosts` | utils/SkillPostUtil.js:12-15 | `writePosts` replaces the stored document |
| `SkillPosts.PostFile.ViewPosts` | utils/SkillPostUtil.js:18-25 | `viewPosts` returns both stored collections, with [] for an absent one, and changes nothing |
| `SkillPosts.PostFile.UpdatePost` | utils/SkillPostUtil.js:36-91 | the scan over `offers` then `requests`, the ownership check and the three field assignments give exactly the reply and the new document `UpdateSpec` describes; the document is written only on success |
| `SkillPosts.PostFile.DeletePost` | utils/SkillPostUtil.js:93-139 | the same scan, the ownership check and the splice give exactly the reply and the new document `DeleteSpec` describes; the document is written only on success |

## Left out

- File input and output (`fs.existsSync`, `readFileSync`, `writeFileSync`, the file paths) are not modelled. The key file is the outcome of reading it, and the post file is a field.
- JSON parsing and serialisation are not modelled; only their outcome (parsed or failed) is. JSON numbers are integers, so floating point is left out.
- The `try`/`catch` paths that answer 500 are not modelled. This includes a missing or corrupt `skillposts.json`, which makes `readPosts` throw. These paths are exception plumbing around I/O.
- `process.env` as a live global is not modelled. The environment is passed in as a map whose values are strings.
- Inherited properties are not modelled. The source's `process.env[...]`, `in` and `keys[...]` also see members inherited from `Object.prototype` and `Array.prototype`, such as `toString` and `constructor`. The model sees only a value's own properties, so a name such as `toString` behaves here as an unset key.
- A non-string `name` is not modelled. The source converts it with `String(name)`; the model takes a string or nothing.
- Non-string request-body fields are not modelled. Fields are strings or missing, and truthiness matters only for "".
- Posts hold only `id`, `username`, `skill`, `category` and `description`, and the id is an integer. The source keeps any further fields, and a non-numeric stored id never matches under `===`.
- Array elements that are not post objects are not modelled. A `null` element makes `findIndex` throw, which ends in the 500 path.
- ApiKeys.Upper: only ASCII letters are upper-cased. JavaScript's `toUpperCase` also maps other letters, some to more than one character.
- Decimal.ParseInt: digit strings are read exactly. JavaScript's `parseInt` rounds very long digit strings to a double, and reads "-0" as -0, which still equals 0 under `===`.
- SkillPosts.PostFile.ViewPosts: a collection that is present but not an array (an object, say) is sent back unchanged by the source. The model's document cannot hold such a value, so it lists [].
- Concurrent requests racing on the same JSON file are not modelled; the model is sequential.
- The `register`, `login` and `me` endpoints exercised by tests/api.test.js live in a server file that is not part of this model.
- public/js/Benjamin.js (browser form handling), generate-coverage.js (coverage tooling) and e2e/frontend.spec.ts (browser tests) are not modelled; they are UI glue and tooling.

## Findings

| source | as written | input that shows it | evidently intended | confidence | as-written member | corrected member |
|---|---|---|---|---|---|---|
| utils/BenjaminUtils.js:42-43 | `keys && (keyName in keys)` applies `in` to whatever `JSON.parse` returned; on a truthy number, string or boolean, `in` throws a TypeError out of `getApiKey` | `utils/api_keys.json` containing `1`, name `"k"` set nowhere in the environment, default options | a key file that does not hold an object contributes no keys, so the lookup returns null; the comment at line 16 says `loadLocalKeys` must not throw, so that callers fall back to the environment only | medium; not executed | `ApiKeys.PrimitiveKeyFileThrows` | `ApiKeys.PrimitiveKeyFileIsMissing` |

Apart from this correction the model follows the code, which uses whatever
the key file parses to, not only objects. An array is searched through its
own properties. A falsy value (null, false, 0, "") contributes no keys.
`ApiKeys.GetApiKeyAsWritten` keeps the throwing behaviour of lines 42-43.
`ApiKeys.GetApiKey`, the corrected lookup, treats a primitive like a missing file.
