# utilities — a verified model of the collection, data, text and currency helpers

This project models in Dafny the four helper files at the core of the
`utilities` TypeScript library, and proves what they promise.

- `src/collections.ts`: `groupBy`, `toDictionary`, `unique`, `sortBy` and
  `range` over arrays.
- `src/data.ts`: object and graph helpers. `copy` and `resetTo` change an
  object in place. `mergeOptions` fills in defaults. `partialEqual` compares
  an object with a partial one. `graphMatches` searches a value graph for
  text. `copyWithFunctions` and `copyFunctions` deep-copy values and graft
  function leaves onto them.
- `src/text.ts`: `escapeRegExp` and `camelize`.
- `src/currency.ts`: the `currencies` table, `prettyCurrency`, `prettyNumber`
  and `prettyMoney`.

JavaScript values are the datatype `Js.Value`: `undefined`, `null`, booleans,
numbers (as reals), strings, functions (an opaque tag), arrays (`seq`) and
objects (`map` from property name). The truthiness rules of the language are
`Js.Truthy`.

Each helper is modelled in the form the code has:

- A loop that builds its result (`groupBy`, `toDictionary`, `unique`,
  `mergeOptions`, `partialEqual`, `copyWithFunctions`) is a `method` with
  loop invariants. It is proved against a specification function.
- `sortBy` sorts an `array` in place.
- `copy` and `resetTo` update a `JsObject` whose property map the methods
  reassign, so passing the same object twice is modelled.
- Expression-only code (`range`, `graphMatches`, `escapeRegExp`, `camelize`
  and the currency helpers) is made of functions and lemmas.
- `copyFunctions` has loops that write into the target (`target[i] =`,
  `target.push`, `ret[k] =`). They are modelled as a recursive function that
  returns the updated value, so the updates in place are not captured (see
  "## Left out").

Modules: `Wrappers` (Option, Result), `Js` (values, truthiness, ASCII case
mapping, `includes`), `Collections`, `Data`, `Text` and `Money`.

## Model

| member | source | states |
|---|---|---|
| `Collections.GroupBy` | src/collections.ts:2-12 | The keys are exactly those of the elements. Each bucket is non-empty and holds, in input order, exactly the elements with its key. Every occurrence of every element lands in its key's bucket. |
| `Collections.BucketIsFiltered` | src/collections.ts:4-10 | A bucket holds only input elements with its key, as a subsequence of the input. |
| `Collections.BucketCountsAll` | src/collections.ts:4-10 | Every element appears in the bucket of its key as many times as in the input. |
| `Collections.BucketNonEmpty` | src/collections.ts:7-9 | The bucket of a key is non-empty exactly when some element has that key. |
| `Collections.ToDictionary` | src/collections.ts:14-23 | Succeeds iff no element finds a truthy element already stored under its key. On success it maps each key to the last element with that key. Otherwise the error is `'Duplicate key: ' + key` for the first clashing element. |
| `Collections.StoredIsPresent` | src/collections.ts:17-20 | Some element is stored under `k` iff some element has key `k`, and that element comes from the input. |
| `Collections.DistinctKeysStoreEach` | src/collections.ts:14-23 | With distinct keys nothing clashes, and each element is stored under its own key. |
| `Collections.StoredAfterLastOccurrence` | src/collections.ts:20 | The element stored under a key is its last occurrence. |
| `Collections.RepeatedKeyClashesIffTruthy` | src/collections.ts:18-19 | A repeated key throws only when the first element is truthy; a falsy one is silently replaced. |
| `Collections.Unique` | src/collections.ts:26-35 | Returns the first element seen for each key, in input order. The result is a subsequence with distinct keys and the same key set, and every first occurrence is kept. |
| `Collections.FirstOccurrencesKeys` | src/collections.ts:28-34 | Deduplication keeps every key and leaves no key twice. |
| `Collections.FirstOccurrencesIsSubsequence` | src/collections.ts:28 | The filtered result preserves input order. |
| `Collections.FirstOccurrencesKeepsFirsts` | src/collections.ts:30-33 | An element whose key does not occur earlier is kept. |
| `Collections.FirstOccurrencesOfDistinct` | src/collections.ts:26-35 | Input with distinct keys comes back unchanged. |
| `Collections.LastKeyIsNew` | src/collections.ts:30-33 | With distinct keys, the last element's key is not among the earlier ones, so `has[key]` is unset when it is reached. |
| `Collections.UniqueIdempotent` | src/collections.ts:26-35 | Applying `unique` twice equals applying it once. |
| `Collections.CodeUnits` | src/collections.ts:49-50 | A character becomes one UTF-16 code unit below U+10000 and a surrogate pair above, each unit below 0x10000. |
| `Collections.UnitsLessIsStrictTotal` | src/collections.ts:49-50 | Lexicographic `<` on code-unit sequences is irreflexive, asymmetric, total on distinct sequences and transitive. |
| `Collections.CodeUnitsPrefixFree` | src/collections.ts:49-50 | One character's code units never start another's, so the encoding can be read back one character at a time. |
| `Collections.Utf16Injective` | src/collections.ts:49-50 | Distinct strings have distinct UTF-16 encodings. |
| `Collections.StrLessIsStrictTotal` | src/collections.ts:49-50 | String `<`, which compares UTF-16 code units, is irreflexive, asymmetric, total on distinct strings and transitive. |
| `Collections.SurrogatePairSortsLow` | src/collections.ts:49-50 | U+10000 sorts before U+FF00, because its first code unit 0xD800 is below 0xFF00, although its code point is larger. |
| `Collections.KeyLessIsStrictTotal` | src/collections.ts:49-50 | The same for the key order the comparator uses. |
| `Collections.Compare` | src/collections.ts:45-51 | The comparator answers 1 or -1, never 0. |
| `Collections.InOrderTransitive` | src/collections.ts:45-51 | "May stay before" under the comparator is transitive. |
| `Collections.SortBy` | src/collections.ts:38-52 | Sorts `data` in place and returns the same array. The contents are a permutation of the old ones, and every pair is in comparator order, ascending or, with `desc`, descending. Strings compare by UTF-16 code units, as JavaScript's `<` does. |
| `Collections.InsertLast` | src/collections.ts:45-51 | One insertion step keeps the multiset and extends the sorted prefix by one. |
| `Collections.SwapStep` | src/collections.ts:49-50 | Swapping a neighbour pair the comparator rejects moves the unsorted position one place left. |
| `Collections.InsertDone` | src/collections.ts:45-51 | Once the pair at the unsorted position is in order, the whole prefix is sorted. |
| `Collections.Range` | src/collections.ts:53-64 | The array is non-empty exactly when `start != end` and the step is positive, and it then begins at `start`. |
| `Collections.RangeLengthIsLeastCover` | src/collections.ts:58-59 | With a positive step, `ceil(abs(end - start) / step)` is the least number of steps that covers the distance. |
| `Collections.RangeLength` | src/collections.ts:58-59 | With a positive step and `start != end`, the length is `ceil(abs(end - start) / step)`, which is positive. |
| `Collections.FewerStepsFallShort` | src/collections.ts:59 | If `c - 1` steps fall short of a distance, every smaller count does too. |
| `Collections.CeilCovers` | src/collections.ts:59 | `ceil(d / step)` steps of `step` reach `d`, and one step fewer does not. |
| `Collections.RangeAscendingWithin` | src/collections.ts:61-63 | For `start < end` and a positive step, element `k` is `start + k*step` and lies in `[start, end)`. |
| `Collections.RangeDescendingWithin` | src/collections.ts:61-62 | For `start > end` and a positive step, element `k` is `start - k*step` and lies in `(end, start]`. |
| `Collections.RangeNegativeStepIsEmpty` | src/collections.ts:54-63 | A negative step gives an empty array. |
| `Data.PartialEqual` | src/data.ts:138-146 | Returns true iff every property of `partial` reads the same on `source`, a missing one reading as `undefined`. An empty partial therefore gives true. |
| `Data.AgreesTrivially` | src/data.ts:138-146 | An empty partial agrees with anything, and an object agrees with itself. |
| `Data.AgreesWithPart` | src/data.ts:138-146 | Agreement with a partial implies agreement with any part of it. |
| `Data.Copy` | src/data.ts:72-81 | Every allowed property of `source` gets the value `source[k]` in `destination`, and no other property of `destination` changes. The same destination is returned. Copying an object onto itself changes nothing. The copied properties are the reference definition `Selected`: those of `source` that the allow-list admits, or all of them when the list is empty. |
| `Data.CopiedSoFarStep` | src/data.ts:73-79 | Visiting one more key adds that key's copy exactly when it is allowed. |
| `Data.CopyThenAgrees` | src/data.ts:72-81 | After `copy`, `partialEqual(destination, copied)` holds, and with no allow-list `partialEqual(destination, source)` holds. |
| `Data.ResetTo` | src/data.ts:84-95 | Afterwards the object holds exactly `source`'s properties and values, functions included, without rebinding. Resetting an object to itself empties it. |
| `Data.MergeOptions` | src/data.ts:124-132 | Every property of `options` keeps its value, even `undefined`. Every default that `options` lacks is added with its value, and nothing else is added. The result equals the reference definition `Merged`. |
| `Data.MergedIdempotent` | src/data.ts:124-132 | Merging the result again with the same defaults changes nothing. |
| `Data.MergedAgreesWithOptions` | src/data.ts:125 | The result agrees with `options`, and absent options give exactly the defaults. |
| `Data.CopyWithFunctions` | src/data.ts:3-33 | The recursive loops compute the copy `DeepCopy` specifies. |
| `Data.CopyArray` | src/data.ts:6-15 | The array loop pushes the copy of each element in order, keeping functions or skipping them with `removeFunctions`. |
| `Data.CopyObject` | src/data.ts:16-29 | The property loop assigns the copy of each property, keeping functions or skipping them with `removeFunctions`. |
| `Data.CopiedAllProperties` | src/data.ts:17-29 | A map that holds the copy of every kept property, and nothing else, is the object's copy. |
| `Data.DeepCopy` | src/data.ts:3-33 | A scalar, function or falsy value comes back as it is. An array stays an array and an object an object. The copy never has more elements or properties than the original, and has the same number when functions are kept. |
| `Data.CopyElems` | src/data.ts:8-14 | The element copies never outnumber the elements, match them in number when functions are kept, and hold no function when they are removed. |
| `Data.DeepCopyIsIdentity` | src/data.ts:3-33 | Keeping functions, or copying a value that has none, gives an equal value with the same shape and leaves. A falsy value comes back as it is. |
| `Data.CopyElemsIsIdentity` | src/data.ts:8-14 | The element loop reproduces the array when no element changes or is dropped. |
| `Data.DeepCopyRemovesFunctions` | src/data.ts:3-33 | With `removeFunctions`, no function is left anywhere in the copy of a non-function value. |
| `Data.CopyElemsFunctionFree` | src/data.ts:8-14 | The element loop yields no function when removing them. |
| `Data.DeepCopyIdempotent` | src/data.ts:3-33 | Copying a second time with `removeFunctions` changes nothing. |
| `Data.IndexKey` | src/data.ts:52 | The property name for an array index is never empty. |
| `Data.CopyFunctions` | src/data.ts:34-68 | A truthy target stays truthy. An array target with a source that is not an array comes back unchanged. An array target stays an array and never shrinks. An object target keeps all its properties when the source is an object or array. Onto anything but an array, a function source is returned as it is. |
| `Data.Appended` | src/data.ts:43-47 | The loop over the source's extra elements pushes only truthy grafts, at most one per element. |
| `Data.Grafted` | src/data.ts:50-60 | The property loop keeps every property of `target \|\| {}`. Every property it adds or changes holds a truthy graft, and an object source adds only its own property names. |
| `Data.GraftedElems` | src/data.ts:52-60 | The same loop over an array source keeps every existing property, and writes only truthy grafts. |
| `Data.NothingToGraft` | src/data.ts:49-63 | With a falsy target and a source without functions, an object or array source gives `null`. Any other source gives the target. |
| `Data.GraftedElemsEmpty` | src/data.ts:52-60 | Over an array source with no truthy graft, the loop writes nothing. |
| `Data.TargetKeysKept` | src/data.ts:49-63 | Onto an object target, a source without functions adds no property. |
| `Data.GraftedElemsKeys` | src/data.ts:52-60 | The array-source loop keeps the key set when no graft is truthy. |
| `Data.FunctionGrafted` | src/data.ts:49-65 | A function under key `k` of an object source ends up under `k` in the result, unless the target holds an array there. |
| `Data.ArrayElementGrafted` | src/data.ts:36-48 | Over an array target and an array source, a function at index `i` of the source replaces the target's element there unless that element is an array. Target elements past the end of the source are kept. |
| `Data.ArrayWithoutTargetBecomesObject` | src/data.ts:49-63 | With no target, an array source becomes an object keyed by index: `copyFunctions(null, [f])` is `{"0": f}`. |
| `Data.Matches` | src/data.ts:104-116 | The intended inner search holds only when some string within the remaining depth contains `val`. |
| `Data.GraphMatches` | src/data.ts:98-118 | It is false for a falsy item and true for a truthy item with an empty `val`. Otherwise a match is witnessed by a string at depth at most 3 that contains `val`, ignoring case. |
| `Data.MatchesIffLeaf` | src/data.ts:104-116 | The inner search holds iff some string within the remaining depth contains `val` once lower-cased. |
| `Data.GraphMatchesIffLeaf` | src/data.ts:98-118 | `graphMatches` is true iff the item is truthy and either `val` is empty or a string at depth at most 3 contains `val`, ignoring case. |
| `Data.MatchesAsWritten` | src/data.ts:104-116 | With `Object.keys` in any order, the inner search as written never matches where the intended one does not. |
| `Data.GraphMatchesAsWritten` | src/data.ts:98-118 | `graphMatches` as written is true only where the intended search is. |
| `Data.AsWrittenAgreesWithoutEmptyKeys` | src/data.ts:104-116 | The search as written agrees with the intended search on every graph without an empty property name. |
| `Data.FirstMatchFound` | src/data.ts:110-111 | When a key listed by `Object.keys` leads to a match and no key is empty, `find` stops at the first matching key and the match is reported. |
| `Data.EmptyKeyMatchIsLost` | src/data.ts:111 | As written, `graphMatches({"": "abc"}, "a")` is false, while the intended search finds the match. |
| `Text.EscapeRegExp` | src/text.ts:4-6 | The output length is the input length plus the number of special characters. |
| `Text.UnescapeEscape` | src/text.ts:5 | Deleting the backslash before each escaped character gives back the input. |
| `Text.EscapeRegExpInjective` | src/text.ts:5 | Distinct inputs give distinct outputs. |
| `Text.EscapeIsWellEscaped` | src/text.ts:5 | Every output has each special character preceded by a backslash, and nothing else escaped. |
| `Text.WellEscapedIsEscape` | src/text.ts:5 | Every such well-escaped string is the output for exactly its unescaped form. |
| `Text.Filter` | src/text.ts:11-15 | A `replace` with `''` leaves only characters that pass the test, and never lengthens the string. |
| `Text.FilterTwice` | src/text.ts:14-15 | Filtering with a weaker test and then a stricter one equals filtering with the stricter one. |
| `Text.FilterKeepsAll` | src/text.ts:11-15 | A filter that every character passes changes nothing. |
| `Text.Capitalize` | src/text.ts:12-13 | The case step keeps the length and which characters are word characters. |
| `Text.Camelize` | src/text.ts:10-17 | The output holds only word characters and is never longer than the normalised input. |
| `Text.CamelizeAlphabet` | src/text.ts:15 | The output holds only `[A-Za-z0-9_]`, so no white space. |
| `Text.CamelizeSpaceStepRedundant` | src/text.ts:14-15 | Removing white space is subsumed by the final whitelist. |
| `Text.CamelizeFixesCamelCase` | src/text.ts:10-17 | An identifier already in camel case comes back unchanged. |
| `Text.CamelizeTwoWords` | src/text.ts:10-17 | Two small-letter words joined by a blank become the first word followed by the second, capitalised. |
| `Text.CapitalizeTwoWords` | src/text.ts:12-13 | In two such words, only the second word's first letter changes case. |
| `Text.CamelizeLeadingBlank` | src/text.ts:10-17 | A leading blank capitalises the first word: `" to"` gives `"To"`. |
| `Money.CurrencyTable` | src/currency.ts:14-186 | Every entry of the table is filed under its own code. |
| `Money.PrettyCurrency` | src/currency.ts:207-213 | The result is non-empty iff the currency is. A known code with a non-empty symbol gives that symbol. An unknown code, or a known one without a symbol, comes back as it is. |
| `Money.PrettyCurrencyExamples` | src/currency.ts:206-213 | `'EUR'` gives its symbol `'€'`. `'AED'` has no symbol and gives its code. An unknown code gives itself, and an empty or absent currency gives `null`. |
| `Money.DigitRun` | src/currency.ts:6 | The measured run is all digits and is followed by a non-digit or the end. |
| `Money.GroupBoundaryIsPattern` | src/currency.ts:6 | A space goes after a digit exactly where `(\d)(?=(\d{3})+(\.\|$))` matches. |
| `Money.Grouped` | src/currency.ts:6 | Grouping never shortens the text. |
| `Money.GroupedOnlyInsertsSpaces` | src/currency.ts:6 | For a formatted number without spaces, removing the spaces again gives it back, so nothing else changes. |
| `Money.GroupedPlain` | src/currency.ts:6 | Text with no group boundary comes out of the replacement unchanged. |
| `Money.PrettyNumberIgnoresNumber` | src/currency.ts:4-5 | As written, without `fixed` the output is the same for every number. |
| `Money.PrettyNumberAsWritten` | src/currency.ts:1-7 | As written, the text formatted is `toFixed(number, fixed)` when `fixed` is given and `toFixed(2, 0)` otherwise. The output never shortens that text, and only adds spaces to a text without spaces. |
| `Money.PrettyNumberAsWrittenExample` | src/currency.ts:1-7 | As written, `prettyNumber(1234.5)` prints `"2"`. |
| `Money.PrettyNumber` | src/currency.ts:1-7 | Corrected, the text formatted is `toFixed(number, fixed)`, or `toFixed(number, 2)` when `fixed` is not given. The output never shortens that text, and only adds spaces to a text without spaces. |
| `Money.PrettyNumberKeepsDigits` | src/currency.ts:1-7 | Corrected, the output without `fixed` is the two-decimal text of the number with spaces added. |
| `Money.PrettyMoneyWith` | src/currency.ts:187-204 | A zero amount gives `'-'`. Otherwise the output starts with the formatted amount, and something follows it exactly when a non-empty currency is given. |
| `Money.PrettyMoney` | src/currency.ts:187-204 | Corrected, a zero amount gives `'-'`, and any other amount's output starts with its two-decimal pretty number. |
| `Money.PrettyMoneyAsWritten` | src/currency.ts:187-204 | As written, a zero amount gives `'-'`, and any other amount's output starts with the grouped text of `toFixed(2, 0)`, whatever the amount. |
| `Money.PrettyMoneyShape` | src/currency.ts:197-203 | A zero amount gives `'-'`. Otherwise the output is the formatted amount, followed by a space and the currency's display form when there is a currency. |
| `Money.MoneyCurrencyOverrides` | src/currency.ts:189-195 | The currency inside an `IMoney` amount replaces the `cur` argument: the record prints exactly as its plain amount with its own currency passed as `cur`, whose full output `Money.PrettyMoneyShape` gives. |
| `Money.PrettyMoneyAsWrittenIgnoresAmount` | src/currency.ts:200 | As written, every non-zero amount in one currency prints the same text. |
| `Money.PrettyMoneyExample` | src/currency.ts:187-204 | Intended: 1234 euros print as `"1 234.00 €"`. |
| `Money.GroupedThousands` | src/currency.ts:6 | The replacement turns `"1234.00"` into `"1 234.00"`. |

## Findings

| source | as written | input that shows it | evidently intended | confidence | as-written member | corrected member |
|---|---|---|---|---|---|---|
| src/data.ts:111 | `!!Object.keys(o).find(...)` turns the matching key into a boolean, so a match under the empty key `""` reads as no match | `graphMatches({"": "abc"}, "a")` is false | true whenever some property's value matches (as `.some` would give) | high; not executed | `Data.EmptyKeyMatchIsLost` | `Data.GraphMatchesIffLeaf` |
| src/currency.ts:4-5 | when `fixed` is not a number, `number = 2` overwrites the number instead of `fixed` | `prettyNumber(1234.5)` prints `"2"`, like every other number | `fixed = 2`, printing the number with two decimals | high; not executed | `Money.PrettyNumberIgnoresNumber` | `Money.PrettyNumberKeepsDigits` |

The model uses the corrected forms: `Data.GraphMatches` and `Money.PrettyNumber`,
which `Money.PrettyMoney` calls. The as-written forms are
`Data.GraphMatchesAsWritten`, `Money.PrettyNumberAsWritten` and
`Money.PrettyMoneyAsWritten`. `Data.AsWrittenAgreesWithoutEmptyKeys`
shows that the two searches differ only through empty property names.

## Left out

- Numbers are reals: `NaN`, infinities and floating-point rounding are not modelled. This affects `range`, `prettyMoney`'s `!amt` test and `partialEqual`'s `!==` on `NaN`.
- `Number.prototype.toFixed` and `String.prototype.normalize('NFD')` are parameters. `prettyNumber`'s coercion `parseFloat(number) || 0` of a non-number argument is not modelled: the number is a real.
- Case mapping (`toLowerCase`, `toUpperCase`) covers ASCII letters only. For `camelize` this is exact, since only `\w` characters and `[A-Z]` are touched. `graphMatches` on non-ASCII text is not captured.
- Property lookups through the prototype chain are not modelled. Examples: `key in currencies` for `"toString"`, `has[key]` in `unique`, and `ret[key]` in `groupBy` and `toDictionary` for `"constructor"`. Only own properties are seen.
- `Data.PartialEqual`: `===` on objects compares identity; the model compares values structurally, since nested values are immutable trees.
- `Data.CopyFunctions`: modelled on values. The in-place updates of the target array or object (`target[i] =`, `target.push`, `ret[k] =`) are not visible to other holders of the same object. A truthy target that is neither an array nor an object (a function, a non-empty string, a number) comes back unchanged. Its function properties and the TypeError of a strict-mode write onto a primitive are not modelled.
- `Data.GraphMatchesAsWritten`: `Object.keys` order is the parameter `order`. Only its listing of every key is assumed.
- `Collections.SortBy`: strings compare by UTF-16 code units, as in JavaScript. The engine's sorting algorithm is replaced by an insertion sort that follows the same comparator. A getter given as a property name (`x => x[get]`) is modelled as a key function. When number and string keys are mixed, numbers are placed before strings; JavaScript's coercing `<` is not modelled. `Array.prototype.sort` moves `undefined` elements to the end without calling the comparator; the model orders them by `get` like any other element. A `null` element with a property-name getter throws a TypeError at `x[get]`; the model's key function is total.
- `Collections.Unique`, `Collections.GroupBy` and `Collections.ToDictionary`: keys are the strings JavaScript coerces them to. `unique`'s default `x => x` is left to the caller.
- `Collections.Range`: the default arguments (`start = 0`, `end = 0`, `step = 1`) and the engine's cap on array length are not modelled.
- `Data.Copy`, `Data.ResetTo` and `Data.PartialEqual`: the arguments are objects, never `null` or `undefined`. In JavaScript `for ... in` over `null` runs no iterations. So `resetTo(o, null)` empties `o`, `copy(null, d)` returns `d` unchanged and `partialEqual(x, null)` is true, while `partialEqual(null, {a: 1})` throws. None of these calls can be expressed in the model.
- `Data.ResetTo`: the bound copy `val.bind(objToReset)` is discarded by the source, so the model does not create it.
- The remaining files of the repository (search index, async sequences, cache, introspection, promises) are not part of this model.
