# DisallowedCallFactory, modelled in Dafny

phpstan-disallowed-calls reads a configured list of "disallowed calls" and turns it into
rule records for its host static analyser. `DisallowedCallFactory` does the translation.
Each configuration item names a function or a method, plus optional lists that say where
the call is still allowed and with which parameter values.

For each item, `createFromConfig`:

- picks the call name, from `function` if that key is set and otherwise from `method`;
- rejects the whole configuration if the chosen name is missing, `""` or `"0"`;
- normalizes the name and the `allowInFunctions`/`allowInMethods` lists;
- builds three parameter maps;
- files the record under its key, so that a later item with the same key replaces the
  earlier record but keeps its position.

`normalizeCall` removes one trailing `()` and then every leading namespace separator `\`.

The project is six modules:

- `Wrappers` (`wrappers.dfy`): `Option` for a key that is absent or `null`, `Result` for
  the thrown exception, and `MapAll`, which maps over items and stops at the first failure.
- `OrderedMap` (`ordered_map.dfy`): a PHP array written only with `$a[$k] = $v`, as an
  association list. `Put` appends a new key and overwrites an existing key in place.
  `PutAll` is a `foreach` of such writes. `LastWrite` is an independent reference
  definition of what a run of writes leaves under a key.
- `CallName` (`call_name.dfy`): `normalizeCall`.
- `Params` (`params.dfy`): parameter ids, scalar values, the three matcher kinds (as tags
  only) and the two ways the factory fills a parameter map.
- `DisallowedCallFactory` (`factory.dfy`): configuration items, rule records, the build of
  one record, the keyed deduplication, `Translate` (the functional meaning of the whole
  factory) and `CreateFromConfig` (the loop itself, proved equal to `Translate`).
- `FactoryExamples` (`factory_examples.dfy`): concrete configurations and what they become.

Two consequences of the code are easy to miss:

- Normalization is not idempotent. Only one `()` comes off per call, so `f()()` becomes
  `f()` and only a second call gives `f` (`CallName.NormalizeCallIdempotentIff`).
- `??` only skips a key that is absent or `null`. So `function: ""` with a valid `method`
  fails, since the falsiness test comes after the choice (`FactoryExamples.FalseNamesFail`).

## Model

| member | source | states |
|---|---|---|
| `CallName.NormalizeCall` | src/DisallowedCallFactory.php:67-71 | The result never starts with `\`. It is what is left of the input after one trailing `()` (only if there was one) and a run of leading `\` are removed. So it is a piece of the input, no longer than it, and at least two shorter when a `()` came off |
| `CallName.TrimLeadingBackslashes` | src/DisallowedCallFactory.php:70 | The result is a suffix of the input that does not start with `\`, and everything before it is `\`. So it is the input with its whole leading run of `\` removed, as `ltrim($call, '\\')` does |
| `CallName.NormalizeCallUndecorates` | src/DisallowedCallFactory.php:69-70 | Any number of leading `\` and one `()` added around a name that does not start with `\` are removed again, giving back exactly that name |
| `CallName.NormalizeCallIdempotentIff` | src/DisallowedCallFactory.php:69 | Normalizing twice gives the same as once if and only if the once-normalized name does not end in `()` |
| `CallName.NormalizeCallStripsOneSuffix` | src/DisallowedCallFactory.php:69 | `f()()` normalizes to `f()`, and only a second normalization gives `f` |
| `CallName.NormalizeCallGlobalFunction` | src/DisallowedCallFactory.php:69-70 | `\strtolower()` normalizes to `strtolower` |
| `CallName.NormalizeCallNamespaced` | src/DisallowedCallFactory.php:69-70 | `\Foo\bar()` and `\Foo\bar` both normalize to `Foo\bar`: a `\` inside the name stays |
| `CallName.NormalizeCallMethod` | src/DisallowedCallFactory.php:69-70 | `Foo\Bar::baz()` normalizes to `Foo\Bar::baz` |
| `CallName.NormalizeCallMayBeEmpty` | src/DisallowedCallFactory.php:69-70 | `()` and `\\()` normalize to the empty name |
| `Wrappers.MapAll` | src/DisallowedCallFactory.php:24-28 | The item-by-item build fails exactly when some item fails, and then with that item's error. Otherwise it yields one value per item, in item order |
| `Wrappers.MapAllStopsAtFirstFailure` | src/DisallowedCallFactory.php:24-28 | A failed build carries the error of the first failing item: every item before it built successfully, as the loop throws at the first bad item |
| `DisallowedCallFactory.StringFalsiness` | src/DisallowedCallFactory.php:26 | A name fails the `!$call` test exactly when it is `""` or `"0"`. `"00"`, `"0.0"`, `" "` and `"false"` pass |
| `DisallowedCallFactory.SelectCallName` | src/DisallowedCallFactory.php:25-28 | When `function` is set, it decides alone: success exactly when it is neither `""` nor `"0"`, and the name is its value. Only when `function` is absent does `method` decide, by the same rule. Every failure is the missing-name error carrying the exception's message |
| `DisallowedCallFactory.AllowInCalls` | src/DisallowedCallFactory.php:31-33 | When `allowInFunctions` is set, even to an empty list, the result has its length and order, with each element normalized. Otherwise the same holds for `allowInMethods`. With neither set, the result is empty |
| `Params.ExactThenAnyValue` | src/DisallowedCallFactory.php:34-45 | In the built map, an id listed as any-value maps to the any-value matcher. Any other id with exact values maps to an exact matcher holding its last value. No other id is present, and no id appears twice |
| `Params.ExactThenCaseInsensitive` | src/DisallowedCallFactory.php:46-51 | In the built map, an id with case-insensitive values maps to a case-insensitive matcher holding its last such value. Any other id with exact values maps to its last exact value. No other id is present, and no id appears twice |
| `DisallowedCallFactory.BuildCall` | src/DisallowedCallFactory.php:25-60 | An item builds a record exactly when it has a usable name, and otherwise fails with the missing-name error. The record's key is the normalized chosen name. `message` passes through, absent stays absent. `allowIn` defaults to empty. The three parameter maps are the exact-then-override maps of the item's lists, an absent list counting as empty |
| `DisallowedCallFactory.Dedup` | src/DisallowedCallFactory.php:61-63 | The keyed accumulation followed by `array_values`. No two records share a key, and every input key has a record. Keys appear in first-occurrence order. Each record is the last input record with its key. There are never more records than inputs |
| `DisallowedCallFactory.Translate` | src/DisallowedCallFactory.php:21-64 | The whole translation fails exactly when some item has no usable name, with the missing-name error and its message. Otherwise it yields at most one record per item and no two records share a key |
| `DisallowedCallFactory.TranslateCoversEveryItem` | src/DisallowedCallFactory.php:61-63 | When every item is usable, every item's key has a record in the result |
| `DisallowedCallFactory.TranslateFirstOccurrenceOrder` | src/DisallowedCallFactory.php:61-63 | The records appear in the order in which their keys first occur among the items |
| `DisallowedCallFactory.TranslateLastItemWins` | src/DisallowedCallFactory.php:61-63 | Every record is the one built from an item that no later item shares a key with |
| `DisallowedCallFactory.TranslateAllSameName` | src/DisallowedCallFactory.php:61-63 | Items that all share one key give exactly one record, the one built from the last item |
| `DisallowedCallFactory.CreateFromConfig` | src/DisallowedCallFactory.php:21-64 | The loop gives the same answer as `Translate`. It stops with the error at the first item without a usable name, and otherwise returns the values of the map accumulated by key |
| `OrderedMap.Put` | src/DisallowedCallFactory.php:61 | `$a[$k] = $v`. A present key keeps its position, a new key is appended at the end. Afterwards `k` holds `v` and every other key holds what it held before. No entry appears that was not there before or is not the new one. Distinct keys stay distinct |
| `OrderedMap.Values` | src/DisallowedCallFactory.php:63 | `array_values`: the values in position order, one per entry |
| `OrderedMap.PutAllGet` | src/DisallowedCallFactory.php:61 | After a run of `$a[$k] = $v` writes, a key holds the value of its last write in the run. A key the run never wrote holds what it held before |
| `OrderedMap.PutAllKeys` | src/DisallowedCallFactory.php:61 | After a run of writes, a key is present exactly when it was present before or the run wrote it |
| `OrderedMap.PutAllKeepsFirstWriteOrder` | src/DisallowedCallFactory.php:61-63 | Starting from an empty array, the keys sit in the order of their first write. A later overwrite never moves a key |
| `FactoryExamples.FalseNamesFail` | src/DisallowedCallFactory.php:25-27 | `function: ""` with `method: "x"`, `function: "0"`, and an item with neither key each make the translation fail |
| `FactoryExamples.FunctionKeyShadowsMethod` | src/DisallowedCallFactory.php:25 | With both keys set, the `function` name is chosen. With only `method`, the `method` name is |
| `FactoryExamples.LateBadItemFailsAll` | src/DisallowedCallFactory.php:24-28 | A nameless item after a good one still fails the whole translation |
| `FactoryExamples.LaterItemReplacesEarlier` | src/DisallowedCallFactory.php:53-61 | `eval` with a message, followed by `\eval()`, gives one record filed under `eval` whose message is absent: the later item's |
| `FactoryExamples.AnyValueOverridesExact` | src/DisallowedCallFactory.php:40-45 | Position 0 listed both with a value and as any-value maps to the any-value matcher, and position 1 is absent |
| `FactoryExamples.CaseInsensitiveOverridesExact` | src/DisallowedCallFactory.php:46-51 | A case-insensitive value for position 0 replaces its exact value. The exact value for parameter `b` is kept |
| `FactoryExamples.AllowInFunctionsWinsWhenEmpty` | src/DisallowedCallFactory.php:31 | `allowInFunctions: []` hides `allowInMethods`, and `allowInMethods: ["\f()"]` alone gives `["f"]` |
| `FactoryExamples.AcceptedNameMayNormalizeToEmpty` | src/DisallowedCallFactory.php:26-28 | The name `()` passes the falsiness test, which runs before normalization, and is filed under the empty key |

## Left out

- The key of a record (`DisallowedCall::getKey()`) is assumed to be the normalized call name. `DisallowedCall` is not part of this model.
- The parameter matcher classes (`DisallowedCallParamWithValue`, `...WithAnyValue`, `...WithCaseInsensitiveValue`) are only tags with their value. What they match at analysis time is not part of this model.
- PHP converts array keys that are numeric strings (`"1"`) to integers, and `true`/`false` to `1`/`0`. The model takes parameter ids as already either a position or a name and does no such conversion. The same holds for the record keys.
- Configuration values are ints, strings, booleans or null. Floats and nested arrays as parameter values are not modelled.
- Each input list of parameter values is a sequence of (id, value) writes. A PHP array literal with a repeated key has already kept only the last value, and a sequence with the repeated key ends up with the same map.
- The thrown `ShouldNotHappenException` becomes the `MissingCallName` error value, which carries the exception's message. The exception's class is not modelled.
- Loading the configuration, its declared type alias, and the host analyser that uses the records are outside the model.
