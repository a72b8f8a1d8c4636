# How rare is my car? — a verified model of the page logic

The page answers "how many vehicles of this make and model are registered
in Australia?" from the yearly vehicle-registration datasets on
data.gov.au. This project models in Dafny the logic of `src/App.tsx` that
decides what the page asks for and what it does with the answers:

- **Page state** (`page_state.dfy`, module `PageState`): how the URL's
  query parameters seed the selected dataset, the selected vehicle with its
  label, and the year bounds, and the guard `make && model` that decides
  whether any query is sent.
- **Search box** (`search.dfy`, module `Search`): the make/model options
  built from the bundled list, and `filterMakeModel`, the case-insensitive
  substring filter over option labels.
- **SQL filter and queries** (`where_clause.dfy`, module `WhereClause`):
  the `WHERE` fragment built from the selected make and model and the
  optional model-year bounds (a bound counts only when it is not blank
  after trimming, and is appended untrimmed), and the SQL texts it is
  appended to.
- **Aggregation of the detailed rows** (`aggregate.dfy`, module
  `Aggregate`): the `forEach` that sums `no_vehicles` into a total, a map
  over the eight states seeded at 0, and a map over the years of
  manufacture; then the two sorts.
- **Totals per dataset** (`dataset_change.dfy`, module `DatasetChange`):
  the four sum-only answers folded into one map keyed `'2024'` … `'2021'`,
  listed and sorted.
- Supporting modules: `JsString` (`js_string.dfy`: the string `<` used by
  the sort comparators, `toUpperCase`/`toLowerCase`, `trim`, `includes`),
  `KeySort` (`key_sort.dfy`: `Array.prototype.sort` with the
  `a < b ? -1 : a > b ? 1 : 0` comparator, as a stable insertion sort) and
  `OrderedMaps` (`ordered_map.dfy`: a JavaScript `Map`, which lists its
  keys in first-insertion order).

Both `Map`-filling loops are imperative methods proved against
specification functions: `AggregateDetailed` against `StateTable`,
`GroupSum` and `GroupKeys`, and `AddDataset` against `Folded`. The method
`DatasetTotals`, which chains the four `AddDataset` calls and the sort, is
proved equal to `ExpectedChange`. Sorting is a function, proved
to return a sorted permutation; `SortedUnique` then shows the sorted
listing does not depend on the map's insertion order.

## Model

| member | source | states |
|---|---|---|
| JsString.StrLessIrreflexive | src/App.tsx:61 | No label compares `<` to itself, so the comparator returns 0 for equal labels |
| JsString.StrLessTransitive | src/App.tsx:61 | String `<` used by the comparators is transitive |
| JsString.StrLessAsymmetric | src/App.tsx:61 | `a < b` and `b < a` never both hold, so the comparator's -1 and 1 cases are consistent |
| JsString.StrLessTotal | src/App.tsx:61 | Two different strings are always ordered one way or the other |
| JsString.TrimStartSpec | src/App.tsx:40 | Trimming the front drops a run of leading white space and nothing else (the result is a suffix whose dropped prefix is all white space), stops at a character that is not white space, and leaves nothing exactly when the string is all white space |
| JsString.TrimStartSuffix | src/App.tsx:40 | The front-trimmed string is the input minus a leading run of white space |
| JsString.TrimEndSpec | src/App.tsx:40 | Trimming the end drops a run of trailing white space and nothing else (the result is a prefix whose dropped suffix is all white space), stops at a character that is not white space, and leaves nothing exactly when the string is all white space |
| JsString.TrimEndPrefix | src/App.tsx:40 | The end-trimmed string is the input minus a trailing run of white space |
| JsString.TrimEmptyIffBlank | src/App.tsx:40-43 | `s.trim() != ""` holds exactly when `s` has a character that is not ECMAScript white space |
| JsString.IncludesAt | src/App.tsx:99 | `includes` is true exactly when the needle occurs at some position of the label |
| KeySort.SortByKeySpec | src/App.tsx:61-63 | Sorting returns a permutation of the listing, in non-decreasing key order, strictly increasing when keys are distinct |
| KeySort.SortedUnique | src/App.tsx:61-63 | Two strictly sorted permutations of the same entries are equal: the sorted result does not depend on the map's insertion order |
| KeySort.SortByKeyIdentity | src/App.tsx:63 | Sorting an already strictly sorted listing returns it unchanged |
| KeySort.StrictlySortedDistinct | src/App.tsx:61-63 | A strictly sorted listing has distinct keys |
| OrderedMaps.SetGet | src/App.tsx:58-59 | After `set(k, v)`, `get(k)` is `v` and every other key reads as before |
| OrderedMaps.SetNewKey | src/App.tsx:59 | Setting a new key appends one entry to the map's listing |
| OrderedMaps.SetExistingKey | src/App.tsx:58 | Setting an existing key changes its value in place; the listing keeps its order and length |
| OrderedMaps.SetTwice | src/App.tsx:80 | A second `set` of the same key overrides the first |
| OrderedMaps.EntriesSpec | src/App.tsx:61 | `Array.from(map)` lists each key once, with its value, and no other key |
| OrderedMaps.FromEntriesSpec | src/App.tsx:53 | `new Map(pairs)` with distinct keys lists exactly those pairs in order |
| Aggregate.StateTableSorted | src/App.tsx:53 | The eight seeded states ACT, NSW, NT, QLD, SA, TAS, VIC, WA are already in ascending order |
| Aggregate.SeedIsEmptyTable | src/App.tsx:23-53 | The seed pairs, which are also the initial per-state results, equal the state table of no rows (every state at 0), and the seeded map lists exactly them |
| Aggregate.AbsentGroupIsZero | src/App.tsx:53 | A state (or year) no row carries sums to 0 |
| Aggregate.GroupKeysOccur | src/App.tsx:59 | Every year key in the map comes from some row |
| Aggregate.GroupSumInAll | src/App.tsx:56-59 | Summing the groups over a set of keys covering all rows gives the grand total |
| Aggregate.GroupTableTotal | src/App.tsx:57-59 | A table with distinct keys covering every row's key, each valued at its group's sum, adds up to the total |
| Aggregate.GroupSumStep | src/App.tsx:58-59 | A row adds its `no_vehicles` to its own key and to no other |
| Aggregate.StateStep | src/App.tsx:58 | One row's `states.set(...)` keeps the per-state map equal to the state table of the rows so far |
| Aggregate.YearStep | src/App.tsx:59 | One row's `years.set(... ?? 0 ...)` keeps the per-year map holding exactly the occurring years with their sums |
| Aggregate.RowStep | src/App.tsx:56-59 | One turn of the `forEach` adds the row to the total and keeps both maps matching the rows seen so far |
| Aggregate.NewStateMap | src/App.tsx:53 | The seeded map lists the eight states at 0 |
| Aggregate.AggregateDetailed | src/App.tsx:53-65 | The total is the sum of all rows; the per-state result is the eight states in order with their sums; the per-year result has exactly the occurring years, strictly ascending, each with its sum; both results add up to the total |
| Aggregate.SortedResults | src/App.tsx:61-63 | Sorting the two maps' listings gives the state table and a strictly ascending per-year table whose values add up to the total |
| DatasetChange.FoldStep | src/App.tsx:80 | One more count of a dataset adds to its year's value |
| DatasetChange.AddDataset | src/App.tsx:79-81 | A dataset's `forEach` leaves the map unchanged when it returned no rows, and otherwise sets its year to the old value (or 0) plus the dataset's sum |
| DatasetChange.AddNewDataset | src/App.tsx:79-90 | Folding a dataset into a map without its year appends exactly its contribution to the listing |
| DatasetChange.ContributionKeys | src/App.tsx:79-90 | A dataset contributes its year as a key exactly when it returned rows |
| DatasetChange.FoldFour | src/App.tsx:78-90 | Folding the four datasets into an empty map lists their contributions in fold order, under distinct keys |
| DatasetChange.ExpectedChangeSorted | src/App.tsx:91 | The chart lists at most four years, strictly ascending |
| DatasetChange.ExpectedChangeKeys | src/App.tsx:78-91 | A year appears exactly when its dataset returned rows, and no other key appears |
| DatasetChange.ExpectedChangeValues | src/App.tsx:79-90 | Each year's entry carries the sum of its own dataset |
| DatasetChange.DatasetTotals | src/App.tsx:78-91 | Folding 2024, 2023, 2022, 2021 and sorting yields the years in ascending order, each with its dataset's sum, empty datasets left out |
| DatasetChange.SortListing | src/App.tsx:91 | Sorting the contributions listed in fold order yields them in ascending year order |
| PageState.InitialSelection | src/App.tsx:29-36 | A link with a non-empty make and model starts with that vehicle selected, labelled `make model`, and can query; otherwise the label is `Search Vehicles` and nothing is queried |
| PageState.InitialDefaults | src/App.tsx:28-31 | A missing dataset defaults to 2024 and missing year bounds to ""; present values, empty ones included, are kept |
| Search.BuildOptions | src/App.tsx:33 | One option per bundled record, in order, keeping its make and model, labelled make, one space, model |
| Search.OptionMatchesLinkedSelection | src/App.tsx:29-33 | The selection a shared link opens with equals the one picked from the list for the same vehicle, label included |
| Search.FilterMatchingSpec | src/App.tsx:98-100 | `options.filter` keeps exactly the matching options, each as often as before, in their original order |
| Search.FilterMakeModelSpec | src/App.tsx:96-103 | Empty input offers nothing; otherwise exactly the options whose lower-cased label includes the lower-cased input, in order, with multiplicities |
| Search.FilterIgnoresCase | src/App.tsx:99 | Inputs that agree after lower-casing are offered the same options |
| Search.FilterMatchingSame | src/App.tsx:98-99 | The filter depends on the input only through its lower-cased form |
| Search.MakeFindsItsModels | src/App.tsx:99 | Typing a vehicle's make, in any case, offers every option of that make |
| WhereClause.BuildWhere | src/App.tsx:39-43 | The fragment built step by step is the make/model filter followed by each non-blank bound, untrimmed |
| WhereClause.SelectionFilter | src/App.tsx:36-43 | A fragment is built exactly when make and model are both non-empty |
| WhereClause.FragmentStartsWithSelection | src/App.tsx:39 | The fragment starts with the make and model as selected, quoted verbatim |
| WhereClause.FragmentWithoutBounds | src/App.tsx:40-43 | The fragment is the make/model part alone exactly when both bounds are blank |
| WhereClause.YearFilterClauses | src/App.tsx:40-43 | A `>=` clause comes first exactly when the lower bound is not blank; a `<=` clause follows exactly when the upper bound is not blank |
| WhereClause.KnownDatasets | src/App.tsx:18 | Exactly 2024, 2023, 2022 and 2021 name a dataset |
| WhereClause.DatasetTablesDistinct | src/App.tsx:18 | Different yearly datasets name different tables |
| WhereClause.QueriesShareFilter | src/App.tsx:49-76 | Every query ends with the same fragment; the four sum-only queries read the 2024, 2023, 2022 and 2021 tables in that order, whatever dataset is selected; a dataset that is neither a known year nor a name inherited from `Object.prototype` makes the detailed query read from the table `undefined` |

## Left out

- Rendering (the JSX, the charts, the pie chart, window dimensions and styles): presentation only.
- The network: the `axios` requests, the order in which the responses arrive, and their failure paths. A failed detailed request is logged with `console.error`. The four sum-only requests have no `catch`, so a failure there is an unhandled rejection and the year-over-year chart keeps its previous data. The rows and the four datasets' counts are parameters.
- `queryString.parse` and `stringifyUrl`, the share link and `history.pushState`: library code. The parsed parameters are the input of `InitialState`, and a repeated parameter (which the library turns into an array) is not modelled.
- The 500 ms `setTimeout` delay in `loadOptions` (each keystroke schedules its own callback; none is cancelled) and the `handleChange` setter: timing and a plain assignment.
- `+value.no_vehicles` is modelled as a count already converted to a natural number; non-numeric text (which yields `NaN`) and floating point are not modelled.
- AggregateDetailed: requires every row's upper-cased `state_abb` to be one of the eight seeded states. For any other state the page adds `undefined + n`, i.e. `NaN`, under a ninth key; that case is not modelled.
- `toUpperCase`, `toLowerCase` and the string `<` are modelled on ASCII letters and on code points. Full Unicode case mapping and comparison by UTF-16 code units are not modelled.
- No quoting or escaping of the make, model or year bounds in the SQL text. The model keeps them verbatim, as the page does, and proves no safety property about injection.
- WhereClause.QueriesShareFilter: does not say which table the detailed query reads for a name in `InheritedNames`; see the next line.
- WhereClause.TableText: a `dataset` parameter naming a member inherited from `Object.prototype` (`toString`, `constructor`, `__proto__` and the rest of `InheritedNames`) makes `datasets[dataset]` an inherited member instead of `undefined`. `__proto__` yields `Object.prototype`, whose text is always `[object Object]`; the other names yield functions, whose text (such as `function toString() { [native code] }`) is formatted by the engine. The model gives `undefined` for these names too, and `QueriesShareFilter` states the `undefined` table only for names outside `InheritedNames`.
- `year_of_manufacture` is a string key compared as a string, as the page compares it.
- The bundled make/model list (`mm-list.json`) is not part of this model. `BuildOptions` takes its records as a parameter.
