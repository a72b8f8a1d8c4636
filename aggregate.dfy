/**
 The reduction of the detailed query's rows: a grand total, a per-state
 table over the eight seeded states and a per-year-of-manufacture table,
 both sorted by key.
 */
module Aggregate {
  import opened JsString
  import opened KeySort
  import opened OrderedMaps

  /** One returned row: `state_abb`, `year_of_manufacture` and `no_vehicles`. */
  datatype Record = Record(stateAbb: string, yearOfManufacture: string, noVehicles: nat)

  /** The keys the per-state map is created with, in that order. */
  const StateCodes: seq<string> := ["ACT", "NSW", "NT", "QLD", "SA", "TAS", "VIC", "WA"]

  /** The two ways rows are grouped: by upper-cased state, by year of manufacture. */
  datatype Grouping = ByState | ByYear

  function GroupKey(r: Record, g: Grouping): (key: string)
  {
    match g
    case ByState => ToUpper(r.stateAbb)
    case ByYear => r.yearOfManufacture
  }

  /** The sum of `no_vehicles` over all rows. */
  function TotalVehicles(recs: seq<Record>): (total: nat)
  {
    if recs == [] then 0 else TotalVehicles(recs[..|recs| - 1]) + recs[|recs| - 1].noVehicles
  }

  /** The sum of `no_vehicles` over the rows whose group key is `k`. */
  function GroupSum(recs: seq<Record>, g: Grouping, k: string): (sum: nat)
  {
    if recs == [] then 0
    else
      var last := recs[|recs| - 1];
      GroupSum(recs[..|recs| - 1], g, k) + (if GroupKey(last, g) == k then last.noVehicles else 0)
  }

  /** The sum of `no_vehicles` over the rows whose group key lies in `ks`. */
  function GroupSumIn(recs: seq<Record>, g: Grouping, ks: set<string>): (sum: nat)
  {
    if recs == [] then 0
    else
      var last := recs[|recs| - 1];
      GroupSumIn(recs[..|recs| - 1], g, ks) + (if GroupKey(last, g) in ks then last.noVehicles else 0)
  }

  /** The group keys that occur among the rows. */
  function GroupKeys(recs: seq<Record>, g: Grouping): (keys: set<string>)
  {
    if recs == [] then {} else GroupKeys(recs[..|recs| - 1], g) + {GroupKey(recs[|recs| - 1], g)}
  }

  /** Every row's upper-cased state is one of the eight seeded keys. */
  predicate KnownStates(recs: seq<Record>)
  {
    forall i :: 0 <= i < |recs| ==> ToUpper(recs[i].stateAbb) in StateCodes
  }

  /** The per-state table: every seeded state with the sum of its rows. */
  function StateTable(recs: seq<Record>): (table: seq<Entry>)
  {
    seq(|StateCodes|, i requires 0 <= i < |StateCodes| => Entry(StateCodes[i], GroupSum(recs, ByState, StateCodes[i])))
  }

  /** The per-state table lists ACT, NSW, NT, QLD, SA, TAS, VIC, WA in ascending order. */
  lemma StateTableSorted(recs: seq<Record>)
    ensures StrictlySorted(StateTable(recs))
    ensures |StateTable(recs)| == 8
    ensures forall i :: 0 <= i < 8 ==> StateTable(recs)[i].key == StateCodes[i]
  {
    assert StrLess("ACT", "NSW") && StrLess("NSW", "NT") && StrLess("NT", "QLD") && StrLess("QLD", "SA");
    assert StrLess("SA", "TAS") && StrLess("TAS", "VIC") && StrLess("VIC", "WA");
    StrictlySortedFromAdjacent(StateTable(recs));
  }

  /** A key no row carries sums to 0: a state without rows stays at 0. */
  lemma {:induction false} AbsentGroupIsZero(recs: seq<Record>, g: Grouping, k: string)
    requires k !in GroupKeys(recs, g)
    ensures GroupSum(recs, g, k) == 0
    decreases |recs|
  {
    if recs != [] {
      AbsentGroupIsZero(recs[..|recs| - 1], g, k);
    }
  }

  /** Every key that occurs has at least one row carrying it. */
  lemma {:induction false} GroupKeysOccur(recs: seq<Record>, g: Grouping, k: string)
    requires k in GroupKeys(recs, g)
    ensures exists i :: 0 <= i < |recs| && GroupKey(recs[i], g) == k
    decreases |recs|
  {
    var init := recs[..|recs| - 1];
    if k in GroupKeys(init, g) {
      GroupKeysOccur(init, g, k);
      var i :| 0 <= i < |init| && GroupKey(init[i], g) == k;
      assert recs[i] == init[i];
    } else {
      assert GroupKey(recs[|recs| - 1], g) == k;
    }
  }

  lemma KnownStatesKeys(recs: seq<Record>)
    requires KnownStates(recs)
    ensures GroupKeys(recs, ByState) <= KeysOf(StateTable(recs))
  {
    forall k | k in GroupKeys(recs, ByState) ensures k in KeysOf(StateTable(recs)) {
      GroupKeysOccur(recs, ByState, k);
      var i :| 0 <= i < |StateCodes| && StateCodes[i] == k;
      assert StateTable(recs)[i].key == k;
    }
  }

  /** Summing over a set of keys plus one more key adds that key's sum. */
  lemma {:induction false} GroupSumInAdd(recs: seq<Record>, g: Grouping, ks: set<string>, k: string)
    requires k !in ks
    ensures GroupSumIn(recs, g, ks + {k}) == GroupSumIn(recs, g, ks) + GroupSum(recs, g, k)
    decreases |recs|
  {
    if recs != [] {
      GroupSumInAdd(recs[..|recs| - 1], g, ks, k);
    }
  }

  /** Summing over a set holding every occurring key gives the grand total. */
  lemma {:induction false} GroupSumInAll(recs: seq<Record>, g: Grouping, ks: set<string>)
    requires GroupKeys(recs, g) <= ks
    ensures GroupSumIn(recs, g, ks) == TotalVehicles(recs)
    decreases |recs|
  {
    if recs != [] {
      GroupSumInAll(recs[..|recs| - 1], g, ks);
    }
  }

  /** A table with one entry per key, each valued at its key's sum, adds up
      to the sum over its keys. */
  lemma {:induction false} TableSumsItsKeys(es: seq<Entry>, recs: seq<Record>, g: Grouping)
    requires DistinctKeys(es)
    requires forall e :: e in es ==> e.value == GroupSum(recs, g, e.key)
    ensures SumValues(es) == GroupSumIn(recs, g, KeysOf(es))
    decreases |es|
  {
    if es == [] {
      assert KeysOf(es) == {};
      AbsentGroupIsZeroIn(recs, g);
    } else {
      var init, last := es[..|es| - 1], es[|es| - 1];
      assert es == init + [last];
      TableSumsItsKeys(init, recs, g);
      assert last.key !in KeysOf(init) by {
        forall i | 0 <= i < |init| ensures init[i].key != last.key {
          assert init[i] == es[i];
        }
      }
      assert KeysOf(es) == KeysOf(init) + {last.key};
      GroupSumInAdd(recs, g, KeysOf(init), last.key);
    }
  }

  lemma {:induction false} AbsentGroupIsZeroIn(recs: seq<Record>, g: Grouping)
    ensures GroupSumIn(recs, g, {}) == 0
    decreases |recs|
  {
    if recs != [] {
      AbsentGroupIsZeroIn(recs[..|recs| - 1], g);
    }
  }

  /** The values of a grouped table add up to the grand total when its keys
      are distinct, cover every occurring key, and carry their sums. */
  lemma GroupTableTotal(es: seq<Entry>, recs: seq<Record>, g: Grouping)
    requires DistinctKeys(es)
    requires GroupKeys(recs, g) <= KeysOf(es)
    requires forall e :: e in es ==> e.value == GroupSum(recs, g, e.key)
    ensures SumValues(es) == TotalVehicles(recs)
  {
    TableSumsItsKeys(es, recs, g);
    GroupSumInAll(recs, g, KeysOf(es));
  }

  /** Adding a row adds its count to its own key's sum and to no other. */
  lemma GroupSumStep(prefix: seq<Record>, value: Record, g: Grouping, k: string)
    ensures GroupSum(prefix + [value], g, k)
         == GroupSum(prefix, g, k) + (if GroupKey(value, g) == k then value.noVehicles else 0)
  {
    assert (prefix + [value])[..|prefix|] == prefix;
  }

  /** The pairs the per-state map is created with. */
  const StateSeed: seq<Entry> := [Entry("ACT", 0), Entry("NSW", 0), Entry("NT", 0), Entry("QLD", 0),
                                  Entry("SA", 0), Entry("TAS", 0), Entry("VIC", 0), Entry("WA", 0)]

  /** The seed pairs, which are also the page's initial per-state results, are
      the state table of no rows: every state at 0; the seeded map lists them. */
  lemma SeedIsEmptyTable()
    ensures StateSeed == StateTable([])
    ensures FromEntries(StateSeed).Valid()
    ensures FromEntries(StateSeed).Entries() == StateTable([])
  {
    StateTableSorted([]);
    StrictlySortedDistinct(StateTable([]));
    assert StateSeed == StateTable([]);
    FromEntriesSpec(StateSeed);
  }

  /** One row added to the per-state map keeps it equal to the state table.
      The page reads the old value with a plain `get`, without `?? 0`;
      `GetOrZero` returns the same value only because the state is one of
      the seeded keys. */
  lemma StateStep(states: OrderedMap, prefix: seq<Record>, value: Record, next: OrderedMap)
    requires StatesMatch(states, prefix)
    requires ToUpper(value.stateAbb) in StateCodes
    requires next == states.Set(ToUpper(value.stateAbb), states.GetOrZero(ToUpper(value.stateAbb)) + value.noVehicles)
    ensures StatesMatch(next, prefix + [value])
  {
    var state := ToUpper(value.stateAbb);
    var k :| 0 <= k < 8 && StateCodes[k] == state;
    assert states.Entries()[k] == StateTable(prefix)[k];
    assert states.order[k] == state;
    assert states.GetOrZero(state) == GroupSum(prefix, ByState, state);
    SetExistingKey(states, state, states.GetOrZero(state) + value.noVehicles);
    forall j | 0 <= j < 8 ensures next.Entries()[j] == StateTable(prefix + [value])[j] {
      GroupSumStep(prefix, value, ByState, StateCodes[j]);
      assert states.Entries()[j] == StateTable(prefix)[j];
    }
  }

  /** The per-year map holds exactly the years that occur, each with its sum. */
  ghost predicate YearsMatch(years: OrderedMap, recs: seq<Record>)
  {
    && years.Valid()
    && years.values.Keys == GroupKeys(recs, ByYear)
    && forall y :: y in years.values ==> years.values[y] == GroupSum(recs, ByYear, y)
  }

  /** The per-state map lists the state table. */
  ghost predicate StatesMatch(states: OrderedMap, recs: seq<Record>)
  {
    states.Valid() && states.Entries() == StateTable(recs)
  }

  /** One row added to the per-year map keeps it equal to the year sums. */
  lemma YearStep(years: OrderedMap, prefix: seq<Record>, value: Record, next: OrderedMap)
    requires YearsMatch(years, prefix)
    requires next == years.Set(value.yearOfManufacture, years.GetOrZero(value.yearOfManufacture) + value.noVehicles)
    ensures YearsMatch(next, prefix + [value])
  {
    var recs := prefix + [value];
    assert recs[..|recs| - 1] == prefix;
    var year := value.yearOfManufacture;
    if year !in years.values {
      AbsentGroupIsZero(prefix, ByYear, year);
    }
  }

  /** One turn of the `forEach`: the running total and both maps account for one more row. */
  lemma RowStep(records: seq<Record>, i: nat, states: OrderedMap, years: OrderedMap,
                nextStates: OrderedMap, nextYears: OrderedMap)
    requires KnownStates(records) && i < |records|
    requires StatesMatch(states, records[..i]) && YearsMatch(years, records[..i])
    requires nextStates == states.Set(ToUpper(records[i].stateAbb),
                                      states.GetOrZero(ToUpper(records[i].stateAbb)) + records[i].noVehicles)
    requires nextYears == years.Set(records[i].yearOfManufacture,
                                    years.GetOrZero(records[i].yearOfManufacture) + records[i].noVehicles)
    ensures TotalVehicles(records[..i + 1]) == TotalVehicles(records[..i]) + records[i].noVehicles
    ensures StatesMatch(nextStates, records[..i + 1])
    ensures YearsMatch(nextYears, records[..i + 1])
  {
    var prefix, value := records[..i], records[i];
    assert records[..i + 1] == prefix + [value];
    assert (prefix + [value])[..|prefix|] == prefix;
    StateStep(states, prefix, value, nextStates);
    YearStep(years, prefix, value, nextYears);
  }

  /** `new Map([["ACT", 0], ..., ["WA", 0]])`. */
  method NewStateMap() returns (states: OrderedMap)
    ensures StatesMatch(states, [])
  {
    states := FromEntries(StateSeed);
    SeedIsEmptyTable();
  }

  /**
   The `forEach` over the returned rows and the two sorts that follow: the
   grand total, the eight-state table, and one entry per year of manufacture.
   */
  method AggregateDetailed(records: seq<Record>) returns (total: nat, byState: seq<Entry>, byYear: seq<Entry>)
    requires KnownStates(records)
    ensures total == TotalVehicles(records)
    ensures byState == StateTable(records)
    ensures StrictlySorted(byYear)
    ensures KeysOf(byYear) == GroupKeys(records, ByYear)
    ensures forall e :: e in byYear ==> e.value == GroupSum(records, ByYear, e.key)
    ensures SumValues(byState) == total && SumValues(byYear) == total
  {
    var states := NewStateMap();
    assert records[..0] == [];
    var years := Empty;
    total := 0;
    var i := 0;
    while i < |records|
      invariant 0 <= i <= |records|
      invariant total == TotalVehicles(records[..i])
      invariant StatesMatch(states, records[..i])
      invariant YearsMatch(years, records[..i])
    {
      var value := records[i];
      ghost var statesBefore, yearsBefore := states, years;
      total := total + value.noVehicles;
      var state := ToUpper(value.stateAbb);
      // A plain `states.get(state)`: the key is seeded, so `GetOrZero` never falls back to 0.
      states := states.Set(state, states.GetOrZero(state) + value.noVehicles);
      var year := value.yearOfManufacture;
      years := years.Set(year, years.GetOrZero(year) + value.noVehicles);
      RowStep(records, i, statesBefore, yearsBefore, states, years);
      i := i + 1;
    }
    assert records[..i] == records;

    byState := SortByKey(states.Entries());
    byYear := SortByKey(years.Entries());
    SortedResults(records, states, years);
  }

  /** What the two sorts make of the maps the loop leaves behind. */
  lemma SortedResults(records: seq<Record>, states: OrderedMap, years: OrderedMap)
    requires KnownStates(records)
    requires StatesMatch(states, records)
    requires YearsMatch(years, records)
    ensures SortByKey(states.Entries()) == StateTable(records)
    ensures var byYear := SortByKey(years.Entries());
      && StrictlySorted(byYear)
      && KeysOf(byYear) == GroupKeys(records, ByYear)
      && (forall e :: e in byYear ==> e.value == GroupSum(records, ByYear, e.key))
      && SumValues(byYear) == TotalVehicles(records)
    ensures SumValues(StateTable(records)) == TotalVehicles(records)
  {
    StateTableSorted(records);
    SortByKeyIdentity(StateTable(records));
    StrictlySortedDistinct(StateTable(records));
    KnownStatesKeys(records);
    GroupTableTotal(StateTable(records), records, ByState);

    var listed := years.Entries();
    EntriesSpec(years);
    var byYear := SortByKey(listed);
    SortByKeySpec(listed);
    KeysOfPermutation(byYear, listed);
    forall e | e in byYear ensures e.value == GroupSum(records, ByYear, e.key) {
      assert e in multiset(listed);
    }
    StrictlySortedDistinct(byYear);
    GroupTableTotal(byYear, records, ByYear);
  }
}
