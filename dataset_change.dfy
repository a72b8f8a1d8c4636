/**
 The year-over-year chart: the sum-only query is run against each of the
 four yearly datasets, the returned counts are folded into one map keyed
 by dataset year, and the map is listed in ascending year order.
 */
module DatasetChange {
  import opened JsString
  import opened KeySort
  import opened OrderedMaps

  /** The sum of one dataset's `no_vehicles` column. */
  function Sum(counts: seq<nat>): (sum: nat)
  {
    if counts == [] then 0 else Sum(counts[..|counts| - 1]) + counts[|counts| - 1]
  }

  /** What one dataset adds to the chart: nothing at all when it returned no rows. */
  function Contribution(year: string, counts: seq<nat>): (entries: seq<Entry>)
  {
    if counts == [] then [] else [Entry(year, Sum(counts))]
  }

  /** The chart's data written directly in ascending year order. */
  function ExpectedChange(data2024: seq<nat>, data2023: seq<nat>, data2022: seq<nat>, data2021: seq<nat>): (change: seq<Entry>)
  {
    Contribution("2021", data2021) + Contribution("2022", data2022)
    + Contribution("2023", data2023) + Contribution("2024", data2024)
  }

  /** The map after the first `done` counts of a dataset have been folded in. */
  ghost predicate FoldedPrefix(years: OrderedMap, year: string, counts: seq<nat>, done: nat, r: OrderedMap)
    requires done <= |counts|
  {
    if done == 0 then r == years
    else r == years.Set(year, years.GetOrZero(year) + Sum(counts[..done]))
  }

  /** The map once every count of a dataset has been folded in: unchanged when
      the dataset returned no rows, otherwise its year set to the old value
      (or 0) plus the dataset's sum. */
  ghost predicate Folded(years: OrderedMap, year: string, counts: seq<nat>, r: OrderedMap)
  {
    if counts == [] then r == years
    else r == years.Set(year, years.GetOrZero(year) + Sum(counts))
  }

  lemma FoldStep(years: OrderedMap, year: string, counts: seq<nat>, done: nat, r: OrderedMap, next: OrderedMap)
    requires done < |counts|
    requires FoldedPrefix(years, year, counts, done, r)
    requires next == r.Set(year, r.GetOrZero(year) + counts[done])
    ensures FoldedPrefix(years, year, counts, done + 1, next)
  {
    assert counts[..done + 1][..done] == counts[..done];
    if done > 0 {
      SetTwice(years, year, years.GetOrZero(year) + Sum(counts[..done]), years.GetOrZero(year) + Sum(counts[..done + 1]));
    }
  }

  /**
   One dataset's `forEach`: `years.set(year, (years.get(year) ?? 0) + n)` for
   every returned count `n`.
   */
  method AddDataset(years: OrderedMap, year: string, counts: seq<nat>) returns (r: OrderedMap)
    ensures Folded(years, year, counts, r)
  {
    r := years;
    var i := 0;
    while i < |counts|
      invariant 0 <= i <= |counts|
      invariant FoldedPrefix(years, year, counts, i, r)
    {
      ghost var before := r;
      r := r.Set(year, r.GetOrZero(year) + counts[i]);
      FoldStep(years, year, counts, i, before, r);
      i := i + 1;
    }
    assert counts[..i] == counts;
  }

  /** Folding a dataset into a map that lacks its year appends its contribution. */
  lemma AddNewDataset(years: OrderedMap, year: string, counts: seq<nat>, r: OrderedMap)
    requires years.Valid() && year !in years.values
    requires Folded(years, year, counts, r)
    ensures r.Valid()
    ensures r.Entries() == years.Entries() + Contribution(year, counts)
    ensures r.values.Keys == years.values.Keys + KeysOf(Contribution(year, counts))
  {
    if counts != [] {
      SetNewKey(years, year, Sum(counts));
    }
  }

  lemma ContributionKeys(year: string, counts: seq<nat>)
    ensures KeysOf(Contribution(year, counts)) == if counts == [] then {} else {year}
  {
    if counts != [] {
      assert Contribution(year, counts)[0].key == year;
    }
  }

  /** Entries in ascending blocks are ascending as a whole. */
  lemma AppendStrictlySorted(a: seq<Entry>, b: seq<Entry>)
    requires StrictlySorted(a) && StrictlySorted(b)
    requires forall x, y :: x in a && y in b ==> StrLess(x.key, y.key)
    ensures StrictlySorted(a + b)
  {
    var s := a + b;
    forall i, j | 0 <= i < j < |s| ensures StrLess(s[i].key, s[j].key) {
      if i < |a| && j >= |a| {
        assert s[i] in a && s[j] in b;
      }
    }
  }

  /** The chart lists its years in ascending order, at most four of them. */
  lemma ExpectedChangeSorted(data2024: seq<nat>, data2023: seq<nat>, data2022: seq<nat>, data2021: seq<nat>)
    ensures StrictlySorted(ExpectedChange(data2024, data2023, data2022, data2021))
    ensures |ExpectedChange(data2024, data2023, data2022, data2021)| <= 4
  {
    var c1, c2 := Contribution("2021", data2021), Contribution("2022", data2022);
    var c3, c4 := Contribution("2023", data2023), Contribution("2024", data2024);
    assert StrLess("2021", "2022") && StrLess("2022", "2023") && StrLess("2023", "2024");
    StrLessTransitive("2021", "2022", "2023");
    StrLessTransitive("2021", "2023", "2024");
    StrLessTransitive("2022", "2023", "2024");
    AppendStrictlySorted(c1, c2);
    AppendStrictlySorted(c1 + c2, c3);
    AppendStrictlySorted(c1 + c2 + c3, c4);
  }

  /** A year appears exactly when its dataset returned rows, and no other key appears. */
  lemma ExpectedChangeKeys(data2024: seq<nat>, data2023: seq<nat>, data2022: seq<nat>, data2021: seq<nat>)
    ensures KeysOf(ExpectedChange(data2024, data2023, data2022, data2021))
         == (if data2021 == [] then {} else {"2021"}) + (if data2022 == [] then {} else {"2022"})
          + (if data2023 == [] then {} else {"2023"}) + (if data2024 == [] then {} else {"2024"})
  {
    var c1, c2 := Contribution("2021", data2021), Contribution("2022", data2022);
    var c3, c4 := Contribution("2023", data2023), Contribution("2024", data2024);
    KeysOfAppend(c1, c2);
    KeysOfAppend(c1 + c2, c3);
    KeysOfAppend(c1 + c2 + c3, c4);
  }

  /** Each year's entry carries the sum of its own dataset. */
  lemma ExpectedChangeValues(data2024: seq<nat>, data2023: seq<nat>, data2022: seq<nat>, data2021: seq<nat>, e: Entry)
    requires e in ExpectedChange(data2024, data2023, data2022, data2021)
    ensures e.key == "2021" ==> e.value == Sum(data2021)
    ensures e.key == "2022" ==> e.value == Sum(data2022)
    ensures e.key == "2023" ==> e.value == Sum(data2023)
    ensures e.key == "2024" ==> e.value == Sum(data2024)
  {
  }

  /** Four datasets folded one after another into an empty map list their
      contributions in fold order, under distinct keys. */
  lemma FoldFour(y1: OrderedMap, y2: OrderedMap, y3: OrderedMap, y4: OrderedMap,
                 data2024: seq<nat>, data2023: seq<nat>, data2022: seq<nat>, data2021: seq<nat>)
    requires Folded(Empty, "2024", data2024, y1)
    requires Folded(y1, "2023", data2023, y2)
    requires Folded(y2, "2022", data2022, y3)
    requires Folded(y3, "2021", data2021, y4)
    ensures y4.Valid()
    ensures y4.Entries() == [] + Contribution("2024", data2024) + Contribution("2023", data2023)
                               + Contribution("2022", data2022) + Contribution("2021", data2021)
    ensures DistinctKeys(y4.Entries())
  {
    AddNewDataset(Empty, "2024", data2024, y1);
    ContributionKeys("2024", data2024);
    assert y1.values.Keys <= {"2024"};
    AddNewDataset(y1, "2023", data2023, y2);
    ContributionKeys("2023", data2023);
    assert y2.values.Keys <= {"2024", "2023"};
    AddNewDataset(y2, "2022", data2022, y3);
    ContributionKeys("2022", data2022);
    assert y3.values.Keys <= {"2024", "2023", "2022"};
    AddNewDataset(y3, "2021", data2021, y4);
    EntriesSpec(y4);
  }

  /**
   The `axios.spread` callback: the four datasets folded in the order 2024,
   2023, 2022, 2021 into an empty map, then listed and sorted by year.
   */
  method DatasetTotals(data2024: seq<nat>, data2023: seq<nat>, data2022: seq<nat>, data2021: seq<nat>)
    returns (change: seq<Entry>)
    ensures change == ExpectedChange(data2024, data2023, data2022, data2021)
  {
    var years := Empty;
    var y1 := AddDataset(years, "2024", data2024);
    var y2 := AddDataset(y1, "2023", data2023);
    var y3 := AddDataset(y2, "2022", data2022);
    var y4 := AddDataset(y3, "2021", data2021);
    FoldFour(y1, y2, y3, y4, data2024, data2023, data2022, data2021);
    change := SortByKey(y4.Entries());
    SortListing(y4.Entries(), data2024, data2023, data2022, data2021);
  }

  /** Sorting the four contributions, listed in the order they were folded in,
      gives the chart in ascending year order. */
  lemma SortListing(listed: seq<Entry>, data2024: seq<nat>, data2023: seq<nat>, data2022: seq<nat>, data2021: seq<nat>)
    requires listed == [] + Contribution("2024", data2024) + Contribution("2023", data2023)
                      + Contribution("2022", data2022) + Contribution("2021", data2021)
    requires DistinctKeys(listed)
    ensures SortByKey(listed) == ExpectedChange(data2024, data2023, data2022, data2021)
  {
    var expected := ExpectedChange(data2024, data2023, data2022, data2021);
    assert multiset(listed) == multiset(expected);
    SortByKeySpec(listed);
    ExpectedChangeSorted(data2024, data2023, data2022, data2021);
    SortedUnique(SortByKey(listed), expected);
  }
}
