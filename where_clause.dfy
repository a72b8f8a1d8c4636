/**
 The SQL filter appended to every query: the selected make and model, and
 optional bounds on the model year. Nothing is escaped, so a quote inside
 a make, a model or a bound ends the SQL string literal early.
 */
module WhereClause {
  import opened JsString
  import opened PageState

  function MakeModelFilter(make: string, model: string): (clause: string)
  {
    " WHERE make='" + make + "' AND model='" + model + "'"
  }

  function MinYearFilter(myMin: string): (clause: string)
  {
    " AND year_of_manufacture>='" + myMin + "'"
  }

  function MaxYearFilter(myMax: string): (clause: string)
  {
    " AND year_of_manufacture<='" + myMax + "'"
  }

  /** The year bounds: each one present only when it holds more than white space. */
  function YearFilter(myMin: string, myMax: string): (clauses: string)
  {
    (if IsBlank(myMin) then "" else MinYearFilter(myMin))
    + (if IsBlank(myMax) then "" else MaxYearFilter(myMax))
  }

  function WhereFragment(make: string, model: string, myMin: string, myMax: string): (fragment: string)
  {
    MakeModelFilter(make, model) + YearFilter(myMin, myMax)
  }

  /**
   Builds the fragment step by step; a bound is appended when
   `bound && bound.trim() != ""`, and then untrimmed.
   */
  method BuildWhere(make: string, model: string, myMin: string, myMax: string) returns (url: string)
    ensures url == WhereFragment(make, model, myMin, myMax)
  {
    url := MakeModelFilter(make, model);
    TrimEmptyIffBlank(myMin);
    TrimEmptyIffBlank(myMax);
    var lower := "";
    if myMin != "" && Trim(myMin) != "" {
      lower := MinYearFilter(myMin);
      url := url + lower;
    }
    if myMax != "" && Trim(myMax) != "" {
      url := url + MaxYearFilter(myMax);
      assert url == MakeModelFilter(make, model) + (lower + MaxYearFilter(myMax));
    }
  }

  /** The effect: with a make and a model selected the fragment is built,
      otherwise no query is made. */
  method SelectionFilter(sel: Selection, myMin: string, myMax: string) returns (w: Option<string>)
    ensures w.Some? <==> CanQuery(sel)
    ensures CanQuery(sel) ==> w == Some(WhereFragment(sel.make.value, sel.model.value, myMin, myMax))
  {
    if Truthy(sel.make) && Truthy(sel.model) {
      var url := BuildWhere(sel.make.value, sel.model.value, myMin, myMax);
      w := Some(url);
    } else {
      w := None;
    }
  }

  /** The fragment starts with the make and model exactly as selected. */
  lemma FragmentStartsWithSelection(make: string, model: string, myMin: string, myMax: string)
    ensures StartsWith(WhereFragment(make, model, myMin, myMax), " WHERE make='" + make + "' AND model='" + model + "'")
  {
    var head := MakeModelFilter(make, model);
    assert WhereFragment(make, model, myMin, myMax)[..|head|] == head;
  }

  /** With both bounds blank the fragment is the make and model part alone,
      and only then. */
  lemma FragmentWithoutBounds(make: string, model: string, myMin: string, myMax: string)
    ensures WhereFragment(make, model, myMin, myMax) == MakeModelFilter(make, model)
        <==> IsBlank(myMin) && IsBlank(myMax)
  {
    var head := MakeModelFilter(make, model);
    if WhereFragment(make, model, myMin, myMax) == head {
      assert |YearFilter(myMin, myMax)| == 0;
    }
  }

  const MinClauseStart: string := " AND year_of_manufacture>="
  const MaxClauseStart: string := " AND year_of_manufacture<="

  lemma ClauseStartsDiffer(s: string)
    requires StartsWith(s, MaxClauseStart)
    ensures !StartsWith(s, MinClauseStart)
  {
    assert MaxClauseStart[24] != MinClauseStart[24];
    assert s[24] == MaxClauseStart[24];
  }

  /** The year part opens with a `>=` clause exactly when the lower bound is
      not blank; after it (or at once, without it) comes a `<=` clause exactly
      when the upper bound is not blank, so the lower bound always precedes
      the upper one. */
  lemma YearFilterClauses(myMin: string, myMax: string)
    ensures StartsWith(YearFilter(myMin, myMax), MinClauseStart) <==> !IsBlank(myMin)
    ensures var rest := if IsBlank(myMin) then YearFilter(myMin, myMax)
                        else YearFilter(myMin, myMax)[|MinYearFilter(myMin)|..];
      && (StartsWith(rest, MaxClauseStart) <==> !IsBlank(myMax))
      && (rest == "" <==> IsBlank(myMax))
      && (!IsBlank(myMax) ==> rest == MaxYearFilter(myMax))
  {
    var y := YearFilter(myMin, myMax);
    if !IsBlank(myMin) {
      assert y[..|MinClauseStart|] == MinClauseStart;
      assert y[|MinYearFilter(myMin)|..] == if IsBlank(myMax) then "" else MaxYearFilter(myMax);
    } else if !IsBlank(myMax) {
      assert y[..|MaxClauseStart|] == MaxClauseStart;
      ClauseStartsDiffer(y);
    }
    if !IsBlank(myMax) {
      assert MaxYearFilter(myMax)[..|MaxClauseStart|] == MaxClauseStart;
    }
  }

  const BaseSelection: string := "SELECT state_abb, year_of_manufacture, make, model, no_vehicles FROM "
  const SumSelection: string := "SELECT no_vehicles FROM "

  /** The yearly datasets' resource identifiers, quoted for SQL. */
  function DatasetTable(dataset: string): (table: Option<string>)
  {
    if dataset == "2024" then Some("\"2c35ff3d-1f49-4721-b79c-d0f35b2c4d04\"")
    else if dataset == "2023" then Some("\"6f375468-5ab0-4bba-8d0a-32df267c2dbd\"")
    else if dataset == "2022" then Some("\"e6588c5f-e65f-4a6a-99d1-fde1b7ea5201\"")
    else if dataset == "2021" then Some("\"21619e31-c57d-4845-a9d4-24cd172f446d\"")
    else None
  }

  /** The names every object literal inherits from `Object.prototype`. Looking
      one of them up in the datasets object finds an inherited member, not
      `undefined`. */
  const InheritedNames: set<string> := {
    "constructor", "__proto__", "toString", "toLocaleString", "valueOf",
    "hasOwnProperty", "isPrototypeOf", "propertyIsEnumerable",
    "__defineGetter__", "__defineSetter__", "__lookupGetter__", "__lookupSetter__"}

  /** `datasets[dataset]` inside a string concatenation: a key that is neither
      a year nor an inherited name reads as `undefined`. An inherited name
      gives `[object Object]` (for `__proto__`) or a function's text as the
      engine formats it; that is not modelled, and those names get
      `undefined` here too. */
  function TableText(dataset: string): (text: string)
  {
    match DatasetTable(dataset)
    case Some(t) => t
    case None => "undefined"
  }

  /** The detailed query, against the selected dataset. */
  function DetailedSql(dataset: string, where: string): (sql: string)
  {
    BaseSelection + TableText(dataset) + where
  }

  /** The sum-only query against one yearly dataset. */
  function SumSql(year: string, where: string): (sql: string)
  {
    SumSelection + TableText(year) + where
  }

  /** The four sum-only queries, in the order they are sent. */
  function SumQueries(where: string): (queries: seq<string>)
  {
    [SumSql("2024", where), SumSql("2023", where), SumSql("2022", where), SumSql("2021", where)]
  }

  lemma YearsDiffer()
    ensures "2024" != "2023" && "2024" != "2022" && "2024" != "2021"
    ensures "2023" != "2022" && "2023" != "2021" && "2022" != "2021"
  {
    assert "2024"[3] != "2023"[3] && "2024"[3] != "2022"[3] && "2024"[3] != "2021"[3];
    assert "2023"[3] != "2022"[3] && "2023"[3] != "2021"[3] && "2022"[3] != "2021"[3];
  }

  /** Exactly the four yearly datasets are known. */
  lemma KnownDatasets(d: string)
    ensures DatasetTable(d).Some? <==> d in {"2024", "2023", "2022", "2021"}
  {
  }

  /** The second character of each known table's identifier tells them apart. */
  lemma TableInitial(d: string)
    requires DatasetTable(d).Some?
    ensures DatasetTable(d).value[2] == (if d == "2024" then 'c' else if d == "2023" then 'f'
                                         else if d == "2022" then '6' else '1')
  {
    if d == "2024" {
    } else if d == "2023" {
    } else if d == "2022" {
    } else {
      assert d == "2021";
    }
  }

  /** Different yearly datasets are read from different tables. */
  lemma DatasetTablesDistinct(a: string, b: string)
    requires DatasetTable(a).Some? && DatasetTable(b).Some? && a != b
    ensures DatasetTable(a) != DatasetTable(b)
  {
    TableInitial(a);
    TableInitial(b);
    YearsDiffer();
    assert DatasetTable(a).value[2] != DatasetTable(b).value[2];
  }

  predicate EndsWith(s: string, suffix: string)
  {
    |suffix| <= |s| && s[|s| - |suffix|..] == suffix
  }

  lemma ConcatEndsWith(head: string, suffix: string)
    ensures EndsWith(head + suffix, suffix)
  {
    assert (head + suffix)[|head|..] == suffix;
  }

  /**
   Every query ends with the same filter. The detailed query reads the
   selected dataset's table, or the table `undefined` when the dataset is
   neither one of the four nor a name inherited from `Object.prototype`;
   the sum-only queries read the four yearly tables whatever dataset is
   selected.
   */
  lemma QueriesShareFilter(dataset: string, where: string)
    ensures EndsWith(DetailedSql(dataset, where), where)
    ensures forall i :: 0 <= i < |SumQueries(where)| ==> EndsWith(SumQueries(where)[i], where)
    ensures SumQueries(where) == [SumSelection + DatasetTable("2024").value + where,
                                  SumSelection + DatasetTable("2023").value + where,
                                  SumSelection + DatasetTable("2022").value + where,
                                  SumSelection + DatasetTable("2021").value + where]
    ensures DatasetTable(dataset).None? && dataset !in InheritedNames ==> DetailedSql(dataset, where) == BaseSelection + "undefined" + where
    ensures DatasetTable(dataset).Some? ==> DetailedSql(dataset, where) == BaseSelection + DatasetTable(dataset).value + where
  {
    ConcatEndsWith(BaseSelection + TableText(dataset), where);
    ConcatEndsWith(SumSelection + TableText("2024"), where);
    ConcatEndsWith(SumSelection + TableText("2023"), where);
    ConcatEndsWith(SumSelection + TableText("2022"), where);
    ConcatEndsWith(SumSelection + TableText("2021"), where);
  }
}
