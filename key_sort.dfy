/**
 The `{name, value}` / `{label, value}` rows the page charts, and the
 `sort` it applies to them with the comparator
 `(a, b) => a.key < b.key ? -1 : a.key > b.key ? 1 : 0`.
 The sort is modelled as a stable insertion sort driven by that comparator.
 */
module KeySort {
  import opened JsString

  datatype Entry = Entry(key: string, value: nat)

  function KeysOf(s: seq<Entry>): (keys: set<string>)
  {
    set e | e in s :: e.key
  }

  lemma KeysOfAppend(a: seq<Entry>, b: seq<Entry>)
    ensures KeysOf(a + b) == KeysOf(a) + KeysOf(b)
  {
    forall k | k in KeysOf(a + b) ensures k in KeysOf(a) + KeysOf(b) {
      var e :| e in a + b && e.key == k;
      assert e in a || e in b;
    }
  }

  /** No later entry compares below an earlier one. */
  predicate Sorted(s: seq<Entry>)
  {
    forall i, j :: 0 <= i < j < |s| ==> !StrLess(s[j].key, s[i].key)
  }

  /** Ascending with no key repeated. */
  predicate StrictlySorted(s: seq<Entry>)
  {
    forall i, j :: 0 <= i < j < |s| ==> StrLess(s[i].key, s[j].key)
  }

  predicate DistinctKeys(s: seq<Entry>)
  {
    forall i, j :: 0 <= i < j < |s| ==> s[i].key != s[j].key
  }

  function SumValues(s: seq<Entry>): (sum: nat)
  {
    if s == [] then 0 else SumValues(s[..|s| - 1]) + s[|s| - 1].value
  }

  /** The comparator passed to `sort`. */
  function CompareKeys(a: Entry, b: Entry): (c: int)
  {
    if StrLess(a.key, b.key) then -1 else if StrLess(b.key, a.key) then 1 else 0
  }

  /** Places `x` before the first entry the comparator puts after it. */
  function Insert(x: Entry, s: seq<Entry>): (r: seq<Entry>)
  {
    if s == [] then [x]
    else if CompareKeys(x, s[0]) < 0 then [x] + s
    else [s[0]] + Insert(x, s[1..])
  }

  /** `Array.prototype.sort` with the key comparator. */
  function SortByKey(s: seq<Entry>): (sorted: seq<Entry>)
  {
    if s == [] then [] else Insert(s[|s| - 1], SortByKey(s[..|s| - 1]))
  }

  lemma {:induction false} InsertPermutes(x: Entry, s: seq<Entry>)
    ensures multiset(Insert(x, s)) == multiset(s) + multiset{x}
  {
    if s != [] && CompareKeys(x, s[0]) >= 0 {
      InsertPermutes(x, s[1..]);
      assert s == [s[0]] + s[1..];
    }
  }

  /** Every entry of `Insert(x, s)` is `x` or an entry of `s`. */
  lemma InsertMembers(x: Entry, s: seq<Entry>)
    ensures forall e :: e in Insert(x, s) ==> e == x || e in s
  {
    InsertPermutes(x, s);
    forall e | e in Insert(x, s) ensures e == x || e in s {
      assert e in multiset(Insert(x, s));
    }
  }

  lemma {:induction false} InsertSorted(x: Entry, s: seq<Entry>)
    requires Sorted(s)
    ensures Sorted(Insert(x, s))
  {
    if s == [] {
    } else if CompareKeys(x, s[0]) < 0 {
      var r := [x] + s;
      forall j | 0 < j < |r| ensures !StrLess(r[j].key, x.key) {
        if StrLess(r[j].key, x.key) {
          StrLessTransitive(r[j].key, x.key, s[0].key);
          if j == 1 { StrLessIrreflexive(s[0].key); }
        }
      }
    } else {
      var rest := Insert(x, s[1..]);
      InsertSorted(x, s[1..]);
      InsertMembers(x, s[1..]);
      forall j | 0 <= j < |rest| ensures !StrLess(rest[j].key, s[0].key) {
        if rest[j] != x {
          assert rest[j] in rest;
          var k :| 0 <= k < |s[1..]| && s[1..][k] == rest[j];
          assert s[k + 1] == rest[j];
        }
      }
    }
  }

  lemma {:induction false} InsertStrictlySorted(x: Entry, s: seq<Entry>)
    requires StrictlySorted(s) && x.key !in KeysOf(s)
    ensures StrictlySorted(Insert(x, s))
  {
    if s == [] {
    } else if CompareKeys(x, s[0]) < 0 {
      var r := [x] + s;
      forall j | 1 < j < |r| ensures StrLess(x.key, r[j].key) {
        StrLessTransitive(x.key, s[0].key, r[j].key);
      }
    } else {
      var rest := Insert(x, s[1..]);
      assert x.key !in KeysOf(s[1..]);
      InsertStrictlySorted(x, s[1..]);
      InsertMembers(x, s[1..]);
      assert x.key != s[0].key;
      StrLessTotal(x.key, s[0].key);
      forall j | 0 <= j < |rest| ensures StrLess(s[0].key, rest[j].key) {
        if rest[j] != x {
          assert rest[j] in rest;
          var k :| 0 <= k < |s[1..]| && s[1..][k] == rest[j];
          assert s[k + 1] == rest[j];
        }
      }
    }
  }

  /** Entries with the same multiset have the same keys. */
  lemma KeysOfPermutation(a: seq<Entry>, b: seq<Entry>)
    requires multiset(a) == multiset(b)
    ensures KeysOf(a) == KeysOf(b)
  {
    forall e | e in a ensures e in b { assert e in multiset(b); }
    forall e | e in b ensures e in a { assert e in multiset(a); }
  }

  /** Sorting keeps the entries, puts them in key order, and with distinct
      keys the order is strict. */
  lemma {:induction false} SortByKeySpec(s: seq<Entry>)
    ensures multiset(SortByKey(s)) == multiset(s)
    ensures Sorted(SortByKey(s))
    ensures DistinctKeys(s) ==> StrictlySorted(SortByKey(s))
    decreases |s|
  {
    if s != [] {
      var init, last := s[..|s| - 1], s[|s| - 1];
      assert s == init + [last];
      SortByKeySpec(init);
      InsertPermutes(last, SortByKey(init));
      InsertSorted(last, SortByKey(init));
      if DistinctKeys(s) {
        KeysOfPermutation(SortByKey(init), init);
        assert last.key !in KeysOf(init) by {
          forall k | 0 <= k < |init| ensures init[k].key != last.key {
            assert s[k] == init[k];
          }
        }
        InsertStrictlySorted(last, SortByKey(init));
      }
    }
  }

  lemma SortedHeadsAgree(a: seq<Entry>, b: seq<Entry>)
    requires StrictlySorted(a) && StrictlySorted(b)
    requires multiset(a) == multiset(b) && a != []
    ensures b != [] && a[0] == b[0]
  {
    assert a[0] in multiset(b);
    assert b[0] in multiset(a);
    var i :| 0 <= i < |a| && a[i] == b[0];
    var j :| 0 <= j < |b| && b[j] == a[0];
    if a[0] != b[0] {
      assert StrLess(a[0].key, a[i].key);
      assert StrLess(b[0].key, b[j].key);
      StrLessAsymmetric(a[0].key, a[i].key);
    }
  }

  /** Two strictly sorted arrangements of the same entries are identical:
      the sorted result does not depend on the input order. */
  lemma {:induction false} SortedUnique(a: seq<Entry>, b: seq<Entry>)
    requires StrictlySorted(a) && StrictlySorted(b)
    requires multiset(a) == multiset(b)
    ensures a == b
    decreases |a|
  {
    if a == [] {
      assert |multiset(b)| == 0;
    } else {
      SortedHeadsAgree(a, b);
      assert a == [a[0]] + a[1..] && b == [b[0]] + b[1..];
      assert multiset(a[1..]) == multiset(a) - multiset{a[0]};
      assert multiset(b[1..]) == multiset(b) - multiset{b[0]};
      SortedUnique(a[1..], b[1..]);
    }
  }

  lemma StrictlySortedDistinct(s: seq<Entry>)
    requires StrictlySorted(s)
    ensures DistinctKeys(s)
  {
    forall i, j | 0 <= i < j < |s| ensures s[i].key != s[j].key {
      StrLessIrreflexive(s[i].key);
    }
  }

  /** Sorting entries that are already strictly ascending changes nothing. */
  lemma SortByKeyIdentity(s: seq<Entry>)
    requires StrictlySorted(s)
    ensures SortByKey(s) == s
  {
    StrictlySortedDistinct(s);
    SortByKeySpec(s);
    SortedUnique(SortByKey(s), s);
  }

  /** Strict order follows from strict order of neighbours. */
  lemma {:induction false} StrictlySortedFromAdjacent(s: seq<Entry>)
    requires forall i :: 0 <= i < |s| - 1 ==> StrLess(s[i].key, s[i + 1].key)
    ensures StrictlySorted(s)
    decreases |s|
  {
    if |s| > 1 {
      StrictlySortedFromAdjacent(s[1..]);
      forall j | 1 < j < |s| ensures StrLess(s[0].key, s[j].key) {
        assert StrLess(s[1..][0].key, s[1..][j - 1].key);
        StrLessTransitive(s[0].key, s[1].key, s[j].key);
      }
    }
  }
}
