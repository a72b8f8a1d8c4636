/**
 A JavaScript `Map` from string keys to counts. Besides the key/value
 pairs it remembers the order in which keys were first set: that is the
 order in which `Array.from` lists them before the page sorts them.
 */
module OrderedMaps {
  import opened JsString
  import opened KeySort

  datatype OrderedMap = OrderedMap(order: seq<string>, values: map<string, nat>)
  {
    /** Every key is listed once, and exactly the keys that have a value. */
    ghost predicate Valid()
    {
      && (forall i, j :: 0 <= i < j < |order| ==> order[i] != order[j])
      && (forall k :: k in values <==> k in order)
    }

    /** `m.get(k)`; `None` stands for `undefined`. */
    function Get(k: string): (v: Option<nat>)
    {
      if k in values then Some(values[k]) else None
    }

    /** `m.get(k) ?? 0`. */
    function GetOrZero(k: string): (v: nat)
    {
      match Get(k)
      case Some(v) => v
      case None => 0
    }

    /** `m.set(k, v)`: a new key goes last, an existing key keeps its place. */
    function Set(k: string, v: nat): (m: OrderedMap)
    {
      OrderedMap(if k in values then order else order + [k], values[k := v])
    }

    /** `Array.from(m, ([key, value]) => ({key, value}))`. */
    function Entries(): (es: seq<Entry>)
      requires Valid()
    {
      seq(|order|, i requires 0 <= i < |order| => Entry(order[i], values[order[i]]))
    }
  }

  const Empty: OrderedMap := OrderedMap([], map[])

  /** `new Map(pairs)`: the pairs set one after another. */
  function FromEntries(es: seq<Entry>): (m: OrderedMap)
  {
    if es == [] then Empty
    else FromEntries(es[..|es| - 1]).Set(es[|es| - 1].key, es[|es| - 1].value)
  }

  /** Setting keeps the map well formed, `get` then returns the new value,
      and no other key changes. */
  lemma SetGet(m: OrderedMap, k: string, v: nat)
    requires m.Valid()
    ensures m.Set(k, v).Valid()
    ensures m.Set(k, v).Get(k) == Some(v)
    ensures forall k' :: k' != k ==> m.Set(k, v).Get(k') == m.Get(k')
  {
  }

  /** Setting a new key appends one entry to the listing. */
  lemma SetNewKey(m: OrderedMap, k: string, v: nat)
    requires m.Valid() && k !in m.values
    ensures m.Set(k, v).Valid()
    ensures m.Set(k, v).Entries() == m.Entries() + [Entry(k, v)]
  {
    var m' := m.Set(k, v);
    assert m'.order == m.order + [k];
    forall i | 0 <= i < |m.order| ensures m'.Entries()[i] == m.Entries()[i] {
      assert m.order[i] != k;
    }
  }

  /** Setting an existing key changes its value in place in the listing. */
  lemma SetExistingKey(m: OrderedMap, k: string, v: nat)
    requires m.Valid() && k in m.values
    ensures m.Set(k, v).Valid()
    ensures |m.Set(k, v).Entries()| == |m.Entries()|
    ensures forall i :: 0 <= i < |m.Entries()| ==>
      m.Set(k, v).Entries()[i] == if m.Entries()[i].key == k then Entry(k, v) else m.Entries()[i]
  {
  }

  /** A second `set` of the same key overrides the first. */
  lemma SetTwice(m: OrderedMap, k: string, a: nat, b: nat)
    ensures m.Set(k, a).Set(k, b) == m.Set(k, b)
  {
  }

  /** The listing has one entry per key, carrying that key's value. */
  lemma EntriesSpec(m: OrderedMap)
    requires m.Valid()
    ensures DistinctKeys(m.Entries())
    ensures KeysOf(m.Entries()) == m.values.Keys
    ensures forall e :: e in m.Entries() ==> e.key in m.values && e.value == m.values[e.key]
  {
    var es := m.Entries();
    forall k | k in m.values ensures k in KeysOf(es) {
      var i :| 0 <= i < |m.order| && m.order[i] == k;
      assert es[i].key == k;
    }
  }

  /** A map built from pairs with distinct keys lists exactly those pairs, in order. */
  lemma {:induction false} FromEntriesSpec(es: seq<Entry>)
    requires DistinctKeys(es)
    ensures FromEntries(es).Valid()
    ensures FromEntries(es).Entries() == es
    decreases |es|
  {
    if es != [] {
      var init, last := es[..|es| - 1], es[|es| - 1];
      FromEntriesSpec(init);
      EntriesSpec(FromEntries(init));
      assert last.key !in KeysOf(init) by {
        forall i | 0 <= i < |init| ensures init[i].key != last.key {
          assert init[i] == es[i];
        }
      }
      SetNewKey(FromEntries(init), last.key, last.value);
      assert init + [last] == es;
    }
  }
}
