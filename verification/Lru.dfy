/**
 The map-plus-list least-recently-used table that backs both the record cache
 and the response cache.

 The abstract value is the recency list: a sequence of entries, most recently
 touched first.  `Touch`, `Store` and `Drop` are its three atomic operations;
 class `Table` is the concrete structure (a dictionary of values and the list
 of keys) and is proved to implement them.
 */
module Lru {
  import opened Common

  datatype Entry<K, V> = Entry(key: K, val: V)

  function Lookup<K(==), V>(s: seq<Entry<K, V>>, k: K): Option<V> {
    if s == [] then None
    else if s[0].key == k then Some(s[0].val)
    else Lookup(s[1..], k)
  }

  function Drop<K(==), V>(s: seq<Entry<K, V>>, k: K): seq<Entry<K, V>> {
    if s == [] then []
    else if s[0].key == k then s[1..]
    else [s[0]] + Drop(s[1..], k)
  }

  function Touch<K(==), V>(s: seq<Entry<K, V>>, k: K): seq<Entry<K, V>> {
    match Lookup(s, k)
    case None => s
    case Some(v) => [Entry(k, v)] + Drop(s, k)
  }

  function Cut<T>(s: seq<T>, n: nat): seq<T> {
    if |s| <= n then s else s[..n]
  }

  function Store<K(==), V>(s: seq<Entry<K, V>>, k: K, v: V, capacity: nat): seq<Entry<K, V>> {
    if Lookup(s, k).Some? then [Entry(k, v)] + Drop(s, k) else Cut([Entry(k, v)] + s, capacity)
  }

  /** None of the operations makes up an entry. */
  lemma {:induction false} DropSubset<K, V>(s: seq<Entry<K, V>>, k: K)
    ensures forall e :: e in Drop(s, k) ==> e in s
  {
    if s != [] && s[0].key != k {
      DropSubset(s[1..], k);
    }
  }

  lemma {:induction false} LookupMember<K, V>(s: seq<Entry<K, V>>, k: K)
    ensures Lookup(s, k).Some? ==> Entry(k, Lookup(s, k).value) in s
  {
    if s != [] && s[0].key != k {
      LookupMember(s[1..], k);
    }
  }

  lemma TouchSubset<K, V>(s: seq<Entry<K, V>>, k: K)
    ensures forall e :: e in Touch(s, k) ==> e in s
  {
    LookupMember(s, k);
    DropSubset(s, k);
  }

  lemma StoreSubset<K, V>(s: seq<Entry<K, V>>, k: K, v: V, capacity: nat)
    ensures forall e :: e in Store(s, k, v, capacity) ==> e in s || e == Entry(k, v)
  {
    DropSubset(s, k);
  }

  /* ------------------------------------------------------------------ */
  /* The concrete table                                                  */
  /* ------------------------------------------------------------------ */

  predicate Distinct<K(==)>(order: seq<K>) {
    order == [] || (order[0] !in order[1..] && Distinct(order[1..]))
  }

  function Without<K(==)>(order: seq<K>, k: K): (r: seq<K>)
    ensures forall x :: x in r ==> x in order
    ensures forall x :: x in order && x != k ==> x in r
    ensures |r| <= |order| && (k in order ==> |r| == |order| - 1)
  {
    if order == [] then []
    else if order[0] == k then order[1..]
    else [order[0]] + Without(order[1..], k)
  }

  ghost predicate Agree<K, V>(items: map<K, V>, order: seq<K>) {
    && Distinct(order)
    && (forall k :: k in order ==> k in items)
    && (forall k :: k in items ==> k in order)
  }

  ghost function Zip<K, V>(items: map<K, V>, order: seq<K>): (s: seq<Entry<K, V>>)
    requires forall k :: k in order ==> k in items
    ensures |s| == |order|
  {
    if order == [] then [] else [Entry(order[0], items[order[0]])] + Zip(items, order[1..])
  }

  lemma {:induction false} WithoutDistinct<K>(order: seq<K>, k: K)
    requires Distinct(order)
    ensures Distinct(Without(order, k)) && k !in Without(order, k)
  {
    if order != [] && order[0] != k {
      WithoutDistinct(order[1..], k);
    }
  }

  lemma {:induction false} ZipLookup<K, V>(items: map<K, V>, order: seq<K>, k: K)
    requires forall x :: x in order ==> x in items
    ensures Lookup(Zip(items, order), k) == if k in order then Some(items[k]) else None
  {
    if order != [] && order[0] != k {
      ZipLookup(items, order[1..], k);
    }
  }

  lemma {:induction false} ZipDrop<K, V>(items: map<K, V>, order: seq<K>, k: K)
    requires forall x :: x in order ==> x in items
    ensures Zip(items, Without(order, k)) == Drop(Zip(items, order), k)
  {
    if order != [] && order[0] != k {
      ZipDrop(items, order[1..], k);
    }
  }

  lemma {:induction false} ZipFrame<K, V>(items: map<K, V>, items': map<K, V>, order: seq<K>)
    requires forall x :: x in order ==> x in items && x in items' && items[x] == items'[x]
    ensures Zip(items, order) == Zip(items', order)
  {
    if order != [] {
      ZipFrame(items, items', order[1..]);
    }
  }

  lemma {:induction false} ZipFront<K, V>(items: map<K, V>, order: seq<K>, n: nat)
    requires forall x :: x in order ==> x in items
    requires n <= |order|
    ensures Zip(items, order[..n]) == Zip(items, order)[..n]
  {
    if n != 0 {
      assert order[..n][1..] == order[1..][..n-1];
      ZipFront(items, order[1..], n - 1);
    }
  }

  lemma {:induction false} DistinctFront<K>(order: seq<K>, n: nat)
    requires Distinct(order) && n < |order|
    ensures Distinct(order[..n]) && order[n] !in order[..n]
  {
    if n != 0 {
      assert order[..n][1..] == order[1..][..n-1];
      DistinctFront(order[1..], n - 1);
    }
  }

  lemma Removed<K, V>(items: map<K, V>, order: seq<K>, k: K)
    requires Agree(items, order)
    ensures Agree(items - {k}, Without(order, k))
    ensures Zip(items - {k}, Without(order, k)) == Drop(Zip(items, order), k)
  {
    WithoutDistinct(order, k);
    ZipDrop(items, order, k);
    ZipFrame(items, items - {k}, Without(order, k));
  }

  /** Evicting the back of the list and its dictionary entry. */
  lemma BackRemoved<K, V>(items: map<K, V>, order: seq<K>)
    requires Agree(items, order) && order != []
    ensures var n := |order| - 1;
            && Agree(items - {order[n]}, order[..n])
            && Zip(items - {order[n]}, order[..n]) == Zip(items, order)[..n]
  {
    var n := |order| - 1;
    DistinctFront(order, n);
    assert order == order[..n] + [order[n]];
    ZipFront(items, order, n);
    ZipFrame(items, items - {order[n]}, order[..n]);
  }

  class Table<K(==), V> {
    const capacity: nat
    var items: map<K, V>
    var order: seq<K>

    ghost predicate Valid()
      reads this
    {
      |order| <= capacity && Agree(items, order)
    }

    ghost function View(): (s: seq<Entry<K, V>>)
      requires Valid()
      reads this
    {
      Zip(items, order)
    }

    constructor (capacity: nat)
      ensures Valid() && View() == [] && this.capacity == capacity
    {
      this.capacity := capacity;
      items := map[];
      order := [];
    }

    method Peek(k: K) returns (r: Option<V>)
      requires Valid()
      ensures r == Lookup(View(), k)
    {
      ZipLookup(items, order, k);
      r := if k in items then Some(items[k]) else None;
    }

    method Get(k: K) returns (r: Option<V>)
      requires Valid()
      modifies this`order
      ensures Valid()
      ensures r == Lookup(old(View()), k)
      ensures View() == Touch(old(View()), k)
    {
      ZipLookup(items, order, k);
      if k in items {
        r := Some(items[k]);
        WithoutDistinct(order, k);
        ZipDrop(items, order, k);
        order := [k] + Without(order, k);
      } else {
        r := None;
      }
    }

    method Put(k: K, v: V)
      requires Valid()
      modifies this`items, this`order
      ensures Valid()
      ensures View() == Store(old(View()), k, v, capacity)
    {
      ZipLookup(items, order, k);
      if k in items {
        WithoutDistinct(order, k);
        ZipDrop(items, order, k);
        ZipFrame(items, items[k := v], Without(order, k));
        items := items[k := v];
        order := [k] + Without(order, k);
      } else {
        ghost var all := [Entry(k, v)] + View();
        ZipFrame(items, items[k := v], order);
        order := [k] + order;
        items := items[k := v];
        while |order| > capacity
          invariant Agree(items, order)
          invariant |order| <= |all| && (|order| == |all| || capacity <= |order|)
          invariant Zip(items, order) == all[..|order|]
        {
          BackRemoved(items, order);
          var last := order[|order| - 1];
          items := items - {last};
          order := order[..|order| - 1];
        }
      }
    }

    method Remove(k: K)
      requires Valid()
      modifies this`items, this`order
      ensures Valid()
      ensures View() == Drop(old(View()), k)
    {
      ZipLookup(items, order, k);
      Removed(items, order, k);
      if k in items {
        order := Without(order, k);
        items := items - {k};
      } else {
        assert items - {k} == items;
        DropAbsent(View(), k);
      }
    }
  }

  lemma {:induction false} DropAbsent<K, V>(s: seq<Entry<K, V>>, k: K)
    requires Lookup(s, k).None?
    ensures Drop(s, k) == s
  {
    if s != [] {
      DropAbsent(s[1..], k);
    }
  }
}
