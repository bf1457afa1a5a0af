/**
 What the recency list means in terms of the history of operations.

 `Bounded` is the table after a run.  `Recency` is a reference that never
 evicts: every key touched so far, most recent first, where a touch is a put or
 a get that was answered.  The table is the front of that list, and a key's
 place in it is the number of distinct keys touched since the key itself was.
 */
module LruHistory {
  import opened Common
  import opened Lru

  datatype Op<K, V> = Get(k: K) | Put(k: K, v: V) | Remove(k: K)

  function Apply<K(==), V>(s: seq<Entry<K, V>>, op: Op<K, V>, capacity: nat): seq<Entry<K, V>> {
    match op
    case Get(k) => Touch(s, k)
    case Put(k, v) => Store(s, k, v, capacity)
    case Remove(k) => Drop(s, k)
  }

  function Bounded<K(==), V>(ops: seq<Op<K, V>>, capacity: nat): seq<Entry<K, V>> {
    if ops == [] then []
    else Apply(Bounded(ops[..|ops|-1], capacity), ops[|ops|-1], capacity)
  }

  function Keys<K, V>(s: seq<Entry<K, V>>): (ks: seq<K>)
    ensures |ks| == |s|
  {
    if s == [] then [] else [s[0].key] + Keys(s[1..])
  }

  predicate Touches<K(==), V>(s: seq<Entry<K, V>>, op: Op<K, V>) {
    op.Put? || (op.Get? && Lookup(s, op.k).Some?)
  }

  /** The reference list: unbounded, most recently touched first. */
  function Recency<K(==), V>(ops: seq<Op<K, V>>, capacity: nat): seq<K> {
    if ops == [] then []
    else
      var op := ops[|ops|-1];
      var before := Recency(ops[..|ops|-1], capacity);
      if Touches(Bounded(ops[..|ops|-1], capacity), op) then [op.k] + Without(before, op.k)
      else if op.Remove? then Without(before, op.k)
      else before
  }

  predicate NoRemoves<K, V>(ops: seq<Op<K, V>>) {
    forall i :: 0 <= i < |ops| ==> !ops[i].Remove?
  }

  lemma {:induction false} KeysLookup<K, V>(s: seq<Entry<K, V>>, k: K)
    ensures Lookup(s, k).Some? <==> k in Keys(s)
  {
    if s != [] && s[0].key != k {
      KeysLookup(s[1..], k);
    }
  }

  lemma {:induction false} KeysDrop<K, V>(s: seq<Entry<K, V>>, k: K)
    ensures Keys(Drop(s, k)) == Without(Keys(s), k)
  {
    if s != [] && s[0].key != k {
      KeysDrop(s[1..], k);
    }
  }

  lemma {:induction false} KeysCut<K, V>(s: seq<Entry<K, V>>, n: nat)
    ensures Keys(Cut(s, n)) == Cut(Keys(s), n)
  {
    if n < |s| && n != 0 {
      KeysCut(s[1..], n - 1);
      assert s[..n][1..] == s[1..][..n-1];
    }
  }

  lemma {:induction false} WithoutAbsent<K>(order: seq<K>, k: K)
    requires k !in order
    ensures Without(order, k) == order
  {
    if order != [] {
      WithoutAbsent(order[1..], k);
    }
  }

  /** Deleting a key commutes with taking a front that holds it. */
  lemma {:induction false} WithoutPrefix<K>(front: seq<K>, all: seq<K>, k: K)
    requires front <= all
    ensures k in front ==> Without(front, k) <= Without(all, k)
    ensures k !in front ==> front <= Without(all, k)
  {
    if front != [] && front[0] != k {
      assert front[1..] <= all[1..];
      WithoutPrefix(front[1..], all[1..], k);
    } else if front != [] {
      assert front[1..] <= all[1..];
    }
  }

  lemma CutPrefix<T>(s: seq<T>, n: nat, all: seq<T>)
    requires s <= all
    ensures Cut(s, n) <= all
  {}

  /** After any run, removals included, the table is a front of the reference
      list, within capacity and without duplicate keys. */
  lemma {:induction false} TableIsFrontOfRecency<K, V>(ops: seq<Op<K, V>>, capacity: nat)
    ensures Keys(Bounded(ops, capacity)) <= Recency(ops, capacity)
    ensures |Bounded(ops, capacity)| <= capacity
    ensures Distinct(Recency(ops, capacity))
  {
    if ops != [] {
      var init, op := ops[..|ops|-1], ops[|ops|-1];
      TableIsFrontOfRecency(init, capacity);
      var s, all := Bounded(init, capacity), Recency(init, capacity);
      KeysLookup(s, op.k);
      KeysDrop(s, op.k);
      WithoutPrefix(Keys(s), all, op.k);
      WithoutDistinct(all, op.k);
      if op.Put? && Lookup(s, op.k).None? {
        KeysCut([Entry(op.k, op.v)] + s, capacity);
        CutPrefix([op.k] + Keys(s), capacity, [op.k] + Without(all, op.k));
      } else if Lookup(s, op.k).None? {
        DropAbsent(s, op.k);
      }
    }
  }

  /** Without removals nothing is lost but by capacity: the table is exactly the
      reference list cut to capacity. */
  lemma {:induction false} TableIsRecencyCut<K, V>(ops: seq<Op<K, V>>, capacity: nat)
    requires NoRemoves(ops)
    ensures Keys(Bounded(ops, capacity)) == Cut(Recency(ops, capacity), capacity)
  {
    if ops != [] {
      var init, op := ops[..|ops|-1], ops[|ops|-1];
      TableIsRecencyCut(init, capacity);
      TableIsFrontOfRecency(init, capacity);
      TableIsFrontOfRecency(ops, capacity);
      var s, all := Bounded(init, capacity), Recency(init, capacity);
      KeysLookup(s, op.k);
      KeysDrop(s, op.k);
      if Lookup(s, op.k).None? && op.k !in all {
        WithoutAbsent(all, op.k);
      }
    }
  }

  /** The keys touched after the last touch of k and not removed since. */
  function TouchedSince<K(==), V>(ops: seq<Op<K, V>>, k: K, capacity: nat): set<K> {
    if ops == [] then {}
    else
      var init, op := ops[..|ops|-1], ops[|ops|-1];
      if op.Remove? then TouchedSince(init, k, capacity) - {op.k}
      else if !Touches(Bounded(init, capacity), op) then TouchedSince(init, k, capacity)
      else if op.k == k then {}
      else TouchedSince(init, k, capacity) + {op.k}
  }

  function Ahead<K(==)>(order: seq<K>, k: K): seq<K> {
    if order == [] || order[0] == k then [] else [order[0]] + Ahead(order[1..], k)
  }

  function Members<K(==)>(order: seq<K>): set<K> { set x | x in order }

  lemma {:induction false} AheadWithout<K>(order: seq<K>, k: K, x: K)
    requires Distinct(order) && k in order && x != k
    ensures Members(Ahead(Without(order, x), k)) == Members(Ahead(order, k)) - {x}
  {
    var y := order[0];
    if y != k {
      MembersCons(y, Ahead(order[1..], k));
      AheadSubset(order[1..], k);
      if y == x {
        assert Without(order, x) == order[1..];
        assert x !in Members(Ahead(order[1..], k));
      } else {
        AheadWithout(order[1..], k, x);
        assert Without(order, x) == [y] + Without(order[1..], x);
        MembersCons(y, Ahead(Without(order[1..], x), k));
      }
    }
  }

  lemma MembersCons<K>(y: K, s: seq<K>)
    ensures Members([y] + s) == Members(s) + {y}
  {}

  lemma {:induction false} AheadSubset<K>(order: seq<K>, k: K)
    ensures forall x :: x in Ahead(order, k) ==> x in order && x != k
    ensures Distinct(order) ==> Distinct(Ahead(order, k))
    ensures |Ahead(order, k)| <= |order|
    ensures k in order ==> |Ahead(order, k)| < |order| && order[|Ahead(order, k)|] == k
  {
    if order != [] && order[0] != k {
      AheadSubset(order[1..], k);
    }
  }

  /** The keys ahead of k in the reference list are those touched since k was. */
  lemma {:induction false} AheadIsTouchedSince<K, V>(ops: seq<Op<K, V>>, k: K, capacity: nat)
    requires NoRemoves(ops) && k in Recency(ops, capacity)
    ensures Members(Ahead(Recency(ops, capacity), k)) == TouchedSince(ops, k, capacity)
  {
    var init, op := ops[..|ops|-1], ops[|ops|-1];
    var all := Recency(init, capacity);
    TableIsFrontOfRecency(init, capacity);
    if Touches(Bounded(init, capacity), op) {
      if op.k != k {
        AheadIsTouchedSince(init, k, capacity);
        AheadWithout(all, k, op.k);
        MembersCons(op.k, Ahead(Without(all, op.k), k));
        assert ([op.k] + Without(all, op.k))[1..] == Without(all, op.k);
      }
    } else {
      AheadIsTouchedSince(init, k, capacity);
    }
  }

  lemma {:induction false} DistinctCount<K>(order: seq<K>)
    requires Distinct(order)
    ensures |Members(order)| == |order|
  {
    if order != [] {
      DistinctCount(order[1..]);
      assert Members(order) == Members(order[1..]) + {order[0]};
    }
  }

  lemma {:induction false} InCut<K>(order: seq<K>, k: K, n: nat)
    requires Distinct(order) && k in order
    ensures k in Cut(order, n) <==> |Ahead(order, k)| < n
  {
    if n == 0 {
    } else if order[0] != k {
      InCut(order[1..], k, n - 1);
      assert Cut(order, n) == [order[0]] + Cut(order[1..], n - 1);
    } else {
      assert Cut(order, n)[0] == k;
    }
  }

  lemma {:induction false} RecencyTouched<K, V>(ops: seq<Op<K, V>>, k: K, capacity: nat)
    requires NoRemoves(ops)
    ensures k in Recency(ops, capacity) <==> exists i :: 0 <= i < |ops| && ops[i].Put? && ops[i].k == k
  {
    if ops != [] {
      var init, op := ops[..|ops|-1], ops[|ops|-1];
      RecencyTouched(init, k, capacity);
      TableIsFrontOfRecency(init, capacity);
      KeysLookup(Bounded(init, capacity), op.k);
      forall i | 0 <= i < |init| && init[i].Put? && init[i].k == k
        ensures exists j :: 0 <= j < |ops| && ops[j].Put? && ops[j].k == k
      {
        assert ops[i].Put? && ops[i].k == k;
      }
      if op.Put? && op.k == k {
        assert ops[|ops|-1].Put? && ops[|ops|-1].k == k;
      }
    }
  }

  /** The eviction policy in closed form: after gets and puts, a key is present
      exactly when it was put and fewer than `capacity` distinct keys have been
      touched since it was. */
  lemma PresentIffRecent<K, V>(ops: seq<Op<K, V>>, k: K, capacity: nat)
    requires NoRemoves(ops)
    ensures Lookup(Bounded(ops, capacity), k).Some? <==>
              && (exists i :: 0 <= i < |ops| && ops[i].Put? && ops[i].k == k)
              && |TouchedSince(ops, k, capacity)| < capacity
  {
    var all := Recency(ops, capacity);
    KeysLookup(Bounded(ops, capacity), k);
    TableIsRecencyCut(ops, capacity);
    TableIsFrontOfRecency(ops, capacity);
    RecencyTouched(ops, k, capacity);
    if k in all {
      AheadIsTouchedSince(ops, k, capacity);
      AheadSubset(all, k);
      DistinctCount(Ahead(all, k));
      InCut(all, k, capacity);
    }
  }

  /* ------------------------------------------------------------------ */
  /* Runs with removals                                                  */
  /* ------------------------------------------------------------------ */

  lemma TableDistinct<K, V>(ops: seq<Op<K, V>>, capacity: nat)
    ensures Distinct(Keys(Bounded(ops, capacity))) && |Keys(Bounded(ops, capacity))| <= capacity
  {
    TableIsFrontOfRecency(ops, capacity);
    PrefixDistinct(Keys(Bounded(ops, capacity)), Recency(ops, capacity));
  }

  lemma {:induction false} AheadCut<K>(order: seq<K>, k: K, n: nat)
    requires k in Cut(order, n)
    ensures k in order && Ahead(Cut(order, n), k) == Ahead(order, k)
  {
    if order[0] != k {
      assert Cut(order, n) == [order[0]] + Cut(order[1..], n - 1);
      AheadCut(order[1..], k, n - 1);
    }
  }

  /** What one operation makes of the table's keys. */
  lemma KeysApply<K, V>(s: seq<Entry<K, V>>, op: Op<K, V>, capacity: nat)
    ensures var ks := Keys(s);
            Keys(Apply(s, op, capacity)) ==
              if op.Remove? then Without(ks, op.k)
              else if op.k in ks then [op.k] + Without(ks, op.k)
              else if op.Put? then Cut([op.k] + ks, capacity)
              else ks
  {
    KeysLookup(s, op.k);
    KeysDrop(s, op.k);
    if op.Put? && Lookup(s, op.k).None? {
      KeysCut([Entry(op.k, op.v)] + s, capacity);
    }
  }

  /** The keys ahead of a present key are those touched since and not removed. */
  lemma {:induction false} AheadInTable<K, V>(ops: seq<Op<K, V>>, k: K, capacity: nat)
    requires k in Keys(Bounded(ops, capacity))
    ensures Members(Ahead(Keys(Bounded(ops, capacity)), k)) == TouchedSince(ops, k, capacity)
  {
    var init, op := ops[..|ops|-1], ops[|ops|-1];
    var s := Bounded(init, capacity);
    var ks := Keys(s);
    TableDistinct(init, capacity);
    KeysApply(s, op, capacity);
    KeysLookup(s, op.k);
    if op.k == k {
      WithoutDistinct(ks, k);
      if !op.Remove? && k !in ks {
        AheadCut([k] + ks, k, capacity);
      }
    } else {
      if op.Put? && op.k !in ks {
        AheadCut([op.k] + ks, k, capacity);
        assert ([op.k] + ks)[1..] == ks;
        MembersCons(op.k, Ahead(ks, k));
      }
      AheadInTable(init, k, capacity);
      AheadSubset(ks, k);
      AheadWithout(ks, k, op.k);
      var rest := Without(ks, op.k);
      assert ([op.k] + rest)[1..] == rest;
      MembersCons(op.k, Ahead(rest, k));
    }
  }

  lemma AheadCount<K, V>(ops: seq<Op<K, V>>, k: K, capacity: nat)
    requires k in Keys(Bounded(ops, capacity))
    ensures |Ahead(Keys(Bounded(ops, capacity)), k)| == |TouchedSince(ops, k, capacity)| < capacity
  {
    var ks := Keys(Bounded(ops, capacity));
    TableDistinct(ops, capacity);
    AheadInTable(ops, k, capacity);
    AheadSubset(ks, k);
    DistinctCount(Ahead(ks, k));
  }

  /** A key stays present through one operation, or becomes so by its put. */
  lemma PresenceStep<K, V>(ops: seq<Op<K, V>>, k: K, capacity: nat)
    requires ops != []
    ensures var init, op := ops[..|ops|-1], ops[|ops|-1];
            k in Keys(Bounded(ops, capacity)) <==>
              && !(op.Remove? && op.k == k)
              && ((op.Put? && op.k == k) || k in Keys(Bounded(init, capacity)))
              && |TouchedSince(ops, k, capacity)| < capacity
  {
    var init, op := ops[..|ops|-1], ops[|ops|-1];
    var s := Bounded(init, capacity);
    var ks := Keys(s);
    assert Bounded(ops, capacity) == Apply(s, op, capacity);
    assert op.Put? && op.k == k ==> TouchedSince(ops, k, capacity) == {};
    hide Bounded, TouchedSince, Apply, Keys;
    KeysApply(s, op, capacity);
    TableDistinct(init, capacity);
    WithoutDistinct(ks, op.k);
    if k in Keys(Bounded(ops, capacity)) {
      AheadCount(ops, k, capacity);
    } else if k in ks && op.k != k {
      EvictedByPut(ops, k, capacity);
    }
  }

  /** A put that pushes k out leaves `capacity` keys touched since k was. */
  lemma EvictedByPut<K, V>(ops: seq<Op<K, V>>, k: K, capacity: nat)
    requires ops != [] && ops[|ops|-1].Put? && ops[|ops|-1].k != k
    requires var ks := Keys(Bounded(ops[..|ops|-1], capacity)); k in ks && ops[|ops|-1].k !in ks
    requires k !in Keys(Bounded(ops, capacity))
    ensures |TouchedSince(ops, k, capacity)| >= capacity
  {
    var init, op := ops[..|ops|-1], ops[|ops|-1];
    var ks := Keys(Bounded(init, capacity));
    KeysApply(Bounded(init, capacity), op, capacity);
    TableDistinct(init, capacity);
    AheadCount(init, k, capacity);
    AheadInTable(init, k, capacity);
    AheadSubset(ks, k);
    var all := [op.k] + ks;
    assert all[1..] == ks;
    InCut(all, k, capacity);
    assert op.k !in TouchedSince(init, k, capacity);
  }

  /** Operation j - 1 leaves fewer than `capacity` keys ahead of k and does not
      remove it. */
  predicate Holds<K(==), V>(ops: seq<Op<K, V>>, k: K, capacity: nat, j: int) {
    && 0 < j <= |ops|
    && !(ops[j-1].Remove? && ops[j-1].k == k)
    && |TouchedSince(ops[..j], k, capacity)| < capacity
  }

  predicate StaysSince<K(==), V>(ops: seq<Op<K, V>>, k: K, capacity: nat, i: nat) {
    forall j :: i < j <= |ops| ==> Holds(ops, k, capacity, j)
  }

  ghost predicate PutAndKept<K, V>(ops: seq<Op<K, V>>, k: K, capacity: nat) {
    exists i :: 0 <= i < |ops| && ops[i].Put? && ops[i].k == k && StaysSince(ops, k, capacity, i)
  }

  /** Presence in closed form, removals included: a key is present exactly when
      it was put, not removed since, and at no time since then did `capacity` other
      keys, touched after it and not removed, stand between it and the front. */
  lemma {:induction false} PresentIff<K, V>(ops: seq<Op<K, V>>, k: K, capacity: nat)
    ensures Lookup(Bounded(ops, capacity), k).Some? <==> PutAndKept(ops, k, capacity)
  {
    KeysLookup(Bounded(ops, capacity), k);
    if ops != [] {
      var init := ops[..|ops|-1];
      PresentIff(init, k, capacity);
      KeysLookup(Bounded(init, capacity), k);
      PresenceStep(ops, k, capacity);
      KeptStep(ops, k, capacity);
    }
  }

  lemma KeptStep<K, V>(ops: seq<Op<K, V>>, k: K, capacity: nat)
    requires ops != []
    ensures var init, op := ops[..|ops|-1], ops[|ops|-1];
            PutAndKept(ops, k, capacity) <==>
              && Holds(ops, k, capacity, |ops|)
              && ((op.Put? && op.k == k) || PutAndKept(init, k, capacity))
    ensures Holds(ops, k, capacity, |ops|) <==>
              !(ops[|ops|-1].Remove? && ops[|ops|-1].k == k) && |TouchedSince(ops, k, capacity)| < capacity
  {
    var n := |ops| - 1;
    var init, op := ops[..n], ops[n];
    assert ops[..|ops|] == ops;
    if i :| 0 <= i < |ops| && ops[i].Put? && ops[i].k == k && StaysSince(ops, k, capacity, i) {
      assert Holds(ops, k, capacity, |ops|);
      if i < n {
        StaysLonger(ops, k, capacity, i);
        assert init[i].Put? && init[i].k == k;
      }
    }
    if Holds(ops, k, capacity, |ops|) {
      if op.Put? && op.k == k {
        assert StaysSince(ops, k, capacity, n);
      } else if i :| 0 <= i < n && init[i].Put? && init[i].k == k && StaysSince(init, k, capacity, i) {
        StaysLonger(ops, k, capacity, i);
        assert ops[i].Put? && ops[i].k == k;
      }
    }
  }

  lemma HoldsBefore<K, V>(ops: seq<Op<K, V>>, k: K, capacity: nat, n: nat, j: nat)
    requires 0 < j <= n <= |ops|
    ensures Holds(ops[..n], k, capacity, j) == Holds(ops, k, capacity, j)
  {
    assert ops[..n][..j] == ops[..j];
  }

  lemma StaysLonger<K, V>(ops: seq<Op<K, V>>, k: K, capacity: nat, i: nat)
    requires i < |ops| - 1
    ensures StaysSince(ops, k, capacity, i) <==>
              StaysSince(ops[..|ops|-1], k, capacity, i) && Holds(ops, k, capacity, |ops|)
  {
    var n := |ops| - 1;
    forall j | i < j <= n ensures Holds(ops[..n], k, capacity, j) == Holds(ops, k, capacity, j) {
      HoldsBefore(ops, k, capacity, n, j);
    }
  }

  function LastPut<K(==), V>(ops: seq<Op<K, V>>, k: K): Option<V> {
    if ops == [] then None
    else if ops[|ops|-1].Put? && ops[|ops|-1].k == k then Some(ops[|ops|-1].v)
    else LastPut(ops[..|ops|-1], k)
  }

  lemma {:induction false} LookupDrop<K, V>(s: seq<Entry<K, V>>, k: K, x: K)
    requires x != k
    ensures Lookup(Drop(s, x), k) == Lookup(s, k)
  {
    if s != [] && s[0].key != x {
      LookupDrop(s[1..], k, x);
    }
  }

  lemma {:induction false} LookupCut<K, V>(s: seq<Entry<K, V>>, k: K, n: nat)
    ensures Lookup(Cut(s, n), k).Some? ==> Lookup(Cut(s, n), k) == Lookup(s, k)
  {
    if n < |s| && n != 0 && s[0].key != k {
      LookupCut(s[1..], k, n - 1);
      assert s[..n][1..] == s[1..][..n-1];
    }
  }

  lemma ApplyDistinct<K, V>(s: seq<Entry<K, V>>, op: Op<K, V>, capacity: nat)
    requires Distinct(Keys(s))
    ensures Distinct(Keys(Apply(s, op, capacity)))
  {
    KeysApply(s, op, capacity);
    WithoutDistinct(Keys(s), op.k);
    if op.Put? && op.k !in Keys(s) {
      PrefixDistinct(Cut([op.k] + Keys(s), capacity), [op.k] + Keys(s));
    }
  }

  /** What one operation makes of the value found under a key. */
  lemma ApplyLookup<K, V>(s: seq<Entry<K, V>>, op: Op<K, V>, capacity: nat, k: K)
    requires Distinct(Keys(s))
    ensures var after := Lookup(Apply(s, op, capacity), k);
            after.Some? ==>
              && !(op.Remove? && op.k == k)
              && (if op.Put? && op.k == k then after == Some(op.v) else after == Lookup(s, k))
  {
    if op.Remove? && op.k == k {
      KeysDrop(s, k);
      WithoutDistinct(Keys(s), k);
      KeysLookup(Drop(s, k), k);
    } else if op.k != k {
      LookupDrop(s, k, op.k);
      if op.Put? {
        LookupCut([Entry(op.k, op.v)] + s, k, capacity);
      }
    } else if op.Put? {
      LookupCut([Entry(k, op.v)] + s, k, capacity);
    }
  }

  /** A present key always holds the value of its latest put, whatever was
      evicted, removed or touched in between. */
  lemma {:induction false} PresentHoldsLastPut<K, V>(ops: seq<Op<K, V>>, k: K, capacity: nat)
    ensures Lookup(Bounded(ops, capacity), k).Some?
        ==> Lookup(Bounded(ops, capacity), k) == LastPut(ops, k)
  {
    if ops != [] {
      var init := ops[..|ops|-1];
      PresentHoldsLastPut(init, k, capacity);
      TableDistinct(init, capacity);
      ApplyLookup(Bounded(init, capacity), ops[|ops|-1], capacity, k);
    }
  }

  lemma {:induction false} PrefixDistinct<K>(front: seq<K>, all: seq<K>)
    requires Distinct(all) && front <= all
    ensures Distinct(front)
  {
    if front != [] {
      assert front[1..] <= all[1..];
      PrefixDistinct(front[1..], all[1..]);
    }
  }
}
