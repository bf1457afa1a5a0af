/**
 Whether the record cache can go back in time.  Every caller stores its own copy
 after it has left singleflight, so a slow one may overwrite the outcome of a
 later fetch.  That needs no more than two callers of one record; it cannot
 happen in runs in which nobody starts a fetch while somebody is still to store
 the outcome of an earlier one.
 */
module RecordCacheOrder {
  import opened Common
  import opened Lru
  import opened RecordCache
  import opened Singleflight
  import opened RecordCacheScenes
  import opened RecordCacheProgress
  import LruHistory

  /** The entry that the store of thread i would replace comes from a later fetch. */
  predicate WouldGoBack(s: State, i: nat) {
    && i < |s.threads| && s.threads[i].phase.Storing?
    && var t := s.threads[i];
    && var e := Lookup(s.buckets.Of(t.cls), t.key);
    && e.Some? && e.value.out.fetchedAt > t.phase.out.fetchedAt
  }

  predicate Twins(s: State, x: nat, y: nat) {
    && x < |s.threads| && y < |s.threads| && x != y
    && s.threads[x].cls == s.threads[y].cls && s.threads[x].key == s.threads[y].key
  }

  /** The first caller has left `do` but not stored; the second misses, fetches
      later and stores first. */
  lemma TwinsGoBack(cfg: Config, s: State, x: nat, y: nat) returns (r: State)
    requires Init(s) && Twins(s, x, y) && 1 <= cfg.size
    ensures Reaches(cfg, s, r, 1, 1) && WouldGoBack(r, x)
  {
    hide View, Reaches;
    Begin(cfg, s, 1, 0);
    var sc := StartsFetch(cfg, s, START, x, 1, 0);
    sc := EndsFetch(cfg, s, sc, x, Some("old"), None, 1, 0, 0);
    sc := Deletes(cfg, s, sc, x, 1, 0);
    sc := StartsFetch(cfg, s, sc, y, 1, 0);
    sc := EndsFetch(cfg, s, sc, y, Some("new"), None, 1, 0, 1);
    sc := Deletes(cfg, s, sc, y, 1, 1);
    sc := Stores(cfg, s, sc, y, 1, 1, 1);
    sc := Stamps(cfg, s, sc, x, 1, 1, 1);
    r := View(s, sc);
    ThreadSeen(s, sc, x);
  }

  /** Behind a store that finds an entry are two callers of its record. */
  lemma EntryHasTwins(cfg: Config, s: State, n: nat, i: nat) returns (x: nat, y: nat)
    requires Origins(cfg, s, n) && n <= |s.threads| && i < |s.threads| && s.threads[i].phase.Storing?
    requires Lookup(s.buckets.Of(s.threads[i].cls), s.threads[i].key).Some?
    ensures x < n && y < n && Twins(s, x, y)
  {
    var t := s.threads[i];
    var b := s.buckets.Of(t.cls);
    LookupMember(b, t.key);
    assert Stocked(s, n, t.cls, b) && Origin(cfg, s, n, i);
    x :| CallerOf(s, n, x, t.cls, t.key) && s.threads[x].phase.Loaded?;
    if i < n {
      y := i;
    } else {
      y :| CallerOf(s, n, y, t.cls, t.key) && s.threads[y].phase.Served?;
    }
  }

  lemma {:induction false} RunOrigins(cfg: Config, s: State, acts: seq<Action>, n: nat)
    requires Origins(cfg, s, n) && n <= |s.threads| && Legal(cfg, s, acts)
    ensures Origins(cfg, Run(cfg, s, acts), n) && |s.threads| <= |Run(cfg, s, acts).threads|
    ensures var ts := Run(cfg, s, acts).threads;
            forall i :: 0 <= i < n ==> ts[i].cls == s.threads[i].cls && ts[i].key == s.threads[i].key
    decreases |acts|
  {
    if acts != [] {
      StepMoves(cfg, s, acts[0]);
      StepOrigins(cfg, s, acts[0], n);
      RunOrigins(cfg, Step(cfg, s, acts[0]), acts[1..], n);
    }
  }

  /** For given callers, some run with an ordered clock has a store that replaces
      a later outcome by an earlier one if and only if two callers ask for one
      record. */
  lemma CanGoBackIff(cfg: Config, s: State)
    requires Init(s) && 1 <= cfg.size
    ensures (exists acts, i: nat :: Legal(cfg, s, acts) && InOrder(acts) && WouldGoBack(Run(cfg, s, acts), i)) <==>
              exists x: nat, y: nat :: Twins(s, x, y)
  {
    if x: nat, y: nat :| Twins(s, x, y) {
      var r := TwinsGoBack(cfg, s, x, y);
      var acts :| RunTo(cfg, s, acts, r, 1, 1);
      assert Legal(cfg, s, acts) && InOrder(acts) && WouldGoBack(Run(cfg, s, acts), x);
    }
    if acts, i: nat :| Legal(cfg, s, acts) && InOrder(acts) && WouldGoBack(Run(cfg, s, acts), i) {
      var r, n := Run(cfg, s, acts), |s.threads|;
      InitOrigins(cfg, s);
      RunOrigins(cfg, s, acts, n);
      var x, y := EntryHasTwins(cfg, r, n, i);
      assert Twins(s, x, y);
    }
  }

  /* ------------------------------------------------------------------ */
  /* Runs that never go back                                             */
  /* ------------------------------------------------------------------ */

  /** Thread i has, or waits for, an outcome of its own record (c, k) that it is
      still to store. */
  predicate Carries(s: State, i: int, c: Class, k: string) {
    && 0 <= i < |s.threads| && s.threads[i].cls == c && s.threads[i].key == k
    && s.threads[i].phase.Joined().Some? && !s.threads[i].phase.Finished()
    && s.threads[i].phase.call < |s.calls| && s.calls[s.threads[i].phase.call].cls == c
  }

  /** A thread starts a fetch while another is still to store the same record. */
  ghost predicate StartsEarly(s: State, a: Action) {
    && a.Enter? && a.i < |s.threads| && s.threads[a.i].key !in s.inflight
    && exists j :: Carries(s, j, s.threads[a.i].cls, s.threads[a.i].key)
  }

  ghost predicate InTime(cfg: Config, s: State, acts: seq<Action>)
    requires Legal(cfg, s, acts)
    decreases |acts|
  {
    acts == [] || (!StartsEarly(s, acts[0]) && InTime(cfg, Step(cfg, s, acts[0]), acts[1..]))
  }

  /** The fetch time of the outcome that an action stores or serves for (c, k). */
  function ShownBy(cfg: Config, s: State, a: Action, c: Class, k: string): seq<int>
    requires Enabled(s, a)
  {
    var t := s.threads[a.i];
    if t.cls != c || t.key != k then []
    else if a.Put? then [t.phase.out.fetchedAt]
    else if a.LookUp? then
      var p := DoLookUp(cfg, s, a.i).threads[a.i].phase;
      if p.Served? then [p.entry.out.fetchedAt] else []
    else []
  }

  function Shown(cfg: Config, s: State, acts: seq<Action>, c: Class, k: string): seq<int>
    requires Legal(cfg, s, acts)
    decreases |acts|
  {
    if acts == [] then []
    else ShownBy(cfg, s, acts[0], c, k) + Shown(cfg, Step(cfg, s, acts[0]), acts[1..], c, k)
  }

  predicate Nondecreasing(s: seq<int>) {
    forall i, j :: 0 <= i < j < |s| ==> s[i] <= s[j]
  }

  /** What a carrier will store, once its call has a result, was fetched between
      `low` and `high`. */
  predicate Bounds(s: State, i: int, c: Class, k: string, low: int, high: int) {
    Carries(s, i, c, k) ==>
      var r := s.calls[s.threads[i].phase.call].result;
      r.Some? ==> low <= r.value.fetchedAt <= high
  }

  /** All carriers share one call; what they carry is not older than `low`, the
      last outcome stored, and not newer than `high`, the last fetch. */
  ghost predicate Forward(s: State, c: Class, k: string, low: int, high: int) {
    && low <= high
    && (forall i :: Bounds(s, i, c, k, low, high))
    && (forall i, j :: Carries(s, i, c, k) && Carries(s, j, c, k) ==>
          s.threads[i].phase.call == s.threads[j].phase.call)
    && Distinct(LruHistory.Keys(s.buckets.Of(c)))
    && (Lookup(s.buckets.Of(c), k).Some? ==> Lookup(s.buckets.Of(c), k).value.out.fetchedAt == low)
  }

  /* Carriers */

  /** Only Enter makes a carrier. */
  lemma CarriedBefore(cfg: Config, s: State, a: Action, j: int, c: Class, k: string)
    requires Inv(s) && Enabled(s, a) && !a.Enter?
    ensures var s' := Step(cfg, s, a);
            Carries(s', j, c, k) ==> Carries(s, j, c, k) && s'.threads[j].phase.call == s.threads[j].phase.call
  {
    hide Step;
    var s' := Step(cfg, s, a);
    StepMoves(cfg, s, a);
    StepCalls(cfg, s, a);
    if Carries(s', j, c, k) && j < |s.threads| {
      assert ThreadOk(s, s.threads[j], j);
      assert SameCall(s.calls[s.threads[j].phase.call], s'.calls[s.threads[j].phase.call]);
    }
  }

  /** Only Fetch sets a result. */
  lemma ResultsBefore(cfg: Config, s: State, a: Action, x: nat)
    requires Enabled(s, a) && !a.Fetch? && x < |s.calls|
    ensures x < |Step(cfg, s, a).calls| && Step(cfg, s, a).calls[x].result == s.calls[x].result
  {}

  /** The table operation an action is on the bucket of class c, if any. */
  function OpOn(s: State, a: Action, c: Class): Option<LruHistory.Op<string, Cached>>
    requires Enabled(s, a)
  {
    var t := s.threads[a.i];
    if t.cls != c then None
    else
      match a
      case Put(_) => Some(LruHistory.Put(t.key, Cached(t.phase.out, t.phase.expires)))
      case Discard(_) => Some(LruHistory.Remove(t.key))
      case LookUp(_) => Some(LruHistory.Get(t.key))
      case _ => None
  }

  lemma BucketStep(cfg: Config, s: State, a: Action, c: Class)
    requires Enabled(s, a)
    ensures Step(cfg, s, a).buckets.Of(c) ==
              match OpOn(s, a, c)
              case None => s.buckets.Of(c)
              case Some(op) => LruHistory.Apply(s.buckets.Of(c), op, cfg.size)
  {}

  /** A bucket shows the outcome last stored. */
  lemma BucketForward(cfg: Config, s: State, a: Action, c: Class, k: string)
    requires Enabled(s, a) && Distinct(LruHistory.Keys(s.buckets.Of(c)))
    ensures var t, b, b' := s.threads[a.i], s.buckets.Of(c), Step(cfg, s, a).buckets.Of(c);
            && Distinct(LruHistory.Keys(b'))
            && (Lookup(b', k).Some? ==>
                  if a.Put? && t.cls == c && t.key == k then Lookup(b', k).value.out == t.phase.out
                  else Lookup(b', k) == Lookup(b, k))
  {
    hide Step;
    BucketStep(cfg, s, a, c);
    var op := OpOn(s, a, c);
    if op.Some? {
      LruHistory.ApplyDistinct(s.buckets.Of(c), op.value, cfg.size);
      LruHistory.ApplyLookup(s.buckets.Of(c), op.value, cfg.size, k);
    }
  }

  /* One step */

  /** The last outcome stored for (c, k) and the last fetch, after an action. */
  function LowAfter(s: State, a: Action, c: Class, k: string, low: int): int
    requires Enabled(s, a)
  {
    var t := s.threads[a.i];
    if a.Put? && t.cls == c && t.key == k then t.phase.out.fetchedAt else low
  }

  function HighAfter(a: Action, high: int): int { if a.Fetch? then a.at else high }

  lemma JoinForward(cfg: Config, s: State, i: nat, c: Class, k: string, low: int, high: int)
    requires Inv(s) && Enabled(s, Enter(i)) && s.threads[i].key in s.inflight && Forward(s, c, k, low, high)
    ensures Forward(DoEnter(s, i), c, k, low, high)
  {
    var t, s' := s.threads[i], DoEnter(s, i);
    assert FlightOk(s, t.key);
    var l := s.calls[s.inflight[t.key]].leader;
    assert ThreadOk(s, s.threads[l], l);
    assert Carries(s', i, c, k) ==> Carries(s, l, c, k);
    forall j ensures Bounds(s', j, c, k, low, high) && (j != i && Carries(s', j, c, k) ==> Carries(s, j, c, k)) {
      assert Bounds(s, j, c, k, low, high) && Bounds(s, l, c, k, low, high);
    }
  }

  lemma LeadForward(cfg: Config, s: State, i: nat, c: Class, k: string, low: int, high: int)
    requires Inv(s) && Enabled(s, Enter(i)) && s.threads[i].key !in s.inflight && !StartsEarly(s, Enter(i))
    requires Forward(s, c, k, low, high)
    ensures Forward(DoEnter(s, i), c, k, low, high)
  {
    var s' := DoEnter(s, i);
    forall j | j != i ensures Carries(s', j, c, k) ==> Carries(s, j, c, k) {
      if 0 <= j < |s.threads| {
        assert ThreadOk(s, s.threads[j], j);
      }
    }
    forall j ensures Bounds(s', j, c, k, low, high) {
      assert Bounds(s, j, c, k, low, high);
    }
  }

  lemma BoundsForward(cfg: Config, s: State, a: Action, j: int, c: Class, k: string, low: int, high: int)
    requires Inv(s) && Enabled(s, a) && !a.Enter? && Forward(s, c, k, low, high) && high <= HighAfter(a, high)
    ensures low <= LowAfter(s, a, c, k, low) <= high
    ensures Bounds(Step(cfg, s, a), j, c, k, LowAfter(s, a, c, k, low), HighAfter(a, high))
  {
    var s', t := Step(cfg, s, a), s.threads[a.i];
    assert ThreadOk(s, t, a.i);
    assert Bounds(s, a.i, c, k, low, high) && Bounds(s, j, c, k, low, high);
    assert a.Put? && t.cls == c && t.key == k ==> Carries(s, a.i, c, k);
    CarriedBefore(cfg, s, a, j, c, k);
    if Carries(s', j, c, k) && !a.Fetch? {
      hide Step;
      ResultsBefore(cfg, s, a, s.threads[j].phase.call);
    }
  }

  lemma OtherForward(cfg: Config, s: State, a: Action, c: Class, k: string, low: int, high: int)
    requires Inv(s) && Enabled(s, a) && !a.Enter? && Forward(s, c, k, low, high) && high <= HighAfter(a, high)
    ensures low <= LowAfter(s, a, c, k, low) <= high
    ensures Forward(Step(cfg, s, a), c, k, LowAfter(s, a, c, k, low), HighAfter(a, high))
  {
    hide Step, Bounds;
    var s' := Step(cfg, s, a);
    BucketForward(cfg, s, a, c, k);
    forall j ensures Bounds(s', j, c, k, LowAfter(s, a, c, k, low), HighAfter(a, high)) {
      BoundsForward(cfg, s, a, j, c, k, low, high);
    }
    BoundsForward(cfg, s, a, a.i, c, k, low, high);
    forall j
      ensures Carries(s', j, c, k) ==> Carries(s, j, c, k) && s'.threads[j].phase.call == s.threads[j].phase.call
    {
      CarriedBefore(cfg, s, a, j, c, k);
    }
  }

  lemma StepForward(cfg: Config, s: State, a: Action, c: Class, k: string, low: int, high: int)
    requires Inv(s) && Enabled(s, a) && !StartsEarly(s, a) && Forward(s, c, k, low, high) && high <= HighAfter(a, high)
    ensures low <= LowAfter(s, a, c, k, low)
    ensures Forward(Step(cfg, s, a), c, k, LowAfter(s, a, c, k, low), HighAfter(a, high))
  {
    hide Forward;
    if a.Enter? {
      if s.threads[a.i].key in s.inflight {
        JoinForward(cfg, s, a.i, c, k, low, high);
      } else {
        LeadForward(cfg, s, a.i, c, k, low, high);
      }
    } else {
      OtherForward(cfg, s, a, c, k, low, high);
    }
  }

  /** What an action shows is the last outcome stored. */
  lemma ShowsLow(cfg: Config, s: State, a: Action, c: Class, k: string, low: int, high: int)
    requires Enabled(s, a) && Forward(s, c, k, low, high)
    ensures ShownBy(cfg, s, a, c, k) in {[], [LowAfter(s, a, c, k, low)]}
  {}

  /* Whole runs */

  /** Fetches end in order, the first not before `high`. */
  predicate FetchesFrom(acts: seq<Action>, high: int) {
    acts == [] || (high <= HighAfter(acts[0], high) && FetchesFrom(acts[1..], HighAfter(acts[0], high)))
  }

  lemma {:induction false} RunForward(cfg: Config, s: State, acts: seq<Action>, c: Class, k: string, low: int,
                                      high: int)
    requires Inv(s) && Forward(s, c, k, low, high)
    requires Legal(cfg, s, acts) && InTime(cfg, s, acts) && FetchesFrom(acts, high)
    ensures var shown := Shown(cfg, s, acts, c, k);
            Nondecreasing(shown) && forall i :: 0 <= i < |shown| ==> low <= shown[i]
    decreases |acts|
  {
    hide Step, Enabled, Forward, Inv;
    if acts != [] {
      var a := acts[0];
      var s', low' := Step(cfg, s, a), LowAfter(s, a, c, k, low);
      StepKeeps(cfg, s, a);
      StepForward(cfg, s, a, c, k, low, high);
      ShowsLow(cfg, s, a, c, k, low, high);
      RunForward(cfg, s', acts[1..], c, k, low', HighAfter(a, high));
      assert Shown(cfg, s, acts, c, k) == ShownBy(cfg, s, a, c, k) + Shown(cfg, s', acts[1..], c, k);
    }
  }

  /** A reading no fetch of the run precedes. */
  function Earliest(acts: seq<Action>): int {
    if acts == [] then 0
    else if acts[0].Fetch? && acts[0].at < Earliest(acts[1..]) then acts[0].at
    else Earliest(acts[1..])
  }

  lemma {:induction false} EarliestIs(acts: seq<Action>)
    ensures forall i :: 0 <= i < |acts| && acts[i].Fetch? ==> Earliest(acts) <= acts[i].at
  {
    if acts != [] {
      EarliestIs(acts[1..]);
      forall i | 0 <= i < |acts| && acts[i].Fetch? ensures Earliest(acts) <= acts[i].at {
        if i > 0 {
          assert acts[1..][i-1].Fetch?;
        }
      }
    }
  }

  lemma {:induction false} OrderedFetches(acts: seq<Action>, high: int)
    requires InOrder(acts) && forall i :: 0 <= i < |acts| && acts[i].Fetch? ==> high <= acts[i].at
    ensures FetchesFrom(acts, high)
  {
    if acts != [] {
      var rest, later := acts[1..], HighAfter(acts[0], high);
      forall i | 0 <= i < |rest| && rest[i].Fetch? ensures later <= rest[i].at {
        assert rest[i] == acts[i+1] && Reading(acts[i+1]).Some?;
        assert ReadsBy(acts[0], acts[i+1].at);
      }
      forall i, j | 0 <= i < j < |rest| && Reading(rest[j]).Some? ensures ReadsBy(rest[i], Reading(rest[j]).value) {
        assert rest[i] == acts[i+1] && rest[j] == acts[j+1];
      }
      OrderedFetches(rest, later);
    }
  }

  /** With an ordered clock, what is stored and served for a record never goes back
      in time, provided nobody starts a fetch of it while somebody is still to
      store the outcome of an earlier one. */
  lemma NeverGoesBack(cfg: Config, s: State, acts: seq<Action>, c: Class, k: string)
    requires Init(s) && Legal(cfg, s, acts) && InOrder(acts) && InTime(cfg, s, acts)
    ensures Nondecreasing(Shown(cfg, s, acts, c, k))
  {
    InitHolds(s);
    EarliestIs(acts);
    OrderedFetches(acts, Earliest(acts));
    hide Run, Legal, InTime, InOrder, Shown, Earliest, Inv;
    assert s.buckets.Of(c) == [];
    RunForward(cfg, s, acts, c, k, Earliest(acts), Earliest(acts));
  }

  /* ------------------------------------------------------------------ */
  /* What a lookup decides                                               */
  /* ------------------------------------------------------------------ */

  ghost predicate AllDistinct(s: State) {
    forall c: Class :: Distinct(LruHistory.Keys(s.buckets.Of(c)))
  }

  lemma {:induction false} RunDistinct(cfg: Config, s: State, acts: seq<Action>)
    requires AllDistinct(s) && Legal(cfg, s, acts)
    ensures AllDistinct(Run(cfg, s, acts))
    decreases |acts|
  {
    if acts != [] {
      forall c: Class ensures Distinct(LruHistory.Keys(Step(cfg, s, acts[0]).buckets.Of(c))) {
        BucketForward(cfg, s, acts[0], c, "");
      }
      RunDistinct(cfg, Step(cfg, s, acts[0]), acts[1..]);
    }
  }

  /** A caller that looks at reading `now` is served what is cached if and only if
      it is there and `now` is before its expiry plus the stale window; it starts a
      refresh exactly when that expiry has come; and it goes straight to
      singleflight exactly when nothing is cached. */
  lemma ServedIff(cfg: Config, s: State, i: nat)
    requires Enabled(s, LookUp(i))
    ensures var t, s' := s.threads[i], Step(cfg, s, LookUp(i));
            var e, now := Lookup(s.buckets.Of(t.cls), t.key), t.phase.now;
            var p := s'.threads[i].phase;
            && (p.Served? <==>
                  && e.Some?
                  && (now < e.value.expires || (0 < cfg.staleTtl && now < e.value.expires + cfg.staleTtl)))
            && (p.Served? ==> p == Served(e.value, now))
            && (p.Entering? <==> e.None?)
            && (p.Served? || p.Entering? || p.Removing?)
            && s'.threads[|s.threads|..] ==
                 (if p.Served? && e.value.expires <= now then [Thread(t.cls, t.key, true, Entering)] else [])
  {
    var s' := Step(cfg, s, LookUp(i));
    StepMoves(cfg, s, LookUp(i));
    assert |s'.threads| == |s.threads| ==> s'.threads[|s.threads|..] == [];
  }

  /** In every run, an entry found past its time is gone before its finder goes on
      to singleflight. */
  lemma ExpiredIsDropped(cfg: Config, s: State, acts: seq<Action>, i: nat)
    requires Init(s) && Legal(cfg, s, acts) && Enabled(Run(cfg, s, acts), Discard(i))
    ensures var r := Run(cfg, s, acts);
            var t, r' := r.threads[i], Step(cfg, r, Discard(i));
            && r'.threads == r.threads[i := t.(phase := Entering)] && Lookup(r'.buckets.Of(t.cls), t.key).None?
  {
    forall c: Class ensures Distinct(LruHistory.Keys(s.buckets.Of(c))) {
      assert s.buckets.Of(c) == [];
    }
    RunDistinct(cfg, s, acts);
    var r := Run(cfg, s, acts);
    var t := r.threads[i];
    LruHistory.ApplyLookup(r.buckets.Of(t.cls), LruHistory.Remove(t.key), cfg.size, t.key);
    BucketStep(cfg, r, Discard(i), t.cls);
  }
}
