/**
 Progress of the record cache: every run ends, and while the process is up some
 thread can move.  A failed cast in a background refresh ends the process, so the
 callers are sure to finish exactly when no such cast can happen.
 */
module RecordCacheProgress {
  import opened Common
  import opened Lru
  import opened RecordCache
  import opened Singleflight

  function Rank(p: Phase): nat {
    match p
    case Start => 9
    case Looking(_) => 8
    case Removing => 7
    case Entering => 6
    case Leading(_) => 5
    case Fetched(_) => 4
    case Signalled(_) => 3
    case Waiting(_) => 3
    case Returned(_, _) => 2
    case Storing(_, _, _) => 1
    case _ => 0
  }

  function Work(threads: seq<Thread>): nat {
    if threads == [] then 0 else Rank(threads[0].phase) + Work(threads[1..])
  }

  lemma {:induction false} WorkUpdate(threads: seq<Thread>, i: nat, t: Thread)
    requires i < |threads|
    ensures Work(threads[i := t]) == Work(threads) - Rank(threads[i].phase) + Rank(t.phase)
  {
    if i != 0 {
      WorkUpdate(threads[1..], i - 1, t);
      assert threads[i := t][1..] == threads[1..][i - 1 := t];
    } else {
      assert threads[i := t][1..] == threads[1..];
    }
  }

  lemma {:induction false} WorkAppend(threads: seq<Thread>, t: Thread)
    ensures Work(threads + [t]) == Work(threads) + Rank(t.phase)
  {
    if threads != [] {
      WorkAppend(threads[1..], t);
      assert (threads + [t])[1..] == threads[1..] + [t];
    }
  }

  /** A step moves its own thread, and a stale hit also starts one refresh. */
  predicate Shape(s: State, s': State, i: nat)
    requires i < |s.threads|
  {
    && |s.threads| <= |s'.threads| <= |s.threads| + 1
    && var moved := s.threads[i := s'.threads[i]];
    && (|s'.threads| == |s.threads| ==>
          && s'.threads == moved
          && Rank(s'.threads[i].phase) < Rank(s.threads[i].phase))
    && (|s'.threads| > |s.threads| ==>
          && s'.threads == moved + [s'.threads[|s.threads|]]
          && Rank(s'.threads[i].phase) + Rank(s'.threads[|s.threads|].phase) < Rank(s.threads[i].phase))
  }

  lemma StepShape(cfg: Config, s: State, a: Action)
    requires Enabled(s, a)
    ensures Shape(s, Step(cfg, s, a), a.i)
  {
    var s' := Step(cfg, s, a);
    if a.LookUp? {
      LookUpShape(cfg, s, a.i);
    } else {
      assert s'.threads == s.threads[a.i := s'.threads[a.i]];
      StepRank(cfg, s, a);
    }
  }

  lemma LookUpShape(cfg: Config, s: State, i: nat)
    requires Enabled(s, LookUp(i))
    ensures Shape(s, DoLookUp(cfg, s, i), i)
  {
    LookUpCases(cfg, s, i);
    hide DoLookUp;
    var ts, t := DoLookUp(cfg, s, i).threads, s.threads[i];
    var p: Phase :| (p.Entering? || p.Removing? || p.Served?) &&
      var moved := s.threads[i := t.(phase := p)];
      ts == moved || (p.Served? && ts == moved + [Thread(t.cls, t.key, true, Entering)]);
    assert ts[i] == t.(phase := p);
    if |ts| == |s.threads| {
      assert ts == s.threads[i := ts[i]];
    } else {
      assert ts[|s.threads|] == Thread(t.cls, t.key, true, Entering);
    }
  }

  /** A lookup moves its thread on, and after a stale hit there is one more. */
  lemma LookUpCases(cfg: Config, s: State, i: nat)
    requires Enabled(s, LookUp(i))
    ensures var ts, t := DoLookUp(cfg, s, i).threads, s.threads[i];
            exists p: Phase :: (p.Entering? || p.Removing? || p.Served?) &&
              var moved := s.threads[i := t.(phase := p)];
              ts == moved || (p.Served? && ts == moved + [Thread(t.cls, t.key, true, Entering)])
  {
    var ts, t := DoLookUp(cfg, s, i).threads, s.threads[i];
    var p := ts[i].phase;
    assert ts[i] == t.(phase := p);
  }

  lemma StepRank(cfg: Config, s: State, a: Action)
    requires Enabled(s, a) && !a.LookUp?
    ensures var s' := Step(cfg, s, a); a.i < |s'.threads| && Rank(s'.threads[a.i].phase) < Rank(s.threads[a.i].phase)
  {}

  /** Every action of every thread, background refreshes included, uses up
      work: a stale hit pays for the refresh it starts. */
  lemma StepWorks(cfg: Config, s: State, a: Action)
    requires Enabled(s, a)
    ensures Work(Step(cfg, s, a).threads) < Work(s.threads)
  {
    StepShape(cfg, s, a);
    var ts := Step(cfg, s, a).threads;
    WorkUpdate(s.threads, a.i, ts[a.i]);
    if |ts| > |s.threads| {
      WorkAppend(s.threads[a.i := ts[a.i]], ts[|s.threads|]);
    }
  }

  /** No run of finitely many callers is longer than their initial work. */
  lemma {:induction false} RunsEnd(cfg: Config, s: State, acts: seq<Action>)
    requires Legal(cfg, s, acts)
    ensures |acts| + Work(Run(cfg, s, acts).threads) <= Work(s.threads)
    decreases |acts|
  {
    if acts != [] {
      StepWorks(cfg, s, acts[0]);
      RunsEnd(cfg, Step(cfg, s, acts[0]), acts[1..]);
    }
  }

  /* ------------------------------------------------------------------ */
  /* While the process is up                                             */
  /* ------------------------------------------------------------------ */

  predicate Fallen(t: Thread) {
    t.refresh && t.phase.Crashed?
  }

  /** The process is down exactly when the cast of a refresh failed. */
  predicate DownOk(s: State) {
    s.down <==> exists i :: 0 <= i < |s.threads| && Fallen(s.threads[i])
  }

  lemma StepDown(cfg: Config, s: State, a: Action)
    requires Enabled(s, a) && DownOk(s)
    ensures DownOk(Step(cfg, s, a))
  {
    var s' := Step(cfg, s, a);
    StepMoves(cfg, s, a);
    assert s'.down <==> Fallen(s'.threads[a.i]);
    forall i | 0 <= i < |s'.threads| && i != a.i ensures !Fallen(s'.threads[i]) {
      assert i < |s.threads| ==> !Fallen(s.threads[i]);
    }
  }

  lemma {:induction false} RunDown(cfg: Config, s: State, acts: seq<Action>)
    requires Legal(cfg, s, acts) && DownOk(s)
    ensures DownOk(Run(cfg, s, acts))
    decreases |acts|
  {
    if acts != [] {
      StepDown(cfg, s, acts[0]);
      RunDown(cfg, Step(cfg, s, acts[0]), acts[1..]);
    }
  }

  lemma CanMove(r: State, i: nat)
    requires Inv(r) && !r.down && i < |r.threads| && !r.threads[i].phase.Finished()
    ensures exists a :: Enabled(r, a)
  {
    var p := r.threads[i].phase;
    assert ThreadOk(r, r.threads[i], i);
    if p.Waiting? {
      assert CallOk(r, p.call);
      var c := r.calls[p.call];
      if c.done {
        assert Enabled(r, Wake(i));
      } else {
        LeaderCanMove(r, c.leader);
      }
    } else if p.Leads() {
      LeaderCanMove(r, i);
    } else {
      var a := match p
        case Start => ReadClock(i, 0)
        case Looking(_) => LookUp(i)
        case Removing => Discard(i)
        case Entering => Enter(i)
        case Returned(_, _) => Stamp(i, 0)
        case _ => Put(i);
      assert Enabled(r, a);
    }
  }

  lemma LeaderCanMove(r: State, l: nat)
    requires Inv(r) && !r.down && l < |r.threads| && r.threads[l].phase.Leads()
    ensures exists a :: Enabled(r, a)
  {
    assert ThreadOk(r, r.threads[l], l);
    var a := if r.threads[l].phase.Leading? then Fetch(l, None, None, 0)
             else if r.threads[l].phase.Fetched? then Signal(l) else Delete(l);
    assert Enabled(r, a);
  }

  /** In every reachable state with an unfinished thread some action is enabled
      if and only if the process is up, which it is if and only if no cast of a
      refresh has failed: a waiter's call always has a leader that can move. */
  lemma SomeoneCanMoveIff(cfg: Config, s: State, acts: seq<Action>, i: nat)
    requires Init(s) && Legal(cfg, s, acts)
    requires i < |Run(cfg, s, acts).threads| && !Run(cfg, s, acts).threads[i].phase.Finished()
    ensures var r := Run(cfg, s, acts);
            (exists a :: Enabled(r, a)) <==> forall j :: 0 <= j < |r.threads| ==> !Fallen(r.threads[j])
  {
    ReachableInv(cfg, s, acts);
    RunDown(cfg, s, acts);
    var r := Run(cfg, s, acts);
    if !r.down {
      CanMove(r, i);
    }
  }

  predicate AllFinished(s: State) {
    forall i :: 0 <= i < |s.threads| ==> s.threads[i].phase.Finished()
  }

  ghost predicate Maximal(cfg: Config, s: State, acts: seq<Action>) {
    Legal(cfg, s, acts) && forall a :: !Enabled(Run(cfg, s, acts), a)
  }

  lemma MaximalEnds(cfg: Config, s: State, acts: seq<Action>)
    requires Init(s) && Maximal(cfg, s, acts)
    ensures Inv(Run(cfg, s, acts)) && DownOk(Run(cfg, s, acts))
    ensures Run(cfg, s, acts).down || AllFinished(Run(cfg, s, acts))
  {
    ReachableInv(cfg, s, acts);
    RunDown(cfg, s, acts);
    var r := Run(cfg, s, acts);
    if !r.down {
      forall i | 0 <= i < |r.threads| ensures r.threads[i].phase.Finished() {
        if !r.threads[i].phase.Finished() {
          CanMove(r, i);
        }
      }
    }
  }

  /** A run that cannot be extended ends with the process down if and only if some
      refresh entered a call of another class; otherwise, and in particular when
      nobody did, every thread has finished. */
  lemma MaximalRunFinishesAll(cfg: Config, s: State, acts: seq<Action>)
    requires Init(s) && Maximal(cfg, s, acts)
    ensures var r := Run(cfg, s, acts);
            && (r.down <==> !Unmixed(cfg, s, acts, true))
            && (Unmixed(cfg, s, acts, true) ==> AllFinished(r))
            && (Unmixed(cfg, s, acts, false) ==> AllFinished(r))
  {
    var r := Run(cfg, s, acts);
    InitHolds(s);
    MaximalEnds(cfg, s, acts);
    if Unmixed(cfg, s, acts, true) {
      RunJoinsOwnClass(cfg, s, acts, true);
      forall i | 0 <= i < |r.threads| ensures !Fallen(r.threads[i]) {
        assert ThreadOk(r, r.threads[i], i);
      }
    } else {
      var i := MixedLeavesForeignCall(cfg, s, acts, true);
      assert ThreadOk(r, r.threads[i], i);
      assert !r.down ==> Fallen(r.threads[i]);
    }
    if Unmixed(cfg, s, acts, false) {
      UnmixedRefreshes(cfg, s, acts);
    }
  }

  lemma {:induction false} UnmixedRefreshes(cfg: Config, s: State, acts: seq<Action>)
    requires Legal(cfg, s, acts) && Unmixed(cfg, s, acts, false)
    ensures Unmixed(cfg, s, acts, true)
    decreases |acts|
  {
    if acts != [] {
      UnmixedRefreshes(cfg, Step(cfg, s, acts[0]), acts[1..]);
    }
  }

  /** Some cast fails in a maximal run if and only if some entry is foreign. */
  lemma SomeCastFailsIff(cfg: Config, s: State, acts: seq<Action>)
    requires Init(s) && Maximal(cfg, s, acts)
    ensures var r := Run(cfg, s, acts);
            (exists i :: 0 <= i < |r.threads| && r.threads[i].phase.Crashed?) <==> !Unmixed(cfg, s, acts, false)
  {
    var r := Run(cfg, s, acts);
    InitHolds(s);
    MaximalEnds(cfg, s, acts);
    if Unmixed(cfg, s, acts, false) {
      forall i | 0 <= i < |r.threads| ensures !r.threads[i].phase.Crashed? {
        CastNeverFails(cfg, s, acts, i);
      }
    } else if r.down {
      var i :| 0 <= i < |r.threads| && Fallen(r.threads[i]);
      assert r.threads[i].phase.Crashed?;
    } else {
      var i := MixedLeavesForeignCall(cfg, s, acts, false);
      assert ThreadOk(r, r.threads[i], i);
      assert r.threads[i].phase.Crashed?;
    }
  }

  /* ------------------------------------------------------------------ */
  /* Where refreshes come from                                           */
  /* ------------------------------------------------------------------ */

  /** Two callers of one class and one of another share a key. */
  predicate Rivals(s: State, x: nat, y: nat, z: nat) {
    && x < |s.threads| && y < |s.threads| && z < |s.threads| && x != y
    && s.threads[x].key == s.threads[y].key == s.threads[z].key
    && s.threads[x].cls == s.threads[y].cls != s.threads[z].cls
  }

  predicate CallerOf(s: State, n: nat, i: int, c: Class, k: string) {
    0 <= i < n && i < |s.threads| && s.threads[i].cls == c && s.threads[i].key == k
  }

  /** One of the first n threads loaded key k of class c. */
  ghost predicate Loader(s: State, n: nat, c: Class, k: string) {
    exists x :: CallerOf(s, n, x, c, k) && s.threads[x].phase.Loaded?
  }

  /** One of the first n threads was served key k of class c from the cache. */
  ghost predicate Reader(s: State, n: nat, c: Class, k: string) {
    exists y :: CallerOf(s, n, y, c, k) && s.threads[y].phase.Served?
  }

  ghost predicate Origin(cfg: Config, s: State, n: nat, i: nat)
    requires i < |s.threads|
  {
    var t := s.threads[i];
    && (t.refresh <==> i >= n)
    && (t.refresh ==>
          && (t.phase.Entering? || t.phase.Joined().Some?) && cfg.staleTtl > 0
          && Loader(s, n, t.cls, t.key) && Reader(s, n, t.cls, t.key))
  }

  ghost predicate Stocked(s: State, n: nat, c: Class, b: Bucket) {
    forall e :: e in b ==> Loader(s, n, c, e.key)
  }

  /** Every refresh goes back to a caller that loaded its key and another that
      was served it; every entry to a caller that loaded it. */
  ghost predicate Origins(cfg: Config, s: State, n: nat) {
    && (forall i :: 0 <= i < |s.threads| ==> Origin(cfg, s, n, i))
    && (forall c: Class :: Stocked(s, n, c, s.buckets.Of(c)))
  }

  lemma FinishedStay(cfg: Config, s: State, a: Action, n: nat, c: Class, k: string)
    requires Enabled(s, a)
    ensures Loader(s, n, c, k) ==> Loader(Step(cfg, s, a), n, c, k)
    ensures Reader(s, n, c, k) ==> Reader(Step(cfg, s, a), n, c, k)
  {
    var s' := Step(cfg, s, a);
    StepMoves(cfg, s, a);
    assert !s.threads[a.i].phase.Finished();
    if Loader(s, n, c, k) {
      var x :| CallerOf(s, n, x, c, k) && s.threads[x].phase.Loaded?;
      assert CallerOf(s', n, x, c, k) && s'.threads[x].phase.Loaded?;
    }
    if Reader(s, n, c, k) {
      var y :| CallerOf(s, n, y, c, k) && s.threads[y].phase.Served?;
      assert CallerOf(s', n, y, c, k) && s'.threads[y].phase.Served?;
    }
  }

  lemma BucketsStayStocked(cfg: Config, s: State, a: Action, n: nat)
    requires Enabled(s, a) && Origins(cfg, s, n) && n <= |s.threads|
    ensures var s' := Step(cfg, s, a); forall c: Class :: Stocked(s', n, c, s'.buckets.Of(c))
  {
    var s' := Step(cfg, s, a);
    var t := s.threads[a.i];
    var b := s.buckets.Of(t.cls);
    DropSubset(b, t.key);
    TouchSubset(b, t.key);
    if a.Put? {
      StoreSubset(b, t.key, Cached(t.phase.out, t.phase.expires), cfg.size);
      assert Origin(cfg, s, n, a.i);
      if a.i < n {
        assert CallerOf(s', n, a.i, t.cls, t.key) && s'.threads[a.i].phase.Loaded?;
      }
      FinishedStay(cfg, s, a, n, t.cls, t.key);
    }
    forall c: Class ensures Stocked(s', n, c, s'.buckets.Of(c)) {
      assert Stocked(s, n, c, s.buckets.Of(c));
      forall e | e in s'.buckets.Of(c) ensures Loader(s', n, c, e.key) {
        FinishedStay(cfg, s, a, n, c, e.key);
      }
    }
  }

  lemma StartedByReader(cfg: Config, s: State, i: nat, n: nat)
    requires Enabled(s, LookUp(i)) && Origins(cfg, s, n) && n <= |s.threads|
    ensures var s' := Step(cfg, s, LookUp(i));
            |s'.threads| > |s.threads| ==> Origin(cfg, s', n, |s.threads|)
  {
    var s' := Step(cfg, s, LookUp(i));
    var t := s.threads[i];
    assert Origin(cfg, s, n, i);
    LookupMember(s.buckets.Of(t.cls), t.key);
    assert Stocked(s, n, t.cls, s.buckets.Of(t.cls));
    FinishedStay(cfg, s, LookUp(i), n, t.cls, t.key);
    if |s'.threads| > |s.threads| {
      assert CallerOf(s', n, i, t.cls, t.key) && s'.threads[i].phase.Served?;
    }
  }

  lemma OnlyLookUpStarts(cfg: Config, s: State, a: Action)
    requires Enabled(s, a)
    ensures |Step(cfg, s, a).threads| > |s.threads| ==> a.LookUp? && |Step(cfg, s, a).threads| == |s.threads| + 1
  {}

  lemma OriginKept(cfg: Config, s: State, a: Action, n: nat, i: nat)
    requires Enabled(s, a) && i < |s.threads| && Origin(cfg, s, n, i)
    ensures i < |Step(cfg, s, a).threads| && Origin(cfg, Step(cfg, s, a), n, i)
  {
    StepMoves(cfg, s, a);
    FinishedStay(cfg, s, a, n, s.threads[i].cls, s.threads[i].key);
  }

  lemma StepOrigins(cfg: Config, s: State, a: Action, n: nat)
    requires Enabled(s, a) && Origins(cfg, s, n) && n <= |s.threads|
    ensures Origins(cfg, Step(cfg, s, a), n)
  {
    hide Step, Origin, Stocked;
    var s' := Step(cfg, s, a);
    OnlyLookUpStarts(cfg, s, a);
    BucketsStayStocked(cfg, s, a, n);
    forall i | 0 <= i < |s'.threads| ensures Origin(cfg, s', n, i) {
      if i < |s.threads| {
        OriginKept(cfg, s, a, n, i);
      } else {
        StartedByReader(cfg, s, a.i, n);
      }
    }
  }

  lemma InitOrigins(cfg: Config, s: State)
    requires Init(s)
    ensures Origins(cfg, s, |s.threads|)
  {
    forall c: Class ensures s.buckets.Of(c) == [] {}
  }

  /** A refresh that enters a foreign call has three callers behind it. */
  lemma ForeignRefreshHasRivals(cfg: Config, s: State, i: nat, n: nat) returns (x: nat, y: nat, z: nat)
    requires Origins(cfg, s, n) && n <= |s.threads| && i < |s.threads| && s.threads[i].refresh
    requires ForeignEntry(s, Enter(i))
    ensures x < n && y < n && z < n && Rivals(s, x, y, z) && cfg.staleTtl > 0
  {
    var t := s.threads[i];
    var j :| 0 <= j < |s.threads| && s.threads[j].phase.Leads()
      && s.threads[j].key == t.key && s.threads[j].cls != t.cls;
    assert Origin(cfg, s, n, i) && Origin(cfg, s, n, j);
    x :| CallerOf(s, n, x, t.cls, t.key) && s.threads[x].phase.Loaded?;
    y :| CallerOf(s, n, y, t.cls, t.key) && s.threads[y].phase.Served?;
    if j < n {
      z := j;
    } else {
      z :| CallerOf(s, n, z, s.threads[j].cls, t.key) && s.threads[z].phase.Served?;
    }
  }

  lemma {:induction false} MixedHasRivals(cfg: Config, s: State, acts: seq<Action>, n: nat)
    returns (x: nat, y: nat, z: nat)
    requires Origins(cfg, s, n) && n <= |s.threads| && Legal(cfg, s, acts) && !Unmixed(cfg, s, acts, true)
    ensures x < n && y < n && z < n && Rivals(s, x, y, z) && cfg.staleTtl > 0
    decreases |acts|
  {
    var a := acts[0];
    StepMoves(cfg, s, a);
    if ForeignEntry(s, a) && s.threads[a.i].refresh {
      x, y, z := ForeignRefreshHasRivals(cfg, s, a.i, n);
    } else {
      StepOrigins(cfg, s, a, n);
      x, y, z := MixedHasRivals(cfg, Step(cfg, s, a), acts[1..], n);
    }
  }
}
