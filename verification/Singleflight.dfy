/**
 Safety of the singleflight table over whole runs: one fetch per key, the
 leader deletes its own call, joiners return the leader's outcome, and the exact
 condition under which the cast after `do` succeeds.
 */
module Singleflight {
  import opened Common
  import opened RecordCache

  lemma InitHolds(s: State)
    requires Init(s)
    ensures Inv(s)
  {
    forall i | 0 <= i < |s.threads| ensures ThreadOk(s, s.threads[i], i) {
      assert s.threads[i].phase == Start;
    }
    forall c: Class ensures BucketOk(s.buckets.Of(c), c) {
      assert s.buckets.Of(c) == [];
    }
  }

  lemma ReachableInv(cfg: Config, s: State, acts: seq<Action>)
    requires Init(s) && Legal(cfg, s, acts)
    ensures Inv(Run(cfg, s, acts))
  {
    InitHolds(s);
    RunKeeps(cfg, s, acts);
  }

  /** In every interleaving, at most one thread leads a key: so at most one
      backend fetch per key is in progress. */
  lemma OneFetchPerKey(cfg: Config, s: State, acts: seq<Action>, i: nat, j: nat)
    requires Init(s) && Legal(cfg, s, acts)
    requires var r := Run(cfg, s, acts);
             && i < |r.threads| && j < |r.threads|
             && r.threads[i].phase.Leads() && r.threads[j].phase.Leads()
             && r.threads[i].key == r.threads[j].key
    ensures i == j
  {
    ReachableInv(cfg, s, acts);
    var r := Run(cfg, s, acts);
    assert ThreadOk(r, r.threads[i], i) && ThreadOk(r, r.threads[j], j);
  }

  /** The entry a leader deletes is the one for its own call, and no other
      key's entry changes. */
  lemma DeleteRemovesOwnCall(cfg: Config, s: State, acts: seq<Action>, i: nat)
    requires Init(s) && Legal(cfg, s, acts) && Enabled(Run(cfg, s, acts), Delete(i))
    ensures var r := Run(cfg, s, acts);
            var t := r.threads[i];
            && t.key in r.inflight && r.inflight[t.key] == t.phase.call
            && r.calls[t.phase.call].leader == i
            && var r' := Step(cfg, r, Delete(i));
            && t.key !in r'.inflight
            && (forall k :: k != t.key && k in r.inflight ==> k in r'.inflight && r'.inflight[k] == r.inflight[k])
  {
    ReachableInv(cfg, s, acts);
    var r := Run(cfg, s, acts);
    assert ThreadOk(r, r.threads[i], i);
  }

  /* ------------------------------------------------------------------ */
  /* What a step can never change                                        */
  /* ------------------------------------------------------------------ */

  predicate SameCall(a: Call, b: Call) {
    && a.key == b.key && a.cls == b.cls && a.leader == b.leader
    && (a.result.Some? ==> b.result == a.result)
  }

  ghost predicate Evolves(s: State, s': State) {
    && |s.threads| <= |s'.threads| && |s.calls| <= |s'.calls|
    && (forall i :: 0 <= i < |s.threads| ==>
          && s'.threads[i].cls == s.threads[i].cls && s'.threads[i].key == s.threads[i].key
          && s'.threads[i].refresh == s.threads[i].refresh
          && (s.threads[i].phase.Joined().Some? ==>
                s'.threads[i].phase.Joined() == s.threads[i].phase.Joined()))
    && (forall c :: 0 <= c < |s.calls| ==> SameCall(s.calls[c], s'.calls[c]))
  }

  predicate Moves(s: State, s': State, i: nat, enters: bool)
    requires i < |s.threads|
  {
    && OnlyMoves(s, s', i)
    && s'.threads[i].cls == s.threads[i].cls && s'.threads[i].key == s.threads[i].key
    && s'.threads[i].refresh == s.threads[i].refresh
    && (s.threads[i].phase.Joined().Some? ==> s'.threads[i].phase.Joined() == s.threads[i].phase.Joined())
    && (s.threads[i].phase.Joined().None? && !enters ==> s'.threads[i].phase.Joined().None?)
    && forall j :: |s.threads| <= j < |s'.threads| ==> s'.threads[j].phase == Entering
  }

  lemma LookUpMoves(cfg: Config, s: State, i: nat)
    requires Enabled(s, LookUp(i))
    ensures Moves(s, DoLookUp(cfg, s, i), i, false)
  {}

  lemma StepMoves(cfg: Config, s: State, a: Action)
    requires Enabled(s, a)
    ensures Moves(s, Step(cfg, s, a), a.i, a.Enter?)
  {
    if a.LookUp? {
      LookUpMoves(cfg, s, a.i);
    }
  }

  lemma StepCalls(cfg: Config, s: State, a: Action)
    requires Inv(s) && Enabled(s, a)
    ensures var s' := Step(cfg, s, a);
            |s.calls| <= |s'.calls| && forall c :: 0 <= c < |s.calls| ==> SameCall(s.calls[c], s'.calls[c])
  {
    assert ThreadOk(s, s.threads[a.i], a.i);
  }

  lemma StepEvolves(cfg: Config, s: State, a: Action)
    requires Inv(s) && Enabled(s, a)
    ensures Evolves(s, Step(cfg, s, a))
  {
    StepMoves(cfg, s, a);
    StepCalls(cfg, s, a);
  }

  lemma {:induction false} RunEvolves(cfg: Config, s: State, acts: seq<Action>)
    requires Inv(s) && Legal(cfg, s, acts)
    ensures Evolves(s, Run(cfg, s, acts))
    decreases |acts|
  {
    if acts != [] {
      var m := Step(cfg, s, acts[0]);
      StepEvolves(cfg, s, acts[0]);
      StepKeeps(cfg, s, acts[0]);
      RunEvolves(cfg, m, acts[1..]);
      var r := Run(cfg, s, acts);
      forall c | 0 <= c < |s.calls| ensures SameCall(s.calls[c], r.calls[c]) {
        assert SameCall(s.calls[c], m.calls[c]) && SameCall(m.calls[c], r.calls[c]);
      }
    }
  }

  /** Whatever a leader's fetch returned is what every caller that shares its
      call has once it is out of `do`: same value, same error. */
  lemma JoinersReturnLeadersOutcome(cfg: Config, s: State, a: Action, acts: seq<Action>, j: nat)
    requires Inv(s) && a.Fetch? && Enabled(s, a)
    requires Legal(cfg, Step(cfg, s, a), acts)
    requires var r := Run(cfg, Step(cfg, s, a), acts);
             && j < |r.threads|
             && (var p := r.threads[j].phase; p.Returned? || p.Storing? || p.Loaded?)
             && r.threads[j].phase.call == s.threads[a.i].phase.call
    ensures var leader := s.threads[a.i];
            Run(cfg, Step(cfg, s, a), acts).threads[j].phase.out
              == Outcome(leader.cls, leader.key, a.val, a.err, a.at)
  {
    var m := Step(cfg, s, a);
    var c := s.threads[a.i].phase.call;
    StepKeeps(cfg, s, a);
    RunKeeps(cfg, m, acts);
    RunEvolves(cfg, m, acts);
    var r := Run(cfg, m, acts);
    assert SameCall(m.calls[c], r.calls[c]);
    assert ThreadOk(r, r.threads[j], j);
  }

  /** The exact condition for the cast after `do`: a caller that enters
      singleflight ends in the failed type assertion if and only if the call it
      found in flight under its key was started for another object class. */
  lemma CastFailsIffForeignCall(cfg: Config, s: State, i: nat, acts: seq<Action>)
    requires Inv(s) && Enabled(s, Enter(i)) && Legal(cfg, Step(cfg, s, Enter(i)), acts)
    requires var r := Run(cfg, Step(cfg, s, Enter(i)), acts);
             i < |r.threads| && r.threads[i].phase.Finished()
    ensures var t := s.threads[i];
            Run(cfg, Step(cfg, s, Enter(i)), acts).threads[i].phase.Crashed? <==>
              t.key in s.inflight && s.calls[s.inflight[t.key]].cls != t.cls
  {
    var m := Step(cfg, s, Enter(i));
    var t := s.threads[i];
    if t.key in s.inflight {
      assert FlightOk(s, t.key);
    }
    StepKeeps(cfg, s, Enter(i));
    RunKeeps(cfg, m, acts);
    RunEvolves(cfg, m, acts);
    var r := Run(cfg, m, acts);
    var c := m.threads[i].phase.call;
    assert r.threads[i].phase.Joined() == Some(c);
    assert SameCall(m.calls[c], r.calls[c]);
    assert ThreadOk(r, r.threads[i], i);
  }

  /** Every finished caller that did not crash holds a record of its own class
      and key. */
  lemma FinishedHoldsOwnRecord(cfg: Config, s: State, acts: seq<Action>, i: nat)
    requires Init(s) && Legal(cfg, s, acts) && i < |Run(cfg, s, acts).threads|
    ensures var t := Run(cfg, s, acts).threads[i];
            && (t.phase.Loaded? ==> t.phase.out.cls == t.cls && t.phase.out.key == t.key)
            && (t.phase.Served? ==> t.phase.entry.out.cls == t.cls && t.phase.entry.out.key == t.key)
  {
    ReachableInv(cfg, s, acts);
    var r := Run(cfg, s, acts);
    assert ThreadOk(r, r.threads[i], i);
    if r.threads[i].phase.Loaded? {
      assert CallOk(r, r.threads[i].phase.call);
    }
  }

  /* ------------------------------------------------------------------ */
  /* Keys in flight at the same time for different classes differ        */
  /* ------------------------------------------------------------------ */

  /** A caller enters `do` while a thread of another class leads its key. */
  predicate ForeignEntry(s: State, a: Action) {
    a.Enter? && a.i < |s.threads| &&
    exists j :: 0 <= j < |s.threads| && s.threads[j].phase.Leads()
      && s.threads[j].key == s.threads[a.i].key && s.threads[j].cls != s.threads[a.i].cls
  }

  /** No entry of the run, or none of a background refresh, is foreign. */
  predicate Unmixed(cfg: Config, s: State, acts: seq<Action>, refreshesOnly: bool)
    requires Legal(cfg, s, acts)
    decreases |acts|
  {
    acts == [] ||
    (&& !(ForeignEntry(s, acts[0]) && (refreshesOnly ==> s.threads[acts[0].i].refresh))
     && Unmixed(cfg, Step(cfg, s, acts[0]), acts[1..], refreshesOnly))
  }

  /** The call a thread takes part in was started for the thread's class. */
  predicate OwnCall(s: State, t: Thread) {
    t.phase.Joined().Some? ==> t.phase.call < |s.calls| && s.calls[t.phase.call].cls == t.cls
  }

  predicate OwnCalls(s: State, refreshesOnly: bool) {
    forall i :: 0 <= i < |s.threads| && (refreshesOnly ==> s.threads[i].refresh) ==> OwnCall(s, s.threads[i])
  }

  /** A foreign entry is one that finds a call of another class in flight. */
  lemma ForeignEntryFindsForeignCall(s: State, i: nat)
    requires Inv(s) && Enabled(s, Enter(i))
    ensures var t := s.threads[i];
            && (t.key in s.inflight ==> s.inflight[t.key] < |s.calls|)
            && (ForeignEntry(s, Enter(i)) <==> t.key in s.inflight && s.calls[s.inflight[t.key]].cls != t.cls)
  {
    var t := s.threads[i];
    if t.key in s.inflight {
      assert FlightOk(s, t.key);
      var l := s.calls[s.inflight[t.key]].leader;
      assert ThreadOk(s, s.threads[l], l);
    }
    forall j | 0 <= j < |s.threads| && s.threads[j].phase.Leads() && s.threads[j].key == t.key
      ensures t.key in s.inflight && s.inflight[t.key] == s.threads[j].phase.call
      ensures s.calls[s.threads[j].phase.call].cls == s.threads[j].cls
    {
      assert ThreadOk(s, s.threads[j], j);
    }
  }

  lemma MoverJoinsOwnClass(cfg: Config, s: State, a: Action)
    requires Inv(s) && Enabled(s, a) && OwnCall(s, s.threads[a.i]) && !ForeignEntry(s, a)
    ensures var s' := Step(cfg, s, a); a.i < |s'.threads| && OwnCall(s', s'.threads[a.i])
  {
    StepMoves(cfg, s, a);
    StepCalls(cfg, s, a);
    var t := s.threads[a.i];
    if a.Enter? {
      ForeignEntryFindsForeignCall(s, a.i);
    } else if t.phase.Joined().Some? {
      assert SameCall(s.calls[t.phase.call], Step(cfg, s, a).calls[t.phase.call]);
    }
  }

  lemma OthersKeepOwnCall(cfg: Config, s: State, a: Action, s': State, refreshesOnly: bool)
    requires Inv(s) && OwnCalls(s, refreshesOnly) && Enabled(s, a) && s' == Step(cfg, s, a)
    ensures forall i :: 0 <= i < |s'.threads| && i != a.i && (refreshesOnly ==> s'.threads[i].refresh) ==>
              OwnCall(s', s'.threads[i])
  {
    StepMoves(cfg, s, a);
    StepCalls(cfg, s, a);
    forall i | 0 <= i < |s'.threads| && i != a.i && (refreshesOnly ==> s'.threads[i].refresh)
      ensures OwnCall(s', s'.threads[i])
    {
      if i < |s.threads| {
        assert OwnCall(s, s.threads[i]);
        OwnCallKept(s, s', s.threads[i]);
      }
    }
  }

  lemma OwnCallKept(s: State, s': State, t: Thread)
    requires OwnCall(s, t)
    requires |s.calls| <= |s'.calls| && forall c :: 0 <= c < |s.calls| ==> SameCall(s.calls[c], s'.calls[c])
    ensures OwnCall(s', t)
  {
    if t.phase.Joined().Some? {
      assert SameCall(s.calls[t.phase.call], s'.calls[t.phase.call]);
    }
  }

  lemma {:induction false} RunJoinsOwnClass(cfg: Config, s: State, acts: seq<Action>, refreshesOnly: bool)
    requires Inv(s) && OwnCalls(s, refreshesOnly) && Legal(cfg, s, acts) && Unmixed(cfg, s, acts, refreshesOnly)
    ensures OwnCalls(Run(cfg, s, acts), refreshesOnly)
    decreases |acts|
  {
    if acts != [] {
      var a := acts[0];
      StepMoves(cfg, s, a);
      if refreshesOnly ==> s.threads[a.i].refresh {
        MoverJoinsOwnClass(cfg, s, a);
      }
      OthersKeepOwnCall(cfg, s, a, Step(cfg, s, a), refreshesOnly);
      StepKeeps(cfg, s, a);
      RunJoinsOwnClass(cfg, Step(cfg, s, a), acts[1..], refreshesOnly);
    }
  }

  /** No cast fails in a run without a foreign entry. */
  lemma CastNeverFails(cfg: Config, s: State, acts: seq<Action>, i: nat)
    requires Init(s) && Legal(cfg, s, acts) && Unmixed(cfg, s, acts, false)
    requires i < |Run(cfg, s, acts).threads|
    ensures !Run(cfg, s, acts).threads[i].phase.Crashed?
  {
    InitHolds(s);
    ReachableInv(cfg, s, acts);
    RunJoinsOwnClass(cfg, s, acts, false);
    var r := Run(cfg, s, acts);
    assert ThreadOk(r, r.threads[i], i);
  }

  /** The thread of a foreign entry keeps its foreign call to the end of the run. */
  lemma {:induction false} MixedLeavesForeignCall(cfg: Config, s: State, acts: seq<Action>, refreshesOnly: bool)
    returns (i: nat)
    requires Inv(s) && Legal(cfg, s, acts) && !Unmixed(cfg, s, acts, refreshesOnly)
    ensures var r := Run(cfg, s, acts);
            && i < |r.threads| && (refreshesOnly ==> r.threads[i].refresh)
            && var t := r.threads[i];
            && t.phase.Joined().Some? && t.phase.call < |r.calls| && r.calls[t.phase.call].cls != t.cls
    decreases |acts|
  {
    var a := acts[0];
    var m := Step(cfg, s, a);
    StepKeeps(cfg, s, a);
    if ForeignEntry(s, a) && (refreshesOnly ==> s.threads[a.i].refresh) {
      i := a.i;
      ForeignEntryFindsForeignCall(s, i);
      RunEvolves(cfg, m, acts[1..]);
      var c := m.threads[i].phase.call;
      assert SameCall(m.calls[c], Run(cfg, s, acts).calls[c]);
    } else {
      i := MixedLeavesForeignCall(cfg, m, acts[1..], refreshesOnly);
    }
  }
}
