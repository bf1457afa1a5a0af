/**
 Building runs of the record cache step by step.  A scene says where the threads
 that have moved are and what they have left behind; all other threads are as in
 the state the run began in.  Each lemma below takes one action.
 */
module RecordCacheScenes {
  import opened Common
  import opened Lru
  import opened RecordCache
  import opened RecordCacheRuns

  /* ------------------------------------------------------------------ */
  /* Reachable states                                                    */
  /* ------------------------------------------------------------------ */

  /** The clock reading an action takes. */
  function Reading(a: Action): Option<int> {
    match a
    case ReadClock(_, now) => Some(now)
    case Fetch(_, _, _, at) => Some(at)
    case Stamp(_, now) => Some(now)
    case _ => None
  }

  predicate ReadsBy(a: Action, now: int) {
    Reading(a).Some? ==> Reading(a).value <= now
  }

  /** The clock does not run backwards. */
  predicate InOrder(acts: seq<Action>) {
    forall i, j :: 0 <= i < j < |acts| && Reading(acts[j]).Some? ==> ReadsBy(acts[i], Reading(acts[j]).value)
  }

  /** A run from s to r with an ordered clock, none of its readings after `now`,
      in which every outcome is stamped at most `delay` after its fetch. */
  ghost predicate RunTo(cfg: Config, s: State, acts: seq<Action>, r: State, delay: int, now: int) {
    && Legal(cfg, s, acts) && Run(cfg, s, acts) == r && Prompt(cfg, s, acts, delay)
    && InOrder(acts) && forall i :: 0 <= i < |acts| ==> ReadsBy(acts[i], now)
  }

  ghost predicate Reaches(cfg: Config, s: State, r: State, delay: int, now: int) {
    exists acts :: RunTo(cfg, s, acts, r, delay, now)
  }

  /** Appending one enabled action to a legal run. */
  lemma {:induction false} Extend(cfg: Config, s: State, acts: seq<Action>, a: Action, delay: int)
    requires Legal(cfg, s, acts) && Enabled(Run(cfg, s, acts), a)
    ensures Legal(cfg, s, acts + [a]) && Run(cfg, s, acts + [a]) == Step(cfg, Run(cfg, s, acts), a)
    ensures Prompt(cfg, s, acts, delay) && PromptStep(Run(cfg, s, acts), a, delay)
        ==> Prompt(cfg, s, acts + [a], delay)
    decreases |acts|
  {
    if acts == [] {
      assert [a][1..] == [] && acts + [a] == [a];
      assert Legal(cfg, Step(cfg, s, a), []);
    } else {
      Extend(cfg, Step(cfg, s, acts[0]), acts[1..], a, delay);
      assert (acts + [a])[1..] == acts[1..] + [a];
    }
  }

  lemma Here(cfg: Config, s: State, delay: int, now: int)
    ensures Reaches(cfg, s, s, delay, now)
  {
    assert RunTo(cfg, s, [], s, delay, now);
  }

  lemma Then(cfg: Config, s: State, r: State, a: Action, delay: int, now: int, later: int)
    requires Reaches(cfg, s, r, delay, now) && Enabled(r, a) && PromptStep(r, a, delay)
    requires now <= later && (Reading(a).Some? ==> Reading(a).value == later)
    ensures Reaches(cfg, s, Step(cfg, r, a), delay, later)
  {
    var acts :| RunTo(cfg, s, acts, r, delay, now);
    hide Step, Run, Legal, Prompt, Enabled, PromptStep;
    Extend(cfg, s, acts, a, delay);
    assert RunTo(cfg, s, acts + [a], Step(cfg, r, a), delay, later);
  }

  /* ------------------------------------------------------------------ */
  /* Scenes                                                              */
  /* ------------------------------------------------------------------ */

  datatype Scene = Scene(phases: map<nat, Phase>, refreshes: seq<Thread>, calls: seq<Call>, inflight: map<string, nat>,
                         buckets: Buckets)
  {
    function At(i: nat, p: Phase): Scene { this.(phases := phases[i := p]) }
  }

  const START: Scene := Scene(map[], [], [], map[], Buckets([], [], [], []))

  function Placed(s: State, sc: Scene, i: nat): Thread
    requires i < |s.threads|
  {
    if i in sc.phases then s.threads[i].(phase := sc.phases[i]) else s.threads[i]
  }

  function View(s: State, sc: Scene): (v: State)
    ensures |v.threads| == |s.threads| + |sc.refreshes| && !v.down
    ensures forall i :: 0 <= i < |s.threads| ==> v.threads[i] == Placed(s, sc, i)
    ensures forall i :: 0 <= i < |sc.refreshes| ==> v.threads[|s.threads| + i] == sc.refreshes[i]
    ensures v.calls == sc.calls && v.inflight == sc.inflight && v.buckets == sc.buckets
  {
    State(seq(|s.threads|, i requires 0 <= i < |s.threads| => Placed(s, sc, i)) + sc.refreshes,
          sc.calls, sc.inflight, sc.buckets, false)
  }

  /** The scene after thread i, of the state or a refresh, has moved to p. */
  function MovedTo(s: State, sc: Scene, i: nat, p: Phase): Scene
    requires i < |s.threads| + |sc.refreshes|
  {
    if i < |s.threads| then sc.At(i, p)
    else
      var n := i - |s.threads|;
      sc.(refreshes := sc.refreshes[n := sc.refreshes[n].(phase := p)])
  }

  lemma Moves(s: State, sc: Scene, i: nat, p: Phase)
    requires i < |s.threads| + |sc.refreshes|
    ensures View(s, MovedTo(s, sc, i, p)) == Goto(View(s, sc), i, p)
  {
    hide View;
    var m := MovedTo(s, sc, i, p);
    var v, w := View(s, m), Goto(View(s, sc), i, p);
    forall j | 0 <= j < |v.threads| ensures v.threads[j] == w.threads[j] {
      ThreadSeen(s, sc, j);
      ThreadSeen(s, m, j);
    }
    assert v.threads == w.threads;
  }

  /** Calls, table and buckets may change without anybody moving. */
  lemma Rearranged(s: State, sc: Scene, sc': Scene)
    requires sc'.phases == sc.phases && sc'.refreshes == sc.refreshes
    ensures View(s, sc')
         == View(s, sc).(calls := sc'.calls, inflight := sc'.inflight, buckets := sc'.buckets)
  {
    assert View(s, sc').threads == View(s, sc).threads;
  }

  lemma Begin(cfg: Config, s: State, delay: int, now: int)
    requires Init(s)
    ensures Reaches(cfg, s, View(s, START), delay, now)
  {
    assert View(s, START).threads == s.threads;
    Here(cfg, s, delay, now);
  }

  /** A run so far: the scene it has reached. */
  ghost predicate On(cfg: Config, s: State, sc: Scene, i: nat, delay: int, now: int) {
    Reaches(cfg, s, View(s, sc), delay, now) && i < |s.threads| + |sc.refreshes|
  }

  function ThreadAt(s: State, sc: Scene, i: nat): Thread
    requires i < |s.threads| + |sc.refreshes|
  {
    if i < |s.threads| then Placed(s, sc, i) else sc.refreshes[i - |s.threads|]
  }

  lemma ThreadSeen(s: State, sc: Scene, i: nat)
    requires i < |s.threads| + |sc.refreshes|
    ensures View(s, sc).threads[i] == ThreadAt(s, sc, i)
  {
    if i >= |s.threads| {
      assert View(s, sc).threads[|s.threads| + (i - |s.threads|)] == sc.refreshes[i - |s.threads|];
    }
  }

  /* ------------------------------------------------------------------ */
  /* One action                                                          */
  /* ------------------------------------------------------------------ */

  lemma ReadsClock(cfg: Config, s: State, sc: Scene, i: nat, delay: int, now: int, later: int) returns (r: Scene)
    requires On(cfg, s, sc, i, delay, now) && ThreadAt(s, sc, i).phase.Start? && now <= later
    ensures r == MovedTo(s, sc, i, Looking(later)) && Reaches(cfg, s, View(s, r), delay, later)
  {
    hide View, Reaches;
    ThreadSeen(s, sc, i);
    Moves(s, sc, i, Looking(later));
    Then(cfg, s, View(s, sc), ReadClock(i, later), delay, now, later);
    r := MovedTo(s, sc, i, Looking(later));
  }

  lemma Misses(cfg: Config, s: State, sc: Scene, i: nat, delay: int, now: int) returns (r: Scene)
    requires On(cfg, s, sc, i, delay, now) && ThreadAt(s, sc, i).phase.Looking?
    requires Lookup(sc.buckets.Of(ThreadAt(s, sc, i).cls), ThreadAt(s, sc, i).key).None?
    ensures r == MovedTo(s, sc, i, Entering) && Reaches(cfg, s, View(s, r), delay, now)
  {
    hide View, Reaches;
    ThreadSeen(s, sc, i);
    Moves(s, sc, i, Entering);
    Then(cfg, s, View(s, sc), LookUp(i), delay, now, now);
    r := MovedTo(s, sc, i, Entering);
  }

  lemma Leads(cfg: Config, s: State, sc: Scene, i: nat, delay: int, now: int) returns (r: Scene)
    requires On(cfg, s, sc, i, delay, now)
    requires ThreadAt(s, sc, i).phase.Entering? && ThreadAt(s, sc, i).key !in sc.inflight
    ensures var t, c := ThreadAt(s, sc, i), |sc.calls|;
            r == MovedTo(s, sc.(calls := sc.calls + [Call(t.key, t.cls, i, None, false)],
                                inflight := sc.inflight[t.key := c]), i, Leading(c))
    ensures Reaches(cfg, s, View(s, r), delay, now)
  {
    hide View, Reaches;
    var t, c := ThreadAt(s, sc, i), |sc.calls|;
    var sc' := sc.(calls := sc.calls + [Call(t.key, t.cls, i, None, false)], inflight := sc.inflight[t.key := c]);
    ThreadSeen(s, sc, i);
    Rearranged(s, sc, sc');
    Moves(s, sc', i, Leading(c));
    Then(cfg, s, View(s, sc), Enter(i), delay, now, now);
    r := MovedTo(s, sc', i, Leading(c));
  }

  lemma Joins(cfg: Config, s: State, sc: Scene, i: nat, delay: int, now: int) returns (r: Scene)
    requires On(cfg, s, sc, i, delay, now)
    requires ThreadAt(s, sc, i).phase.Entering? && ThreadAt(s, sc, i).key in sc.inflight
    ensures r == MovedTo(s, sc, i, Waiting(sc.inflight[ThreadAt(s, sc, i).key]))
    ensures Reaches(cfg, s, View(s, r), delay, now)
  {
    hide View, Reaches;
    var p := Waiting(sc.inflight[ThreadAt(s, sc, i).key]);
    ThreadSeen(s, sc, i);
    Moves(s, sc, i, p);
    Then(cfg, s, View(s, sc), Enter(i), delay, now, now);
    r := MovedTo(s, sc, i, p);
  }

  lemma Fetches(cfg: Config, s: State, sc: Scene, i: nat, val: Option<string>, err: Option<string>, delay: int,
                now: int, later: int) returns (r: Scene)
    requires On(cfg, s, sc, i, delay, now) && now <= later
    requires var p := ThreadAt(s, sc, i).phase; p.Leading? && p.call < |sc.calls|
    ensures var t := ThreadAt(s, sc, i);
            var c, out := t.phase.call, Outcome(t.cls, t.key, val, err, later);
            r == MovedTo(s, sc.(calls := sc.calls[c := sc.calls[c].(result := Some(out))]), i, Fetched(c))
    ensures Reaches(cfg, s, View(s, r), delay, later)
  {
    hide View, Reaches;
    var t := ThreadAt(s, sc, i);
    var c := t.phase.call;
    var sc' := sc.(calls := sc.calls[c := sc.calls[c].(result := Some(Outcome(t.cls, t.key, val, err, later)))]);
    ThreadSeen(s, sc, i);
    Rearranged(s, sc, sc');
    Moves(s, sc', i, Fetched(c));
    Then(cfg, s, View(s, sc), Fetch(i, val, err, later), delay, now, later);
    r := MovedTo(s, sc', i, Fetched(c));
  }

  lemma Signals(cfg: Config, s: State, sc: Scene, i: nat, delay: int, now: int) returns (r: Scene)
    requires On(cfg, s, sc, i, delay, now)
    requires var p := ThreadAt(s, sc, i).phase; p.Fetched? && p.call < |sc.calls|
    ensures var c := ThreadAt(s, sc, i).phase.call;
            r == MovedTo(s, sc.(calls := sc.calls[c := sc.calls[c].(done := true)]), i, Signalled(c))
    ensures Reaches(cfg, s, View(s, r), delay, now)
  {
    hide View, Reaches;
    var c := ThreadAt(s, sc, i).phase.call;
    var sc' := sc.(calls := sc.calls[c := sc.calls[c].(done := true)]);
    ThreadSeen(s, sc, i);
    Rearranged(s, sc, sc');
    Moves(s, sc', i, Signalled(c));
    Then(cfg, s, View(s, sc), Signal(i), delay, now, now);
    r := MovedTo(s, sc', i, Signalled(c));
  }

  lemma Deletes(cfg: Config, s: State, sc: Scene, i: nat, delay: int, now: int) returns (r: Scene)
    requires On(cfg, s, sc, i, delay, now)
    requires var p := ThreadAt(s, sc, i).phase; p.Signalled? && p.call < |sc.calls| && sc.calls[p.call].result.Some?
    ensures var t := ThreadAt(s, sc, i);
            r == MovedTo(s, sc.(inflight := sc.inflight - {t.key}), i,
                         Returned(t.phase.call, sc.calls[t.phase.call].result.value))
    ensures Reaches(cfg, s, View(s, r), delay, now)
  {
    hide View, Reaches;
    var t := ThreadAt(s, sc, i);
    var sc', p := sc.(inflight := sc.inflight - {t.key}), Returned(t.phase.call, sc.calls[t.phase.call].result.value);
    ThreadSeen(s, sc, i);
    Rearranged(s, sc, sc');
    Moves(s, sc', i, p);
    Then(cfg, s, View(s, sc), Delete(i), delay, now, now);
    r := MovedTo(s, sc', i, p);
  }

  lemma Wakes(cfg: Config, s: State, sc: Scene, i: nat, delay: int, now: int) returns (r: Scene)
    requires On(cfg, s, sc, i, delay, now)
    requires var p := ThreadAt(s, sc, i).phase;
             p.Waiting? && p.call < |sc.calls| && sc.calls[p.call].done && sc.calls[p.call].result.Some?
    ensures var c := ThreadAt(s, sc, i).phase.call;
            r == MovedTo(s, sc, i, Returned(c, sc.calls[c].result.value)) && Reaches(cfg, s, View(s, r), delay, now)
  {
    hide View, Reaches;
    var c := ThreadAt(s, sc, i).phase.call;
    var p := Returned(c, sc.calls[c].result.value);
    ThreadSeen(s, sc, i);
    Moves(s, sc, i, p);
    Then(cfg, s, View(s, sc), Wake(i), delay, now, now);
    r := MovedTo(s, sc, i, p);
  }

  lemma Stamps(cfg: Config, s: State, sc: Scene, i: nat, delay: int, now: int, later: int) returns (r: Scene)
    requires On(cfg, s, sc, i, delay, now) && now <= later
    requires var t := ThreadAt(s, sc, i);
             t.phase.Returned? && t.phase.out.cls == t.cls && later <= t.phase.out.fetchedAt + delay
    ensures var p := ThreadAt(s, sc, i).phase;
            r == MovedTo(s, sc, i, Storing(p.call, p.out, later + cfg.TtlFor(p.out.err)))
    ensures Reaches(cfg, s, View(s, r), delay, later)
  {
    hide View, Reaches;
    var p := ThreadAt(s, sc, i).phase;
    var q := Storing(p.call, p.out, later + cfg.TtlFor(p.out.err));
    ThreadSeen(s, sc, i);
    Moves(s, sc, i, q);
    Then(cfg, s, View(s, sc), Stamp(i, later), delay, now, later);
    r := MovedTo(s, sc, i, q);
  }

  lemma Puts(cfg: Config, s: State, sc: Scene, i: nat, delay: int, now: int) returns (r: Scene)
    requires On(cfg, s, sc, i, delay, now) && ThreadAt(s, sc, i).phase.Storing?
    ensures var t := ThreadAt(s, sc, i);
            var b := Store(sc.buckets.Of(t.cls), t.key, Cached(t.phase.out, t.phase.expires), cfg.size);
            r == MovedTo(s, sc.(buckets := sc.buckets.With(t.cls, b)), i, Loaded(t.phase.call, t.phase.out))
    ensures Reaches(cfg, s, View(s, r), delay, now)
  {
    hide View, Reaches;
    var t := ThreadAt(s, sc, i);
    var b := Store(sc.buckets.Of(t.cls), t.key, Cached(t.phase.out, t.phase.expires), cfg.size);
    var sc', p := sc.(buckets := sc.buckets.With(t.cls, b)), Loaded(t.phase.call, t.phase.out);
    ThreadSeen(s, sc, i);
    Rearranged(s, sc, sc');
    Moves(s, sc', i, p);
    Then(cfg, s, View(s, sc), Put(i), delay, now, now);
    r := MovedTo(s, sc', i, p);
  }

  /** The type assertion fails; in a refresh that ends the process. */
  lemma Crashes(cfg: Config, s: State, sc: Scene, i: nat, delay: int, now: int, later: int) returns (r: State)
    requires On(cfg, s, sc, i, delay, now) && now <= later
    requires var t := ThreadAt(s, sc, i);
             t.phase.Returned? && t.phase.out.cls != t.cls && later <= t.phase.out.fetchedAt + delay
    ensures var t := ThreadAt(s, sc, i);
            r == View(s, MovedTo(s, sc, i, Crashed(t.phase.call))).(down := t.refresh)
    ensures Reaches(cfg, s, r, delay, later)
  {
    hide View, Reaches;
    var t := ThreadAt(s, sc, i);
    ThreadSeen(s, sc, i);
    Moves(s, sc, i, Crashed(t.phase.call));
    Then(cfg, s, View(s, sc), Stamp(i, later), delay, now, later);
    r := View(s, MovedTo(s, sc, i, Crashed(t.phase.call))).(down := t.refresh);
  }

  /** A hit within the lifetime or the stale window. */
  lemma Hits(cfg: Config, s: State, sc: Scene, i: nat, c: Cached, delay: int, now: int) returns (r: State)
    requires On(cfg, s, sc, i, delay, now) && ThreadAt(s, sc, i).phase.Looking?
    requires Lookup(sc.buckets.Of(ThreadAt(s, sc, i).cls), ThreadAt(s, sc, i).key) == Some(c)
    requires ThreadAt(s, sc, i).phase.now < c.expires + cfg.StaleWindow()
    ensures Reaches(cfg, s, r, delay, now)
    ensures i < |r.threads| && r.threads[i].phase == Served(c, ThreadAt(s, sc, i).phase.now)
  {
    hide View, Reaches;
    ThreadSeen(s, sc, i);
    Then(cfg, s, View(s, sc), LookUp(i), delay, now, now);
    r := Step(cfg, View(s, sc), LookUp(i));
  }

  lemma Started(s: State, sc: Scene, t: Thread)
    ensures View(s, sc.(refreshes := sc.refreshes + [t])) == View(s, sc).(threads := View(s, sc).threads + [t])
  {
    hide View;
    var sc' := sc.(refreshes := sc.refreshes + [t]);
    var v, w := View(s, sc').threads, View(s, sc).threads + [t];
    forall j | 0 <= j < |v| ensures v[j] == w[j] {
      ThreadSeen(s, sc', j);
      if j < |v| - 1 {
        ThreadSeen(s, sc, j);
      }
    }
    assert v == w;
  }

  /** A hit in the stale window, which starts a refresh. */
  lemma HitsStale(cfg: Config, s: State, sc: Scene, i: nat, c: Cached, delay: int, now: int) returns (r: Scene)
    requires On(cfg, s, sc, i, delay, now) && i < |s.threads| && ThreadAt(s, sc, i).phase.Looking?
    requires Lookup(sc.buckets.Of(ThreadAt(s, sc, i).cls), ThreadAt(s, sc, i).key) == Some(c)
    requires cfg.staleTtl > 0 && c.expires <= ThreadAt(s, sc, i).phase.now < c.expires + cfg.staleTtl
    ensures var t := ThreadAt(s, sc, i);
            var touched := sc.buckets.With(t.cls, Touch(sc.buckets.Of(t.cls), t.key));
            r == sc.(refreshes := sc.refreshes + [Thread(t.cls, t.key, true, Entering)], buckets := touched)
                   .At(i, Served(c, t.phase.now))
    ensures Reaches(cfg, s, View(s, r), delay, now)
  {
    hide View, Reaches;
    var t := ThreadAt(s, sc, i);
    var sc' := sc.(buckets := sc.buckets.With(t.cls, Touch(sc.buckets.Of(t.cls), t.key)));
    var p, started := Served(c, t.phase.now), Thread(t.cls, t.key, true, Entering);
    ThreadSeen(s, sc, i);
    Rearranged(s, sc, sc');
    Moves(s, sc', i, p);
    r := sc'.(refreshes := sc.refreshes + [started]).At(i, p);
    Started(s, sc'.At(i, p), started);
    Then(cfg, s, View(s, sc), LookUp(i), delay, now, now);
  }

  /* ------------------------------------------------------------------ */
  /* Several actions of one thread                                       */
  /* ------------------------------------------------------------------ */

  /** From the start to the fetch, when nothing is cached or in flight. */
  lemma StartsFetch(cfg: Config, s: State, sc: Scene, i: nat, delay: int, now: int) returns (r: Scene)
    requires On(cfg, s, sc, i, delay, now) && i < |s.threads| && ThreadAt(s, sc, i).phase.Start?
    requires var t := ThreadAt(s, sc, i); Lookup(sc.buckets.Of(t.cls), t.key).None? && t.key !in sc.inflight
    ensures var t, c := ThreadAt(s, sc, i), |sc.calls|;
            r == sc.(calls := sc.calls + [Call(t.key, t.cls, i, None, false)],
                     inflight := sc.inflight[t.key := c]).At(i, Leading(c))
    ensures Reaches(cfg, s, View(s, r), delay, now)
  {
    hide Reaches, View;
    r := ReadsClock(cfg, s, sc, i, delay, now, now);
    r := Misses(cfg, s, r, i, delay, now);
    r := Leads(cfg, s, r, i, delay, now);
  }

  /** From the start into the call in flight, when nothing is cached. */
  lemma StartsWait(cfg: Config, s: State, sc: Scene, i: nat, delay: int, now: int) returns (r: Scene)
    requires On(cfg, s, sc, i, delay, now) && i < |s.threads| && ThreadAt(s, sc, i).phase.Start?
    requires var t := ThreadAt(s, sc, i); Lookup(sc.buckets.Of(t.cls), t.key).None? && t.key in sc.inflight
    ensures r == sc.At(i, Waiting(sc.inflight[ThreadAt(s, sc, i).key])) && Reaches(cfg, s, View(s, r), delay, now)
  {
    hide Reaches, View;
    r := ReadsClock(cfg, s, sc, i, delay, now, now);
    r := Misses(cfg, s, r, i, delay, now);
    r := Joins(cfg, s, r, i, delay, now);
  }

  /** The fetch returns at `later` and the waiters are released. */
  lemma EndsFetch(cfg: Config, s: State, sc: Scene, i: nat, val: Option<string>, err: Option<string>, delay: int,
                  now: int, later: int) returns (r: Scene)
    requires On(cfg, s, sc, i, delay, now) && i < |s.threads| && now <= later
    requires var p := ThreadAt(s, sc, i).phase; p.Leading? && p.call < |sc.calls|
    ensures var t := ThreadAt(s, sc, i);
            var c := t.phase.call;
            var out := Outcome(t.cls, t.key, val, err, later);
            r == sc.(calls := sc.calls[c := sc.calls[c].(result := Some(out), done := true)]).At(i, Signalled(c))
    ensures Reaches(cfg, s, View(s, r), delay, later)
  {
    hide Reaches, View;
    r := Fetches(cfg, s, sc, i, val, err, delay, now, later);
    r := Signals(cfg, s, r, i, delay, later);
  }

  /** A caller stores the outcome it got, at `later`. */
  lemma Stores(cfg: Config, s: State, sc: Scene, i: nat, delay: int, now: int, later: int) returns (r: Scene)
    requires On(cfg, s, sc, i, delay, now) && i < |s.threads| && now <= later
    requires var t := ThreadAt(s, sc, i);
             t.phase.Returned? && t.phase.out.cls == t.cls && later <= t.phase.out.fetchedAt + delay
    ensures var t := ThreadAt(s, sc, i);
            var c := Cached(t.phase.out, later + cfg.TtlFor(t.phase.out.err));
            var b := Store(sc.buckets.Of(t.cls), t.key, c, cfg.size);
            r == sc.(buckets := sc.buckets.With(t.cls, b)).At(i, Loaded(t.phase.call, t.phase.out))
    ensures Reaches(cfg, s, View(s, r), delay, later)
  {
    hide Reaches, View;
    r := Stamps(cfg, s, sc, i, delay, now, later);
    r := Puts(cfg, s, r, i, delay, later);
  }
}
