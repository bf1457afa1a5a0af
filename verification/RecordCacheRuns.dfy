/** Freshness of the record cache over whole runs. */
module RecordCacheRuns {
  import opened Lru
  import opened RecordCache

  /* ------------------------------------------------------------------ */
  /* Freshness                                                           */
  /* ------------------------------------------------------------------ */

  /** The store-time clock reading is at most `delay` after the fetch completed. */
  predicate PromptStep(s: State, a: Action, delay: int)
    requires Enabled(s, a)
  {
    a.Stamp? ==> a.now <= s.threads[a.i].phase.out.fetchedAt + delay
  }

  predicate Prompt(cfg: Config, s: State, acts: seq<Action>, delay: int)
    requires Legal(cfg, s, acts)
    decreases |acts|
  {
    acts == [] || (PromptStep(s, acts[0], delay) && Prompt(cfg, Step(cfg, s, acts[0]), acts[1..], delay))
  }

  predicate Bounded(cfg: Config, out: Outcome, expires: int, delay: int) {
    expires <= out.fetchedAt + delay + cfg.TtlFor(out.err)
  }

  predicate BucketFresh(cfg: Config, b: Bucket, delay: int) {
    forall e :: e in b ==> Bounded(cfg, e.val.out, e.val.expires, delay)
  }

  predicate ThreadFresh(cfg: Config, t: Thread, delay: int) {
    && (t.phase.Storing? ==> Bounded(cfg, t.phase.out, t.phase.expires, delay))
    && (t.phase.Served? ==>
          && Bounded(cfg, t.phase.entry.out, t.phase.entry.expires, delay)
          && t.phase.now < t.phase.entry.expires + cfg.StaleWindow())
  }

  ghost predicate Fresh(cfg: Config, s: State, delay: int) {
    && (forall i :: 0 <= i < |s.threads| ==> ThreadFresh(cfg, s.threads[i], delay))
    && (forall c: Class :: BucketFresh(cfg, s.buckets.Of(c), delay))
  }

  /** A lookup serves only entries that are fresh or stale. */
  lemma LookUpFresh(cfg: Config, s: State, i: nat, delay: int)
    requires Fresh(cfg, s, delay) && Enabled(s, LookUp(i))
    ensures var ts := DoLookUp(cfg, s, i).threads; i < |ts| && ThreadFresh(cfg, ts[i], delay)
  {
    var t := s.threads[i];
    assert BucketFresh(cfg, s.buckets.Of(t.cls), delay);
    LookupMember(s.buckets.Of(t.cls), t.key);
  }

  lemma MoverStaysFresh(cfg: Config, s: State, a: Action, delay: int)
    requires Fresh(cfg, s, delay) && Enabled(s, a) && PromptStep(s, a, delay)
    ensures var ts := Step(cfg, s, a).threads; a.i < |ts| && ThreadFresh(cfg, ts[a.i], delay)
  {
    if a.LookUp? {
      LookUpFresh(cfg, s, a.i, delay);
    } else {
      assert ThreadFresh(cfg, s.threads[a.i], delay);
    }
  }

  lemma ThreadStaysFresh(cfg: Config, s: State, a: Action, delay: int, i: nat)
    requires Fresh(cfg, s, delay) && Enabled(s, a) && PromptStep(s, a, delay) && i < |Step(cfg, s, a).threads|
    ensures ThreadFresh(cfg, Step(cfg, s, a).threads[i], delay)
  {
    if i == a.i {
      MoverStaysFresh(cfg, s, a, delay);
    } else {
      hide Bounded, BucketFresh;
      assert i < |s.threads| ==> ThreadFresh(cfg, s.threads[i], delay);
    }
  }

  lemma BucketStaysFresh(cfg: Config, s: State, a: Action, delay: int, c: Class)
    requires Fresh(cfg, s, delay) && Enabled(s, a) && PromptStep(s, a, delay)
    ensures BucketFresh(cfg, Step(cfg, s, a).buckets.Of(c), delay)
  {
    var t := s.threads[a.i];
    var b := s.buckets.Of(t.cls);
    assert ThreadFresh(cfg, t, delay) && BucketFresh(cfg, s.buckets.Of(c), delay);
    DropSubset(b, t.key);
    TouchSubset(b, t.key);
    if a.Put? {
      StoreSubset(b, t.key, Cached(t.phase.out, t.phase.expires), cfg.size);
    }
  }

  lemma StepFresh(cfg: Config, s: State, a: Action, delay: int)
    requires Fresh(cfg, s, delay) && Enabled(s, a) && PromptStep(s, a, delay)
    ensures Fresh(cfg, Step(cfg, s, a), delay)
  {
    hide Step, Enabled;
    var s' := Step(cfg, s, a);
    forall i | 0 <= i < |s'.threads| ensures ThreadFresh(cfg, s'.threads[i], delay) {
      ThreadStaysFresh(cfg, s, a, delay, i);
    }
    forall c: Class ensures BucketFresh(cfg, s'.buckets.Of(c), delay) {
      BucketStaysFresh(cfg, s, a, delay, c);
    }
  }

  lemma {:induction false} RunFresh(cfg: Config, s: State, acts: seq<Action>, delay: int)
    requires Fresh(cfg, s, delay) && Legal(cfg, s, acts) && Prompt(cfg, s, acts, delay)
    ensures Fresh(cfg, Run(cfg, s, acts), delay)
    decreases |acts|
  {
    if acts != [] {
      StepFresh(cfg, s, acts[0], delay);
      RunFresh(cfg, Step(cfg, s, acts[0]), acts[1..], delay);
    }
  }

  /** How old a served outcome can be at the clock reading that admitted it.
      An error lives for the negative TTL, a value for the other. */
  lemma ServedAgeBound(cfg: Config, s: State, acts: seq<Action>, delay: int, i: nat)
    requires Init(s) && Legal(cfg, s, acts) && Prompt(cfg, s, acts, delay)
    requires i < |Run(cfg, s, acts).threads| && Run(cfg, s, acts).threads[i].phase.Served?
    ensures var p := Run(cfg, s, acts).threads[i].phase;
            p.now - p.entry.out.fetchedAt
              < delay + (if p.entry.out.err.Some? then cfg.negTtl else cfg.ttl)
                + if cfg.staleTtl > 0 then cfg.staleTtl else 0
  {
    forall j | 0 <= j < |s.threads| ensures ThreadFresh(cfg, s.threads[j], delay) {
      assert s.threads[j].phase == Start;
    }
    forall c: Class ensures BucketFresh(cfg, s.buckets.Of(c), delay) {
      assert s.buckets.Of(c) == [];
    }
    RunFresh(cfg, s, acts, delay);
    assert ThreadFresh(cfg, Run(cfg, s, acts).threads[i], delay);
  }
}
