/** Runs of the record cache that show its hypotheses are needed. */
module RecordCacheWitness {
  import opened Common
  import opened Lru
  import opened RecordCache
  import opened RecordCacheScenes

  /** Different callers of one key. */
  predicate SameKey(s: State, x: nat, y: nat) {
    x < |s.threads| && y < |s.threads| && x != y && s.threads[x].key == s.threads[y].key
  }

  /** The first caller misses and leads, the second joins it. */
  lemma LeadAndJoin(cfg: Config, s: State, x: nat, y: nat, delay: int) returns (sc: Scene)
    requires Init(s) && SameKey(s, x, y)
    ensures var t := s.threads[x];
            sc == Scene(map[x := Leading(0), y := Waiting(0)], [], [Call(t.key, t.cls, x, None, false)],
                        map[t.key := 0], Buckets([], [], [], []))
    ensures Reaches(cfg, s, View(s, sc), delay, 0)
  {
    hide View, Reaches;
    Begin(cfg, s, delay, 0);
    sc := StartsFetch(cfg, s, START, x, delay, 0);
    sc := StartsWait(cfg, s, sc, y, delay, 0);
  }

  /** One name asked for as two object classes at the same time: the second
      caller joins the first one's call and its cast fails. */
  lemma SharedNameCrashes(cfg: Config, s: State, x: nat, y: nat)
    requires Init(s) && SameKey(s, x, y) && s.threads[x].cls != s.threads[y].cls
    ensures exists r :: Reaches(cfg, s, r, 0, 0) && y < |r.threads| && r.threads[y].phase == Crashed(0)
  {
    hide View, Reaches;
    var sc := LeadAndJoin(cfg, s, x, y, 0);
    sc := EndsFetch(cfg, s, sc, x, Some("record"), None, 0, 0, 0);
    sc := Wakes(cfg, s, sc, y, 0, 0);
    var r := Crashes(cfg, s, sc, y, 0, 0, 0);
  }

  /* ------------------------------------------------------------------ */
  /* How old a served outcome can be                                     */
  /* ------------------------------------------------------------------ */

  /** Thread i is served, at reading `now`, an outcome with this error whose
      fetch completed `age` before. */
  predicate ServedAged(r: State, i: nat, err: Option<string>, age: int) {
    && i < |r.threads|
    && r.threads[i].phase.Served?
    && r.threads[i].phase.entry.out.err == err
    && r.threads[i].phase.now - r.threads[i].phase.entry.out.fetchedAt == age
  }

  /** The leader stores at once; the joiner reads the clock `delay` later and
      stores over the leader's copy. */
  lemma JoinerStoresLate(cfg: Config, s: State, x: nat, y: nat, err: Option<string>, delay: int)
    returns (sc: Scene, c: Cached)
    requires Init(s) && SameKey(s, x, y) && s.threads[x].cls == s.threads[y].cls && 0 <= delay && 1 <= cfg.size
    ensures Reaches(cfg, s, View(s, sc), delay, delay)
    ensures sc.phases.Keys == {x, y} && sc.refreshes == []
    ensures c.out.err == err && c.out.fetchedAt == 0 && c.expires == delay + cfg.TtlFor(err)
    ensures sc.buckets.Of(s.threads[x].cls) == [Entry(s.threads[x].key, c)]
  {
    hide View, Reaches;
    var val := if err == None then Some("record") else None;
    sc := LeadAndJoin(cfg, s, x, y, delay);
    sc := EndsFetch(cfg, s, sc, x, val, err, delay, 0, 0);
    sc := Deletes(cfg, s, sc, x, delay, 0);
    sc := Stores(cfg, s, sc, x, delay, 0, 0);
    sc := Wakes(cfg, s, sc, y, delay, 0);
    sc := Stores(cfg, s, sc, y, delay, 0, delay);
    c := Cached(Outcome(s.threads[x].cls, s.threads[x].key, val, err, 0), delay + cfg.TtlFor(err));
  }

  /** For any three callers of one record the age bound is attained, with an
      ordered clock, for every delay, for values and for errors: a late joiner's
      store restarts the lifetime of an old outcome.  So no bound holds for runs
      whose delay is not bounded.  (Outcomes that are neither fresh nor stale for a
      single tick are never served.) */
  lemma AgeBoundIsAttained(cfg: Config, s: State, x: nat, y: nat, z: nat, err: Option<string>, delay: int)
    requires Init(s) && SameKey(s, x, y) && SameKey(s, x, z) && y != z
    requires s.threads[x].cls == s.threads[y].cls == s.threads[z].cls
    requires 0 <= delay && 1 <= cfg.size
    requires var lifetime := (if err.Some? then cfg.negTtl else cfg.ttl) + if cfg.staleTtl > 0 then cfg.staleTtl else 0;
             1 <= lifetime
    ensures var lifetime := (if err.Some? then cfg.negTtl else cfg.ttl) + if cfg.staleTtl > 0 then cfg.staleTtl else 0;
            exists r, now :: Reaches(cfg, s, r, delay, now) && ServedAged(r, z, err, delay + lifetime - 1)
  {
    hide View, Reaches;
    var sc, c := JoinerStoresLate(cfg, s, x, y, err, delay);
    var now := c.expires + cfg.StaleWindow() - 1;
    sc := ReadsClock(cfg, s, sc, z, delay, delay, now);
    var r := Hits(cfg, s, sc, z, c, delay, now);
    assert ServedAged(r, z, err, delay + cfg.TtlFor(err) + cfg.StaleWindow() - 1);
  }
}
