/**
 The run that ends the process: a stale hit of one class starts a refresh, a
 caller of another class leads the same key, the refresh joins that call and its
 cast fails.  It exists for every set of callers that has the three callers it
 needs, which gives the exact condition for all callers to finish.
 */
module RecordCacheCrash {
  import opened Common
  import opened Lru
  import opened RecordCache
  import opened Singleflight
  import opened RecordCacheScenes
  import opened RecordCacheProgress

  /** The first caller stores its record, which the second is served when it has
      just expired: a refresh is about to enter singleflight. */
  lemma RefreshStarts(cfg: Config, s: State, x: nat, y: nat, z: nat) returns (sc: Scene)
    requires Init(s) && Rivals(s, x, y, z) && 1 <= cfg.size && 0 < cfg.ttl && cfg.staleTtl > 0
    ensures Reaches(cfg, s, View(s, sc), 0, cfg.ttl)
    ensures sc.phases.Keys == {x, y} && |sc.calls| == 1 && sc.inflight == map[]
    ensures sc.refreshes == [Thread(s.threads[x].cls, s.threads[x].key, true, Entering)]
    ensures sc.buckets.Of(s.threads[z].cls) == []
  {
    hide View, Reaches;
    Begin(cfg, s, 0, 0);
    sc := StartsFetch(cfg, s, START, x, 0, 0);
    sc := EndsFetch(cfg, s, sc, x, Some("record"), None, 0, 0, 0);
    sc := Deletes(cfg, s, sc, x, 0, 0);
    sc := Stores(cfg, s, sc, x, 0, 0, 0);
    var c := Cached(Outcome(s.threads[x].cls, s.threads[x].key, Some("record"), None, 0), cfg.ttl);
    assert sc.buckets.Of(s.threads[x].cls) == [Entry(s.threads[x].key, c)];
    sc := ReadsClock(cfg, s, sc, y, 0, 0, cfg.ttl);
    sc := HitsStale(cfg, s, sc, y, c, 0, cfg.ttl);
    assert sc.inflight == map[];
  }

  /** The third caller leads the key, the refresh joins its call and is woken
      before the leader has deleted it: the process ends with a caller unfinished. */
  lemma RefreshFalls(cfg: Config, s: State, x: nat, y: nat, z: nat) returns (r: State)
    requires Init(s) && Rivals(s, x, y, z) && 1 <= cfg.size && 0 < cfg.ttl && cfg.staleTtl > 0
    ensures Reaches(cfg, s, r, 0, cfg.ttl) && r.down && z < |r.threads| && r.threads[z].phase == Signalled(1)
  {
    hide View, Reaches;
    var n, now := |s.threads|, cfg.ttl;
    var sc := RefreshStarts(cfg, s, x, y, z);
    sc := StartsFetch(cfg, s, sc, z, 0, now);
    sc := Joins(cfg, s, sc, n, 0, now);
    sc := EndsFetch(cfg, s, sc, z, Some("record"), None, 0, now, now);
    sc := Wakes(cfg, s, sc, n, 0, now);
    r := Crashes(cfg, s, sc, n, 0, now, now);
  }

  /** For given callers every run that cannot be extended finishes all of them,
      whatever the interleaving and the results of fetches, if and only if stale
      serving is off or no key is asked for by two callers of one class and one of
      another.  A clock that does not run backwards makes no difference. */
  lemma AllCallersFinishIff(cfg: Config, s: State)
    requires Init(s) && 1 <= cfg.size && 0 < cfg.ttl
    ensures var safe := cfg.staleTtl <= 0 || forall x: nat, y: nat, z: nat :: !Rivals(s, x, y, z);
            && (safe <==> forall acts :: Maximal(cfg, s, acts) ==> AllFinished(Run(cfg, s, acts)))
            && (safe <==> forall acts :: Maximal(cfg, s, acts) && InOrder(acts) ==> AllFinished(Run(cfg, s, acts)))
  {
    if x: nat, y: nat, z: nat :| cfg.staleTtl > 0 && Rivals(s, x, y, z) {
      var r := RefreshFalls(cfg, s, x, y, z);
      var acts :| RunTo(cfg, s, acts, r, 0, cfg.ttl);
      assert Maximal(cfg, s, acts) && InOrder(acts) && !r.threads[z].phase.Finished();
    } else {
      forall acts | Maximal(cfg, s, acts) ensures AllFinished(Run(cfg, s, acts)) {
        MaximalRunFinishesAll(cfg, s, acts);
        if !Unmixed(cfg, s, acts, true) {
          InitOrigins(cfg, s);
          var x, y, z := MixedHasRivals(cfg, s, acts, |s.threads|);
        }
      }
    }
  }
}
