/**
 When is dropping idle buckets invisible?  For every limiter with a positive
 rate: exactly when a full bucket accrues within the idle time, or no request is
 ever admitted anyway.
 */
module RateLimitPruning {
  import opened RateLimit

  datatype Event = Allow(key: string, at: real) | Cleanup(at: real)

  predicate InOrder(evs: seq<Event>) {
    forall i, j :: 0 <= i < j < |evs| ==> evs[i].at <= evs[j].at
  }

  function Apply(l: Limits, maxIdle: real, prune: bool, bs: Buckets, e: Event): Buckets {
    match e
    case Allow(k, at) => After(l, bs, k, at)
    case Cleanup(at) => if prune then Pruned(bs, at - maxIdle) else bs
  }

  /** The table after a run; without `prune` the CleanupIdle calls are left out. */
  function Play(l: Limits, maxIdle: real, prune: bool, evs: seq<Event>): Buckets {
    if evs == [] then map[]
    else Apply(l, maxIdle, prune, Play(l, maxIdle, prune, evs[..|evs|-1]), evs[|evs|-1])
  }

  /** Event i is answered alike with and without the earlier CleanupIdle calls. */
  predicate SameAnswer(l: Limits, maxIdle: real, evs: seq<Event>, i: nat)
    requires i < |evs| && evs[i].Allow?
  {
    Admits(l, Play(l, maxIdle, true, evs[..i]), evs[i].key, evs[i].at)
      == Admits(l, Play(l, maxIdle, false, evs[..i]), evs[i].key, evs[i].at)
  }

  ghost predicate PruningInvisible(l: Limits, maxIdle: real) {
    forall evs: seq<Event>, i: nat :: InOrder(evs) && 0 <= i < |evs| && evs[i].Allow? ==> SameAnswer(l, maxIdle, evs, i)
  }

  /* ------------------------------------------------------------------ */
  /* Sufficiency                                                         */
  /* ------------------------------------------------------------------ */

  predicate Sane(l: Limits, b: Bucket, now: real) {
    Min(0.0, l.burst) <= b.tokens <= l.burst && b.lastSeen <= now
  }

  predicate Full(l: Limits, b: Bucket, now: real) {
    b.lastSeen < now && l.burst <= b.tokens + l.rate * (now - b.lastSeen)
  }

  /** A bucket missing from the pruned table is full by now in the other. */
  ghost predicate Coupled(l: Limits, p: Buckets, u: Buckets, now: real) {
    && (forall k :: k in u ==> Sane(l, u[k], now))
    && (forall k :: k in p ==> k in u && p[k] == u[k])
    && (forall k :: k in u && k !in p ==> Full(l, u[k], now))
  }

  lemma MoreTime(r: real, a: real, b: real)
    requires r > 0.0 && a <= b
    ensures r * a <= r * b
  {}

  lemma StillFull(l: Limits, b: Bucket, now: real, later: real)
    requires l.rate > 0.0 && Full(l, b, now) && now <= later
    ensures Full(l, b, later)
  {
    MoreTime(l.rate, now - b.lastSeen, later - b.lastSeen);
  }

  lemma IdleIsFull(l: Limits, maxIdle: real, b: Bucket, now: real)
    requires l.rate > 0.0 && maxIdle >= 0.0 && l.burst <= l.rate * maxIdle
    requires Sane(l, b, now) && b.lastSeen < now - maxIdle
    ensures Full(l, b, now)
  {
    var idle, grown := l.rate * maxIdle, l.rate * (now - b.lastSeen);
    assert idle <= grown by {
      MoreTime(l.rate, maxIdle, now - b.lastSeen);
    }
    assert 0.0 <= grown by {
      MoreTime(l.rate, 0.0, now - b.lastSeen);
    }
  }

  lemma RefilledSane(l: Limits, u: Buckets, k: string, t: real)
    requires l.rate > 0.0 && (k in u ==> Sane(l, u[k], t))
    ensures Sane(l, Refilled(l, u, k, t), t)
  {
    if k in u {
      var elapsed := t - u[k].lastSeen;
      var grown := l.rate * elapsed;
      assert 0.0 <= grown by {
        MoreTime(l.rate, 0.0, elapsed);
      }
      assert elapsed > 0.0 ==> Refilled(l, u, k, t).tokens == Min(l.burst, u[k].tokens + grown);
    }
  }

  /** Time passes: the coupling survives. */
  lemma Later(l: Limits, p: Buckets, u: Buckets, now: real, t: real)
    requires l.rate > 0.0 && Coupled(l, p, u, now) && now <= t
    ensures Coupled(l, p, u, t)
  {
    forall k | k in u && k !in p ensures Full(l, u[k], t) {
      StillFull(l, u[k], now, t);
    }
  }

  lemma CoupledRefill(l: Limits, p: Buckets, u: Buckets, k: string, t: real)
    requires l.rate > 0.0 && Coupled(l, p, u, t)
    ensures Refilled(l, p, k, t) == Refilled(l, u, k, t)
  {
    hide Refilled, Full;
    if k in u && k !in p {
      RefilledNew(l, p, k, t);
      FullRefills(l, u, k, t);
    } else {
      RefilledSame(l, p, u, k, t);
    }
  }

  lemma RefilledSame(l: Limits, p: Buckets, u: Buckets, k: string, t: real)
    requires (k in p <==> k in u) && (k in p ==> p[k] == u[k])
    ensures Refilled(l, p, k, t) == Refilled(l, u, k, t)
  {}

  lemma FullRefills(l: Limits, u: Buckets, k: string, t: real)
    requires k in u && Full(l, u[k], t)
    ensures Refilled(l, u, k, t) == Bucket(l.burst, t)
  {
    var grown := l.rate * (t - u[k].lastSeen);
    assert l.burst <= u[k].tokens + grown;
  }

  lemma CoupledAllow(l: Limits, p: Buckets, u: Buckets, k: string, t: real)
    requires l.rate > 0.0 && Coupled(l, p, u, t)
    ensures Coupled(l, After(l, p, k, t), After(l, u, k, t), t)
    ensures Admits(l, p, k, t) == Admits(l, u, k, t)
  {
    hide Refilled;
    CoupledRefill(l, p, u, k, t);
    RefilledSane(l, u, k, t);
  }

  lemma CoupledCleanup(l: Limits, maxIdle: real, p: Buckets, u: Buckets, t: real)
    requires l.rate > 0.0 && maxIdle >= 0.0 && l.burst <= l.rate * maxIdle && Coupled(l, p, u, t)
    ensures Coupled(l, Pruned(p, t - maxIdle), u, t)
  {
    forall k | k in u && k !in Pruned(p, t - maxIdle) ensures Full(l, u[k], t) {
      if k in p {
        IdleIsFull(l, maxIdle, u[k], t);
      }
    }
  }

  lemma {:induction false} PlaysCoupled(l: Limits, maxIdle: real, evs: seq<Event>, n: nat, now: real)
    requires l.rate > 0.0 && maxIdle >= 0.0 && l.burst <= l.rate * maxIdle
    requires InOrder(evs) && n <= |evs| && (n > 0 ==> evs[n-1].at <= now)
    ensures Coupled(l, Play(l, maxIdle, true, evs[..n]), Play(l, maxIdle, false, evs[..n]), now)
  {
    if n > 0 {
      var e := evs[n-1];
      PlaysCoupled(l, maxIdle, evs, n - 1, e.at);
      assert evs[..n][..n-1] == evs[..n-1];
      var p, u := Play(l, maxIdle, true, evs[..n-1]), Play(l, maxIdle, false, evs[..n-1]);
      match e {
        case Allow(k, at) => CoupledAllow(l, p, u, k, at);
        case Cleanup(at) => CoupledCleanup(l, maxIdle, p, u, at);
      }
      Later(l, Play(l, maxIdle, true, evs[..n]), Play(l, maxIdle, false, evs[..n]), e.at, now);
    }
  }

  /** When a full bucket accrues within maxIdle, CleanupIdle calls anywhere in a
      run change no answer. */
  lemma AccrualHidesPruning(l: Limits, maxIdle: real)
    requires l.rate > 0.0 && maxIdle >= 0.0 && l.burst <= l.rate * maxIdle
    ensures PruningInvisible(l, maxIdle)
  {
    forall evs: seq<Event>, i: nat | InOrder(evs) && 0 <= i < |evs| && evs[i].Allow?
      ensures SameAnswer(l, maxIdle, evs, i)
    {
      PlaysCoupled(l, maxIdle, evs, i, evs[i].at);
      CoupledAllow(l, Play(l, maxIdle, true, evs[..i]), Play(l, maxIdle, false, evs[..i]), evs[i].key, evs[i].at);
    }
  }

  ghost predicate Capped(l: Limits, bs: Buckets) {
    forall k :: k in bs ==> bs[k].tokens <= l.burst
  }

  lemma {:induction false} PlayCapped(l: Limits, maxIdle: real, prune: bool, evs: seq<Event>)
    requires l.rate > 0.0
    ensures Capped(l, Play(l, maxIdle, prune, evs))
  {
    if evs != [] {
      PlayCapped(l, maxIdle, prune, evs[..|evs|-1]);
    }
  }

  /** A limiter whose bucket cannot hold one token refuses everything. */
  lemma RefusingHidesPruning(l: Limits, maxIdle: real)
    requires l.rate > 0.0 && l.burst < 1.0
    ensures PruningInvisible(l, maxIdle)
  {
    forall evs: seq<Event>, i: nat | InOrder(evs) && 0 <= i < |evs| && evs[i].Allow?
      ensures SameAnswer(l, maxIdle, evs, i)
    {
      PlayCapped(l, maxIdle, true, evs[..i]);
      PlayCapped(l, maxIdle, false, evs[..i]);
    }
  }

  /* ------------------------------------------------------------------ */
  /* Necessity: a run that tells the two apart                           */
  /* ------------------------------------------------------------------ */

  const K: string := "client"

  /** m requests at the same instant. */
  function Volley(m: nat, at: real): seq<Event> {
    if m == 0 then [] else Volley(m - 1, at) + [Allow(K, at)]
  }

  function Level(l: Limits, bs: Buckets, t: real): real {
    Refilled(l, bs, K, t).tokens
  }

  lemma PlaySnoc(l: Limits, maxIdle: real, prune: bool, evs: seq<Event>, e: Event)
    ensures Play(l, maxIdle, prune, evs + [e]) == Apply(l, maxIdle, prune, Play(l, maxIdle, prune, evs), e)
  {
    assert (evs + [e])[..|evs + [e]| - 1] == evs;
  }

  lemma Admission(l: Limits, bs: Buckets, t: real)
    requires l.rate > 0.0 && Level(l, bs, t) >= 1.0
    ensures var bs' := After(l, bs, K, t);
            K in bs' && bs'[K] == Bucket(Level(l, bs, t) - 1.0, t) && Level(l, bs', t) == Level(l, bs, t) - 1.0
  {}

  lemma VolleyStep(l: Limits, maxIdle: real, prune: bool, evs: seq<Event>, t: real)
    requires l.rate > 0.0 && Level(l, Play(l, maxIdle, prune, evs), t) >= 1.0
    ensures var bs := Play(l, maxIdle, prune, evs + [Allow(K, t)]);
            Level(l, bs, t) == Level(l, Play(l, maxIdle, prune, evs), t) - 1.0 && K in bs && bs[K].lastSeen == t
  {
    hide Level;
    PlaySnoc(l, maxIdle, prune, evs, Allow(K, t));
    Admission(l, Play(l, maxIdle, prune, evs), t);
  }

  /** While the level lasts, each request of a volley takes one token. */
  lemma {:induction false} VolleyDrains(l: Limits, maxIdle: real, prune: bool, evs: seq<Event>, m: nat, t: real)
    requires l.rate > 0.0 && Level(l, Play(l, maxIdle, prune, evs), t) >= m as real
    ensures Level(l, Play(l, maxIdle, prune, evs + Volley(m, t)), t)
         == Level(l, Play(l, maxIdle, prune, evs), t) - m as real
    ensures m > 0 ==> var bs := Play(l, maxIdle, prune, evs + Volley(m, t)); K in bs && bs[K].lastSeen == t
  {
    hide Level, Play;
    if m == 0 {
      assert evs + Volley(m, t) == evs;
    } else {
      VolleyDrains(l, maxIdle, prune, evs, m - 1, t);
      var before := evs + Volley(m - 1, t);
      assert evs + Volley(m, t) == before + [Allow(K, t)];
      VolleyStep(l, maxIdle, prune, before, t);
    }
  }

  lemma {:induction false} VolleyInOrder(evs: seq<Event>, m: nat, t: real)
    requires InOrder(evs) && forall i :: 0 <= i < |evs| ==> evs[i].at <= t
    ensures InOrder(evs + Volley(m, t)) && forall i :: 0 <= i < |evs + Volley(m, t)| ==> (evs + Volley(m, t))[i].at <= t
  {
    if m == 0 {
      assert evs + Volley(m, t) == evs;
    } else {
      VolleyInOrder(evs, m - 1, t);
      assert evs + Volley(m, t) == evs + Volley(m - 1, t) + [Allow(K, t)];
    }
  }

  /** How long x tokens take to accrue. */
  lemma Delay(l: Limits, x: real) returns (w: real)
    requires l.rate > 0.0 && x >= 0.0
    ensures w >= 0.0 && l.rate * w == x && (x > 0.0 ==> w > 0.0)
  {
    w := x / l.rate;
    assert w * l.rate == x;
  }

  /** Level of a bucket after waiting w, in which x tokens accrue. */
  lemma Wait(l: Limits, bs: Buckets, t: real, w: real, x: real)
    requires l.rate > 0.0 && K in bs && bs[K].lastSeen == t && bs[K].tokens <= l.burst
    requires w >= 0.0 && l.rate * w == x
    ensures Level(l, bs, t + w) == Min(l.burst, Level(l, bs, t) + x)
  {
    assert t + w - t == w;
  }

  lemma {:induction false} Earlier(evs: seq<Event>, e: Event)
    requires InOrder(evs) && forall i :: 0 <= i < |evs| ==> evs[i].at <= e.at
    ensures InOrder(evs + [e]) && forall i :: 0 <= i < |evs + [e]| ==> (evs + [e])[i].at <= e.at
  {}

  lemma FirstVolley(l: Limits, maxIdle: real, prune: bool, n: nat)
    requires l.rate > 0.0 && 0 < n && n as real <= l.burst
    ensures var bs := Play(l, maxIdle, prune, Volley(n, 0.0));
            && Level(l, bs, 0.0) == l.burst - n as real
            && K in bs && bs[K].lastSeen == 0.0 && bs[K].tokens <= l.burst
  {
    assert [] + Volley(n, 0.0) == Volley(n, 0.0);
    VolleyDrains(l, maxIdle, prune, [], n, 0.0);
    PlayCapped(l, maxIdle, prune, Volley(n, 0.0));
  }

  /** Empty the bucket: a volley of whole tokens, then one request as soon as
      the fraction left over has grown to a token. */
  lemma Emptied(l: Limits, maxIdle: real, prune: bool, n: nat, t: real)
    requires l.rate > 0.0 && l.burst >= 1.0 && 0 < n && n as real <= l.burst < n as real + 1.0
    requires t >= 0.0 && l.rate * t == 1.0 - (l.burst - n as real)
    ensures var bs := Play(l, maxIdle, prune, Volley(n, 0.0) + [Allow(K, t)]); K in bs && bs[K] == Bucket(0.0, t)
  {
    FirstVolley(l, maxIdle, prune, n);
    var bs := Play(l, maxIdle, prune, Volley(n, 0.0));
    assert Level(l, bs, t) == 1.0 by {
      Wait(l, bs, 0.0, t, 1.0 - (l.burst - n as real));
      assert 0.0 + t == t;
    }
    PlaySnoc(l, maxIdle, prune, Volley(n, 0.0), Allow(K, t));
    Admission(l, bs, t);
  }

  lemma Differ(l: Limits, maxIdle: real, evs: seq<Event>, t: real)
    requires l.rate > 0.0
    requires InOrder(evs) && forall i :: 0 <= i < |evs| ==> evs[i].at <= t
    requires Level(l, Play(l, maxIdle, false, evs), t) < 1.0 <= Level(l, Play(l, maxIdle, true, evs), t)
    ensures !PruningInvisible(l, maxIdle)
  {
    var all := evs + [Allow(K, t)];
    Earlier(evs, Allow(K, t));
    assert all[..|evs|] == evs && all[|evs|] == Allow(K, t);
    assert !SameAnswer(l, maxIdle, all, |evs|);
  }

  /** Two tables at different levels answer some later request differently. */
  lemma Distinguish(l: Limits, maxIdle: real, evs: seq<Event>, t: real)
    requires l.rate > 0.0 && l.burst >= 1.0
    requires InOrder(evs) && forall i :: 0 <= i < |evs| ==> evs[i].at <= t
    requires 0.0 < Level(l, Play(l, maxIdle, false, evs), t) < Level(l, Play(l, maxIdle, true, evs), t) == l.burst
    ensures !PruningInvisible(l, maxIdle)
  {
    var u, b := Level(l, Play(l, maxIdle, false, evs), t), l.burst;
    var m := u.Floor;
    VolleyDrains(l, maxIdle, false, evs, m, t);
    VolleyDrains(l, maxIdle, true, evs, m, t);
    VolleyInOrder(evs, m, t);
    if b - m as real >= 1.0 {
      Differ(l, maxIdle, evs + Volley(m, t), t);
    } else {
      assert m > 0;
      Waited(l, maxIdle, evs + Volley(m, t), t);
    }
  }

  /** Both levels below one: wait until the pruned one reaches one again. */
  lemma Waited(l: Limits, maxIdle: real, run: seq<Event>, t: real)
    requires l.rate > 0.0 && l.burst >= 1.0
    requires InOrder(run) && forall i :: 0 <= i < |run| ==> run[i].at <= t
    requires var bs := Play(l, maxIdle, true, run); K in bs && bs[K].lastSeen == t
    requires var bs := Play(l, maxIdle, false, run); K in bs && bs[K].lastSeen == t
    requires Level(l, Play(l, maxIdle, false, run), t) < Level(l, Play(l, maxIdle, true, run), t) < 1.0
    ensures !PruningInvisible(l, maxIdle)
  {
    var p, u := Play(l, maxIdle, true, run), Play(l, maxIdle, false, run);
    var short := 1.0 - Level(l, p, t);
    var w := Delay(l, short);
    PlayCapped(l, maxIdle, true, run);
    PlayCapped(l, maxIdle, false, run);
    Wait(l, p, t, w, short);
    Wait(l, u, t, w, short);
    Differ(l, maxIdle, run, t + w);
  }

  /** The gap: longer than maxIdle, yet too short to fill an empty bucket. */
  lemma Gap(l: Limits, maxIdle: real) returns (gap: real)
    requires l.rate > 0.0 && maxIdle >= 0.0 && l.rate * maxIdle < l.burst
    ensures gap > maxIdle && 0.0 < l.rate * gap < l.burst
  {
    var extra := (l.burst - l.rate * maxIdle) / 2.0;
    var e := Delay(l, extra);
    gap := maxIdle + e;
    assert l.rate * gap == l.rate * maxIdle + l.rate * e;
    MoreTime(l.rate, 0.0, maxIdle);
  }

  /** When a full bucket takes longer than maxIdle, some run shows the pruning:
      empty the bucket, idle just too long, clean up, and spend. */
  lemma SlowAccrualShowsPruning(l: Limits, maxIdle: real)
    requires l.rate > 0.0 && maxIdle >= 0.0 && 1.0 <= l.burst && l.rate * maxIdle < l.burst
    ensures !PruningInvisible(l, maxIdle)
  {
    var n := l.burst.Floor;
    var t := Delay(l, 1.0 - (l.burst - n as real));
    Emptied(l, maxIdle, true, n, t);
    Emptied(l, maxIdle, false, n, t);
    VolleyInOrder([], n, 0.0);
    assert [] + Volley(n, 0.0) == Volley(n, 0.0);
    Earlier(Volley(n, 0.0), Allow(K, t));
    IdleThenClean(l, maxIdle, Volley(n, 0.0) + [Allow(K, t)], t);
  }

  lemma IdleThenClean(l: Limits, maxIdle: real, evs: seq<Event>, t: real)
    requires l.rate > 0.0 && maxIdle >= 0.0 && 1.0 <= l.burst && l.rate * maxIdle < l.burst
    requires InOrder(evs) && forall i :: 0 <= i < |evs| ==> evs[i].at <= t
    requires var bs := Play(l, maxIdle, true, evs); K in bs && bs[K] == Bucket(0.0, t)
    requires var bs := Play(l, maxIdle, false, evs); K in bs && bs[K] == Bucket(0.0, t)
    ensures !PruningInvisible(l, maxIdle)
  {
    var gap := Gap(l, maxIdle);
    Earlier(evs, Cleanup(t + gap));
    PlaySnoc(l, maxIdle, false, evs, Cleanup(t + gap));
    PlaySnoc(l, maxIdle, true, evs, Cleanup(t + gap));
    Wait(l, Play(l, maxIdle, false, evs), t, gap, l.rate * gap);
    Distinguish(l, maxIdle, evs + [Cleanup(t + gap)], t + gap);
  }

  /** The exact condition. */
  lemma PruningInvisibleIff(l: Limits, maxIdle: real)
    requires maxIdle >= 0.0
    ensures PruningInvisible(l, maxIdle) <==> l.rate <= 0.0 || l.burst < 1.0 || l.burst <= l.rate * maxIdle
  {
    if l.rate <= 0.0 {
      assert forall bs, k, t :: Admits(l, bs, k, t);
    } else if l.burst < 1.0 {
      RefusingHidesPruning(l, maxIdle);
    } else if l.burst <= l.rate * maxIdle {
      AccrualHidesPruning(l, maxIdle);
    } else {
      SlowAccrualShowsPruning(l, maxIdle);
    }
  }
}
