/**
 The per-key token bucket: exact reals for tokens and seconds, and one clock
 reading per call.
 */
module RateLimit {
  import opened Common

  datatype Bucket = Bucket(tokens: real, lastSeen: real)

  datatype Limits = Limits(rate: real, burst: real)

  type Buckets = map<string, Bucket>

  function Min(a: real, b: real): real {
    if a < b then a else b
  }

  /** The bucket a request finds after creation or refill. */
  function Refilled(l: Limits, bs: Buckets, k: string, now: real): Bucket {
    if k !in bs then Bucket(l.burst, now)
    else
      var b := bs[k];
      var elapsed := now - b.lastSeen;
      Bucket(if elapsed > 0.0 then Min(l.burst, b.tokens + l.rate * elapsed) else b.tokens, now)
  }

  predicate Admits(l: Limits, bs: Buckets, k: string, now: real) {
    l.rate <= 0.0 || Refilled(l, bs, k, now).tokens >= 1.0
  }

  function After(l: Limits, bs: Buckets, k: string, now: real): Buckets {
    if l.rate <= 0.0 then bs
    else
      var b := Refilled(l, bs, k, now);
      bs[k := if b.tokens < 1.0 then b else b.(tokens := b.tokens - 1.0)]
  }

  function Pruned(bs: Buckets, cutoff: real): Buckets {
    map k | k in bs && !(bs[k].lastSeen < cutoff) :: bs[k]
  }

  class RateLimiter {
    const limits: Limits
    const maxIdle: real
    var buckets: Buckets

    constructor (ratePerSec: real, burst: real)
      ensures limits == Limits(ratePerSec, burst) && maxIdle == 600.0 && buckets == map[]
    {
      limits := Limits(ratePerSec, burst);
      maxIdle := 600.0;
      buckets := map[];
    }

    method Allow(k: string, now: real) returns (ok: bool)
      modifies this`buckets
      ensures ok == Admits(limits, old(buckets), k, now)
      ensures buckets == After(limits, old(buckets), k, now)
    {
      if limits.rate <= 0.0 {
        return true;
      }
      var b: Bucket;
      if k !in buckets {
        b := Bucket(limits.burst, now);
      } else {
        b := buckets[k];
        var elapsed := now - b.lastSeen;
        if elapsed > 0.0 {
          b := b.(tokens := Min(limits.burst, b.tokens + limits.rate * elapsed));
        }
        b := b.(lastSeen := now);
      }
      if b.tokens < 1.0 {
        buckets := buckets[k := b];
        return false;
      }
      buckets := buckets[k := b.(tokens := b.tokens - 1.0)];
      return true;
    }

    method CleanupIdle(now: real)
      modifies this`buckets
      ensures buckets == Pruned(old(buckets), now - maxIdle)
    {
      var cutoff := now - maxIdle;
      var todo := buckets.Keys;
      while todo != {}
        invariant todo <= old(buckets).Keys
        invariant buckets.Keys <= old(buckets).Keys
        invariant forall k :: k in buckets ==> buckets[k] == old(buckets)[k]
        invariant forall k :: k in old(buckets) ==>
                    (k in buckets <==> k in todo || !(old(buckets)[k].lastSeen < cutoff))
        decreases |todo|
      {
        var k :| k in todo;
        if buckets[k].lastSeen < cutoff {
          buckets := buckets - {k};
        }
        todo := todo - {k};
      }
    }
  }

  /* ------------------------------------------------------------------ */
  /* The admission envelope                                              */
  /* ------------------------------------------------------------------ */

  datatype Request = Request(key: string, at: real)

  /** The table after all of `reqs`, starting empty. */
  function Table(l: Limits, reqs: seq<Request>): Buckets {
    if reqs == [] then map[]
    else
      var last := reqs[|reqs| - 1];
      After(l, Table(l, reqs[..|reqs| - 1]), last.key, last.at)
  }

  /** Whether request i of the run is admitted. */
  predicate Admitted(l: Limits, reqs: seq<Request>, i: nat)
    requires i < |reqs|
  {
    Admits(l, Table(l, reqs[..i]), reqs[i].key, reqs[i].at)
  }

  /** Admissions of key k among requests j, ..., n-1. */
  function Count(l: Limits, reqs: seq<Request>, k: string, j: nat, n: nat): nat
    requires j <= n <= |reqs|
    decreases n
  {
    if j == n then 0
    else Count(l, reqs, k, j, n - 1) + if reqs[n-1].key == k && Admitted(l, reqs, n - 1) then 1 else 0
  }

  /** The clock reading of key k's latest request before n, if any. */
  function LastAt(reqs: seq<Request>, k: string, n: nat): Option<real>
    requires n <= |reqs|
  {
    if n == 0 then None
    else if reqs[n-1].key == k then Some(reqs[n-1].at)
    else LastAt(reqs, k, n - 1)
  }

  /** Time that has run forward between key k's successive readings before n:
      steps back count for nothing. */
  function Forward(reqs: seq<Request>, k: string, n: nat): real
    requires n <= |reqs|
  {
    if n == 0 then 0.0
    else if reqs[n-1].key != k then Forward(reqs, k, n - 1)
    else
      var last := LastAt(reqs, k, n - 1);
      Forward(reqs, k, n - 1) +
      if last.Some? && reqs[n-1].at > last.value then reqs[n-1].at - last.value else 0.0
  }

  /** Forward time between requests j and n of one key. */
  function Between(reqs: seq<Request>, j: nat, n: nat): real
    requires j <= n < |reqs|
  {
    Forward(reqs, reqs[n].key, n + 1) - Forward(reqs, reqs[n].key, j + 1)
  }

  /** Tokens that accrue between two readings. */
  function Grown(rate: real, elapsed: real): real {
    if elapsed > 0.0 then rate * elapsed else 0.0
  }

  /** Tokens that accrue for key k in its forward time before n, were there no cap. */
  function Accrued(l: Limits, reqs: seq<Request>, k: string, n: nat): real
    requires n <= |reqs|
  {
    if n == 0 then 0.0
    else if reqs[n-1].key != k then Accrued(l, reqs, k, n - 1)
    else
      var last := LastAt(reqs, k, n - 1);
      Accrued(l, reqs, k, n - 1) + if last.Some? then Grown(l.rate, reqs[n-1].at - last.value) else 0.0
  }

  lemma {:induction false} AccruedIsScaled(l: Limits, reqs: seq<Request>, k: string, n: nat)
    requires n <= |reqs|
    ensures Accrued(l, reqs, k, n) == l.rate * Forward(reqs, k, n)
  {
    if n > 0 {
      AccruedIsScaled(l, reqs, k, n - 1);
      AccruedGrows(l, reqs, k, n - 1);
      Sum(l.rate, Forward(reqs, k, n - 1), Forward(reqs, k, n) - Forward(reqs, k, n - 1));
    }
  }

  lemma AccruedGrows(l: Limits, reqs: seq<Request>, k: string, n: nat)
    requires n < |reqs|
    ensures Accrued(l, reqs, k, n + 1)
         == Accrued(l, reqs, k, n) + l.rate * (Forward(reqs, k, n + 1) - Forward(reqs, k, n))
  {
    var last := LastAt(reqs, k, n);
    if reqs[n].key == k && last.Some? && reqs[n].at > last.value {
      assert Forward(reqs, k, n + 1) - Forward(reqs, k, n) == reqs[n].at - last.value;
    } else {
      assert Forward(reqs, k, n + 1) - Forward(reqs, k, n) == 0.0;
    }
  }

  lemma Sum(r: real, a: real, d: real)
    ensures r * (a + d) == r * a + r * d
  {}

  /** What the envelope leaves before request n, when `a` has accrued, for the
      window that opens at request j. */
  function Room(l: Limits, reqs: seq<Request>, k: string, j: nat, n: nat, a: real): real
    requires j < n <= |reqs|
  {
    l.burst + a - Accrued(l, reqs, k, j + 1) - Count(l, reqs, k, j, n) as real
  }

  /** No window of key k's requests before n has less room than x. */
  ghost predicate AtMostRooms(l: Limits, reqs: seq<Request>, k: string, n: nat, a: real, x: real)
    requires n <= |reqs|
  {
    forall j :: 0 <= j < n && reqs[j].key == k ==> x <= Room(l, reqs, k, j, n, a)
  }

  /** Some window has room x. */
  ghost predicate IsRoom(l: Limits, reqs: seq<Request>, k: string, n: nat, a: real, x: real)
    requires n <= |reqs|
  {
    exists j :: 0 <= j < n && reqs[j].key == k && x == Room(l, reqs, k, j, n, a)
  }

  /** The bucket of key k holds the least room over all windows of its requests. */
  ghost predicate Tight(l: Limits, reqs: seq<Request>, n: nat, k: string)
    requires n <= |reqs|
  {
    var bs, a := Table(l, reqs[..n]), Accrued(l, reqs, k, n);
    && (k in bs <==> LastAt(reqs, k, n).Some?)
    && (k !in bs ==> forall j :: 0 <= j < n ==> reqs[j].key != k)
    && (k in bs ==>
          var b := bs[k];
          && b.tokens <= l.burst && LastAt(reqs, k, n) == Some(b.lastSeen)
          && AtMostRooms(l, reqs, k, n, a, b.tokens) && IsRoom(l, reqs, k, n, a, b.tokens))
  }

  lemma TableSnoc(l: Limits, reqs: seq<Request>, n: nat)
    requires n < |reqs|
    ensures Table(l, reqs[..n+1]) == After(l, Table(l, reqs[..n]), reqs[n].key, reqs[n].at)
  {
    assert reqs[..n+1][..n] == reqs[..n];
  }

  /** Refilling adds what has grown since the last request, up to the burst. */
  lemma RefilledGrows(l: Limits, bs: Buckets, k: string, now: real)
    requires l.rate > 0.0 && k in bs && bs[k].tokens <= l.burst
    ensures Refilled(l, bs, k, now).tokens == Min(l.burst, bs[k].tokens + Grown(l.rate, now - bs[k].lastSeen))
  {}

  lemma RefilledNew(l: Limits, bs: Buckets, k: string, now: real)
    ensures k !in bs ==> Refilled(l, bs, k, now) == Bucket(l.burst, now)
  {}

  lemma RefilledIsMin(l: Limits, bs: Buckets, reqs: seq<Request>, n: nat)
    requires l.rate > 0.0 && n < |reqs| && reqs[n].key in bs
    requires bs[reqs[n].key].tokens <= l.burst && LastAt(reqs, reqs[n].key, n) == Some(bs[reqs[n].key].lastSeen)
    ensures var k := reqs[n].key;
            Refilled(l, bs, k, reqs[n].at).tokens
              == Min(l.burst, bs[k].tokens + Accrued(l, reqs, k, n + 1) - Accrued(l, reqs, k, n))
  {
    hide Refilled, Grown;
    RefilledGrows(l, bs, reqs[n].key, reqs[n].at);
  }

  /** The least room stays least when every room grows alike and the tokens are
      cut to the burst. */
  lemma RoomGrows(l: Limits, reqs: seq<Request>, k: string, n: nat, a: real, a': real, tokens: real)
    requires n <= |reqs| && AtMostRooms(l, reqs, k, n, a, tokens) && IsRoom(l, reqs, k, n, a, tokens)
    ensures var grown := Min(l.burst, tokens + a' - a);
            && AtMostRooms(l, reqs, k, n, a', grown) && (grown == l.burst || IsRoom(l, reqs, k, n, a', grown))
  {
    hide Accrued, Count;
    forall j | 0 <= j < n && reqs[j].key == k
      ensures Room(l, reqs, k, j, n, a') == Room(l, reqs, k, j, n, a) + a' - a
    {}
    var j :| 0 <= j < n && reqs[j].key == k && tokens == Room(l, reqs, k, j, n, a);
    assert tokens + a' - a == Room(l, reqs, k, j, n, a');
  }

  /** Before request n is decided, its refilled bucket holds the least room. */
  lemma RefillTight(l: Limits, reqs: seq<Request>, n: nat)
    requires l.rate > 0.0 && n < |reqs| && Tight(l, reqs, n, reqs[n].key)
    ensures var k, a := reqs[n].key, Accrued(l, reqs, reqs[n].key, n + 1);
            var tokens := Refilled(l, Table(l, reqs[..n]), k, reqs[n].at).tokens;
            && tokens <= l.burst
            && AtMostRooms(l, reqs, k, n, a, tokens) && (tokens == l.burst || IsRoom(l, reqs, k, n, a, tokens))
  {
    hide Accrued, Table, Count, Room, Refilled;
    var k, bs := reqs[n].key, Table(l, reqs[..n]);
    RefilledNew(l, bs, k, reqs[n].at);
    if k in bs {
      hide AtMostRooms, IsRoom;
      RefilledIsMin(l, bs, reqs, n);
      RoomGrows(l, reqs, k, n, Accrued(l, reqs, k, n), Accrued(l, reqs, k, n + 1), bs[k].tokens);
    }
  }

  lemma TightOther(l: Limits, reqs: seq<Request>, n: nat, k: string)
    requires l.rate > 0.0 && n < |reqs| && k != reqs[n].key && Tight(l, reqs, n, k)
    ensures Tight(l, reqs, n + 1, k)
  {
    TableSnoc(l, reqs, n);
    var bs, a := Table(l, reqs[..n]), Accrued(l, reqs, k, n);
    if k in bs {
      var j :| 0 <= j < n && reqs[j].key == k && bs[k].tokens == Room(l, reqs, k, j, n, a);
      assert bs[k].tokens == Room(l, reqs, k, j, n + 1, a);
    }
  }

  lemma TightOwn(l: Limits, reqs: seq<Request>, n: nat)
    requires l.rate > 0.0 && n < |reqs| && Tight(l, reqs, n, reqs[n].key)
    ensures Tight(l, reqs, n + 1, reqs[n].key)
  {
    hide Grown;
    TableSnoc(l, reqs, n);
    RefillTight(l, reqs, n);
    var k, a := reqs[n].key, Accrued(l, reqs, reqs[n].key, n + 1);
    var tokens := Refilled(l, Table(l, reqs[..n]), k, reqs[n].at).tokens;
    var b := Table(l, reqs[..n+1])[k];
    var spent := if Admitted(l, reqs, n) then 1.0 else 0.0;
    assert b.tokens == tokens - spent;
    assert Count(l, reqs, k, n, n + 1) as real == spent;
    assert Room(l, reqs, k, n, n + 1, a) == l.burst - spent;
    forall j | 0 <= j < n && reqs[j].key == k
      ensures Room(l, reqs, k, j, n + 1, a) == Room(l, reqs, k, j, n, a) - spent
    {}
    if tokens != l.burst {
      var j :| 0 <= j < n && reqs[j].key == k && tokens == Room(l, reqs, k, j, n, a);
      assert b.tokens == Room(l, reqs, k, j, n + 1, a);
    }
  }

  lemma {:induction false} AlwaysTight(l: Limits, reqs: seq<Request>, n: nat, k: string)
    requires l.rate > 0.0 && n <= |reqs|
    ensures Tight(l, reqs, n, k)
  {
    if n != 0 {
      AlwaysTight(l, reqs, n - 1, k);
      if k == reqs[n-1].key {
        TightOwn(l, reqs, n - 1);
      } else {
        TightOther(l, reqs, n - 1, k);
      }
    }
  }

  /** What accrues between requests j and n of one key. */
  function Allowance(l: Limits, reqs: seq<Request>, j: nat, n: nat): real
    requires j <= n < |reqs|
  {
    Accrued(l, reqs, reqs[n].key, n + 1) - Accrued(l, reqs, reqs[n].key, j + 1)
  }

  /** It is the rate times the time that ran forward between the readings. */
  lemma AllowanceIsRateTimesForward(l: Limits, reqs: seq<Request>, j: nat, n: nat)
    requires j <= n < |reqs|
    ensures Allowance(l, reqs, j, n) == l.rate * Between(reqs, j, n)
  {
    var k := reqs[n].key;
    AccruedIsScaled(l, reqs, k, n + 1);
    AccruedIsScaled(l, reqs, k, j + 1);
    Sum(l.rate, Forward(reqs, k, j + 1), Between(reqs, j, n));
  }

  /** Admitting request n would make the window that opens at request j hold more
      than burst + allowance admissions. */
  predicate Overfills(l: Limits, reqs: seq<Request>, j: nat, n: nat, allowance: real)
    requires j <= n < |reqs|
  {
    (Count(l, reqs, reqs[n].key, j, n) + 1) as real > l.burst + allowance
  }

  /** The bucket is exact, for every run, every interleaving of keys and any
      clock readings: a request is refused if and only if admitting it would make
      some window of its key's requests, ending now, hold more than
      burst + rate * length admissions, where length is the time that ran forward
      between the readings.  A rate that is not positive turns the limiter off. */
  lemma RefusedIffEnvelopeExceeded(l: Limits, reqs: seq<Request>, n: nat)
    requires n < |reqs|
    ensures !Admitted(l, reqs, n) <==>
              && l.rate > 0.0
              && exists j ::
                   && 0 <= j <= n && reqs[j].key == reqs[n].key
                   && Overfills(l, reqs, j, n, Allowance(l, reqs, j, n))
  {
    if l.rate <= 0.0 {
      return;
    }
    var k := reqs[n].key;
    AlwaysTight(l, reqs, n, k);
    NoRoomIffRefused(l, reqs, n);
    assert Overfills(l, reqs, n, n, Allowance(l, reqs, n, n)) <==> l.burst < 1.0;
    forall j | 0 <= j < n && reqs[j].key == k
      ensures Overfills(l, reqs, j, n, Allowance(l, reqs, j, n)) <==>
                Room(l, reqs, k, j, n, Accrued(l, reqs, k, n + 1)) < 1.0
    {}
  }

  lemma NoRoomIffRefused(l: Limits, reqs: seq<Request>, n: nat)
    requires l.rate > 0.0 && n < |reqs| && Tight(l, reqs, n, reqs[n].key)
    ensures var k := reqs[n].key;
            var a := Accrued(l, reqs, k, n + 1);
            !Admitted(l, reqs, n) <==>
              l.burst < 1.0 || exists j :: 0 <= j < n && reqs[j].key == k && Room(l, reqs, k, j, n, a) < 1.0
  {
    RefillTight(l, reqs, n);
  }

  /** Readings of one key that do not decrease in lock order. */
  predicate Ordered(reqs: seq<Request>) {
    forall i, j :: 0 <= i < j < |reqs| && reqs[i].key == reqs[j].key ==> reqs[i].at <= reqs[j].at
  }

  lemma {:induction false} LastAtMember(reqs: seq<Request>, k: string, n: nat) returns (i: nat)
    requires n <= |reqs| && LastAt(reqs, k, n).Some?
    ensures i < n && reqs[i].key == k && LastAt(reqs, k, n) == Some(reqs[i].at)
  {
    if reqs[n-1].key == k {
      i := n - 1;
    } else {
      i := LastAtMember(reqs, k, n - 1);
    }
  }

  lemma AccruedStep(l: Limits, reqs: seq<Request>, k: string, n: nat)
    requires n < |reqs| && LastAt(reqs, k, n).Some?
    ensures Accrued(l, reqs, k, n + 1) - Accrued(l, reqs, k, n) ==
              if reqs[n].key == k then Grown(l.rate, reqs[n].at - LastAt(reqs, k, n).value) else 0.0
  {}

  lemma GrownForward(rate: real, elapsed: real)
    requires elapsed >= 0.0
    ensures Grown(rate, elapsed) == rate * elapsed
  {
    assert rate * 0.0 == 0.0;
  }

  lemma {:induction false} AccruedIsElapsed(l: Limits, reqs: seq<Request>, k: string, j: nat, n: nat)
    requires Ordered(reqs) && j < n <= |reqs| && reqs[j].key == k
    ensures LastAt(reqs, k, n).Some?
    ensures Accrued(l, reqs, k, n) - Accrued(l, reqs, k, j + 1) == l.rate * (LastAt(reqs, k, n).value - reqs[j].at)
  {
    hide Accrued, Grown;
    if n > j + 1 {
      AccruedIsElapsed(l, reqs, k, j, n - 1);
      AccruedStep(l, reqs, k, n - 1);
      if reqs[n-1].key == k {
        var i := LastAtMember(reqs, k, n - 1);
        var d := reqs[n-1].at - reqs[i].at;
        GrownForward(l.rate, d);
        Sum(l.rate, reqs[i].at - reqs[j].at, d);
        assert reqs[i].at - reqs[j].at + d == reqs[n-1].at - reqs[j].at;
      }
    } else {
      assert LastAt(reqs, k, n).value - reqs[j].at == 0.0 && l.rate * 0.0 == 0.0;
    }
  }

  /** For ordered readings the windows have their ordinary length. */
  lemma RefusedIffWindowOverfull(l: Limits, reqs: seq<Request>, n: nat)
    requires Ordered(reqs) && n < |reqs|
    ensures !Admitted(l, reqs, n) <==>
              && l.rate > 0.0
              && exists j ::
                   && 0 <= j <= n && reqs[j].key == reqs[n].key
                   && Overfills(l, reqs, j, n, l.rate * (reqs[n].at - reqs[j].at))
  {
    forall j | 0 <= j <= n && reqs[j].key == reqs[n].key
      ensures Allowance(l, reqs, j, n) == l.rate * (reqs[n].at - reqs[j].at)
    {
      AccruedIsElapsed(l, reqs, reqs[n].key, j, n + 1);
    }
    RefusedIffEnvelopeExceeded(l, reqs, n);
  }

  /** Without order the ordinary window fails: `lastSeen` moves back and the same
      seconds are refilled twice. */
  lemma BackwardClockOverfills(k: string)
    ensures var l := Limits(1.0, 1.0);
            var reqs := [Request(k, 10.0), Request(k, 0.0), Request(k, 10.0)];
            Admitted(l, reqs, 2) && Overfills(l, reqs, 0, 2, l.rate * (reqs[2].at - reqs[0].at))
  {
    var l := Limits(1.0, 1.0);
    var reqs := [Request(k, 10.0), Request(k, 0.0), Request(k, 10.0)];
    TableSnoc(l, reqs, 0);
    TableSnoc(l, reqs, 1);
    assert reqs[..0] == [];
    assert Table(l, reqs[..0]) == map[];
    assert Table(l, reqs[..1])[k] == Bucket(0.0, 10.0);
    assert Table(l, reqs[..2])[k] == Bucket(0.0, 0.0);
    assert Admitted(l, reqs, 0) && !Admitted(l, reqs, 1);
    assert Count(l, reqs, k, 0, 1) == 1;
    assert Count(l, reqs, k, 0, 2) == 1;
  }
}
