/**
 The record cache as a concurrent protocol: any number of callers and background
 refreshes over four LRU buckets and one shared singleflight table.

 Every action below is one lock-protected section or one clock read of the
 code, so the interleavings of actions are the interleavings of the goroutines.
 `Signal` (the WaitGroup's Done) precedes `Delete`, and every joiner stores its own
 copy of the outcome after it wakes.

 `Call.cls`, `Call.leader` and `Outcome.fetchedAt` are history: no action's
 effect on the other fields depends on them, except that the cast of a waking
 joiner succeeds exactly when the value has the joiner's own type.
 */
module RecordCache {
  import opened Common
  import opened Lru

  datatype Class = Domain | Contact | Nameserver | Network

  /** Durations and clock readings are integers; `size` is positive in `New`. */
  datatype Config = Config(size: nat, ttl: int, negTtl: int, staleTtl: int) {
    function TtlFor(err: Option<string>): int {
      if err.Some? then negTtl else ttl
    }

    function StaleWindow(): int {
      if staleTtl > 0 then staleTtl else 0
    }
  }

  /** What a backend fetch for (cls, key) returned.  The dynamic type is `cls`
      even when the value is a nil pointer. */
  datatype Outcome = Outcome(cls: Class, key: string, val: Option<string>, err: Option<string>, fetchedAt: int)

  datatype Cached = Cached(out: Outcome, expires: int)

  type Bucket = seq<Entry<string, Cached>>

  datatype Buckets = Buckets(domains: Bucket, entities: Bucket, nameservers: Bucket, networks: Bucket) {
    function Of(c: Class): Bucket {
      match c
      case Domain => domains
      case Contact => entities
      case Nameserver => nameservers
      case Network => networks
    }

    function With(c: Class, b: Bucket): (r: Buckets)
      ensures r.Of(c) == b && forall d :: d != c ==> r.Of(d) == Of(d)
    {
      match c
      case Domain => this.(domains := b)
      case Contact => this.(entities := b)
      case Nameserver => this.(nameservers := b)
      case Network => this.(networks := b)
    }
  }

  datatype Phase =
    | Start                                          // getOrLoad entered
    | Looking(now: int)                              // clock read, bucket not yet consulted
    | Removing                                       // expired entry seen
    | Entering                                       // about to call singleflight.do
    | Waiting(call: nat)                             // joined an existing call
    | Leading(call: nat)                             // fetch in progress
    | Fetched(call: nat)                             // result stored, Done not yet called
    | Signalled(call: nat)                           // Done called, entry not yet deleted
    | Returned(call: nat, out: Outcome)              // do returned
    | Storing(call: nat, out: Outcome, expires: int) // cast done and clock read, put pending
    | Crashed(call: nat)                             // the type assertion panicked
    | Loaded(call: nat, out: Outcome)                // finished with a fetched outcome
    | Served(entry: Cached, now: int)                // finished with a cached outcome
  {
    predicate Finished() { Crashed? || Loaded? || Served? }

    predicate Leads() { Leading? || Fetched? || Signalled? }

    function Joined(): Option<nat> {
      if Waiting? || Leads() || Returned? || Storing? || Crashed? || Loaded? then Some(call) else None
    }
  }

  /** A request in getOrLoad, or a background refresh.  A panic in a request is
      caught by the HTTP server; one in a refresh is not and ends the process. */
  datatype Thread = Thread(cls: Class, key: string, refresh: bool, phase: Phase)

  datatype Call = Call(key: string, cls: Class, leader: nat, result: Option<Outcome>, done: bool)

  /** `down`: the process has ended. */
  datatype State = State(threads: seq<Thread>, calls: seq<Call>, inflight: map<string, nat>, buckets: Buckets,
                         down: bool)

  datatype Action =
    | ReadClock(i: nat, now: int)
    | LookUp(i: nat)
    | Discard(i: nat)
    | Enter(i: nat)
    | Fetch(i: nat, val: Option<string>, err: Option<string>, at: int)
    | Signal(i: nat)
    | Delete(i: nat)
    | Wake(i: nat)
    | Stamp(i: nat, now: int)
    | Put(i: nat)

  predicate Enabled(s: State, a: Action) {
    !s.down && a.i < |s.threads| &&
    var p := s.threads[a.i].phase;
    match a
    case ReadClock(_, _) => p.Start?
    case LookUp(_) => p.Looking?
    case Discard(_) => p.Removing?
    case Enter(_) => p.Entering?
    case Fetch(_, _, _, _) => p.Leading? && p.call < |s.calls|
    case Signal(_) => p.Fetched? && p.call < |s.calls|
    case Delete(_) => p.Signalled? && p.call < |s.calls| && s.calls[p.call].result.Some?
    case Wake(_) => p.Waiting? && p.call < |s.calls| && s.calls[p.call].done && s.calls[p.call].result.Some?
    case Stamp(_, _) => p.Returned?
    case Put(_) => p.Storing?
  }

  function Goto(s: State, i: nat, p: Phase): State
    requires i < |s.threads|
  {
    s.(threads := s.threads[i := s.threads[i].(phase := p)])
  }

  function InBucket(s: State, c: Class, b: Bucket): State {
    s.(buckets := s.buckets.With(c, b))
  }

  /** The lookup half of getOrLoad: fresh, stale, expired or absent. */
  function DoLookUp(cfg: Config, s: State, i: nat): State
    requires i < |s.threads| && s.threads[i].phase.Looking?
  {
    var t := s.threads[i];
    var now := t.phase.now;
    var b := s.buckets.Of(t.cls);
    match Lookup(b, t.key)
    case None => Goto(s, i, Entering)
    case Some(c) =>
      var s' := InBucket(s, t.cls, Touch(b, t.key));
      if now < c.expires then Goto(s', i, Served(c, now))
      else if cfg.staleTtl > 0 && now < c.expires + cfg.staleTtl then
        var s'' := Goto(s', i, Served(c, now));
        s''.(threads := s''.threads + [Thread(t.cls, t.key, true, Entering)])
      else Goto(s', i, Removing)
  }

  /** The first critical section of singleflight.do: join or become leader. */
  function DoEnter(s: State, i: nat): State
    requires i < |s.threads|
  {
    var t := s.threads[i];
    if t.key in s.inflight then Goto(s, i, Waiting(s.inflight[t.key]))
    else
      var c := |s.calls|;
      Goto(s.(calls := s.calls + [Call(t.key, t.cls, i, None, false)], inflight := s.inflight[t.key := c]),
           i, Leading(c))
  }

  function Step(cfg: Config, s: State, a: Action): State
    requires Enabled(s, a)
  {
    var t := s.threads[a.i];
    var p := t.phase;
    match a
    case ReadClock(i, now) => Goto(s, i, Looking(now))
    case LookUp(i) => DoLookUp(cfg, s, i)
    case Discard(i) => Goto(InBucket(s, t.cls, Drop(s.buckets.Of(t.cls), t.key)), i, Entering)
    case Enter(i) => DoEnter(s, i)
    case Fetch(i, val, err, at) =>
      var out := Outcome(t.cls, t.key, val, err, at);
      Goto(s.(calls := s.calls[p.call := s.calls[p.call].(result := Some(out))]), i, Fetched(p.call))
    case Signal(i) =>
      Goto(s.(calls := s.calls[p.call := s.calls[p.call].(done := true)]), i, Signalled(p.call))
    case Delete(i) =>
      Goto(s.(inflight := s.inflight - {t.key}), i, Returned(p.call, s.calls[p.call].result.value))
    case Wake(i) => Goto(s, i, Returned(p.call, s.calls[p.call].result.value))
    case Stamp(i, now) =>
      if p.out.cls == t.cls then Goto(s, i, Storing(p.call, p.out, now + cfg.TtlFor(p.out.err)))
      else Goto(s, i, Crashed(p.call)).(down := t.refresh)
    case Put(i) =>
      Goto(InBucket(s, t.cls, Store(s.buckets.Of(t.cls), t.key, Cached(p.out, p.expires), cfg.size)),
           i, Loaded(p.call, p.out))
  }

  /** Callers that have just entered getOrLoad, over an empty cache. */
  ghost predicate Init(s: State) {
    && (forall i :: 0 <= i < |s.threads| ==> s.threads[i].phase == Start && !s.threads[i].refresh)
    && !s.down && s.calls == [] && s.inflight == map[] && s.buckets == Buckets([], [], [], [])
  }

  predicate Legal(cfg: Config, s: State, acts: seq<Action>)
    decreases |acts|
  {
    acts == [] || (Enabled(s, acts[0]) && Legal(cfg, Step(cfg, s, acts[0]), acts[1..]))
  }

  function Run(cfg: Config, s: State, acts: seq<Action>): State
    requires Legal(cfg, s, acts)
    decreases |acts|
  {
    if acts == [] then s else Run(cfg, Step(cfg, s, acts[0]), acts[1..])
  }

  /* ------------------------------------------------------------------ */
  /* The invariant                                                       */
  /* ------------------------------------------------------------------ */

  predicate ThreadOk(s: State, t: Thread, i: nat) {
    var p := t.phase;
    (p.Joined().Some? ==> p.call < |s.calls| && s.calls[p.call].key == t.key) &&
    (p.Leads() ==>
      var c := s.calls[p.call];
      && t.key in s.inflight && s.inflight[t.key] == p.call
      && c.leader == i && c.cls == t.cls
      && (c.result.Some? <==> !p.Leading?) && (c.done <==> p.Signalled?)) &&
    (p.Returned? || p.Storing? || p.Loaded? ==> s.calls[p.call].done && s.calls[p.call].result == Some(p.out)) &&
    (p.Storing? || p.Loaded? ==> s.calls[p.call].cls == t.cls) &&
    (p.Crashed? ==> s.calls[p.call].cls != t.cls) &&
    (p.Served? ==> p.entry.out.cls == t.cls && p.entry.out.key == t.key)
  }

  predicate LedBy(s: State, c: nat, leader: nat) {
    leader < |s.threads| && s.threads[leader].phase.Leads() && s.threads[leader].phase.call == c
  }

  predicate CallOk(s: State, c: nat)
    requires c < |s.calls|
  {
    var x := s.calls[c];
    && (x.result.Some? ==> x.result.value.cls == x.cls && x.result.value.key == x.key)
    && (x.done ==> x.result.Some?)
    && (!x.done ==> LedBy(s, c, x.leader))
  }

  predicate FlightOk(s: State, k: string)
    requires k in s.inflight
  {
    var c := s.inflight[k];
    c < |s.calls| && s.calls[c].key == k && LedBy(s, c, s.calls[c].leader)
  }

  predicate BucketOk(b: Bucket, c: Class) {
    forall e :: e in b ==> e.val.out.cls == c && e.val.out.key == e.key
  }

  ghost predicate Inv(s: State) {
    && (forall i :: 0 <= i < |s.threads| ==> ThreadOk(s, s.threads[i], i))
    && (forall c :: 0 <= c < |s.calls| ==> CallOk(s, c))
    && (forall k :: k in s.inflight ==> FlightOk(s, k))
    && (forall c :: BucketOk(s.buckets.Of(c), c))
  }

  /** Threads other than i are untouched (new ones may have been appended). */
  predicate OnlyMoves(s: State, s': State, i: nat) {
    && |s.threads| <= |s'.threads|
    && forall j :: 0 <= j < |s.threads| && j != i ==> s'.threads[j] == s.threads[j]
  }

  lemma CallFrame(s: State, s': State, i: nat, c: nat)
    requires OnlyMoves(s, s', i) && c < |s.calls| && CallOk(s, c)
    requires c < |s'.calls| && s'.calls[c] == s.calls[c]
    requires s.calls[c].done || s.calls[c].leader != i || LedBy(s', c, i)
    ensures CallOk(s', c)
  {}

  lemma FlightFrame(s: State, s': State, i: nat, k: string)
    requires OnlyMoves(s, s', i) && k in s.inflight && FlightOk(s, k)
    requires k in s'.inflight && s'.inflight[k] == s.inflight[k]
    requires var c := s.inflight[k];
             && c < |s'.calls| && s'.calls[c].key == s.calls[c].key && s'.calls[c].leader == s.calls[c].leader
             && (s.calls[c].leader != i || LedBy(s', c, i))
    ensures FlightOk(s', k)
  {}

  /** A step of a thread that leads no call, and changes no call. */
  lemma QuietFrame(s: State, s': State, i: nat)
    requires Inv(s) && i < |s.threads| && !s.threads[i].phase.Leads()
    requires OnlyMoves(s, s', i) && s'.calls == s.calls && s'.inflight == s.inflight
    ensures forall c :: 0 <= c < |s'.calls| ==> CallOk(s', c)
    ensures forall k :: k in s'.inflight ==> FlightOk(s', k)
    ensures forall j :: 0 <= j < |s.threads| && j != i ==> ThreadOk(s', s'.threads[j], j)
  {
    forall c | 0 <= c < |s'.calls| ensures CallOk(s', c) {
      CallFrame(s, s', i, c);
    }
    forall k | k in s'.inflight ensures FlightOk(s', k) {
      FlightFrame(s, s', i, k);
    }
    forall j | 0 <= j < |s.threads| && j != i ensures ThreadOk(s', s'.threads[j], j) {
      assert ThreadOk(s, s.threads[j], j);
    }
  }

  lemma QuietKeeps(s: State, s': State, i: nat, c: Class, b: Bucket)
    requires Inv(s) && i < |s.threads| && !s.threads[i].phase.Leads()
    requires OnlyMoves(s, s', i) && s'.calls == s.calls && s'.inflight == s.inflight
    requires s'.buckets == s.buckets.With(c, b) && BucketOk(b, c)
    requires forall j :: j == i || |s.threads| <= j < |s'.threads| ==> ThreadOk(s', s'.threads[j], j)
    ensures Inv(s')
  {
    QuietFrame(s, s', i);
  }

  /** Moving a thread that has no call to a phase that needs none. */
  lemma MoveKeeps(s: State, i: nat, p: Phase, b: Bucket, refresh: bool)
    requires Inv(s) && i < |s.threads| && s.threads[i].phase.Joined().None?
    requires p.Joined().None? && BucketOk(b, s.threads[i].cls)
    requires p.Served? ==> p.entry.out.cls == s.threads[i].cls && p.entry.out.key == s.threads[i].key
    ensures var t := s.threads[i];
            var s' := Goto(InBucket(s, t.cls, b), i, p);
            Inv(if refresh then s'.(threads := s'.threads + [Thread(t.cls, t.key, true, Entering)]) else s')
  {
    var t := s.threads[i];
    var s' := Goto(InBucket(s, t.cls, b), i, p);
    var s'' := s'.(threads := s'.threads + [Thread(t.cls, t.key, true, Entering)]);
    QuietKeeps(s, if refresh then s'' else s', i, t.cls, b);
  }

  lemma LookUpKeeps(cfg: Config, s: State, i: nat)
    requires Inv(s) && Enabled(s, LookUp(i))
    ensures Inv(DoLookUp(cfg, s, i))
  {
    var t := s.threads[i];
    var b := s.buckets.Of(t.cls);
    assert BucketOk(b, t.cls);
    match Lookup(b, t.key)
    case None =>
      assert s.buckets.With(t.cls, b) == s.buckets;
      MoveKeeps(s, i, Entering, b, false);
    case Some(c) =>
      TouchSubset(b, t.key);
      LookupMember(b, t.key);
      MoveKeeps(s, i, Served(c, t.phase.now), Touch(b, t.key), false);
      MoveKeeps(s, i, Served(c, t.phase.now), Touch(b, t.key), true);
      MoveKeeps(s, i, Removing, Touch(b, t.key), false);
  }

  lemma JoinKeeps(s: State, i: nat)
    requires Inv(s) && Enabled(s, Enter(i)) && s.threads[i].key in s.inflight
    ensures Inv(DoEnter(s, i))
  {
    assert FlightOk(s, s.threads[i].key);
    QuietFrame(s, DoEnter(s, i), i);
  }

  lemma LeadKeeps(s: State, i: nat)
    requires Inv(s) && Enabled(s, Enter(i)) && s.threads[i].key !in s.inflight
    ensures Inv(DoEnter(s, i))
  {
    var s' := DoEnter(s, i);
    forall c | 0 <= c < |s.calls| ensures CallOk(s', c) {
      CallFrame(s, s', i, c);
    }
    forall k | k in s.inflight ensures FlightOk(s', k) {
      FlightFrame(s, s', i, k);
    }
    forall j | 0 <= j < |s.threads| && j != i ensures ThreadOk(s', s'.threads[j], j) {
      assert ThreadOk(s, s.threads[j], j);
    }
  }

  lemma EnterKeeps(cfg: Config, s: State, i: nat)
    requires Inv(s) && Enabled(s, Enter(i))
    ensures Inv(Step(cfg, s, Enter(i)))
  {
    if s.threads[i].key in s.inflight {
      JoinKeeps(s, i);
    } else {
      LeadKeeps(s, i);
    }
  }

  /** The leader changes its own call, which stays led by it or becomes done. */
  lemma OwnCallKeeps(s: State, s': State, i: nat, c: nat)
    requires Inv(s) && i < |s.threads| && s.threads[i].phase.Leads() && s.threads[i].phase.call == c
    requires OnlyMoves(s, s', i) && |s'.threads| == |s.threads| && s'.inflight == s.inflight && s'.buckets == s.buckets
    requires |s'.calls| == |s.calls| && c < |s.calls|
    requires forall d :: 0 <= d < |s.calls| && d != c ==> s'.calls[d] == s.calls[d]
    requires s'.calls[c].key == s.calls[c].key && s'.calls[c].cls == s.calls[c].cls && s'.calls[c].leader == i
    requires !s.calls[c].done && CallOk(s', c) && LedBy(s', c, i) && ThreadOk(s', s'.threads[i], i)
    ensures Inv(s')
  {
    assert ThreadOk(s, s.threads[i], i);
    forall d | 0 <= d < |s'.calls| && d != c ensures CallOk(s', d) {
      CallFrame(s, s', i, d);
    }
    forall j | 0 <= j < |s'.threads| && j != i ensures ThreadOk(s', s'.threads[j], j) {
      assert ThreadOk(s, s.threads[j], j);
    }
    forall k | k in s'.inflight ensures FlightOk(s', k) {
      FlightFrame(s, s', i, k);
    }
  }

  lemma FetchSignalKeep(cfg: Config, s: State, a: Action)
    requires Inv(s) && Enabled(s, a) && (a.Fetch? || a.Signal?)
    ensures Inv(Step(cfg, s, a))
  {
    var t := s.threads[a.i];
    assert ThreadOk(s, t, a.i) && CallOk(s, t.phase.call);
    OwnCallKeeps(s, Step(cfg, s, a), a.i, t.phase.call);
  }

  lemma DeleteKeeps(cfg: Config, s: State, i: nat)
    requires Inv(s) && Enabled(s, Delete(i))
    ensures Inv(Step(cfg, s, Delete(i)))
  {
    var t := s.threads[i];
    var s' := Step(cfg, s, Delete(i));
    assert ThreadOk(s, t, i);
    assert CallOk(s, t.phase.call);
    forall c | 0 <= c < |s'.calls| ensures CallOk(s', c) {
      CallFrame(s, s', i, c);
    }
    forall j | 0 <= j < |s'.threads| ensures ThreadOk(s', s'.threads[j], j) {
      assert ThreadOk(s, s.threads[j], j);
    }
    forall k | k in s'.inflight ensures FlightOk(s', k) {
      assert FlightOk(s, k);
      FlightFrame(s, s', i, k);
    }
  }

  lemma PutKeeps(cfg: Config, s: State, i: nat)
    requires Inv(s) && Enabled(s, Put(i))
    ensures Inv(Step(cfg, s, Put(i)))
  {
    var t := s.threads[i];
    var p := t.phase;
    var s' := Step(cfg, s, Put(i));
    assert ThreadOk(s, t, i);
    assert CallOk(s, p.call);
    StoreSubset(s.buckets.Of(t.cls), t.key, Cached(p.out, p.expires), cfg.size);
    QuietFrame(s, s', i);
  }

  lemma LocalKeeps(cfg: Config, s: State, a: Action)
    requires Inv(s) && Enabled(s, a) && (a.ReadClock? || a.Discard? || a.Wake? || a.Stamp?)
    ensures Inv(Step(cfg, s, a))
  {
    var i := a.i;
    var t := s.threads[i];
    var s' := Step(cfg, s, a);
    assert ThreadOk(s, t, i);
    if a.Wake? || a.Stamp? {
      assert CallOk(s, t.phase.call);
    }
    DropSubset(s.buckets.Of(t.cls), t.key);
    QuietFrame(s, s', i);
  }

  lemma StepKeeps(cfg: Config, s: State, a: Action)
    requires Inv(s) && Enabled(s, a)
    ensures Inv(Step(cfg, s, a))
  {
    match a
    case LookUp(i) => LookUpKeeps(cfg, s, i);
    case Enter(i) => EnterKeeps(cfg, s, i);
    case Fetch(_, _, _, _) => FetchSignalKeep(cfg, s, a);
    case Signal(_) => FetchSignalKeep(cfg, s, a);
    case Delete(i) => DeleteKeeps(cfg, s, i);
    case Put(i) => PutKeeps(cfg, s, i);
    case _ => LocalKeeps(cfg, s, a);
  }

  lemma {:induction false} RunKeeps(cfg: Config, s: State, acts: seq<Action>)
    requires Inv(s) && Legal(cfg, s, acts)
    ensures Inv(Run(cfg, s, acts))
    decreases |acts|
  {
    if acts != [] {
      StepKeeps(cfg, s, acts[0]);
      RunKeeps(cfg, Step(cfg, s, acts[0]), acts[1..]);
    }
  }
}
