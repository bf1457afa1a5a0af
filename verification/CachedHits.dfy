/**
 Where a HIT comes from, and when it equals a fresh rendering.
 */
module CachedHits {
  import opened Common
  import opened Lru
  import opened Prefixes
  import opened Redaction
  import opened Mapper
  import opened ResponseCache
  import opened Server

  /** What the handler renders for event j. */
  function Rendering(cfg: Config, e: Event): Response
    requires e.Arrive?
  {
    Handle(cfg, e.store, e.req, e.orders)
  }

  /** Event j asked for key k, missed, and was answered with what the handler
      rendered for it. */
  predicate MissedAt(cfg: Config, evs: seq<Event>, j: nat, k: Key) {
    && j < |evs| && evs[j].Arrive? && CacheKey(evs[j].req) == Some(k)
    && ResponseAt(cfg, evs, j) == Some(Rendering(cfg, evs[j]))
  }

  function Captured(cfg: Config, r: Response, now: int): Stored<Body> {
    Stored(r.body, r.status, Kept(r.headers), now + cfg.ttl)
  }

  /** The pending capture p of request `id` was rendered by a miss before event n. */
  predicate RenderedBefore(cfg: Config, evs: seq<Event>, n: nat, id: nat, p: Pending)
    requires n <= |evs|
  {
    n > 0 &&
    (RenderedBefore(cfg, evs, n - 1, id, p) ||
     (MissedAt(cfg, evs, n - 1, p.key) && evs[n-1].id == id && p.resp == Rendering(cfg, evs[n-1])))
  }

  /** Entry e was stored under k by event m, from a capture with response r. */
  predicate StoredFrom(cfg: Config, evs: seq<Event>, m: nat, k: Key, e: Stored<Body>, r: Response)
    requires m < |evs|
  {
    && evs[m].Finish? && RenderedBefore(cfg, evs, m, evs[m].id, Pending(k, r))
    && Storable(r) && e == Captured(cfg, r, evs[m].now)
  }

  ghost predicate StoredBy(cfg: Config, evs: seq<Event>, m: nat, k: Key, e: Stored<Body>)
    requires m < |evs|
  {
    exists r :: StoredFrom(cfg, evs, m, k, e, r)
  }

  ghost predicate StoredBefore(cfg: Config, evs: seq<Event>, n: nat, k: Key, e: Stored<Body>)
    requires n <= |evs|
  {
    n > 0 && (StoredBefore(cfg, evs, n - 1, k, e) || StoredBy(cfg, evs, n - 1, k, e))
  }

  ghost predicate Traced(cfg: Config, evs: seq<Event>, n: nat, s: State)
    requires n <= |evs|
  {
    && (forall x :: x in s.shelf ==> StoredBefore(cfg, evs, n, x.key, x.val))
    && (forall id :: id in s.pending ==> RenderedBefore(cfg, evs, n, id, s.pending[id]))
  }

  lemma GetSubset(s: Shelf<Body>, capacity: nat, k: Key, now: int)
    ensures forall x :: x in AfterGet(s, capacity, k, now) ==> x in s
    ensures Found(s, capacity, k, now).Some? ==> Entry(k, Found(s, capacity, k, now).value) in s
    ensures Found(s, capacity, k, now).Some? ==> now <= Found(s, capacity, k, now).value.expires
  {
    DropSubset(s, k);
    TouchSubset(s, k);
    LookupMember(s, k);
  }

  lemma ArriveTraced(cfg: Config, evs: seq<Event>, n: nat)
    requires n < |evs| && evs[n].Arrive? && Traced(cfg, evs, n, Run(cfg, evs[..n]))
    ensures Traced(cfg, evs, n + 1, Step(cfg, Run(cfg, evs[..n]), evs[n]))
  {
    var s, e := Run(cfg, evs[..n]), evs[n];
    var k := CacheKey(e.req);
    if k.Some? {
      GetSubset(s.shelf, cfg.capacity, k.value, e.now);
    }
  }

  lemma FinishTraced(cfg: Config, evs: seq<Event>, n: nat, s: State)
    requires n < |evs| && evs[n].Finish? && Traced(cfg, evs, n, s)
    ensures Traced(cfg, evs, n + 1, Step(cfg, s, evs[n]))
  {
    var e := evs[n];
    if e.id in s.pending {
      var p := s.pending[e.id];
      var c := Captured(cfg, p.resp, e.now);
      assert Storable(p.resp) ==> StoredFrom(cfg, evs, n, p.key, c, p.resp);
      StoreSubset(s.shelf, p.key, c, cfg.capacity);
    }
  }

  lemma {:induction false} RunTraced(cfg: Config, evs: seq<Event>, n: nat)
    requires n <= |evs|
    ensures Traced(cfg, evs, n, Run(cfg, evs[..n]))
  {
    if n > 0 {
      RunTraced(cfg, evs, n - 1);
      assert evs[..n][..n-1] == evs[..n-1];
      if evs[n-1].Arrive? {
        ArriveTraced(cfg, evs, n - 1);
      } else {
        FinishTraced(cfg, evs, n - 1, Run(cfg, evs[..n-1]));
      }
    }
  }

  lemma {:induction false} RenderedAt(cfg: Config, evs: seq<Event>, n: nat, id: nat, p: Pending) returns (j: nat)
    requires n <= |evs| && RenderedBefore(cfg, evs, n, id, p)
    ensures j < n && MissedAt(cfg, evs, j, p.key) && evs[j].id == id && p.resp == Rendering(cfg, evs[j])
  {
    if MissedAt(cfg, evs, n - 1, p.key) && evs[n-1].id == id && p.resp == Rendering(cfg, evs[n-1]) {
      j := n - 1;
    } else {
      j := RenderedAt(cfg, evs, n - 1, id, p);
    }
  }

  lemma {:induction false} StoredAt(cfg: Config, evs: seq<Event>, n: nat, k: Key, e: Stored<Body>)
    returns (m: nat, r: Response)
    requires n <= |evs| && StoredBefore(cfg, evs, n, k, e)
    ensures m < n && StoredFrom(cfg, evs, m, k, e, r)
  {
    if StoredBefore(cfg, evs, n - 1, k, e) {
      m, r := StoredAt(cfg, evs, n - 1, k, e);
    } else {
      m := n - 1;
      r :| StoredFrom(cfg, evs, n - 1, k, e, r);
    }
  }

  predicate HitAt(cfg: Config, evs: seq<Event>, n: nat) {
    && n < |evs| && evs[n].Arrive? && CacheKey(evs[n].req).Some?
    && Found(Run(cfg, evs[..n]).shelf, cfg.capacity, CacheKey(evs[n].req).value, evs[n].now).Some?
  }

  /** Where the entry of a hit comes from. */
  lemma HitTraced(cfg: Config, evs: seq<Event>, n: nat) returns (j: nat, m: nat)
    requires HitAt(cfg, evs, n)
    ensures j < m < n && MissedAt(cfg, evs, j, CacheKey(evs[n].req).value) && Storable(Rendering(cfg, evs[j]))
    ensures evs[m].Finish? && evs[m].id == evs[j].id && evs[n].now <= evs[m].now + cfg.ttl
    ensures ResponseAt(cfg, evs, n) == Some(Replay(Captured(cfg, Rendering(cfg, evs[j]), evs[m].now)))
  {
    RunTraced(cfg, evs, n);
    var s, k := Run(cfg, evs[..n]), CacheKey(evs[n].req).value;
    GetSubset(s.shelf, cfg.capacity, k, evs[n].now);
    var e := Found(s.shelf, cfg.capacity, k, evs[n].now).value;
    var r;
    m, r := StoredAt(cfg, evs, n, k, e);
    j := RenderedAt(cfg, evs, m, evs[m].id, Pending(k, r));
  }

  predicate KeptHeader(h: string) { h == "Content-Type" || h == "Cache-Control" }

  /** The hit says what the response said: status, body, the two kept headers
      where they were set, the mark of a hit, and no other header. */
  ghost predicate Replays(hit: Response, r: Response) {
    && hit.status == r.status && hit.body == r.body
    && (forall h :: KeptHeader(h) ==> (h in hit.headers <==> h in r.headers && r.headers[h] != ""))
    && (forall h :: KeptHeader(h) && h in hit.headers ==> hit.headers[h] == r.headers[h])
    && "X-Gordap-Cache" in hit.headers && hit.headers["X-Gordap-Cache"] == "HIT"
    && (forall h :: h in hit.headers ==> KeptHeader(h) || h == "X-Gordap-Cache")
  }

  lemma CaptureReplays(cfg: Config, r: Response, now: int)
    ensures Replays(Replay(Captured(cfg, r, now)), r)
  {
    assert !KeptHeader("X-Gordap-Cache");
  }

  /** Hit n replays what miss j was rendered, which Finish m stored. */
  ghost predicate Sourced(cfg: Config, evs: seq<Event>, n: nat, j: nat, m: nat)
    requires n < |evs| && evs[n].Arrive? && CacheKey(evs[n].req).Some?
  {
    && j < m < n && MissedAt(cfg, evs, j, CacheKey(evs[n].req).value)
    && 200 <= Rendering(cfg, evs[j]).status < 300 && Rendering(cfg, evs[j]).body != NoBody
    && evs[m].Finish? && evs[m].id == evs[j].id && evs[n].now <= evs[m].now + cfg.ttl
    && ResponseAt(cfg, evs, n).Some? && Replays(ResponseAt(cfg, evs, n).value, Rendering(cfg, evs[j]))
  }

  /** Every hit of every run replays the status, body and kept headers of a 2xx
      response that the handler rendered for an earlier request with the same
      object, id and tier, whose client got it, and that was stored at most ttl
      before. */
  lemma HitReplaysRendering(cfg: Config, evs: seq<Event>, n: nat)
    requires HitAt(cfg, evs, n)
    ensures exists j: nat, m: nat :: Sourced(cfg, evs, n, j, m)
  {
    var j, m := HitTraced(cfg, evs, n);
    CaptureReplays(cfg, Rendering(cfg, evs[j]), evs[m].now);
    assert Sourced(cfg, evs, n, j, m);
  }

  /* ------------------------------------------------------------------ */
  /* A hit against a fresh rendering                                     */
  /* ------------------------------------------------------------------ */

  /** Map orders can show only in a jCard of a tier that sees emails or phones. */
  predicate OrdersHidden(o: Options) {
    TierOf(o.level).Anonymous? || !(o.emitJCard || o.jcardOnly)
  }

  lemma EntityByTier(c: Contact, o: Options, p: Options, a: MapOrder, b: MapOrder)
    requires p == o.(level := p.level) && TierOf(o.level) == TierOf(p.level) && (OrdersHidden(o) || a == b)
    ensures EntityOf(c, o, a) == EntityOf(c, p, b)
  {
    TierDecidesView(c, o.level, p.level);
    var card := BuildCard(c, RedactContact(c, o.level));
    if card.Some? && TierOf(o.level).Anonymous? {
      CardOrderInvisible(card.value, a, b);
    }
  }

  lemma DomainByTier(d: Domain, o: Options, p: Options, a: seq<MapOrder>, b: seq<MapOrder>)
    requires p == o.(level := p.level) && TierOf(o.level) == TierOf(p.level) && (OrdersHidden(o) || a == b)
    ensures DomainObjectOf(d, o, a) == DomainObjectOf(d, p, b)
  {
    forall i | 0 <= i < |d.contacts|
      ensures EntityOf(d.contacts[i], o, OrderAt(a, i)) == EntityOf(d.contacts[i], p, OrderAt(b, i))
    {
      EntityByTier(d.contacts[i], o, p, OrderAt(a, i), OrderAt(b, i));
    }
    assert ContactEntities(d.contacts, o, a) == ContactEntities(d.contacts, p, b);
    MarksByTier(d.contacts, o.level, p.level);
    if d.registrar.Some? {
      RegistrarByTier(d.registrar.value, o, p, OrderAt(a, |d.contacts|), OrderAt(b, |d.contacts|));
    }
  }

  lemma RegistrarByTier(r: Registrar, o: Options, p: Options, a: MapOrder, b: MapOrder)
    requires p == o.(level := p.level) && TierOf(o.level) == TierOf(p.level) && (OrdersHidden(o) || a == b)
    ensures RegistrarEntity(r, o, a) == RegistrarEntity(r, p, b)
  {
    if r.abuse.Some? {
      EntityByTier(r.abuse.value, o, p, a, b);
    }
    if RegistrarCard(r).Some? {
      CardOrderInvisible(RegistrarCard(r).value, a, b);
    }
  }

  lemma MarksByTier(cs: seq<Contact>, l: AccessLevel, m: AccessLevel)
    requires TierOf(l) == TierOf(m)
    ensures AllMarks(cs, l) == AllMarks(cs, m)
  {
    var f, g := (c: Contact) => RedactContact(c, l).marks, (c: Contact) => RedactContact(c, m).marks;
    forall c: Contact ensures f(c) == g(c) {
      TierDecidesView(c, l, m);
    }
    FlattenExt(cs, f, g);
  }

  lemma {:induction false} FlattenExt<T, U>(s: seq<T>, f: T -> seq<U>, g: T -> seq<U>)
    requires forall i :: 0 <= i < |s| ==> f(s[i]) == g(s[i])
    ensures Flatten(s, f) == Flatten(s, g)
  {
    if s != [] {
      FlattenExt(s[..|s|-1], f, g);
    }
  }

  lemma ObjectByTier(cfg: Config, store: Store, t: Target, o: Options, p: Options, a: seq<MapOrder>, b: seq<MapOrder>)
    requires p == o.(level := p.level) && TierOf(o.level) == TierOf(p.level) && (OrdersHidden(o) || a == b)
    ensures HandleObject(cfg, store, t, o, a) == HandleObject(cfg, store, t, p, b)
  {
    match t.objectClass
    case DomainClass =>
      var n := cfg.normalize(t.id);
      if n.Some? && n.value in store.domains {
        DomainByTier(store.domains[n.value], o, p, a, b);
      }
    case EntityClass =>
      if t.id in store.entities {
        EntityByTier(store.entities[t.id], o, p, OrderAt(a, 0), OrderAt(b, 0));
        TierDecidesView(store.entities[t.id], o.level, p.level);
      }
    case _ =>
  }

  /** The key, the jCard negotiation and, where it shows, the map order decide
      the rendering: on an unchanged store a hit with the same negotiation is a
      fresh rendering. */
  lemma KeyDecidesRendering(cfg: Config, store: Store, r: Request, q: Request, a: seq<MapOrder>, b: seq<MapOrder>)
    requires CacheKey(r).Some? && CacheKey(r) == CacheKey(q) && r.jcardOnly == q.jcardOnly
    requires OrdersHidden(OptionsFor(cfg, r)) || a == b
    ensures Handle(cfg, store, r, a) == Handle(cfg, store, q, b)
  {
    ObjectByTier(cfg, store, Classify(r.path).value, OptionsFor(cfg, r), OptionsFor(cfg, q), a, b);
  }

  /* ------------------------------------------------------------------ */
  /* Negotiation is not part of the key                                  */
  /* ------------------------------------------------------------------ */

  predicate ShowsCard(c: Contact, lvl: AccessLevel) {
    !RedactContact(c, lvl).Empty()
  }

  predicate DomainShowsCard(d: Domain, lvl: AccessLevel) {
    || (exists i :: 0 <= i < |d.contacts| && ShowsCard(d.contacts[i], lvl))
    || (d.registrar.Some? &&
        (d.registrar.value.name != "" ||
         (d.registrar.value.abuse.Some? && ShowsCard(d.registrar.value.abuse.value, lvl))))
  }

  /** The object a request names shows some contact card to the caller. */
  predicate TargetShowsCard(cfg: Config, store: Store, t: Target, lvl: AccessLevel) {
    match t.objectClass
    case DomainClass =>
      var n := cfg.normalize(t.id);
      n.Some? && n.value in store.domains && DomainShowsCard(store.domains[n.value], lvl)
    case EntityClass =>
      cfg.validHandle(t.id) && t.id in store.entities && ShowsCard(store.entities[t.id], lvl)
    case _ => false
  }

  /** The two negotiations never show a card in the same member, so map orders
      do not matter here. */
  lemma EntityNegotiation(c: Contact, o: Options, a: MapOrder, b: MapOrder)
    ensures EntityOf(c, o.(jcardOnly := true), a) == EntityOf(c, o.(jcardOnly := false), b) <==>
              !ShowsCard(c, o.level)
  {}

  lemma RegistrarNegotiation(r: Registrar, o: Options, a: MapOrder, b: MapOrder)
    ensures RegistrarEntity(r, o.(jcardOnly := true), a) == RegistrarEntity(r, o.(jcardOnly := false), b) <==>
              !(r.name != "" || (r.abuse.Some? && ShowsCard(r.abuse.value, o.level)))
  {
    var y, n := RegistrarEntity(r, o.(jcardOnly := true), a), RegistrarEntity(r, o.(jcardOnly := false), b);
    if r.abuse.Some? {
      EntityNegotiation(r.abuse.value, o, a, b);
      assert y.entities == n.entities <==> y.entities[0] == n.entities[0];
    }
  }

  lemma DomainNegotiation(d: Domain, o: Options, a: seq<MapOrder>, b: seq<MapOrder>)
    ensures DomainObjectOf(d, o.(jcardOnly := true), a) == DomainObjectOf(d, o.(jcardOnly := false), b) <==>
              !DomainShowsCard(d, o.level)
  {
    var y, n := o.(jcardOnly := true), o.(jcardOnly := false);
    var es, fs := DomainObjectOf(d, y, a).entities, DomainObjectOf(d, n, b).entities;
    forall i | 0 <= i < |d.contacts| ensures es[i] == fs[i] <==> !ShowsCard(d.contacts[i], o.level) {
      EntityNegotiation(d.contacts[i], o, OrderAt(a, i), OrderAt(b, i));
    }
    if d.registrar.Some? {
      var k := |d.contacts|;
      RegistrarNegotiation(d.registrar.value, o, OrderAt(a, k), OrderAt(b, k));
      assert es[k] == RegistrarEntity(d.registrar.value, y, OrderAt(a, k));
      assert fs[k] == RegistrarEntity(d.registrar.value, n, OrderAt(b, k));
    }
    if !DomainShowsCard(d, o.level) {
      assert es == fs;
    }
  }

  /** The two negotiations render alike exactly when no card is shown. */
  lemma NegotiationShows(cfg: Config, store: Store, t: Target, o: Options, a: seq<MapOrder>, b: seq<MapOrder>)
    ensures HandleObject(cfg, store, t, o.(jcardOnly := true), a)
              == HandleObject(cfg, store, t, o.(jcardOnly := false), b) <==>
            !TargetShowsCard(cfg, store, t, o.level)
  {
    match t.objectClass
    case DomainClass =>
      var n := cfg.normalize(t.id);
      if n.Some? && n.value in store.domains {
        DomainNegotiation(store.domains[n.value], o, a, b);
      }
    case EntityClass =>
      if t.id in store.entities {
        EntityNegotiation(store.entities[t.id], o, OrderAt(a, 0), OrderAt(b, 0));
      }
    case _ =>
  }

  lemma SameBodySameReply(cfg: Config, store: Store, t: Target, o: Options, p: Options, a: seq<MapOrder>,
                          b: seq<MapOrder>)
    ensures var r, q := HandleObject(cfg, store, t, o, a), HandleObject(cfg, store, t, p, b);
            r == q <==> r.body == q.body
  {}

  /** The bodies for two requests with one key, over one store. */
  lemma BodiesAgreeIff(cfg: Config, store: Store, r: Request, q: Request, a: seq<MapOrder>, b: seq<MapOrder>)
    requires CacheKey(r).Some? && CacheKey(r) == CacheKey(q)
    requires OrdersHidden(OptionsFor(cfg, q)) || a == b
    requires Storable(Handle(cfg, store, r, a))
    ensures Handle(cfg, store, r, a).body == Handle(cfg, store, q, b).body <==>
              r.jcardOnly == q.jcardOnly || !TargetShowsCard(cfg, store, Classify(q.path).value, q.level)
  {
    var t := Classify(q.path).value;
    assert Classify(r.path) == Some(t);
    if r.jcardOnly == q.jcardOnly {
      KeyDecidesRendering(cfg, store, r, q, a, b);
    } else {
      StorableIffKnown(cfg, store, r, a, t);
      OtherNegotiation(cfg, store, t, OptionsFor(cfg, r), OptionsFor(cfg, q), a, b);
    }
  }

  lemma OtherNegotiation(cfg: Config, store: Store, t: Target, o: Options, p: Options, a: seq<MapOrder>,
                         b: seq<MapOrder>)
    requires p == o.(level := p.level, jcardOnly := !o.jcardOnly) && TierOf(o.level) == TierOf(p.level)
    ensures HandleObject(cfg, store, t, o, a).body == HandleObject(cfg, store, t, p, b).body <==>
              !TargetShowsCard(cfg, store, t, p.level)
  {
    var o' := o.(level := p.level);
    ObjectByTier(cfg, store, t, o, o', a, a);
    SameBodySameReply(cfg, store, t, o', p, a, b);
    if o.jcardOnly {
      assert p.(jcardOnly := true) == o' && p.(jcardOnly := false) == p;
      NegotiationShows(cfg, store, t, p, a, b);
    } else {
      assert p.(jcardOnly := true) == p && p.(jcardOnly := false) == o';
      NegotiationShows(cfg, store, t, p, b, a);
    }
  }

  /** The network that an address lookup finds. */
  function NetworkFor(cfg: Config, store: Store, id: string): Option<NetworkCore> {
    match cfg.parseAddr(id)
    case None => None
    case Some(a) =>
      match FirstMatch(NetworkTable(store.networks), a)
      case None => None
      case Some(i) => Some(store.networks[i].core)
  }

  /** Two stores agree on the object a target names; the rest may differ. */
  predicate SameObject(cfg: Config, s: Store, r: Store, t: Target) {
    match t.objectClass
    case Help => true
    case DomainClass =>
      var n := cfg.normalize(t.id);
      n.Some? ==> (if n.value in s.domains then n.value in r.domains && s.domains[n.value] == r.domains[n.value]
                   else n.value !in r.domains)
    case EntityClass =>
      if t.id in s.entities then t.id in r.entities && s.entities[t.id] == r.entities[t.id] else t.id !in r.entities
    case NameserverClass =>
      var n := cfg.normalize(t.id);
      n.Some? ==> (if n.value in s.nameservers then
                     n.value in r.nameservers && s.nameservers[n.value] == r.nameservers[n.value]
                   else n.value !in r.nameservers)
    case IpClass => NetworkFor(cfg, s, t.id) == NetworkFor(cfg, r, t.id)
  }

  lemma ObjectDecides(cfg: Config, s: Store, r: Store, t: Target, o: Options, orders: seq<MapOrder>)
    requires SameObject(cfg, s, r, t)
    ensures HandleObject(cfg, s, t, o, orders) == HandleObject(cfg, r, t, o, orders)
  {}

  /** Since event 0 every request for the key of request n found the object as
      request n finds it and, where it shows, met the same map order. */
  ghost predicate Settled(cfg: Config, evs: seq<Event>, n: nat)
    requires n < |evs| && evs[n].Arrive? && CacheKey(evs[n].req).Some?
  {
    forall j :: 0 <= j < n && evs[j].Arrive? && CacheKey(evs[j].req) == CacheKey(evs[n].req) ==>
      && SameObject(cfg, evs[j].store, evs[n].store, Classify(evs[n].req.path).value)
      && (OrdersHidden(OptionsFor(cfg, evs[n].req)) || evs[j].orders == evs[n].orders)
  }

  /** Every hit of every run against its own fresh rendering.  The hit replays
      the rendering of an earlier miss j; while the object stays as it is, its body
      is the fresh one if and only if j negotiated alike or no card is shown. */
  lemma HitIsFreshIff(cfg: Config, evs: seq<Event>, n: nat)
    requires HitAt(cfg, evs, n) && Settled(cfg, evs, n)
    ensures exists j: nat, m: nat ::
              && Sourced(cfg, evs, n, j, m)
              && (ResponseAt(cfg, evs, n).value.body == Rendering(cfg, evs[n]).body <==>
                    || evs[j].req.jcardOnly == evs[n].req.jcardOnly
                    || !TargetShowsCard(cfg, evs[n].store, Classify(evs[n].req.path).value, evs[n].req.level))
  {
    HitReplaysRendering(cfg, evs, n);
    var j: nat, m: nat :| Sourced(cfg, evs, n, j, m);
    var t := Classify(evs[n].req.path).value;
    assert Rendering(cfg, evs[j]) == Handle(cfg, evs[n].store, evs[j].req, evs[j].orders) by {
      assert Classify(evs[j].req.path) == Some(t);
      ObjectDecides(cfg, evs[j].store, evs[n].store, t, OptionsFor(cfg, evs[j].req), evs[j].orders);
    }
    BodiesAgreeIff(cfg, evs[n].store, evs[j].req, evs[n].req, evs[j].orders, evs[n].orders);
  }

  /* ------------------------------------------------------------------ */
  /* A run in which the negotiation shows                                */
  /* ------------------------------------------------------------------ */

  /** A request of the other negotiation that follows a known object's request
      within the lifetime is a hit, and so gets the wrong form exactly when a card
      is shown. */
  lemma HitIgnoresNegotiation(cfg: Config, store: Store, req: Request, t: Target, orders: seq<MapOrder>, now: int)
    requires cfg.capacity > 0 && 0 <= now <= cfg.ttl
    requires CacheKey(req).Some? && Classify(req.path) == Some(t) && Storable(Handle(cfg, store, req, orders))
    ensures var other := req.(jcardOnly := !req.jcardOnly);
            var evs := [Arrive(0, req, store, orders, 0), Finish(0, 0), Arrive(1, other, store, orders, now)];
            && HitAt(cfg, evs, 2)
            && (ResponseAt(cfg, evs, 2).value.body == Rendering(cfg, evs[2]).body
                <==> !TargetShowsCard(cfg, store, t, req.level))
  {
    var other := req.(jcardOnly := !req.jcardOnly);
    var evs := [Arrive(0, req, store, orders, 0), Finish(0, 0), Arrive(1, other, store, orders, now)];
    StoredAfterTwo(cfg, evs, CacheKey(req).value, Handle(cfg, store, req, orders));
    BodiesAgreeIff(cfg, store, req, other, orders, orders);
  }

  lemma StoredAfterTwo(cfg: Config, evs: seq<Event>, k: Key, r: Response)
    requires |evs| == 3 && evs[0].Arrive? && evs[0].id == 0 && CacheKey(evs[0].req) == Some(k) && evs[1] == Finish(0, 0)
    requires cfg.capacity > 0 && r == Rendering(cfg, evs[0]) && Storable(r)
    ensures Run(cfg, evs[..2]).shelf == [Entry(k, Captured(cfg, r, 0))]
  {
    assert evs[..2][..1] == evs[..1] && evs[..1][..0] == [];
    var s := Run(cfg, evs[..1]);
    assert Run(cfg, []) == State([], map[]);
    assert s == Step(cfg, Run(cfg, evs[..1][..0]), evs[..1][0]);
    assert s.shelf == [] && 0 in s.pending && s.pending[0] == Pending(k, r);
    assert Run(cfg, evs[..2]) == Step(cfg, s, evs[1]);
  }
}
