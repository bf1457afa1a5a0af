/**
 What a caller can learn: two runs of the server over stores that agree on what a
 tier is shown answer every request of that tier alike, although all tiers share
 one bounded, expiring cache.  The exception are entity searches: their terms are
 matched against the raw record.  `Discreet` requests are those whose terms the
 tier could evaluate itself, and `SearchDisclosure.RequestTellsNothingIff` shows
 that no others are safe.
 */
module NonInterference {
  import opened Common
  import opened Lru
  import opened Text
  import opened Redaction
  import opened Mapper
  import opened ResponseCache
  import opened SearchMatch
  import opened Server
  import Pattern

  /** Stores with the same objects, each agreeing on what tier t is shown. */
  ghost predicate SameStore(t: Tier, s: Store, r: Store) {
    && s.domains.Keys == r.domains.Keys
    && (forall k :: k in s.domains ==> SameDomain(t, s.domains[k], r.domains[k]))
    && s.entities.Keys == r.entities.Keys
    && (forall k :: k in s.entities ==> SameFor(t, s.entities[k], r.entities[k]))
    && s.nameservers == r.nameservers
    && |s.networks| == |r.networks|
    && (forall i :: 0 <= i < |s.networks| ==> s.networks[i].core == r.networks[i].core)
  }

  /** Same events in the same order.  The stores may differ in what tier t is
      not shown and may change over time; for the anonymous tier the runtime may
      also pick other map orders. */
  ghost predicate Twins(t: Tier, d: Event, e: Event) {
    match (d, e)
    case (Finish(_, _), Finish(_, _)) => d == e
    case (Arrive(i, r, s, a, now), Arrive(j, q, s', b, now')) =>
      i == j && r == q && now == now' && SameStore(t, s, s') && (t.Anonymous? || a == b)
    case _ => false
  }

  /** Responses that agree in all but the body, and in the body for a caller who
      must not tell them apart. */
  predicate Alike(observed: bool, r: Response, q: Response) {
    && r.status == q.status && r.headers == q.headers && (r.body == NoBody <==> q.body == NoBody)
    && (observed ==> r.body == q.body)
  }

  lemma DomainAlike(t: Tier, cfg: Config, s: Store, r: Store, id: string, o: Options, a: seq<MapOrder>,
                    b: seq<MapOrder>)
    requires SameStore(t, s, r) && (t.Anonymous? || a == b)
    ensures Alike(TierOf(o.level) == t, HandleDomain(cfg, s, id, o, a), HandleDomain(cfg, r, id, o, b))
  {
    var n := cfg.normalize(id);
    if n.Some? && n.value in s.domains && TierOf(o.level) == t {
      DomainSame(s.domains[n.value], r.domains[n.value], o, a, b);
    }
  }

  lemma EntityAlike(t: Tier, cfg: Config, s: Store, r: Store, id: string, o: Options, a: seq<MapOrder>,
                    b: seq<MapOrder>)
    requires SameStore(t, s, r) && (t.Anonymous? || a == b)
    ensures Alike(TierOf(o.level) == t, HandleEntity(cfg, s, id, o, a), HandleEntity(cfg, r, id, o, b))
  {
    if id in s.entities && TierOf(o.level) == t {
      EntityTopLevelSame(s.entities[id], r.entities[id], o, OrderAt(a, 0), OrderAt(b, 0));
    }
  }

  lemma ObjectAlike(t: Tier, cfg: Config, s: Store, r: Store, target: Target, o: Options, a: seq<MapOrder>,
                    b: seq<MapOrder>)
    requires SameStore(t, s, r) && (t.Anonymous? || a == b)
    ensures Alike(TierOf(o.level) == t, HandleObject(cfg, s, target, o, a), HandleObject(cfg, r, target, o, b))
  {
    match target.objectClass
    case DomainClass => DomainAlike(t, cfg, s, r, target.id, o, a, b);
    case EntityClass => EntityAlike(t, cfg, s, r, target.id, o, a, b);
    case IpClass => assert NetworkTable(s.networks) == NetworkTable(r.networks);
    case _ =>
  }

  /* ------------------------------------------------------------------ */
  /* Searches                                                            */
  /* ------------------------------------------------------------------ */

  /** The fields whose terms a tier could evaluate on what it is shown. */
  predicate ShownField(t: Tier, field: string) {
    || field == "handle" || field == "countryCode"
    || (field == "email" && !t.Anonymous?)
    || t.Privileged?
  }

  /** A term of a field the tier is shown, or the name pattern that accepts all. */
  predicate OpenTerm(cs: Cases, t: Tier, field: string, v: string) {
    ShownField(t, field) || (field == "fn" && Fold(cs.lower, v) in {"*", "**"})
  }

  /** The request is no entity search with a term on hidden fields. */
  predicate Discreet(cfg: Config, t: Tier, req: Request) {
    req.path == "/entities" && !req.verb.OtherMethod? && req.acceptable && cfg.searchable ==>
      var terms := TermsOf(req.params, ENTITY_FIELDS);
      forall f :: f in terms ==> OpenTerm(cfg.cases, t, f, terms[f])
  }

  lemma OpenTermAlike(cs: Cases, t: Tier, c: Contact, d: Contact, f: string, v: string)
    requires SameFor(t, c, d) && OpenTerm(cs, t, f, v) && f in ENTITY_FIELDS
    ensures EntityTerm(cs, c, f, v) == EntityTerm(cs, d, f, v)
  {
    if f == "fn" && !t.Privileged? {
      StarMatches(cs, if c.fullName == "" then c.organization else c.fullName, v);
      StarMatches(cs, if d.fullName == "" then d.organization else d.fullName, v);
    }
  }

  lemma StarMatches(cs: Cases, s: string, v: string)
    requires Fold(cs.lower, v) in {"*", "**"}
    ensures Matches(cs.lower, s, v)
  {
    var h := Fold(cs.lower, s);
    assert Pattern.Core(Fold(cs.lower, v)) == "";
    assert "" <= h[0..];
  }

  lemma OpenTermsAlike(cs: Cases, t: Tier, c: Contact, d: Contact, terms: Terms)
    requires SameFor(t, c, d) && forall f :: f in terms ==> f in ENTITY_FIELDS && OpenTerm(cs, t, f, terms[f])
    ensures EntityMatches(cs, c, terms) == EntityMatches(cs, d, terms)
  {
    forall f | f in terms ensures EntityTerm(cs, c, f, terms[f]) == EntityTerm(cs, d, f, terms[f]) {
      OpenTermAlike(cs, t, c, d, f, terms[f]);
    }
  }

  lemma SearchEntitiesAlike(t: Tier, cfg: Config, s: Store, r: Store, req: Request, a: seq<MapOrder>, b: seq<MapOrder>)
    requires SameStore(t, s, r) && (t.Anonymous? || a == b) && TierOf(req.level) == t
    requires var terms := TermsOf(req.params, ENTITY_FIELDS);
             forall f :: f in terms ==> OpenTerm(cfg.cases, t, f, terms[f])
    ensures var terms := TermsOf(req.params, ENTITY_FIELDS);
            SearchEntities(cfg, s, terms, req, a) == SearchEntities(cfg, r, terms, req, b)
  {
    var terms := TermsOf(req.params, ENTITY_FIELDS);
    var alike, name := (c: Contact, d: Contact) => SameFor(t, c, d), (c: Contact) => c.handle;
    var hit := (c: Contact) => EntityMatches(cfg.cases, c, terms);
    forall c, d | alike(c, d) ensures name(c) == name(d) && hit(c) == hit(d) {
      OpenTermsAlike(cfg.cases, t, c, d, terms);
    }
    SearchAlike(alike, name, hit, s.entities, r.entities, QueryOf(req));
    var o := OptionsFor(cfg, req);
    var p, q := Page(s.entities, name, hit, req), Page(r.entities, name, hit, req);
    forall i | 0 <= i < |p.items|
      ensures EntityOf(p.items[i], o, OrderAt(a, i)) == EntityOf(q.items[i], o, OrderAt(b, i))
    {
      assert alike(p.items[i], q.items[i]);
      EntitySame(p.items[i], q.items[i], o, OrderAt(a, i), OrderAt(b, i));
    }
    assert ContactEntities(p.items, o, a) == ContactEntities(q.items, o, b);
  }

  lemma {:induction false} RenderDomainsAlike(ds: seq<Domain>, es: seq<Domain>, o: Options, a: seq<MapOrder>,
                                              b: seq<MapOrder>)
    requires |ds| == |es| && forall i :: 0 <= i < |ds| ==> SameDomain(TierOf(o.level), ds[i], es[i])
    requires TierOf(o.level).Anonymous? || a == b
    ensures RenderDomains(ds, o, a) == RenderDomains(es, o, b)
  {
    if ds != [] {
      DomainSame(ds[0], es[0], o, a, b);
      var n := |ds[0].contacts| + 1;
      RenderDomainsAlike(ds[1..], es[1..], o, DropOrders(a, n), DropOrders(b, n));
    }
  }

  lemma SearchDomainsAlike(t: Tier, cfg: Config, s: Store, r: Store, terms: Terms, req: Request, a: seq<MapOrder>,
                           b: seq<MapOrder>)
    requires SameStore(t, s, r) && (t.Anonymous? || a == b) && TierOf(req.level) == t
    ensures SearchDomains(cfg, s, terms, req, a) == SearchDomains(cfg, r, terms, req, b)
  {
    var alike, name := (d: Domain, e: Domain) => SameDomain(t, d, e), (d: Domain) => d.core.ldhName;
    var hit := (d: Domain) => DomainMatches(cfg.cases, d.core, terms);
    SearchAlike(alike, name, hit, s.domains, r.domains, QueryOf(req));
    var p, q := Page(s.domains, name, hit, req), Page(r.domains, name, hit, req);
    forall i | 0 <= i < |p.items| ensures SameDomain(t, p.items[i], q.items[i]) {
      assert alike(p.items[i], q.items[i]);
    }
    RenderDomainsAlike(p.items, q.items, OptionsFor(cfg, req), a, b);
  }

  lemma SearchShape(cfg: Config, s: Store, r: Store, c: SearchClass, req: Request, a: seq<MapOrder>, b: seq<MapOrder>)
    ensures Alike(false, HandleSearch(cfg, s, c, req, a), HandleSearch(cfg, r, c, req, b))
  {}

  lemma SearchSame(t: Tier, cfg: Config, s: Store, r: Store, c: SearchClass, req: Request, a: seq<MapOrder>,
                   b: seq<MapOrder>)
    requires SameStore(t, s, r) && (t.Anonymous? || a == b) && TierOf(req.level) == t
    requires cfg.searchable && req.acceptable
    requires c.Entities? ==>
      var terms := TermsOf(req.params, ENTITY_FIELDS); forall f :: f in terms ==> OpenTerm(cfg.cases, t, f, terms[f])
    ensures HandleSearch(cfg, s, c, req, a) == HandleSearch(cfg, r, c, req, b)
  {
    match c
    case Domains => SearchDomainsAlike(t, cfg, s, r, TermsOf(req.params, DOMAIN_FIELDS), req, a, b);
    case Entities => SearchEntitiesAlike(t, cfg, s, r, req, a, b);
    case Nameservers =>
  }

  lemma HandleSearchAlike(t: Tier, cfg: Config, s: Store, r: Store, c: SearchClass, req: Request, a: seq<MapOrder>,
                          b: seq<MapOrder>)
    requires SameStore(t, s, r) && (t.Anonymous? || a == b) && SearchAt(req.path) == Some(c) && !req.verb.OtherMethod?
    ensures Alike(TierOf(req.level) == t && Discreet(cfg, t, req),
                  HandleSearch(cfg, s, c, req, a), HandleSearch(cfg, r, c, req, b))
  {
    SearchShape(cfg, s, r, c, req, a, b);
    if cfg.searchable && req.acceptable && TierOf(req.level) == t && Discreet(cfg, t, req) {
      SearchSame(t, cfg, s, r, c, req, a, b);
    }
  }

  lemma TargetAlike(t: Tier, cfg: Config, s: Store, r: Store, target: Target, req: Request, a: seq<MapOrder>,
                    b: seq<MapOrder>)
    requires SameStore(t, s, r) && (t.Anonymous? || a == b)
    ensures Alike(TierOf(req.level) == t, HandleTarget(cfg, s, target, req, a), HandleTarget(cfg, r, target, req, b))
  {
    ObjectAlike(t, cfg, s, r, target, OptionsFor(cfg, req), a, b);
  }

  lemma NavigationSame(t: Tier, cfg: Config, s: Store, r: Store, req: Request)
    requires SameStore(t, s, r)
    ensures HandleNavigation(cfg, s, req) == HandleNavigation(cfg, r, req)
  {
    assert NetworkTable(s.networks) == NetworkTable(r.networks);
  }

  lemma ObjectRequestAlike(t: Tier, cfg: Config, s: Store, r: Store, req: Request, a: seq<MapOrder>, b: seq<MapOrder>)
    requires SameStore(t, s, r) && (t.Anonymous? || a == b) && Classify(req.path).Some?
    ensures Alike(TierOf(req.level) == t, Handle(cfg, s, req, a), Handle(cfg, r, req, b))
  {
    TargetAlike(t, cfg, s, r, Classify(req.path).value, req, a, b);
  }

  lemma OtherRequestAlike(t: Tier, cfg: Config, s: Store, r: Store, req: Request, a: seq<MapOrder>, b: seq<MapOrder>)
    requires SameStore(t, s, r) && (t.Anonymous? || a == b) && Classify(req.path).None?
    ensures Alike(TierOf(req.level) == t && Discreet(cfg, t, req), Handle(cfg, s, req, a), Handle(cfg, r, req, b))
  {
    NavigationSame(t, cfg, s, r, req);
    if SearchAt(req.path).Some? && !req.verb.OtherMethod? {
      HandleSearchAlike(t, cfg, s, r, SearchAt(req.path).value, req, a, b);
    }
  }

  lemma HandleAlike(t: Tier, cfg: Config, s: Store, r: Store, req: Request, a: seq<MapOrder>, b: seq<MapOrder>)
    requires SameStore(t, s, r) && (t.Anonymous? || a == b)
    ensures Alike(TierOf(req.level) == t && Discreet(cfg, t, req), Handle(cfg, s, req, a), Handle(cfg, r, req, b))
    ensures CacheKey(req).Some? ==> Alike(TierOf(req.level) == t, Handle(cfg, s, req, a), Handle(cfg, r, req, b))
  {
    if Classify(req.path).Some? {
      ObjectRequestAlike(t, cfg, s, r, req, a, b);
    } else {
      OtherRequestAlike(t, cfg, s, r, req, a, b);
    }
  }

  /* ------------------------------------------------------------------ */
  /* The cache                                                           */
  /* ------------------------------------------------------------------ */

  predicate AlikeStored(t: Tier, k: Key, e: Stored<Body>, f: Stored<Body>) {
    && e.status == f.status && e.headers == f.headers && e.expires == f.expires
    && (k.tier == t ==> e.body == f.body)
  }

  predicate AlikeShelf(t: Tier, s: Shelf<Body>, r: Shelf<Body>) {
    && |s| == |r|
    && forall i :: 0 <= i < |s| ==> s[i].key == r[i].key && AlikeStored(t, s[i].key, s[i].val, r[i].val)
  }

  predicate AlikePending(t: Tier, p: Pending, q: Pending) {
    p.key == q.key && Alike(p.key.tier == t, p.resp, q.resp)
  }

  ghost predicate AlikeState(t: Tier, s: State, r: State) {
    && AlikeShelf(t, s.shelf, r.shelf)
    && s.pending.Keys == r.pending.Keys
    && forall id :: id in s.pending ==> AlikePending(t, s.pending[id], r.pending[id])
  }

  lemma {:induction false} LookupAlike(t: Tier, s: Shelf<Body>, r: Shelf<Body>, k: Key)
    requires AlikeShelf(t, s, r)
    ensures Lookup(s, k).Some? <==> Lookup(r, k).Some?
    ensures Lookup(s, k).Some? ==> AlikeStored(t, k, Lookup(s, k).value, Lookup(r, k).value)
  {
    if s != [] && s[0].key != k {
      LookupAlike(t, s[1..], r[1..], k);
    }
  }

  lemma {:induction false} DropAlike(t: Tier, s: Shelf<Body>, r: Shelf<Body>, k: Key)
    requires AlikeShelf(t, s, r)
    ensures AlikeShelf(t, Drop(s, k), Drop(r, k))
  {
    if s != [] && s[0].key != k {
      DropAlike(t, s[1..], r[1..], k);
    }
  }

  lemma GetAlike(t: Tier, s: Shelf<Body>, r: Shelf<Body>, capacity: nat, k: Key, now: int)
    requires AlikeShelf(t, s, r)
    ensures AlikeShelf(t, AfterGet(s, capacity, k, now), AfterGet(r, capacity, k, now))
    ensures Found(s, capacity, k, now).Some? <==> Found(r, capacity, k, now).Some?
    ensures Found(s, capacity, k, now).Some? ==>
              AlikeStored(t, k, Found(s, capacity, k, now).value, Found(r, capacity, k, now).value)
  {
    LookupAlike(t, s, r, k);
    DropAlike(t, s, r, k);
  }

  lemma PutAlike(t: Tier, s: Shelf<Body>, r: Shelf<Body>, capacity: nat, ttl: int, k: Key, b: Body, b': Body,
                 status: int, headers: map<string, string>, now: int)
    requires AlikeShelf(t, s, r) && (k.tier == t ==> b == b')
    ensures AlikeShelf(t, AfterPut(s, capacity, ttl, k, b, status, headers, now),
                       AfterPut(r, capacity, ttl, k, b', status, headers, now))
  {
    LookupAlike(t, s, r, k);
    DropAlike(t, s, r, k);
  }

  lemma ArriveAlike(t: Tier, cfg: Config, s: State, r: State, d: Event, e: Event)
    requires AlikeState(t, s, r) && Twins(t, d, e) && d.Arrive?
    ensures AlikeState(t, Step(cfg, s, d), Step(cfg, r, e))
    ensures TierOf(d.req.level) == t && Discreet(cfg, t, d.req) ==> Answer(cfg, s, d) == Answer(cfg, r, e)
  {
    hide Handle, Classify, Found, AfterGet, AlikeShelf, SameStore, Discreet;
    HandleAlike(t, cfg, d.store, e.store, d.req, d.orders, e.orders);
    var k := CacheKey(d.req);
    if k.Some? {
      GetAlike(t, s.shelf, r.shelf, cfg.capacity, k.value, d.now);
    }
  }

  lemma FinishAlike(t: Tier, cfg: Config, s: State, r: State, e: Event)
    requires AlikeState(t, s, r) && e.Finish?
    ensures AlikeState(t, Step(cfg, s, e), Step(cfg, r, e))
  {
    if e.id in s.pending {
      var p, q := s.pending[e.id], r.pending[e.id];
      assert AlikePending(t, p, q);
      PutAlike(t, s.shelf, r.shelf, cfg.capacity, cfg.ttl, p.key, p.resp.body, q.resp.body, p.resp.status,
               Kept(p.resp.headers), e.now);
    }
  }

  lemma {:induction false} RunsAlike(t: Tier, cfg: Config, ds: seq<Event>, es: seq<Event>)
    requires |ds| == |es| && forall i :: 0 <= i < |ds| ==> Twins(t, ds[i], es[i])
    ensures AlikeState(t, Run(cfg, ds), Run(cfg, es))
  {
    if ds != [] {
      var n := |ds| - 1;
      RunsAlike(t, cfg, ds[..n], es[..n]);
      if ds[n].Arrive? {
        ArriveAlike(t, cfg, Run(cfg, ds[..n]), Run(cfg, es[..n]), ds[n], es[n]);
      } else {
        FinishAlike(t, cfg, Run(cfg, ds[..n]), Run(cfg, es[..n]), ds[n]);
      }
    }
  }

  /** Every response to a discreet request of tier t is the same in the two runs:
      through hits, misses, expiry, eviction and overlapping requests of all
      tiers, the responses for other tiers in the shared cache included.  All
      requests but entity searches are discreet, domain searches too; the other
      requests of the run need not be. */
  lemma TierLearnsNothing(t: Tier, cfg: Config, ds: seq<Event>, es: seq<Event>, i: nat)
    requires |ds| == |es| && forall j :: 0 <= j < |ds| ==> Twins(t, ds[j], es[j])
    requires i < |ds| && ds[i].Arrive? && TierOf(ds[i].req.level) == t && Discreet(cfg, t, ds[i].req)
    ensures ResponseAt(cfg, ds, i) == ResponseAt(cfg, es, i)
  {
    RunsAlike(t, cfg, ds[..i], es[..i]);
    ArriveAlike(t, cfg, Run(cfg, ds[..i]), Run(cfg, es[..i]), ds[i], es[i]);
  }
}
