/**
 The handlers behind the response-cache middleware, as a machine over events: a
 request arrives (lookup, and on a miss the rendering), and later its capture is
 stored.  Requests overlap freely, so between the two events of one request any
 others may happen.
 */
module Server {
  import opened Common
  import opened Prefixes
  import opened Redaction
  import opened Mapper
  import opened ResponseCache
  import opened SearchMatch
  import Paging

  datatype NetworkCore = NetworkCore(handle: string, prefix: ValidPrefix, name: string, kind: string, country: string,
                                     parentHandle: string, status: seq<string>)

  datatype Network = Network(core: NetworkCore, contacts: seq<Contact>)

  datatype Store = Store(domains: map<string, Domain>, entities: map<string, Contact>,
                         nameservers: map<string, Nameserver>, networks: seq<Network>)

  /** Server settings; validation, IDN normalisation, address parsing and
      printing, case mappings and the bootstrap lookups are functions the server
      is given. */
  datatype Config = Config(
    capacity: nat, ttl: int, reason: string, emitJCard: bool, searchable: bool, cases: Cases,
    normalize: string -> Option<string>, validHandle: string -> bool,
    parseAddr: string -> Option<Bits>, parseSearchAddr: string -> Option<Bits>, printAddr: Bits -> string,
    domainServer: string -> Option<string>, ipServer: Bits -> Option<string>)

  datatype Method = Get | Head | OtherMethod

  /** A request with its query string: search terms and parsed paging controls. */
  datatype Request = Request(
    verb: Method, acceptable: bool, path: string, level: AccessLevel, jcardOnly: bool,
    params: map<string, string>, count: Option<int>, cursor: Option<int>, offset: Option<int>)

  datatype Doc =
    | DomainDoc(domain: DomainObject)
    | EntityDoc(entity: EntityObject)
    | NameserverDoc(nameserver: Nameserver)
    | NetworkDoc(network: NetworkCore)
    | DomainsDoc(domains: seq<DomainObject>, paging: Option<Paging.Meta>)
    | EntitiesDoc(entities: seq<Entity>, paging: Option<Paging.Meta>)
    | NameserversDoc(nameservers: seq<Nameserver>, paging: Option<Paging.Meta>)
    | HelpDoc
    | ErrorDoc(code: int, title: string)

  datatype Body = NoBody | Json(doc: Doc)

  datatype Response = Response(status: int, headers: map<string, string>, body: Body)

  /* ------------------------------------------------------------------ */
  /* Handlers                                                            */
  /* ------------------------------------------------------------------ */

  datatype Target = Target(objectClass: ObjectClass, id: string)

  function Classify(path: string): Option<Target> {
    if path == "/help" then Some(Target(Help, ""))
    else if "/domain/" <= path && !("/domains" <= path) then Some(Target(DomainClass, path[|"/domain/"|..]))
    else if "/entity/" <= path && !("/entities" <= path) then Some(Target(EntityClass, path[|"/entity/"|..]))
    else if "/nameserver/" <= path && !("/nameservers" <= path) then
      Some(Target(NameserverClass, path[|"/nameserver/"|..]))
    else if "/ip/" <= path then Some(Target(IpClass, path[|"/ip/"|..]))
    else None
  }

  function Reply(doc: Doc): Response {
    Response(200, map["Content-Type" := "application/rdap+json", "Cache-Control" := "public, max-age=60"], Json(doc))
  }

  function Error(status: int, title: string): Response {
    Response(status, map["Content-Type" := "application/rdap+json"], Json(ErrorDoc(status, title)))
  }

  function TrimSlashes(base: string): string {
    if base != "" && base[|base|-1] == '/' then TrimSlashes(base[..|base|-1]) else base
  }

  function NotFound(server: Option<string>, path: string): Response {
    match server
    case Some(base) => Response(302, map["Location" := TrimSlashes(base) + path], NoBody)
    case None => Error(404, "Object not found")
  }

  function OptionsFor(cfg: Config, req: Request): Options {
    Options(req.level, cfg.reason, cfg.emitJCard, req.jcardOnly)
  }

  function NetworkTable(ns: seq<Network>): (t: Prefixes.Table)
    ensures |t| == |ns| && forall i :: 0 <= i < |ns| ==> t[i] == ns[i].core.prefix
  {
    seq(|ns|, i requires 0 <= i < |ns| => ns[i].core.prefix)
  }

  function HandleDomain(cfg: Config, store: Store, id: string, o: Options, orders: seq<MapOrder>): Response {
    match cfg.normalize(id)
    case None => Error(400, "Malformed domain name")
    case Some(name) =>
      if name in store.domains then Reply(DomainDoc(DomainObjectOf(store.domains[name], o, orders)))
      else NotFound(cfg.domainServer(name), "/domain/" + name)
  }

  function HandleEntity(cfg: Config, store: Store, id: string, o: Options, orders: seq<MapOrder>): Response {
    if !cfg.validHandle(id) then Error(400, "Malformed entity handle")
    else if id in store.entities then Reply(EntityDoc(EntityTopLevel(store.entities[id], o, OrderAt(orders, 0))))
    else Error(404, "Object not found")
  }

  function HandleNameserver(cfg: Config, store: Store, id: string): Response {
    match cfg.normalize(id)
    case None => Error(400, "Malformed nameserver name")
    case Some(name) =>
      if name in store.nameservers then Reply(NameserverDoc(store.nameservers[name]))
      else Error(404, "Object not found")
  }

  function HandleIP(cfg: Config, store: Store, id: string): Response {
    match cfg.parseAddr(id)
    case None => Error(400, "Malformed IP address")
    case Some(a) =>
      match FirstMatch(NetworkTable(store.networks), a)
      case Some(i) => Reply(NetworkDoc(store.networks[i].core))
      case None => NotFound(cfg.ipServer(a), "/ip/" + cfg.printAddr(a))
  }

  function HandleObject(cfg: Config, store: Store, t: Target, o: Options, orders: seq<MapOrder>): Response {
    match t.objectClass
    case Help => Reply(HelpDoc)
    case DomainClass => HandleDomain(cfg, store, t.id, o, orders)
    case EntityClass => HandleEntity(cfg, store, t.id, o, orders)
    case NameserverClass => HandleNameserver(cfg, store, t.id)
    case IpClass => HandleIP(cfg, store, t.id)
  }

  function HandleTarget(cfg: Config, store: Store, t: Target, req: Request, orders: seq<MapOrder>): Response {
    if t.objectClass.Help? then Reply(HelpDoc)
    else if t.id == "" || '/' in t.id then Error(404, "Unknown RDAP path")
    else if !req.acceptable then Error(406, "Unsupported media type")
    else HandleObject(cfg, store, t, OptionsFor(cfg, req), orders)
  }

  /* ------------------------------------------------------------------ */
  /* Search                                                              */
  /* ------------------------------------------------------------------ */

  function QueryOf(req: Request): Paging.Query {
    Paging.BuildQuery(req.count, req.cursor, req.offset)
  }

  /** The page of the sorted matches a search answers with. */
  function Page<T>(records: map<string, T>, name: T -> string, hit: T -> bool, req: Request): Paging.Result<T> {
    Paging.Paginate(Paging.Filter(SortedRecords(records, name), hit), QueryOf(req))
  }

  function MetaOf<T>(page: Paging.Result<T>, req: Request): Option<Paging.Meta> {
    Paging.PagingMeta(QueryOf(req), page.total)
  }

  function DropOrders(orders: seq<MapOrder>, n: nat): seq<MapOrder> {
    if n <= |orders| then orders[n..] else []
  }

  /** Each domain takes the orders of its contacts and its registrar. */
  function RenderDomains(ds: seq<Domain>, o: Options, orders: seq<MapOrder>): seq<DomainObject> {
    if ds == [] then []
    else [DomainObjectOf(ds[0], o, orders)] + RenderDomains(ds[1..], o, DropOrders(orders, |ds[0].contacts| + 1))
  }

  function SearchDomains(cfg: Config, store: Store, terms: Terms, req: Request, orders: seq<MapOrder>): Response {
    var page := Page(store.domains, (d: Domain) => d.core.ldhName,
                     (d: Domain) => DomainMatches(cfg.cases, d.core, terms), req);
    Reply(DomainsDoc(RenderDomains(page.items, OptionsFor(cfg, req), orders), MetaOf(page, req)))
  }

  function SearchEntities(cfg: Config, store: Store, terms: Terms, req: Request, orders: seq<MapOrder>): Response {
    var page := Page(store.entities, (c: Contact) => c.handle,
                     (c: Contact) => EntityMatches(cfg.cases, c, terms), req);
    Reply(EntitiesDoc(ContactEntities(page.items, OptionsFor(cfg, req), orders), MetaOf(page, req)))
  }

  function SearchNameservers(cfg: Config, store: Store, terms: Terms, req: Request): Response {
    var page := Page(store.nameservers, (n: Nameserver) => n.ldhName,
                     (n: Nameserver) => NameserverMatches(cfg.cases, n, terms), req);
    Reply(NameserversDoc(page.items, MetaOf(page, req)))
  }

  datatype SearchClass = Domains | Entities | Nameservers

  function SearchAt(path: string): Option<SearchClass> {
    if path == "/domains" then Some(Domains)
    else if path == "/entities" then Some(Entities)
    else if path == "/nameservers" then Some(Nameservers)
    else None
  }

  function FieldsOf(c: SearchClass): set<string> {
    match c
    case Domains => DOMAIN_FIELDS
    case Entities => ENTITY_FIELDS
    case Nameservers => NAMESERVER_FIELDS
  }

  function HandleSearch(cfg: Config, store: Store, c: SearchClass, req: Request, orders: seq<MapOrder>): Response {
    var terms := TermsOf(req.params, FieldsOf(c));
    if !cfg.searchable then Error(501, "Search not enabled")
    else if !req.acceptable then Error(406, "Unsupported media type")
    else if terms == map[] then Error(400, "Missing search predicate")
    else
      match c
      case Domains => SearchDomains(cfg, store, terms, req, orders)
      case Entities => SearchEntities(cfg, store, terms, req, orders)
      case Nameservers => SearchNameservers(cfg, store, terms, req)
  }

  /** The RIR navigation verbs: only the most specific network is implemented. */
  function HandleNavigation(cfg: Config, store: Store, req: Request): Response {
    var bottom := "/ips/rirSearch1/rdap-bottom/";
    if bottom <= req.path then
      if !req.acceptable then Error(406, "Unsupported media type")
      else
        match cfg.parseSearchAddr(req.path[|bottom|..])
        case None => Error(400, "Malformed IP address")
        case Some(a) =>
          match FirstMatch(NetworkTable(store.networks), a)
          case Some(i) => Reply(NetworkDoc(store.networks[i].core))
          case None => Error(404, "No containing network")
    else if || "/ips/rirSearch1/rdap-top/" <= req.path || "/ips/rirSearch1/rdap-up/" <= req.path
            || "/ips/rirSearch1/rdap-down/" <= req.path
    then Error(501, "RIR-search hierarchy navigation not implemented")
    else Error(404, "Unknown RDAP path")
  }

  /** Everything behind the response cache: HEAD is routed like GET, and the
      catch-all pattern answers every other method. */
  function Handle(cfg: Config, store: Store, req: Request, orders: seq<MapOrder>): Response {
    if req.verb.OtherMethod? then Error(404, "Unknown RDAP path")
    else
      match Classify(req.path)
      case Some(t) => HandleTarget(cfg, store, t, req, orders)
      case None =>
        match SearchAt(req.path)
        case Some(c) => HandleSearch(cfg, store, c, req, orders)
        case None => HandleNavigation(cfg, store, req)
  }

  /** The one path of a target. */
  function PathOf(t: Target): string {
    match t.objectClass
    case Help => "/help"
    case DomainClass => "/domain/" + t.id
    case EntityClass => "/entity/" + t.id
    case NameserverClass => "/nameserver/" + t.id
    case IpClass => "/ip/" + t.id
  }

  lemma PathStart(path: string, p: string)
    requires |p| > 1
    ensures p <= path ==> |path| >= |p| && path[1] == p[1] && path[|p|-1] == p[|p|-1] && path == p + path[|p|..]
  {}

  lemma ClassifiedPath(path: string)
    ensures var t := Classify(path);
            t.Some? ==> path == PathOf(t.value) && (t.value.objectClass.Help? ==> t.value.id == "")
  {
    PathStart(path, "/domain/");
    PathStart(path, "/entity/");
    PathStart(path, "/nameserver/");
    PathStart(path, "/ip/");
  }

  lemma PathClassified(t: Target)
    requires t.objectClass.Help? ==> t.id == ""
    ensures Classify(PathOf(t)) == Some(t)
  {
    var path := PathOf(t);
    PathStart(path, "/domain/");
    PathStart(path, "/entity/");
    PathStart(path, "/nameserver/");
    match t.objectClass
    case Help =>
    case DomainClass =>
      assert path[7] == '/' && path[8..] == t.id;
    case EntityClass =>
      assert path[1] == 'e' && path[7] == '/' && path[8..] == t.id;
    case NameserverClass =>
      assert path[1] == 'n' && path[11] == '/' && path[12..] == t.id;
    case IpClass =>
      assert path[1] == 'i' && path[4..] == t.id;
  }

  /** Classification loses nothing of the path, so requests with equal keys name
      the same object. */
  lemma ClassifyInvertsPath(path: string, t: Target)
    ensures Classify(path) == Some(t) <==> path == PathOf(t) && (t.objectClass.Help? ==> t.id == "")
  {
    ClassifiedPath(path);
    if t.objectClass.Help? ==> t.id == "" {
      PathClassified(t);
    }
  }

  /** The object a target names is in the store. */
  predicate Known(cfg: Config, store: Store, t: Target) {
    match t.objectClass
    case Help => true
    case DomainClass => cfg.normalize(t.id).Some? && cfg.normalize(t.id).value in store.domains
    case EntityClass => cfg.validHandle(t.id) && t.id in store.entities
    case NameserverClass => cfg.normalize(t.id).Some? && cfg.normalize(t.id).value in store.nameservers
    case IpClass =>
      cfg.parseAddr(t.id).Some? &&
      exists i :: 0 <= i < |store.networks| && Contains(store.networks[i].core.prefix, cfg.parseAddr(t.id).value)
  }

  /** Exactly acceptable requests for known objects get a response the cache
      stores. */
  lemma StorableIffKnown(cfg: Config, store: Store, req: Request, orders: seq<MapOrder>, t: Target)
    requires !req.verb.OtherMethod? && Classify(req.path) == Some(t)
    ensures Storable(Handle(cfg, store, req, orders)) <==>
              t.objectClass.Help? || (t.id != "" && '/' !in t.id && req.acceptable && Known(cfg, store, t))
  {
    if t.objectClass.IpClass? && cfg.parseAddr(t.id).Some? {
      var m := FirstMatch(NetworkTable(store.networks), cfg.parseAddr(t.id).value);
      assert m.Some? ==> Contains(store.networks[m.value].core.prefix, cfg.parseAddr(t.id).value);
    }
  }

  /* ------------------------------------------------------------------ */
  /* The middleware                                                      */
  /* ------------------------------------------------------------------ */

  /** The key of a request the middleware caches. */
  function CacheKey(req: Request): Option<Key> {
    if !req.verb.Get? || !req.acceptable then None
    else
      match Classify(req.path)
      case None => None
      case Some(t) => Some(Key(t.objectClass, t.id, TierOf(req.level)))
  }

  function Kept(headers: map<string, string>): map<string, string> {
    map k | k in headers && k in {"Content-Type", "Cache-Control"} && headers[k] != "" :: headers[k]
  }

  predicate Storable(r: Response) {
    200 <= r.status < 300 && r.body != NoBody
  }

  function Replay(e: Stored<Body>): Response {
    Response(e.status, e.headers["X-Gordap-Cache" := "HIT"], e.body)
  }

  datatype Pending = Pending(key: Key, resp: Response)

  datatype State = State(shelf: Shelf<Body>, pending: map<nat, Pending>)

  datatype Event =
    | Arrive(id: nat, req: Request, store: Store, orders: seq<MapOrder>, now: int)
    | Finish(id: nat, now: int)

  function Answer(cfg: Config, s: State, e: Event): Option<Response> {
    match e
    case Finish(_, _) => None
    case Arrive(_, req, store, orders, now) =>
      var k := CacheKey(req);
      if k.Some? && Found(s.shelf, cfg.capacity, k.value, now).Some? then
        Some(Replay(Found(s.shelf, cfg.capacity, k.value, now).value))
      else Some(Handle(cfg, store, req, orders))
  }

  function Step(cfg: Config, s: State, e: Event): State {
    match e
    case Arrive(id, req, store, orders, now) =>
      (match CacheKey(req)
       case None => s
       case Some(k) =>
         var shelf := AfterGet(s.shelf, cfg.capacity, k, now);
         if Found(s.shelf, cfg.capacity, k, now).Some? then s.(shelf := shelf)
         else State(shelf, s.pending[id := Pending(k, Handle(cfg, store, req, orders))]))
    case Finish(id, now) =>
      if id !in s.pending then s
      else
        var p := s.pending[id];
        State(if Storable(p.resp) then
                AfterPut(s.shelf, cfg.capacity, cfg.ttl, p.key, p.resp.body, p.resp.status, Kept(p.resp.headers), now)
              else s.shelf,
              s.pending - {id})
  }

  /** A capture is stored once: finishing a request again changes nothing. */
  lemma FinishedOnce(cfg: Config, s: State, id: nat, now: int, later: int)
    ensures var s' := Step(cfg, s, Finish(id, now));
            Step(cfg, s', Finish(id, later)) == s' && id !in s'.pending
  {}

  function Run(cfg: Config, evs: seq<Event>): State {
    if evs == [] then State([], map[])
    else Step(cfg, Run(cfg, evs[..|evs|-1]), evs[|evs|-1])
  }

  /** The response to event i of a run. */
  function ResponseAt(cfg: Config, evs: seq<Event>, i: nat): Option<Response>
    requires i < |evs|
  {
    Answer(cfg, Run(cfg, evs[..i]), evs[i])
  }

  /** One request served from start to finish by the middleware: the event
      machine's Arrive followed by its Finish. */
  method Serve(cache: Cache<Body>, cfg: Config, store: Store, req: Request, orders: seq<MapOrder>, now: int, later: int)
    returns (resp: Response)
    requires cache.Valid() && cache.table.capacity == cfg.capacity && cache.ttl == cfg.ttl
    modifies cache.table
    ensures cache.Valid()
    ensures var s := State(old(cache.View()), map[]);
            var arrive := Arrive(0, req, store, orders, now);
            && Some(resp) == Answer(cfg, s, arrive)
            && cache.View() == Step(cfg, Step(cfg, s, arrive), Finish(0, later)).shelf
  {
    resp := Handle(cfg, store, req, orders);
    if !req.verb.Get? || !req.acceptable {
      return;
    }
    var t := Classify(req.path);
    if t.None? {
      return;
    }
    var k := Key(t.value.objectClass, t.value.id, TierOf(req.level));
    var hit := cache.Get(k, now);
    if hit.Some? {
      resp := Replay(hit.value);
      return;
    }
    if 200 <= resp.status < 300 && resp.body != NoBody {
      cache.Put(k, resp.body, resp.status, Kept(resp.headers), later);
    }
  }
}
