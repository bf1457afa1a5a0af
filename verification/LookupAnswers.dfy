/**
 What the server answers to lookups of single objects, path by path: the object
 as the caller may see it, a redirect, or an error.
 */
module LookupAnswers {
  import opened Common
  import opened Prefixes
  import opened Mapper
  import opened Server
  import opened Rendering
  import ResponseCache

  /** A successful answer: status, media type and lifetime. */
  predicate Succeeds(r: Response) {
    && r.status == 200 && r.body.Json?
    && r.headers == map["Content-Type" := "application/rdap+json", "Cache-Control" := "public, max-age=60"]
  }

  predicate Refuses(r: Response, code: int, title: string) {
    r == Response(code, map["Content-Type" := "application/rdap+json"], Json(ErrorDoc(code, title)))
  }

  /** `base` is `root` and slashes behind it. */
  predicate SlashesOff(base: string, root: string) {
    && root <= base && (root == "" || root[|root|-1] != '/')
    && forall i :: |root| <= i < |base| ==> base[i] == '/'
  }

  ghost predicate Redirects(r: Response, base: string, path: string) {
    exists root :: SlashesOff(base, root) && r == Response(302, map["Location" := root + path], NoBody)
  }

  lemma {:induction false} TrimmedSlashes(base: string)
    ensures SlashesOff(base, TrimSlashes(base))
  {
    if base != "" && base[|base|-1] == '/' {
      TrimmedSlashes(base[..|base|-1]);
    }
  }

  /** An object that is not here: with its server, or not at all. */
  ghost predicate Elsewhere(r: Response, server: Option<string>, path: string) {
    match server
    case Some(base) => Redirects(r, base, path)
    case None => Refuses(r, 404, "Object not found")
  }

  lemma NotHere(server: Option<string>, path: string)
    ensures Elsewhere(NotFound(server, path), server, path)
  {
    if server.Some? {
      TrimmedSlashes(server.value);
      assert SlashesOff(server.value, TrimSlashes(server.value));
    }
  }

  /** How the caller and the server want entities rendered. */
  function OptionsOf(cfg: Config, req: Request): Options {
    Options(level := req.level, reason := cfg.reason, emitJCard := cfg.emitJCard, jcardOnly := req.jcardOnly)
  }

  /** The identifier of a request for one object: a path segment. */
  predicate Segment(id: string) { id != "" && '/' !in id }

  lemma Routed(cfg: Config, store: Store, req: Request, orders: seq<MapOrder>, t: Target)
    requires !req.verb.OtherMethod? && req.path == PathOf(t) && Segment(t.id) && !t.objectClass.Help?
    ensures Handle(cfg, store, req, orders) ==
              if req.acceptable then HandleObject(cfg, store, t, OptionsFor(cfg, req), orders)
              else Error(406, "Unsupported media type")
  {
    ClassifyInvertsPath(req.path, t);
    hide Classify, HandleObject;
  }

  /** GET /domain/{name} */
  lemma DomainLookup(cfg: Config, store: Store, req: Request, orders: seq<MapOrder>, id: string)
    requires !req.verb.OtherMethod? && req.path == "/domain/" + id && Segment(id)
    ensures var r := Handle(cfg, store, req, orders);
            if !req.acceptable then Refuses(r, 406, "Unsupported media type")
            else match cfg.normalize(id)
              case None => Refuses(r, 400, "Malformed domain name")
              case Some(name) =>
                if name in store.domains then
                  && Succeeds(r) && r.body.doc.DomainDoc?
                  && DomainShows(r.body.doc.domain, store.domains[name], OptionsOf(cfg, req))
                else Elsewhere(r, cfg.domainServer(name), "/domain/" + name)
  {
    hide DomainShows, Elsewhere, DomainObjectOf;
    Routed(cfg, store, req, orders, Target(ResponseCache.DomainClass, id));
    var n := cfg.normalize(id);
    if n.Some? {
      NotHere(cfg.domainServer(n.value), "/domain/" + n.value);
      if n.value in store.domains {
        DomainShowsRecord(store.domains[n.value], OptionsFor(cfg, req), orders);
      }
    }
  }

  /** GET /entity/{handle} */
  lemma EntityLookup(cfg: Config, store: Store, req: Request, orders: seq<MapOrder>, id: string)
    requires !req.verb.OtherMethod? && req.path == "/entity/" + id && Segment(id)
    ensures var r := Handle(cfg, store, req, orders);
            if !req.acceptable then Refuses(r, 406, "Unsupported media type")
            else if !cfg.validHandle(id) then Refuses(r, 400, "Malformed entity handle")
            else if id in store.entities then
              && Succeeds(r) && r.body.doc.EntityDoc?
              && EntityShows(r.body.doc.entity, store.entities[id], OptionsOf(cfg, req))
            else Refuses(r, 404, "Object not found")
  {
    hide EntityShows, EntityTopLevel;
    Routed(cfg, store, req, orders, Target(ResponseCache.EntityClass, id));
    if id in store.entities {
      EntityShowsRecord(store.entities[id], OptionsFor(cfg, req), OrderAt(orders, 0));
    }
  }

  /** GET /nameserver/{name} */
  lemma NameserverLookup(cfg: Config, store: Store, req: Request, orders: seq<MapOrder>, id: string)
    requires !req.verb.OtherMethod? && req.path == "/nameserver/" + id && Segment(id)
    ensures var r := Handle(cfg, store, req, orders);
            if !req.acceptable then Refuses(r, 406, "Unsupported media type")
            else match cfg.normalize(id)
              case None => Refuses(r, 400, "Malformed nameserver name")
              case Some(name) =>
                if name in store.nameservers then
                  Succeeds(r) && r.body == Json(NameserverDoc(store.nameservers[name]))
                else Refuses(r, 404, "Object not found")
  {
    Routed(cfg, store, req, orders, Target(ResponseCache.NameserverClass, id));
  }

  /** The first network of the store that contains the address. */
  predicate FirstNetwork(store: Store, a: Bits, i: nat) {
    && i < |store.networks| && Contains(store.networks[i].core.prefix, a)
    && forall j :: 0 <= j < i ==> !Contains(store.networks[j].core.prefix, a)
  }

  /** GET /ip/{address} */
  lemma NetworkLookup(cfg: Config, store: Store, req: Request, orders: seq<MapOrder>, id: string)
    requires !req.verb.OtherMethod? && req.path == "/ip/" + id && Segment(id)
    ensures var r := Handle(cfg, store, req, orders);
            if !req.acceptable then Refuses(r, 406, "Unsupported media type")
            else match cfg.parseAddr(id)
              case None => Refuses(r, 400, "Malformed IP address")
              case Some(a) =>
                || (exists i: nat :: FirstNetwork(store, a, i) && NetworkShown(r, store, i))
                || (NoNetwork(store, a) && Elsewhere(r, cfg.ipServer(a), "/ip/" + cfg.printAddr(a)))
  {
    Routed(cfg, store, req, orders, Target(ResponseCache.IpClass, id));
    if cfg.parseAddr(id).Some? {
      var a := cfg.parseAddr(id).value;
      NotHere(cfg.ipServer(a), "/ip/" + cfg.printAddr(a));
      FirstInStore(store, a);
    }
  }

  predicate NetworkShown(r: Response, store: Store, i: nat) {
    i < |store.networks| && Succeeds(r) && r.body == Json(NetworkDoc(store.networks[i].core))
  }

  predicate NoNetwork(store: Store, a: Bits) {
    forall i :: 0 <= i < |store.networks| ==> !Contains(store.networks[i].core.prefix, a)
  }

  lemma FirstInStore(store: Store, a: Bits)
    ensures var m := FirstMatch(NetworkTable(store.networks), a);
            if m.Some? then FirstNetwork(store, a, m.value) else NoNetwork(store, a)
  {
    var t := NetworkTable(store.networks);
    assert forall i :: 0 <= i < |t| ==> Contains(t[i], a) == Contains(store.networks[i].core.prefix, a);
  }

  /** GET /ips/rirSearch1/rdap-bottom/{address or prefix} */
  lemma BottomNavigation(cfg: Config, store: Store, req: Request, orders: seq<MapOrder>, id: string)
    requires !req.verb.OtherMethod? && req.path == "/ips/rirSearch1/rdap-bottom/" + id
    ensures var r := Handle(cfg, store, req, orders);
            if !req.acceptable then Refuses(r, 406, "Unsupported media type")
            else match cfg.parseSearchAddr(id)
              case None => Refuses(r, 400, "Malformed IP address")
              case Some(a) =>
                || (exists i: nat :: FirstNetwork(store, a, i) && NetworkShown(r, store, i))
                || (NoNetwork(store, a) && Refuses(r, 404, "No containing network"))
  {
    NavigationRouted(cfg, store, req, orders);
    assert req.path[|"/ips/rirSearch1/rdap-bottom/"|..] == id;
    hide Handle, Classify;
    if cfg.parseSearchAddr(id).Some? {
      FirstInStore(store, cfg.parseSearchAddr(id).value);
    }
  }

  lemma NavigationRouted(cfg: Config, store: Store, req: Request, orders: seq<MapOrder>)
    requires !req.verb.OtherMethod? && "/ips/" <= req.path
    ensures Handle(cfg, store, req, orders) == HandleNavigation(cfg, store, req)
  {
    hide HandleNavigation, HandleTarget, HandleSearch;
    assert req.path[1] == 'i' && req.path[3] == 's';
    assert Classify(req.path).None? && SearchAt(req.path).None?;
  }

  /** The other requests: the help page, the verbs that are not implemented, and
      everything the router does not know. */
  lemma OtherRequests(cfg: Config, store: Store, req: Request, orders: seq<MapOrder>)
    ensures var r := Handle(cfg, store, req, orders);
            && (req.verb.OtherMethod? ==> Refuses(r, 404, "Unknown RDAP path"))
            && (!req.verb.OtherMethod? && req.path == "/help" ==> Succeeds(r) && r.body == Json(HelpDoc))
  {
    assert req.path == "/help" ==> Classify(req.path) == Some(Target(ResponseCache.Help, ""));
  }

  lemma NoSegment(cfg: Config, store: Store, req: Request, orders: seq<MapOrder>, id: string, prefix: string)
    requires !req.verb.OtherMethod? && req.path == prefix + id && !Segment(id)
    requires prefix == "/domain/" || prefix == "/entity/" || prefix == "/nameserver/" || prefix == "/ip/"
    ensures Refuses(Handle(cfg, store, req, orders), 404, "Unknown RDAP path")
  {
    var c := if prefix == "/domain/" then ResponseCache.DomainClass
             else if prefix == "/entity/" then ResponseCache.EntityClass
             else if prefix == "/nameserver/" then ResponseCache.NameserverClass else ResponseCache.IpClass;
    assert req.path == PathOf(Target(c, id));
    ClassifyInvertsPath(req.path, Target(c, id));
    hide Classify, PathOf;
  }

  /** None of the paths the router knows. */
  predicate UnknownPath(path: string) {
    && !("/domain/" <= path) && !("/entity/" <= path) && !("/nameserver/" <= path) && !("/ip/" <= path)
    && !("/ips/rirSearch1/rdap-bottom/" <= path) && !("/ips/rirSearch1/rdap-top/" <= path)
    && !("/ips/rirSearch1/rdap-up/" <= path) && !("/ips/rirSearch1/rdap-down/" <= path)
    && path != "/help" && path != "/domains" && path != "/entities" && path != "/nameservers"
  }

  lemma UnknownIsRefused(cfg: Config, store: Store, req: Request, orders: seq<MapOrder>)
    requires UnknownPath(req.path)
    ensures Refuses(Handle(cfg, store, req, orders), 404, "Unknown RDAP path")
  {
    assert Classify(req.path).None? && SearchAt(req.path).None?;
    hide Classify, SearchAt, HandleTarget, HandleSearch;
  }

  /** The three verbs of hierarchy navigation that are not implemented. */
  lemma NavigationRefused(cfg: Config, store: Store, req: Request, orders: seq<MapOrder>)
    requires !req.verb.OtherMethod?
    requires || "/ips/rirSearch1/rdap-top/" <= req.path || "/ips/rirSearch1/rdap-up/" <= req.path
             || "/ips/rirSearch1/rdap-down/" <= req.path
    ensures Refuses(Handle(cfg, store, req, orders), 501, "RIR-search hierarchy navigation not implemented")
  {
    NotBottom(req.path);
    NavigationRouted(cfg, store, req, orders);
    hide Handle;
  }

  lemma Differs(path: string, p: string, q: string, k: nat)
    requires p <= path && k < |p| && k < |q| && p[k] != q[k]
    ensures !(q <= path)
  {}

  lemma NotBottom(path: string)
    requires || "/ips/rirSearch1/rdap-top/" <= path || "/ips/rirSearch1/rdap-up/" <= path
             || "/ips/rirSearch1/rdap-down/" <= path
    ensures !("/ips/rirSearch1/rdap-bottom/" <= path) && "/ips/" <= path
  {
    if "/ips/rirSearch1/rdap-top/" <= path {
      Differs(path, "/ips/rirSearch1/rdap-top/", "/ips/rirSearch1/rdap-bottom/", 21);
    } else if "/ips/rirSearch1/rdap-up/" <= path {
      Differs(path, "/ips/rirSearch1/rdap-up/", "/ips/rirSearch1/rdap-bottom/", 21);
    } else {
      Differs(path, "/ips/rirSearch1/rdap-down/", "/ips/rirSearch1/rdap-bottom/", 21);
    }
  }
}
