/**
 What the search endpoints answer, in the terms of a client: a glob per field,
 and the pages of the sorted list of all records that meet every one of them.
 */
module SearchAnswers {
  import opened Common
  import opened Text
  import opened Redaction
  import opened Mapper
  import opened SearchMatch
  import opened Server
  import opened Rendering
  import opened LookupAnswers
  import Pattern
  import Paging

  /* ------------------------------------------------------------------ */
  /* Which records are meant                                             */
  /* ------------------------------------------------------------------ */

  predicate Asked(params: map<string, string>, field: string) { field in params && params[field] != "" }

  /** The pattern, as a glob, accepts the text, case mapped on both sides. */
  predicate Accepts(fold: char -> char, text: string, pattern: string) {
    Pattern.Glob(Fold(fold, text), Fold(fold, pattern))
  }

  /** All asked terms are met: the LDH or the Unicode name, and some nameserver's
      name.  No record meets a term on a nameserver's address. */
  predicate DomainMeets(cs: Cases, d: DomainCore, params: map<string, string>) {
    && (Asked(params, "name") ==>
          Accepts(cs.lower, d.ldhName, params["name"]) || Accepts(cs.lower, d.unicodeName, params["name"]))
    && (Asked(params, "nsLdhName") ==>
          exists i :: 0 <= i < |d.nameservers| && Accepts(cs.lower, d.nameservers[i].ldhName, params["nsLdhName"]))
    && !Asked(params, "nsIp")
  }

  predicate NameserverMeets(cs: Cases, n: Nameserver, params: map<string, string>) {
    && (Asked(params, "name") ==> Accepts(cs.lower, n.ldhName, params["name"]))
    && (Asked(params, "ip") ==> params["ip"] in n.ipv4 || params["ip"] in n.ipv6)
  }

  /** The full name stands for the organisation where there is none; handles are
      compared as they are, country codes in upper case. */
  predicate EntityMeets(cs: Cases, c: Contact, params: map<string, string>) {
    && (Asked(params, "fn") ==>
          Accepts(cs.lower, if c.fullName != "" then c.fullName else c.organization, params["fn"]))
    && (Asked(params, "handle") ==> Pattern.Glob(c.handle, params["handle"]))
    && (Asked(params, "email") ==>
          exists i :: 0 <= i < |c.emails| && Accepts(cs.lower, c.emails[i], params["email"]))
    && (Asked(params, "countryCode") ==>
          c.address.Some? && Accepts(cs.upper, c.address.value.countryCode, params["countryCode"]))
  }

  /** Stars only at the ends of a pattern. */
  predicate EdgeStars(v: string) { forall i :: 0 < i < |v| - 1 ==> v[i] != '*' }

  /** No asked pattern has an inner star; an address is no pattern. */
  predicate EdgeStarsOnly(params: map<string, string>) {
    forall f :: f in params && f != "ip" ==> EdgeStars(params[f])
  }

  lemma CoreHasNoStar(v: string)
    ensures EdgeStars(v) <==> '*' !in Pattern.Core(v)
  {
    Pattern.CoreIsSlice(v);
    var i, j := Pattern.CoreStart(v), Pattern.CoreEnd(v);
    forall k | i <= k < j ensures v[k] == Pattern.Core(v)[k - i] {}
    if !EdgeStars(v) {
      var k :| 0 < k < |v| - 1 && v[k] == '*';
      assert Pattern.Core(v)[k - i] == '*';
    }
  }

  lemma MatchesIsGlob(fold: char -> char, text: string, v: string)
    requires Pattern.CaseFolding(fold) && EdgeStars(v)
    ensures Matches(fold, text, v) == Accepts(fold, text, v)
  {
    CoreHasNoStar(v);
    Pattern.CoreOfFold(fold, v);
    Pattern.EdgeStarsAgree(Fold(fold, text), Fold(fold, v));
  }

  lemma HandleIsGlob(text: string, v: string)
    requires EdgeStars(v)
    ensures Pattern.MatchPattern(text, v) == Pattern.Glob(text, v)
  {
    CoreHasNoStar(v);
    Pattern.EdgeStarsAgree(text, v);
  }

  lemma AskedTerms(params: map<string, string>, fields: set<string>, f: string)
    ensures f in TermsOf(params, fields) <==> f in fields && Asked(params, f)
    ensures f in TermsOf(params, fields) ==> TermsOf(params, fields)[f] == params[f]
  {}

  lemma DomainTermIff(cs: Cases, d: DomainCore, params: map<string, string>, f: string)
    requires Pattern.CaseFolding(cs.lower) && f in params && EdgeStars(params[f])
    ensures f == "name" ==>
              (DomainTerm(cs, d, f, params[f]) <==>
                 Accepts(cs.lower, d.ldhName, params[f]) || Accepts(cs.lower, d.unicodeName, params[f]))
    ensures f == "nsLdhName" ==>
              (DomainTerm(cs, d, f, params[f]) <==>
                 exists i :: 0 <= i < |d.nameservers| && Accepts(cs.lower, d.nameservers[i].ldhName, params[f]))
    ensures f == "nsIp" ==> !DomainTerm(cs, d, f, params[f])
  {
    forall text: string ensures Matches(cs.lower, text, params[f]) == Accepts(cs.lower, text, params[f]) {
      MatchesIsGlob(cs.lower, text, params[f]);
    }
    hide Matches, Accepts;
  }

  lemma DomainMatchesIff(cs: Cases, d: DomainCore, params: map<string, string>)
    requires Pattern.CaseFolding(cs.lower) && EdgeStarsOnly(params)
    ensures DomainMatches(cs, d, TermsOf(params, DOMAIN_FIELDS)) <==> DomainMeets(cs, d, params)
  {
    var terms := TermsOf(params, DOMAIN_FIELDS);
    forall f: string
      ensures f in terms <==> (f == "name" || f == "nsLdhName" || f == "nsIp") && Asked(params, f)
      ensures f in terms ==> terms[f] == params[f]
    {
      AskedTerms(params, DOMAIN_FIELDS, f);
    }
    forall f | f in params && f != "ip" ensures EdgeStars(params[f]) {}
    hide TermsOf, DomainTerm, EdgeStars, Accepts;
    if "name" in params { DomainTermIff(cs, d, params, "name"); }
    if "nsLdhName" in params { DomainTermIff(cs, d, params, "nsLdhName"); }
    if "nsIp" in params { DomainTermIff(cs, d, params, "nsIp"); }
  }

  lemma NameserverMatchesIff(cs: Cases, n: Nameserver, params: map<string, string>)
    requires Pattern.CaseFolding(cs.lower) && EdgeStarsOnly(params)
    ensures NameserverMatches(cs, n, TermsOf(params, NAMESERVER_FIELDS)) <==> NameserverMeets(cs, n, params)
  {
    var terms := TermsOf(params, NAMESERVER_FIELDS);
    forall f: string
      ensures f in terms <==> (f == "name" || f == "ip") && Asked(params, f)
      ensures f in terms ==> terms[f] == params[f]
    {
      AskedTerms(params, NAMESERVER_FIELDS, f);
    }
    if "name" in params {
      MatchesIsGlob(cs.lower, n.ldhName, params["name"]);
      assert NameserverTerm(cs, n, "name", params["name"]) == Matches(cs.lower, n.ldhName, params["name"]);
    }
    if "ip" in params {
      assert NameserverTerm(cs, n, "ip", params["ip"]) <==> params["ip"] in n.ipv4 || params["ip"] in n.ipv6;
    }
    hide TermsOf, NameserverTerm, EdgeStars, Accepts, Matches;
  }

  lemma EntityTermIff(cs: Cases, c: Contact, params: map<string, string>, f: string)
    requires Pattern.CaseFolding(cs.lower) && Pattern.CaseFolding(cs.upper) && f in params && EdgeStars(params[f])
    ensures f == "fn" ==>
              (EntityTerm(cs, c, f, params[f]) <==>
                 Accepts(cs.lower, if c.fullName != "" then c.fullName else c.organization, params[f]))
    ensures f == "handle" ==> (EntityTerm(cs, c, f, params[f]) <==> Pattern.Glob(c.handle, params[f]))
    ensures f == "email" ==>
              (EntityTerm(cs, c, f, params[f]) <==>
                 exists i :: 0 <= i < |c.emails| && Accepts(cs.lower, c.emails[i], params[f]))
    ensures f == "countryCode" ==>
              (EntityTerm(cs, c, f, params[f]) <==>
                 c.address.Some? && Accepts(cs.upper, c.address.value.countryCode, params[f]))
  {
    forall text: string
      ensures Matches(cs.lower, text, params[f]) == Accepts(cs.lower, text, params[f])
      ensures Matches(cs.upper, text, params[f]) == Accepts(cs.upper, text, params[f])
    {
      MatchesIsGlob(cs.lower, text, params[f]);
      MatchesIsGlob(cs.upper, text, params[f]);
    }
    HandleIsGlob(c.handle, params[f]);
    hide Matches, Accepts;
  }

  lemma EntityMatchesIff(cs: Cases, c: Contact, params: map<string, string>)
    requires Pattern.CaseFolding(cs.lower) && Pattern.CaseFolding(cs.upper) && EdgeStarsOnly(params)
    ensures EntityMatches(cs, c, TermsOf(params, ENTITY_FIELDS)) <==> EntityMeets(cs, c, params)
  {
    var terms := TermsOf(params, ENTITY_FIELDS);
    forall f: string
      ensures f in terms <==> (f == "fn" || f == "handle" || f == "email" || f == "countryCode") && Asked(params, f)
      ensures f in terms ==> terms[f] == params[f]
    {
      AskedTerms(params, ENTITY_FIELDS, f);
    }
    forall f | f in params && f != "ip" ensures EdgeStars(params[f]) {}
    hide TermsOf, EntityTerm, EdgeStars, Accepts;
    if "fn" in params { EntityTermIff(cs, c, params, "fn"); }
    if "handle" in params { EntityTermIff(cs, c, params, "handle"); }
    if "email" in params { EntityTermIff(cs, c, params, "email"); }
    if "countryCode" in params { EntityTermIff(cs, c, params, "countryCode"); }
  }

  /* ------------------------------------------------------------------ */
  /* One page                                                            */
  /* ------------------------------------------------------------------ */

  /** The records of a store that meet the terms, in the order of their names. */
  ghost predicate IsAnswer<T(!new)>(store: map<string, T>, name: T -> string, meets: T -> bool, list: seq<T>) {
    && Paging.Sorted(list, name)
    && (forall x :: x in list <==> (exists k :: k in store && store[k] == x) && meets(x))
  }

  lemma AnswerIsListing<T(!new)>(store: map<string, T>, name: T -> string, hit: T -> bool, meets: T -> bool)
    requires Paging.DistinctNames(store, name) && forall x :: hit(x) == meets(x)
    ensures IsAnswer(store, name, meets, Paging.Filter(SortedRecords(store, name), hit))
  {
    var all := SortedRecords(store, name);
    SortedRecordsHold(store, name);
    Paging.FilterSorted(all, hit, name);
    var list := Paging.Filter(all, hit);
    forall x ensures x in list <==> (exists k :: k in store && store[k] == x) && meets(x) {
      if (exists k :: k in store && store[k] == x) && meets(x) {
        var k :| k in store && store[k] == x;
        assert x in all && hit(x);
      }
    }
  }

  /** The request is a search on this path that the server takes up. */
  predicate Searches(cfg: Config, req: Request, path: string) {
    !req.verb.OtherMethod? && req.path == path && cfg.searchable && req.acceptable
  }

  /** The controls of a request cut this page out of the list. */
  ghost predicate PageFor<T(!new)>(req: Request, list: seq<T>, items: seq<T>, paging: Option<Paging.Meta>) {
    Paging.PageSize(req.count) > 0 &&
    Paging.IsPage(list, Paging.PageSize(req.count), Paging.StartOf(req.cursor, req.offset), items, paging)
  }

  lemma PageCut<T(!new)>(records: map<string, T>, name: T -> string, hit: T -> bool, req: Request)
    ensures var list := Paging.Filter(SortedRecords(records, name), hit);
            PageFor(req, list, Page(records, name, hit, req).items, MetaOf(Page(records, name, hit, req), req))
  {
    hide SortedRecords, Paging.Filter;
    Paging.PageLaw(Paging.Filter(SortedRecords(records, name), hit), req.count, req.cursor, req.offset);
  }

  lemma {:induction false} DomainsShow(ds: seq<Domain>, o: Options, orders: seq<MapOrder>)
    ensures |RenderDomains(ds, o, orders)| == |ds|
    ensures forall i :: 0 <= i < |ds| ==> DomainShows(RenderDomains(ds, o, orders)[i], ds[i], o)
  {
    hide DomainShows, DomainObjectOf;
    if ds != [] {
      var rest := DropOrders(orders, |ds[0].contacts| + 1);
      DomainsShow(ds[1..], o, rest);
      DomainShowsRecord(ds[0], o, orders);
      forall i | 0 <= i < |ds| ensures DomainShows(RenderDomains(ds, o, orders)[i], ds[i], o) {
        if i > 0 {
          assert RenderDomains(ds, o, orders)[i] == RenderDomains(ds[1..], o, rest)[i-1] && ds[i] == ds[1..][i-1];
        }
      }
    }
  }

  /** The answer shows this page of these domains to the caller. */
  ghost predicate ShowsDomains(cfg: Config, req: Request, r: Response, list: seq<Domain>) {
    && Succeeds(r) && r.body.doc.DomainsDoc?
    && exists items: seq<Domain> :: PageFor(req, list, items, r.body.doc.paging)
         && |r.body.doc.domains| == |items|
         && forall i :: 0 <= i < |items| ==> DomainShows(r.body.doc.domains[i], items[i], OptionsOf(cfg, req))
  }

  /** A domain search answers with its page of the domains that meet all terms,
      sorted by LDH name and shown as the caller may see them. */
  lemma DomainSearchAnswers(cfg: Config, store: Store, req: Request, orders: seq<MapOrder>, list: seq<Domain>)
    requires Pattern.CaseFolding(cfg.cases.lower) && EdgeStarsOnly(req.params)
    requires Paging.DistinctNames(store.domains, (d: Domain) => d.core.ldhName)
    requires Searches(cfg, req, "/domains")
    requires Asked(req.params, "name") || Asked(req.params, "nsLdhName") || Asked(req.params, "nsIp")
    requires IsAnswer(store.domains, (d: Domain) => d.core.ldhName,
                      (d: Domain) => DomainMeets(cfg.cases, d.core, req.params), list)
    ensures ShowsDomains(cfg, req, Handle(cfg, store, req, orders), list)
  {
    var terms := TermsOf(req.params, DOMAIN_FIELDS);
    SearchRouted(cfg, store, req, orders, Domains);
    assert terms != map[] by {
      AskedTerms(req.params, DOMAIN_FIELDS, "name");
      AskedTerms(req.params, DOMAIN_FIELDS, "nsLdhName");
      AskedTerms(req.params, DOMAIN_FIELDS, "nsIp");
    }
    assert Handle(cfg, store, req, orders) == SearchDomains(cfg, store, terms, req, orders);
    DomainPage(cfg, store, terms, req, orders, list);
  }

  function SearchPath(c: SearchClass): string {
    match c
    case Domains => "/domains"
    case Entities => "/entities"
    case Nameservers => "/nameservers"
  }

  lemma SearchRouted(cfg: Config, store: Store, req: Request, orders: seq<MapOrder>, c: SearchClass)
    requires !req.verb.OtherMethod?
    requires req.path == SearchPath(c)
    ensures Handle(cfg, store, req, orders) == HandleSearch(cfg, store, c, req, orders)
  {
    SearchPathIsNone(c);
    hide HandleSearch, HandleNavigation, HandleTarget, Classify, SearchAt, SearchPath;
  }

  lemma SearchPathIsNone(c: SearchClass)
    ensures Classify(SearchPath(c)).None? && SearchAt(SearchPath(c)) == Some(c)
  {
    var p := SearchPath(c);
    assert c.Domains? ==> p[1] == 'd' && p[7] == 's';
    assert c.Entities? ==> p[1] == 'e' && p[5] == 't';
    assert c.Nameservers? ==> p[1] == 'n' && p[11] == 's';
  }

  lemma AnswerUnique<T(!new)>(store: map<string, T>, name: T -> string, meets: T -> bool, a: seq<T>, b: seq<T>)
    requires IsAnswer(store, name, meets, a) && IsAnswer(store, name, meets, b)
    ensures a == b
  {
    Paging.SortedUnique(a, b, name);
  }

  lemma DomainPage(cfg: Config, store: Store, terms: Terms, req: Request, orders: seq<MapOrder>, list: seq<Domain>)
    requires Pattern.CaseFolding(cfg.cases.lower) && EdgeStarsOnly(req.params)
    requires Paging.DistinctNames(store.domains, (d: Domain) => d.core.ldhName)
    requires terms == TermsOf(req.params, DOMAIN_FIELDS)
    requires IsAnswer(store.domains, (d: Domain) => d.core.ldhName,
                      (d: Domain) => DomainMeets(cfg.cases, d.core, req.params), list)
    ensures ShowsDomains(cfg, req, SearchDomains(cfg, store, terms, req, orders), list)
  {
    var name := (d: Domain) => d.core.ldhName;
    var hit := (d: Domain) => DomainMatches(cfg.cases, d.core, terms);
    var meets := (d: Domain) => DomainMeets(cfg.cases, d.core, req.params);
    forall d: Domain ensures hit(d) == meets(d) {
      DomainMatchesIff(cfg.cases, d.core, req.params);
    }
    hide DomainMatches, DomainMeets, EdgeStarsOnly, TermsOf, SortedRecords, Page, IsAnswer, PageFor, DomainShows,
      RenderDomains, Paging.DistinctNames;
    AnswerIsListing(store.domains, name, hit, meets);
    AnswerUnique(store.domains, name, meets, list, Paging.Filter(SortedRecords(store.domains, name), hit));
    PageCut(store.domains, name, hit, req);
    var page := Page(store.domains, name, hit, req);
    DomainsShow(page.items, OptionsFor(cfg, req), orders);
    assert OptionsFor(cfg, req) == OptionsOf(cfg, req);
  }

  /* The other two classes */

  ghost predicate ShowsEntities(cfg: Config, req: Request, r: Response, list: seq<Contact>) {
    && Succeeds(r) && r.body.doc.EntitiesDoc?
    && exists items: seq<Contact> :: PageFor(req, list, items, r.body.doc.paging)
         && |r.body.doc.entities| == |items|
         && forall i :: 0 <= i < |items| ==>
              ContactShows(r.body.doc.entities[i], items[i], items[i].roles, OptionsOf(cfg, req))
  }

  ghost predicate ShowsNameservers(req: Request, r: Response, list: seq<Nameserver>) {
    Succeeds(r) && r.body.doc.NameserversDoc? && PageFor(req, list, r.body.doc.nameservers, r.body.doc.paging)
  }

  /** An entity search answers with its page of the contacts that meet all terms,
      sorted by handle and shown as the caller may see them. */
  lemma EntitySearchAnswers(cfg: Config, store: Store, req: Request, orders: seq<MapOrder>, list: seq<Contact>)
    requires Pattern.CaseFolding(cfg.cases.lower) && Pattern.CaseFolding(cfg.cases.upper) && EdgeStarsOnly(req.params)
    requires Paging.DistinctNames(store.entities, (c: Contact) => c.handle)
    requires Searches(cfg, req, "/entities")
    requires || Asked(req.params, "fn") || Asked(req.params, "handle") || Asked(req.params, "email")
             || Asked(req.params, "countryCode")
    requires IsAnswer(store.entities, (c: Contact) => c.handle,
                      (c: Contact) => EntityMeets(cfg.cases, c, req.params), list)
    ensures ShowsEntities(cfg, req, Handle(cfg, store, req, orders), list)
  {
    var terms := TermsOf(req.params, ENTITY_FIELDS);
    SearchRouted(cfg, store, req, orders, Entities);
    assert terms != map[] by {
      AskedTerms(req.params, ENTITY_FIELDS, "fn");
      AskedTerms(req.params, ENTITY_FIELDS, "handle");
      AskedTerms(req.params, ENTITY_FIELDS, "email");
      AskedTerms(req.params, ENTITY_FIELDS, "countryCode");
    }
    hide TermsOf, EntityMeets, EdgeStarsOnly, IsAnswer, ShowsEntities, SearchEntities, Handle;
    assert Handle(cfg, store, req, orders) == SearchEntities(cfg, store, terms, req, orders);
    EntityPage(cfg, store, terms, req, orders, list);
  }

  lemma EntityPage(cfg: Config, store: Store, terms: Terms, req: Request, orders: seq<MapOrder>, list: seq<Contact>)
    requires Pattern.CaseFolding(cfg.cases.lower) && Pattern.CaseFolding(cfg.cases.upper) && EdgeStarsOnly(req.params)
    requires Paging.DistinctNames(store.entities, (c: Contact) => c.handle)
    requires terms == TermsOf(req.params, ENTITY_FIELDS)
    requires IsAnswer(store.entities, (c: Contact) => c.handle,
                      (c: Contact) => EntityMeets(cfg.cases, c, req.params), list)
    ensures ShowsEntities(cfg, req, SearchEntities(cfg, store, terms, req, orders), list)
  {
    var name := (c: Contact) => c.handle;
    var hit := (c: Contact) => EntityMatches(cfg.cases, c, terms);
    var meets := (c: Contact) => EntityMeets(cfg.cases, c, req.params);
    forall c: Contact ensures hit(c) == meets(c) {
      EntityMatchesIff(cfg.cases, c, req.params);
    }
    hide EntityMatches, EntityMeets, EdgeStarsOnly, TermsOf, SortedRecords, Page, IsAnswer, PageFor, ContactShows,
      EntityOf, Paging.DistinctNames;
    AnswerIsListing(store.entities, name, hit, meets);
    AnswerUnique(store.entities, name, meets, list, Paging.Filter(SortedRecords(store.entities, name), hit));
    PageCut(store.entities, name, hit, req);
    var page, o := Page(store.entities, name, hit, req), OptionsFor(cfg, req);
    assert o == OptionsOf(cfg, req);
    var es := ContactEntities(page.items, o, orders);
    forall i | 0 <= i < |page.items| ensures ContactShows(es[i], page.items[i], page.items[i].roles, o) {
      EntityShowsContact(page.items[i], o, OrderAt(orders, i));
    }
  }

  /** A nameserver search answers with its page of the nameservers that meet all
      terms, sorted by LDH name. */
  lemma NameserverSearchAnswers(cfg: Config, store: Store, req: Request, orders: seq<MapOrder>, list: seq<Nameserver>)
    requires Pattern.CaseFolding(cfg.cases.lower) && EdgeStarsOnly(req.params)
    requires Paging.DistinctNames(store.nameservers, (n: Nameserver) => n.ldhName)
    requires Searches(cfg, req, "/nameservers") && (Asked(req.params, "name") || Asked(req.params, "ip"))
    requires IsAnswer(store.nameservers, (n: Nameserver) => n.ldhName,
                      (n: Nameserver) => NameserverMeets(cfg.cases, n, req.params), list)
    ensures ShowsNameservers(req, Handle(cfg, store, req, orders), list)
  {
    var terms := TermsOf(req.params, NAMESERVER_FIELDS);
    SearchRouted(cfg, store, req, orders, Nameservers);
    assert terms != map[] by {
      AskedTerms(req.params, NAMESERVER_FIELDS, "name");
      AskedTerms(req.params, NAMESERVER_FIELDS, "ip");
    }
    assert Handle(cfg, store, req, orders) == SearchNameservers(cfg, store, terms, req);
    NameserverPage(cfg, store, terms, req, list);
  }

  lemma NameserverPage(cfg: Config, store: Store, terms: Terms, req: Request, list: seq<Nameserver>)
    requires Pattern.CaseFolding(cfg.cases.lower) && EdgeStarsOnly(req.params)
    requires Paging.DistinctNames(store.nameservers, (n: Nameserver) => n.ldhName)
    requires terms == TermsOf(req.params, NAMESERVER_FIELDS)
    requires IsAnswer(store.nameservers, (n: Nameserver) => n.ldhName,
                      (n: Nameserver) => NameserverMeets(cfg.cases, n, req.params), list)
    ensures ShowsNameservers(req, SearchNameservers(cfg, store, terms, req), list)
  {
    var name := (n: Nameserver) => n.ldhName;
    var hit := (n: Nameserver) => NameserverMatches(cfg.cases, n, terms);
    var meets := (n: Nameserver) => NameserverMeets(cfg.cases, n, req.params);
    forall n: Nameserver ensures hit(n) == meets(n) {
      NameserverMatchesIff(cfg.cases, n, req.params);
    }
    hide NameserverMatches, NameserverMeets, EdgeStarsOnly, TermsOf, SortedRecords, Page, IsAnswer, PageFor,
      Paging.DistinctNames;
    AnswerIsListing(store.nameservers, name, hit, meets);
    AnswerUnique(store.nameservers, name, meets, list, Paging.Filter(SortedRecords(store.nameservers, name), hit));
    PageCut(store.nameservers, name, hit, req);
  }

  /** Some term that the class of objects knows is asked. */
  predicate AnyAsked(params: map<string, string>, c: SearchClass) {
    match c
    case Domains => Asked(params, "name") || Asked(params, "nsLdhName") || Asked(params, "nsIp")
    case Entities =>
      Asked(params, "fn") || Asked(params, "handle") || Asked(params, "email") || Asked(params, "countryCode")
    case Nameservers => Asked(params, "name") || Asked(params, "ip")
  }

  lemma TermsIffAsked(params: map<string, string>, c: SearchClass)
    ensures TermsOf(params, FieldsOf(c)) != map[] <==> AnyAsked(params, c)
  {
    var terms := TermsOf(params, FieldsOf(c));
    assert forall f :: f in terms <==> f in FieldsOf(c) && Asked(params, f);
    hide TermsOf, Asked;
    assert terms != map[] <==> exists f :: f in terms;
  }

  /** The searches the server does not take up: not enabled, not acceptable, or
      without a term. */
  lemma SearchRefused(cfg: Config, store: Store, req: Request, orders: seq<MapOrder>, c: SearchClass)
    requires !req.verb.OtherMethod?
    requires req.path == SearchPath(c)
    ensures var r := Handle(cfg, store, req, orders);
            if !cfg.searchable then Refuses(r, 501, "Search not enabled")
            else if !req.acceptable then Refuses(r, 406, "Unsupported media type")
            else if !AnyAsked(req.params, c) then Refuses(r, 400, "Missing search predicate")
            else r.status == 200
  {
    SearchRouted(cfg, store, req, orders, c);
    TermsIffAsked(req.params, c);
    hide TermsOf, FieldsOf, SearchDomains, SearchEntities, SearchNameservers, AnyAsked, Handle;
    SearchSucceeds(cfg, store, TermsOf(req.params, FieldsOf(c)), req, orders);
  }

  lemma SearchSucceeds(cfg: Config, store: Store, terms: Terms, req: Request, orders: seq<MapOrder>)
    ensures SearchDomains(cfg, store, terms, req, orders).status == 200
    ensures SearchEntities(cfg, store, terms, req, orders).status == 200
    ensures SearchNameservers(cfg, store, terms, req).status == 200
  {}

  /* ------------------------------------------------------------------ */
  /* The walk over all pages                                             */
  /* ------------------------------------------------------------------ */

  function NextOf(r: Response): Option<int> {
    if r.body.Json? && (r.body.doc.DomainsDoc? || r.body.doc.EntitiesDoc? || r.body.doc.NameserversDoc?)
       && r.body.doc.paging.Some?
    then r.body.doc.paging.value.nextCursor else None
  }

  /** A client asks for the first page and follows the cursor until there is none. */
  ghost predicate Walks(reqs: seq<Request>, answers: seq<Response>) {
    && |reqs| == |answers| && reqs != [] && reqs[0].cursor == None && reqs[0].offset == None
    && (forall i :: 0 <= i < |reqs| ==> reqs[i] == reqs[0].(cursor := reqs[i].cursor))
    && (forall i :: 0 <= i < |reqs| - 1 ==> NextOf(answers[i]).Some? && reqs[i+1].cursor == NextOf(answers[i]))
    && NextOf(answers[|reqs|-1]) == None
  }

  /** The records on page i of the walk. */
  ghost predicate PageIs<T(!new)>(list: seq<T>, req: Request, answer: Response, page: seq<T>) {
    exists paging :: PageFor(req, list, page, paging) && NextOf(answer) == Paging.NextIn(paging)
  }

  ghost predicate PagesAre<T(!new)>(list: seq<T>, reqs: seq<Request>, answers: seq<Response>, pages: seq<seq<T>>) {
    && |pages| == |reqs| == |answers|
    && forall i :: 0 <= i < |reqs| ==> PageIs(list, reqs[i], answers[i], pages[i])
  }

  lemma PageStarts<T(!new)>(list: seq<T>, req: Request, answer: Response, page: seq<T>, start: int)
    requires PageIs(list, req, answer, page) && start == Paging.StartOf(req.cursor, req.offset) && start >= 0
    ensures var size := Paging.PageSize(req.count);
            && size > 0 && page == Paging.Slice(list, start, start + size)
            && NextOf(answer) == if start + size < |list| then Some(start + size) else None
  {
    hide NextOf, Paging.IsPage, Paging.PageSize, Paging.StartOf;
    var paging :| PageFor(req, list, page, paging) && NextOf(answer) == Paging.NextIn(paging);
    Paging.PageFacts(list, Paging.PageSize(req.count), start, page, paging);
  }

  lemma {:induction false} WalkStarts<T(!new)>(list: seq<T>, reqs: seq<Request>, answers: seq<Response>,
                                               pages: seq<seq<T>>, i: nat)
    requires Walks(reqs, answers) && PagesAre(list, reqs, answers, pages) && i < |reqs|
    ensures var size := Paging.PageSize(reqs[0].count);
            && size > 0 && 0 <= i * size
            && pages[i] == Paging.Slice(list, i * size, i * size + size)
            && NextOf(answers[i]) == (if i * size + size < |list| then Some(i * size + size) else None)
  {
    hide NextOf, PageIs, Paging.PageSize, Paging.Slice;
    var size := Paging.PageSize(reqs[0].count);
    assert reqs[i] == reqs[0].(cursor := reqs[i].cursor);
    if i > 0 {
      WalkStarts(list, reqs, answers, pages, i - 1);
      assert (i - 1) * size + size == i * size;
      assert NextOf(answers[i-1]).Some? && reqs[i].cursor == Some(i * size);
    }
    PageStarts(list, reqs[i], answers[i], pages[i], i * size);
  }

  /** The page of an element, when `pages` pages are enough for all. */
  lemma PlaceOf(n: nat, size: int, pages: nat) returns (i: nat, start: nat)
    requires size > 0 && pages > 0 && n < (pages - 1) * size + size
    ensures i < pages && start == i * size && start <= n < start + size
  {
    i := n / size;
    start := i * size;
    assert (pages - 1) * size + size == pages * size;
    if i >= pages {
      Paging.Times(pages, i, size);
    }
  }

  lemma SliceAt<T>(list: seq<T>, start: nat, size: int, n: nat)
    requires start <= n < start + size && n < |list|
    ensures var s := Paging.Slice(list, start, start + size); n - start < |s| && s[n - start] == list[n]
  {}

  /** Every element of the list is on the page its place says. */
  lemma WalkHolds<T(!new)>(list: seq<T>, reqs: seq<Request>, answers: seq<Response>, pages: seq<seq<T>>, n: nat)
    returns (i: nat, j: nat)
    requires Walks(reqs, answers) && PagesAre(list, reqs, answers, pages) && n < |list|
    ensures i < |pages| && j < |pages[i]| && pages[i][j] == list[n]
  {
    hide NextOf, PageIs, Paging.PageSize, Paging.Slice;
    var k, size := |reqs|, Paging.PageSize(reqs[0].count);
    WalkStarts(list, reqs, answers, pages, k - 1);
    var start;
    i, start := PlaceOf(n, size, k);
    WalkStarts(list, reqs, answers, pages, i);
    SliceAt(list, start, size, n);
    j := n - start;
  }

  lemma WalkOnly<T(!new)>(list: seq<T>, reqs: seq<Request>, answers: seq<Response>, pages: seq<seq<T>>, i: nat, j: nat)
    requires Walks(reqs, answers) && PagesAre(list, reqs, answers, pages) && i < |pages| && j < |pages[i]|
    ensures pages[i][j] in list
  {
    hide NextOf, PageIs, Paging.PageSize;
    WalkStarts(list, reqs, answers, pages, i);
  }

  /** The domain is on page i. */
  predicate OnPage(r: Response, d: DomainCore) {
    r.body.Json? && r.body.doc.DomainsDoc?
    && exists j :: 0 <= j < |r.body.doc.domains| && r.body.doc.domains[j].core == d
  }

  /** A client's walk over a domain search of a server with this store. */
  ghost predicate DomainWalk(cfg: Config, store: Store, reqs: seq<Request>, orders: seq<seq<MapOrder>>,
                             answers: seq<Response>) {
    && Pattern.CaseFolding(cfg.cases.lower) && reqs != [] && EdgeStarsOnly(reqs[0].params)
    && Paging.DistinctNames(store.domains, (d: Domain) => d.core.ldhName)
    && Searches(cfg, reqs[0], "/domains")
    && (|| Asked(reqs[0].params, "name") || Asked(reqs[0].params, "nsLdhName") || Asked(reqs[0].params, "nsIp"))
    && Walks(reqs, answers) && |orders| == |reqs|
    && forall i :: 0 <= i < |reqs| ==> answers[i] == Handle(cfg, store, reqs[i], orders[i])
  }

  /** Over the pages of a domain search, a domain of the store is shown if and only
      if it meets every term. */
  lemma DomainWalkFinds(cfg: Config, store: Store, reqs: seq<Request>, orders: seq<seq<MapOrder>>,
                        answers: seq<Response>, k: string)
    requires DomainWalk(cfg, store, reqs, orders, answers) && k in store.domains
    ensures (exists i :: 0 <= i < |reqs| && OnPage(answers[i], store.domains[k].core)) <==>
              DomainMeets(cfg.cases, store.domains[k].core, reqs[0].params)
  {
    var name := (d: Domain) => d.core.ldhName;
    var meets := (d: Domain) => DomainMeets(cfg.cases, d.core, reqs[0].params);
    hide DomainMeets, Handle, SortedRecords, PageIs, DomainPageIs, Searches, Asked, EdgeStarsOnly;
    AnswerIsListing(store.domains, name, meets, meets);
    var list := Paging.Filter(SortedRecords(store.domains, name), meets);
    var pages := DomainPages(cfg, store, reqs, orders, answers, list);
    ListedIffOnPage(list, reqs, answers, pages, store.domains[k].core);
    var d := store.domains[k];
    assert meets(d) ==> d in list;
    assert forall x :: x in list ==> meets(x);
  }

  lemma ListedIffOnPage(list: seq<Domain>, reqs: seq<Request>, answers: seq<Response>, pages: seq<seq<Domain>>,
                        core: DomainCore)
    requires Walks(reqs, answers) && PagesAre(list, reqs, answers, pages)
    requires forall i :: 0 <= i < |reqs| ==> DomainPageIs(answers[i], pages[i])
    ensures (exists i :: 0 <= i < |reqs| && OnPage(answers[i], core)) <==> exists d :: d in list && d.core == core
  {
    hide PageIs, Walks;
    if i :| 0 <= i < |reqs| && OnPage(answers[i], core) {
      var j :| 0 <= j < |answers[i].body.doc.domains| && answers[i].body.doc.domains[j].core == core;
      WalkOnly(list, reqs, answers, pages, i, j);
      assert pages[i][j].core == core;
    }
    if d :| d in list && d.core == core {
      var n :| 0 <= n < |list| && list[n] == d;
      var i, j := WalkHolds(list, reqs, answers, pages, n);
      assert answers[i].body.doc.domains[j].core == core;
    }
  }

  /** The page shows these records, in this order. */
  ghost predicate DomainPageIs(r: Response, page: seq<Domain>) {
    && r.body.Json? && r.body.doc.DomainsDoc? && |r.body.doc.domains| == |page|
    && forall j :: 0 <= j < |page| ==> r.body.doc.domains[j].core == page[j].core
  }

  lemma DomainPages(cfg: Config, store: Store, reqs: seq<Request>, orders: seq<seq<MapOrder>>,
                    answers: seq<Response>, list: seq<Domain>) returns (pages: seq<seq<Domain>>)
    requires DomainWalk(cfg, store, reqs, orders, answers)
    requires IsAnswer(store.domains, (d: Domain) => d.core.ldhName,
                      (d: Domain) => DomainMeets(cfg.cases, d.core, reqs[0].params), list)
    ensures PagesAre(list, reqs, answers, pages)
    ensures forall i :: 0 <= i < |reqs| ==> DomainPageIs(answers[i], pages[i])
  {
    hide IsAnswer, DomainMeets, Handle, PageIs, DomainPageIs, ShowsDomains, DomainWalk;
    assert |answers| == |reqs| by {
      SameLength(cfg, store, reqs, orders, answers);
    }
    pages := [];
    while |pages| < |reqs|
      invariant |pages| <= |reqs|
      invariant forall i :: 0 <= i < |pages| ==>
                  PageIs(list, reqs[i], answers[i], pages[i]) && DomainPageIs(answers[i], pages[i])
    {
      var page := DomainPageAt(cfg, store, reqs, orders, answers, list, |pages|);
      pages := pages + [page];
    }
  }

  lemma SameLength(cfg: Config, store: Store, reqs: seq<Request>, orders: seq<seq<MapOrder>>, answers: seq<Response>)
    requires DomainWalk(cfg, store, reqs, orders, answers)
    ensures |answers| == |reqs|
  {}

  lemma DomainPageAt(cfg: Config, store: Store, reqs: seq<Request>, orders: seq<seq<MapOrder>>,
                     answers: seq<Response>, list: seq<Domain>, i: nat) returns (page: seq<Domain>)
    requires DomainWalk(cfg, store, reqs, orders, answers) && i < |reqs| == |answers|
    requires IsAnswer(store.domains, (d: Domain) => d.core.ldhName,
                      (d: Domain) => DomainMeets(cfg.cases, d.core, reqs[0].params), list)
    ensures PageIs(list, reqs[i], answers[i], page) && DomainPageIs(answers[i], page)
  {
    hide IsAnswer, DomainMeets, Handle, PageIs, DomainPageIs, ShowsDomains;
    assert reqs[i] == reqs[0].(cursor := reqs[i].cursor);
    DomainSearchAnswers(cfg, store, reqs[i], orders[i], list);
    page := OneDomainPage(cfg, reqs[i], answers[i], list);
  }

  lemma OneDomainPage(cfg: Config, req: Request, r: Response, list: seq<Domain>) returns (page: seq<Domain>)
    requires ShowsDomains(cfg, req, r, list)
    ensures PageIs(list, req, r, page) && DomainPageIs(r, page)
  {
    hide PageFor;
    page :| PageFor(req, list, page, r.body.doc.paging)
      && |r.body.doc.domains| == |page|
      && forall i :: 0 <= i < |page| ==> DomainShows(r.body.doc.domains[i], page[i], OptionsOf(cfg, req));
    forall i | 0 <= i < |page| ensures r.body.doc.domains[i].core == page[i].core {
      assert DomainShows(r.body.doc.domains[i], page[i], OptionsOf(cfg, req));
    }
    assert NextOf(r) == Paging.NextIn(r.body.doc.paging);
  }

  /* The same for the other two classes */

  predicate EntityOnPage(r: Response, handle: string) {
    r.body.Json? && r.body.doc.EntitiesDoc?
    && exists j :: 0 <= j < |r.body.doc.entities| && r.body.doc.entities[j].handle == handle
  }

  ghost predicate EntityWalk(cfg: Config, store: Store, reqs: seq<Request>, orders: seq<seq<MapOrder>>,
                             answers: seq<Response>) {
    && Pattern.CaseFolding(cfg.cases.lower) && Pattern.CaseFolding(cfg.cases.upper)
    && reqs != [] && EdgeStarsOnly(reqs[0].params)
    && Paging.DistinctNames(store.entities, (c: Contact) => c.handle)
    && Searches(cfg, reqs[0], "/entities")
    && (|| Asked(reqs[0].params, "fn") || Asked(reqs[0].params, "handle") || Asked(reqs[0].params, "email")
        || Asked(reqs[0].params, "countryCode"))
    && Walks(reqs, answers) && |orders| == |reqs|
    && forall i :: 0 <= i < |reqs| ==> answers[i] == Handle(cfg, store, reqs[i], orders[i])
  }

  /** Over the pages of an entity search, a contact of the store is shown if and
      only if it meets every term. */
  lemma EntityWalkFinds(cfg: Config, store: Store, reqs: seq<Request>, orders: seq<seq<MapOrder>>,
                        answers: seq<Response>, k: string)
    requires EntityWalk(cfg, store, reqs, orders, answers) && k in store.entities
    ensures (exists i :: 0 <= i < |reqs| && EntityOnPage(answers[i], store.entities[k].handle)) <==>
              EntityMeets(cfg.cases, store.entities[k], reqs[0].params)
  {
    var name := (c: Contact) => c.handle;
    var meets := (c: Contact) => EntityMeets(cfg.cases, c, reqs[0].params);
    hide EntityMeets, Handle, SortedRecords, PageIs, EntityPageIs, Searches, Asked, EdgeStarsOnly;
    AnswerIsListing(store.entities, name, meets, meets);
    var list := Paging.Filter(SortedRecords(store.entities, name), meets);
    var pages := EntityPages(cfg, store, reqs, orders, answers, list);
    var c := store.entities[k];
    ContactIffOnPage(list, reqs, answers, pages, c.handle);
    assert meets(c) ==> c in list;
    forall x | x in list && x.handle == c.handle ensures x == c {
      var l :| l in store.entities && store.entities[l] == x;
      assert name(store.entities[l]) == name(store.entities[k]);
    }
  }

  lemma ContactIffOnPage(list: seq<Contact>, reqs: seq<Request>, answers: seq<Response>, pages: seq<seq<Contact>>,
                         handle: string)
    requires Walks(reqs, answers) && PagesAre(list, reqs, answers, pages)
    requires forall i :: 0 <= i < |reqs| ==> EntityPageIs(answers[i], pages[i])
    ensures (exists i :: 0 <= i < |reqs| && EntityOnPage(answers[i], handle)) <==>
              exists c :: c in list && c.handle == handle
  {
    hide PageIs, Walks;
    if i :| 0 <= i < |reqs| && EntityOnPage(answers[i], handle) {
      var j :| 0 <= j < |answers[i].body.doc.entities| && answers[i].body.doc.entities[j].handle == handle;
      WalkOnly(list, reqs, answers, pages, i, j);
      assert pages[i][j].handle == handle;
    }
    if c :| c in list && c.handle == handle {
      var n :| 0 <= n < |list| && list[n] == c;
      var i, j := WalkHolds(list, reqs, answers, pages, n);
      assert answers[i].body.doc.entities[j].handle == handle;
    }
  }

  ghost predicate EntityPageIs(r: Response, page: seq<Contact>) {
    && r.body.Json? && r.body.doc.EntitiesDoc? && |r.body.doc.entities| == |page|
    && forall j :: 0 <= j < |page| ==> r.body.doc.entities[j].handle == page[j].handle
  }

  lemma EntityPages(cfg: Config, store: Store, reqs: seq<Request>, orders: seq<seq<MapOrder>>,
                    answers: seq<Response>, list: seq<Contact>) returns (pages: seq<seq<Contact>>)
    requires EntityWalk(cfg, store, reqs, orders, answers)
    requires IsAnswer(store.entities, (c: Contact) => c.handle,
                      (c: Contact) => EntityMeets(cfg.cases, c, reqs[0].params), list)
    ensures PagesAre(list, reqs, answers, pages)
    ensures forall i :: 0 <= i < |reqs| ==> EntityPageIs(answers[i], pages[i])
  {
    hide IsAnswer, EntityMeets, Handle, PageIs, EntityPageIs, ShowsEntities;
    pages := [];
    while |pages| < |reqs|
      invariant |pages| <= |reqs|
      invariant forall i :: 0 <= i < |pages| ==>
                  PageIs(list, reqs[i], answers[i], pages[i]) && EntityPageIs(answers[i], pages[i])
    {
      var i := |pages|;
      assert reqs[i] == reqs[0].(cursor := reqs[i].cursor);
      EntitySearchAnswers(cfg, store, reqs[i], orders[i], list);
      var page := OneEntityPage(cfg, reqs[i], answers[i], list);
      pages := pages + [page];
    }
  }

  lemma OneEntityPage(cfg: Config, req: Request, r: Response, list: seq<Contact>) returns (page: seq<Contact>)
    requires ShowsEntities(cfg, req, r, list)
    ensures PageIs(list, req, r, page) && EntityPageIs(r, page)
  {
    hide PageFor;
    page :| PageFor(req, list, page, r.body.doc.paging)
      && |r.body.doc.entities| == |page|
      && forall i :: 0 <= i < |page| ==>
           ContactShows(r.body.doc.entities[i], page[i], page[i].roles, OptionsOf(cfg, req));
    forall i | 0 <= i < |page| ensures r.body.doc.entities[i].handle == page[i].handle {
      assert ContactShows(r.body.doc.entities[i], page[i], page[i].roles, OptionsOf(cfg, req));
    }
    assert NextOf(r) == Paging.NextIn(r.body.doc.paging);
  }

  ghost predicate NameserverWalk(cfg: Config, store: Store, reqs: seq<Request>, orders: seq<seq<MapOrder>>,
                                 answers: seq<Response>) {
    && Pattern.CaseFolding(cfg.cases.lower) && reqs != [] && EdgeStarsOnly(reqs[0].params)
    && Paging.DistinctNames(store.nameservers, (n: Nameserver) => n.ldhName)
    && Searches(cfg, reqs[0], "/nameservers") && (Asked(reqs[0].params, "name") || Asked(reqs[0].params, "ip"))
    && Walks(reqs, answers) && |orders| == |reqs|
    && forall i :: 0 <= i < |reqs| ==> answers[i] == Handle(cfg, store, reqs[i], orders[i])
  }

  predicate NameserverOnPage(r: Response, n: Nameserver) {
    r.body.Json? && r.body.doc.NameserversDoc? && n in r.body.doc.nameservers
  }

  /** Over the pages of a nameserver search, a nameserver of the store is shown if
      and only if it meets every term. */
  lemma NameserverWalkFinds(cfg: Config, store: Store, reqs: seq<Request>, orders: seq<seq<MapOrder>>,
                            answers: seq<Response>, k: string)
    requires NameserverWalk(cfg, store, reqs, orders, answers) && k in store.nameservers
    ensures (exists i :: 0 <= i < |reqs| && NameserverOnPage(answers[i], store.nameservers[k])) <==>
              NameserverMeets(cfg.cases, store.nameservers[k], reqs[0].params)
  {
    var name := (n: Nameserver) => n.ldhName;
    var meets := (n: Nameserver) => NameserverMeets(cfg.cases, n, reqs[0].params);
    hide NameserverMeets, Handle, SortedRecords, PageIs, Searches, Asked, EdgeStarsOnly;
    AnswerIsListing(store.nameservers, name, meets, meets);
    var list := Paging.Filter(SortedRecords(store.nameservers, name), meets);
    var pages := NameserverPages(cfg, store, reqs, orders, answers, list);
    var n := store.nameservers[k];
    if i :| 0 <= i < |reqs| && NameserverOnPage(answers[i], n) {
      var j :| 0 <= j < |pages[i]| && pages[i][j] == n;
      WalkOnly(list, reqs, answers, pages, i, j);
    }
    if meets(n) {
      assert n in list;
      var at :| 0 <= at < |list| && list[at] == n;
      var i, j := WalkHolds(list, reqs, answers, pages, at);
      assert NameserverOnPage(answers[i], n);
    }
  }

  lemma NameserverPages(cfg: Config, store: Store, reqs: seq<Request>, orders: seq<seq<MapOrder>>,
                        answers: seq<Response>, list: seq<Nameserver>) returns (pages: seq<seq<Nameserver>>)
    requires NameserverWalk(cfg, store, reqs, orders, answers)
    requires IsAnswer(store.nameservers, (n: Nameserver) => n.ldhName,
                      (n: Nameserver) => NameserverMeets(cfg.cases, n, reqs[0].params), list)
    ensures PagesAre(list, reqs, answers, pages)
    ensures forall i :: 0 <= i < |reqs| ==>
              && answers[i].body.Json? && answers[i].body.doc.NameserversDoc?
              && answers[i].body.doc.nameservers == pages[i]
  {
    hide IsAnswer, NameserverMeets, Handle, PageFor;
    pages := [];
    while |pages| < |reqs|
      invariant |pages| <= |reqs|
      invariant forall i :: 0 <= i < |pages| ==>
                  && PageIs(list, reqs[i], answers[i], pages[i]) && answers[i].body.Json?
                  && answers[i].body.doc.NameserversDoc? && answers[i].body.doc.nameservers == pages[i]
    {
      var i := |pages|;
      assert reqs[i] == reqs[0].(cursor := reqs[i].cursor);
      NameserverSearchAnswers(cfg, store, reqs[i], orders[i], list);
      assert PageIs(list, reqs[i], answers[i], answers[i].body.doc.nameservers) by {
        assert NextOf(answers[i]) == Paging.NextIn(answers[i].body.doc.paging);
      }
      pages := pages + [answers[i].body.doc.nameservers];
    }
  }
}
