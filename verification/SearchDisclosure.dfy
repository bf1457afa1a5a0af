/**
 What entity searches disclose.  Terms are matched against the raw record, so a
 term on a field the caller's tier is not shown tells records apart that look the
 same to it.  The condition under which a search tells nothing is exact.
 */
module SearchDisclosure {
  import opened Common
  import opened Text
  import opened Redaction
  import opened Mapper
  import opened SearchMatch
  import opened Server
  import opened NonInterference
  import Pattern
  import Paging

  /** A string the term accepts. */
  function Fitting(fold: char -> char, v: string): string {
    Pattern.Core(Fold(fold, v))
  }

  lemma FittingMatches(fold: char -> char, v: string)
    requires Pattern.CaseFolding(fold)
    ensures Matches(fold, Fitting(fold, v), v)
    ensures Fold(fold, Fitting(fold, v)) == Fitting(fold, v)
  {
    var q := Fold(fold, v);
    forall c | c in q ensures fold(c) == c {
      var i :| 0 <= i < |q| && q[i] == c;
      FoldAt(fold, v, i);
    }
    Pattern.CoreMembers(q);
    Pattern.FoldFixed(fold, Fitting(fold, v));
    Pattern.CoreMatches(q);
  }

  /** A non-empty string the term refuses, unless it accepts all. */
  function Misfit(fold: char -> char, v: string): string {
    if Fitting(fold, v) == "*" then "%" else "*"
  }

  lemma OneCharacterFails(h: string, q: string)
    requires |h| == 1 && Pattern.Core(q) != "" && Pattern.Core(q) != h
    ensures !Pattern.MatchPattern(h, q)
  {
    var core := Pattern.Core(q);
    forall k | 0 <= k <= |h| ensures !(core <= h[k..]) {
      assert |h[k..]| <= 1;
    }
    assert core <= h ==> core == h;
  }

  lemma MisfitFails(fold: char -> char, v: string)
    requires Pattern.CaseFolding(fold) && v != "" && Fold(fold, v) !in {"*", "**"}
    ensures !Matches(fold, Misfit(fold, v), v) && Fitting(fold, v) != ""
  {
    var h := Misfit(fold, v);
    Pattern.CoreMembers(Fold(fold, v));
    assert Fold(fold, h) == h by {
      assert Pattern.Meta('%');
      Pattern.FoldFixed(fold, h);
    }
    OneCharacterFails(h, Fold(fold, v));
  }

  function FitFor(fold: char -> char, terms: Terms, f: string): string {
    if f in terms then Fitting(fold, terms[f]) else ""
  }

  /** A contact that meets all terms. */
  function Fit(cs: Cases, terms: Terms, kind: string): Contact {
    var name := FitFor(cs.lower, terms, "fn");
    Contact(if "handle" in terms then Pattern.Core(terms["handle"]) else "", [], kind, name, name, "",
            [FitFor(cs.lower, terms, "email")], [],
            Some(Address([], "", "", "", FitFor(cs.upper, terms, "countryCode"))), 0, 0, map[])
  }

  lemma FitMatches(cs: Cases, terms: Terms, kind: string)
    requires Pattern.CaseFolding(cs.lower) && Pattern.CaseFolding(cs.upper)
    requires forall f :: f in terms ==> f in ENTITY_FIELDS
    ensures EntityMatches(cs, Fit(cs, terms, kind), terms)
  {
    var c := Fit(cs, terms, kind);
    forall f | f in terms ensures EntityTerm(cs, c, f, terms[f]) {
      FittingMatches(cs.lower, terms[f]);
      FittingMatches(cs.upper, terms[f]);
      Pattern.CoreMatches(terms[f]);
      assert f == "email" ==> Matches(cs.lower, c.emails[0], terms[f]);
    }
  }

  /** Terms with one that is not open separate two contacts the tier is shown
      alike: the one meets all terms, the other does not. */
  lemma Separated(cs: Cases, t: Tier, terms: Terms, f: string) returns (c: Contact, d: Contact)
    requires Pattern.CaseFolding(cs.lower) && Pattern.CaseFolding(cs.upper)
    requires forall g :: g in terms ==> g in ENTITY_FIELDS && terms[g] != ""
    requires f in terms && !OpenTerm(cs, t, f, terms[f])
    ensures SameFor(t, c, d) && EntityMatches(cs, c, terms) && !EntityMatches(cs, d, terms)
    ensures !EntityTerm(cs, d, f, terms[f])
  {
    if f == "email" {
      c := Fit(cs, terms, "org");
      d := c.(emails := []);
      FitMatches(cs, terms, "org");
      assert !EntityTerm(cs, d, f, terms[f]);
    } else {
      c := Fit(cs, terms, "individual");
      d := c.(fullName := Misfit(cs.lower, terms["fn"]));
      FitMatches(cs, terms, "individual");
      MisfitFails(cs.lower, terms["fn"]);
      assert !EntityTerm(cs, d, f, terms[f]);
    }
  }

  /** One term tells nothing about records beyond what the tier is shown if and
      only if it is open. */
  lemma TermTellsNothingIff(cs: Cases, t: Tier, f: string, v: string)
    requires Pattern.CaseFolding(cs.lower) && Pattern.CaseFolding(cs.upper) && f in ENTITY_FIELDS && v != ""
    ensures (forall c, d :: SameFor(t, c, d) ==> EntityTerm(cs, c, f, v) == EntityTerm(cs, d, f, v)) <==>
              OpenTerm(cs, t, f, v)
  {
    if OpenTerm(cs, t, f, v) {
      forall c, d | SameFor(t, c, d) ensures EntityTerm(cs, c, f, v) == EntityTerm(cs, d, f, v) {
        OpenTermAlike(cs, t, c, d, f, v);
      }
    } else {
      var c, d := Separated(cs, t, map[f := v], f);
      assert EntityTerm(cs, c, f, v) && !EntityTerm(cs, d, f, v);
    }
  }

  /** A field tells nothing, whatever the pattern, if and only if the tier is
      shown it: handle and country for all, email for authenticated callers, all
      fields for privileged ones. */
  lemma FieldTellsNothingIff(cs: Cases, t: Tier, f: string)
    requires Pattern.CaseFolding(cs.lower) && Pattern.CaseFolding(cs.upper) && f in ENTITY_FIELDS
    ensures (forall c, d, v :: SameFor(t, c, d) && v != "" ==> EntityTerm(cs, c, f, v) == EntityTerm(cs, d, f, v)) <==>
              ShownField(t, f)
  {
    if ShownField(t, f) {
      forall c, d, v | SameFor(t, c, d) && v != "" ensures EntityTerm(cs, c, f, v) == EntityTerm(cs, d, f, v) {
        OpenTermAlike(cs, t, c, d, f, v);
      }
    } else {
      var v := "***";
      FoldStars(cs.lower);
      var c, d := Separated(cs, t, map[f := v], f);
      assert EntityTerm(cs, c, f, v) && !EntityTerm(cs, d, f, v);
    }
  }

  lemma FoldStars(fold: char -> char)
    ensures |Fold(fold, "***")| == 3
  {}

  /* ------------------------------------------------------------------ */
  /* Whole requests                                                      */
  /* ------------------------------------------------------------------ */

  function Only(c: Contact): Store {
    Store(map[], map[c.handle := c], map[], [])
  }

  lemma OnlyListed(c: Contact, name: Contact -> string, hit: Contact -> bool)
    ensures Paging.Filter(SortedRecords(Only(c).entities, name), hit) == if hit(c) then [c] else []
  {
    var m := Only(c).entities;
    assert c.handle in m.Keys;
    var k := LeastKey(m.Keys);
    assert k == c.handle && m - {k} == map[];
    assert SortedRecords(m, name) == [c];
    assert [c][..0] == [];
  }

  lemma PagesDiffer(req: Request, c: Contact)
    ensures var q := QueryOf(req);
            || Paging.PagingMeta(q, 1) != Paging.PagingMeta(q, 0)
            || |Paging.Paginate([c], q).items| != |Paging.Paginate<Contact>([], q).items|
  {}

  lemma LeakShows(cfg: Config, req: Request, terms: Terms, c: Contact, d: Contact, a: seq<MapOrder>)
    requires terms == TermsOf(req.params, ENTITY_FIELDS)
    requires EntityMatches(cfg.cases, c, terms) && !EntityMatches(cfg.cases, d, terms)
    ensures SearchEntities(cfg, Only(c), terms, req, a) != SearchEntities(cfg, Only(d), terms, req, a)
  {
    var name, hit := (x: Contact) => x.handle, (x: Contact) => EntityMatches(cfg.cases, x, terms);
    OnlyListed(c, name, hit);
    OnlyListed(d, name, hit);
    var p, q := Page(Only(c).entities, name, hit, req), Page(Only(d).entities, name, hit, req);
    assert p == Paging.Paginate([c], QueryOf(req)) && q == Paging.Paginate([], QueryOf(req));
    PagesDiffer(req, c);
    var o := OptionsFor(cfg, req);
    assert |ContactEntities(p.items, o, a)| == |p.items| && |ContactEntities(q.items, o, a)| == |q.items|;
  }

  lemma SearchHandled(cfg: Config, s: Store, req: Request, terms: Terms, a: seq<MapOrder>)
    requires cfg.searchable && req.path == "/entities" && !req.verb.OtherMethod? && req.acceptable
    requires terms == TermsOf(req.params, ENTITY_FIELDS) && terms != map[]
    ensures Handle(cfg, s, req, a) == SearchEntities(cfg, s, terms, req, a)
  {
    assert req.path[1] == 'e' && req.path[2] == 'n' && req.path[5] == 't';
    assert Classify(req.path).None?;
  }

  /** What makes a request indiscreet. */
  lemma HiddenTerm(cfg: Config, t: Tier, req: Request) returns (f: string)
    requires !Discreet(cfg, t, req)
    ensures cfg.searchable && req.path == "/entities" && !req.verb.OtherMethod? && req.acceptable
    ensures var terms := TermsOf(req.params, ENTITY_FIELDS);
            && f in terms && !OpenTerm(cfg.cases, t, f, terms[f])
            && forall g :: g in terms ==> g in ENTITY_FIELDS && terms[g] != ""
  {
    var terms := TermsOf(req.params, ENTITY_FIELDS);
    f :| f in terms && !OpenTerm(cfg.cases, t, f, terms[f]);
  }

  lemma LookAlike(t: Tier, c: Contact, d: Contact)
    requires SameFor(t, c, d)
    ensures SameStore(t, Only(c), Only(d))
  {}

  /** A search that is not discreet tells two stores apart that look the same. */
  lemma IndiscreetSearchLeaks(cfg: Config, req: Request) returns (s: Store, r: Store)
    requires Pattern.CaseFolding(cfg.cases.lower) && Pattern.CaseFolding(cfg.cases.upper)
    requires !Discreet(cfg, TierOf(req.level), req)
    ensures SameStore(TierOf(req.level), s, r) && Handle(cfg, s, req, []) != Handle(cfg, r, req, [])
  {
    hide Handle, SearchEntities, EntityMatches, SameStore, SameFor, Discreet, TermsOf;
    var t, terms := TierOf(req.level), TermsOf(req.params, ENTITY_FIELDS);
    var f := HiddenTerm(cfg, t, req);
    var c, d := Separated(cfg.cases, t, terms, f);
    s, r := Only(c), Only(d);
    LookAlike(t, c, d);
    LeakShows(cfg, req, terms, c, d, []);
    SearchHandled(cfg, s, req, terms, []);
    SearchHandled(cfg, r, req, terms, []);
  }

  /** A request is answered alike over all stores that its caller's tier is shown
      alike if and only if it is discreet: all lookups, domain and nameserver
      searches are, and the entity searches all of whose terms are open. */
  lemma RequestTellsNothingIff(cfg: Config, req: Request)
    requires Pattern.CaseFolding(cfg.cases.lower) && Pattern.CaseFolding(cfg.cases.upper)
    ensures var t := TierOf(req.level);
            (forall s, r, a :: SameStore(t, s, r) ==> Handle(cfg, s, req, a) == Handle(cfg, r, req, a)) <==>
              Discreet(cfg, t, req)
  {
    var t := TierOf(req.level);
    if Discreet(cfg, t, req) {
      forall s, r, a | SameStore(t, s, r) ensures Handle(cfg, s, req, a) == Handle(cfg, r, req, a) {
        HandleAlike(t, cfg, s, r, req, a, a);
      }
    } else {
      var s, r := IndiscreetSearchLeaks(cfg, req);
    }
  }

  function Person(email: string): Contact {
    Contact("H", [], "individual", "N", "", "", [email], [], None, 0, 0, map[])
  }

  /** The smallest leak: two persons that look the same to an anonymous caller,
      who asks which of them has the address "a". */
  lemma AnonymousSearchLeaks()
    ensures SameFor(Anonymous, Person("a"), Person("b"))
    ensures var cs := Cases(AsciiLower, AsciiLower);
            EntityTerm(cs, Person("a"), "email", "a") && !EntityTerm(cs, Person("b"), "email", "a")
  {
    var cs := Cases(AsciiLower, AsciiLower);
    assert Fold(AsciiLower, "a") == "a" && Fold(AsciiLower, "b") == "b";
    assert Matches(AsciiLower, Person("a").emails[0], "a");
  }
}
