/**
 The term matchers of the in-memory search, and the list of records a search
 answers with.  Case mappings are parameters.
 */
module SearchMatch {
  import opened Text
  import opened Redaction
  import opened Mapper
  import opened Paging
  import Pattern

  datatype Cases = Cases(lower: char -> char, upper: char -> char)

  /** Terms by field: what buildQuery keeps of the query string. */
  type Terms = map<string, string>

  const DOMAIN_FIELDS: set<string> := {"name", "nsLdhName", "nsIp"}
  const ENTITY_FIELDS: set<string> := {"fn", "handle", "email", "countryCode"}
  const NAMESERVER_FIELDS: set<string> := {"name", "ip"}

  function TermsOf(params: map<string, string>, fields: set<string>): Terms {
    map f | f in fields && f in params && params[f] != "" :: params[f]
  }

  predicate Matches(fold: char -> char, s: string, pattern: string) {
    Pattern.MatchPattern(Fold(fold, s), Fold(fold, pattern))
  }

  predicate EntityTerm(cs: Cases, c: Contact, field: string, v: string) {
    match field
    case "fn" => Matches(cs.lower, if c.fullName == "" then c.organization else c.fullName, v)
    case "handle" => Pattern.MatchPattern(c.handle, v)
    case "email" => exists i :: 0 <= i < |c.emails| && Matches(cs.lower, c.emails[i], v)
    case "countryCode" => c.address.Some? && Matches(cs.upper, c.address.value.countryCode, v)
    case _ => false
  }

  predicate EntityMatches(cs: Cases, c: Contact, terms: Terms) {
    forall f :: f in terms ==> EntityTerm(cs, c, f, terms[f])
  }

  /** `nsIp` is an accepted field that no in-memory domain matches. */
  predicate DomainTerm(cs: Cases, d: DomainCore, field: string, v: string) {
    match field
    case "name" => Matches(cs.lower, d.ldhName, v) || Matches(cs.lower, d.unicodeName, v)
    case "nsLdhName" => exists i :: 0 <= i < |d.nameservers| && Matches(cs.lower, d.nameservers[i].ldhName, v)
    case _ => false
  }

  predicate DomainMatches(cs: Cases, d: DomainCore, terms: Terms) {
    forall f :: f in terms ==> DomainTerm(cs, d, f, terms[f])
  }

  predicate NameserverTerm(cs: Cases, n: Nameserver, field: string, v: string) {
    match field
    case "name" => Matches(cs.lower, n.ldhName, v)
    case "ip" => v in n.ipv4 + n.ipv6
    case _ => false
  }

  predicate NameserverMatches(cs: Cases, n: Nameserver, terms: Terms) {
    forall f :: f in terms ==> NameserverTerm(cs, n, f, terms[f])
  }

  /** The loop over the terms, in whatever order the map yields them. */
  method MatchEntity(cs: Cases, c: Contact, terms: Terms) returns (ok: bool)
    ensures ok == EntityMatches(cs, c, terms)
  {
    var todo := terms.Keys;
    while todo != {}
      invariant todo <= terms.Keys
      invariant forall f :: f in terms && f !in todo ==> EntityTerm(cs, c, f, terms[f])
      decreases |todo|
    {
      var f :| f in todo;
      todo := todo - {f};
      var matched: bool;
      if f == "email" {
        matched := AnyEmail(cs, c, terms[f]);
      } else {
        matched := EntityTerm(cs, c, f, terms[f]);
      }
      if !matched {
        return false;
      }
    }
    return true;
  }

  method AnyEmail(cs: Cases, c: Contact, v: string) returns (matched: bool)
    ensures matched == EntityTerm(cs, c, "email", v)
  {
    matched := false;
    for i := 0 to |c.emails|
      invariant !matched && forall j :: 0 <= j < i ==> !Matches(cs.lower, c.emails[j], v)
    {
      if Matches(cs.lower, c.emails[i], v) {
        return true;
      }
    }
  }

  /* ------------------------------------------------------------------ */
  /* The sorted list of a store's records                                */
  /* ------------------------------------------------------------------ */

  predicate Least(ks: set<string>, k: string) {
    k in ks && forall l :: l in ks ==> l == k || Less(k, l)
  }

  lemma {:induction false} LeastExists(ks: set<string>)
    requires ks != {}
    ensures exists k :: Least(ks, k)
  {
    var k :| k in ks;
    var rest := ks - {k};
    if rest == {} {
      assert forall x :: x in ks ==> x == k || x in rest;
      assert Least(ks, k);
    } else {
      LeastExists(rest);
      var l :| Least(rest, l);
      LessTotal(k, l);
      if Less(k, l) {
        forall x | x in ks ensures x == k || Less(k, x) {
          if x != k && x != l {
            LessTrans(k, l, x);
          }
        }
        assert Least(ks, k);
      } else {
        assert Least(ks, l);
      }
    }
  }

  lemma LeastUnique(ks: set<string>)
    ensures forall k, l :: Least(ks, k) && Least(ks, l) ==> k == l
  {
    forall k, l | Least(ks, k) && Least(ks, l) ensures k == l {
      if k != l {
        LessAsym(k, l);
      }
    }
  }

  function LeastKey(ks: set<string>): (k: string)
    requires ks != {}
    ensures Least(ks, k)
  {
    LeastExists(ks);
    LeastUnique(ks);
    var k :| Least(ks, k) && k in ks;
    k
  }

  /** All records, sorted by name. */
  function SortedRecords<T>(store: map<string, T>, name: T -> string): seq<T>
    decreases |store|
  {
    if store == map[] then []
    else
      var k := LeastKey(store.Keys);
      InsertByName(SortedRecords(store - {k}, name), store[k], name)
  }

  lemma {:induction false} SortedRecordsHold<T>(store: map<string, T>, name: T -> string)
    requires DistinctNames(store, name)
    ensures Sorted(SortedRecords(store, name), name)
    ensures forall x :: x in SortedRecords(store, name) ==> exists k :: k in store && store[k] == x
    ensures forall k :: k in store ==> store[k] in SortedRecords(store, name)
    decreases |store|
  {
    if store != map[] {
      var k := LeastKey(store.Keys);
      var rest := store - {k};
      SortedRecordsHold(rest, name);
      var s := SortedRecords(rest, name);
      forall y | y in s ensures name(y) != name(store[k]) {
        var l :| l in rest && rest[l] == y;
        assert l in store && store[l] == y && l != k;
      }
      InsertSorted(s, store[k], name);
      InsertMembers(s, store[k], name);
      forall l | l in store ensures store[l] in InsertByName(s, store[k], name) {
        assert l != k ==> l in rest && rest[l] == store[l];
      }
      forall x | x in InsertByName(s, store[k], name) ensures exists l :: l in store && store[l] == x {
        if x != store[k] {
          var l :| l in rest && rest[l] == x;
          assert l in store && store[l] == x;
        }
      }
    }
  }

  /** In a store whose records sort apart, the matches among the sorted records
      are the one listing that `Paging.Search` pages through. */
  lemma SearchIsListing<T>(store: map<string, T>, name: T -> string, hit: T -> bool)
    requires DistinctNames(store, name)
    ensures IsListing(store, name, hit, Filter(SortedRecords(store, name), hit))
  {
    var all := SortedRecords(store, name);
    SortedRecordsHold(store, name);
    FilterSorted(all, hit, name);
    var list := Filter(all, hit);
    forall x | x in list ensures x in store.Values && hit(x) {}
    forall x | x in store.Values && hit(x) ensures x in list {
      assert x in all;
    }
  }

  /* ------------------------------------------------------------------ */
  /* Searches over two stores                                            */
  /* ------------------------------------------------------------------ */

  ghost predicate Pairwise<T(!new)>(alike: (T, T) -> bool, s: seq<T>, r: seq<T>) {
    |s| == |r| && forall i :: 0 <= i < |s| ==> alike(s[i], r[i])
  }

  lemma {:induction false} InsertAlike<T(!new)>(alike: (T, T) -> bool, name: T -> string, s: seq<T>, r: seq<T>,
                                                x: T, y: T)
    requires forall a, b :: alike(a, b) ==> name(a) == name(b)
    requires Pairwise(alike, s, r) && alike(x, y)
    ensures Pairwise(alike, InsertByName(s, x, name), InsertByName(r, y, name))
  {
    if s != [] {
      InsertAlike(alike, name, s[1..], r[1..], x, y);
    }
  }

  lemma {:induction false} RecordsAlike<T(!new)>(alike: (T, T) -> bool, name: T -> string, s: map<string, T>,
                                                 r: map<string, T>)
    requires forall a, b :: alike(a, b) ==> name(a) == name(b)
    requires s.Keys == r.Keys && forall k :: k in s ==> alike(s[k], r[k])
    ensures Pairwise(alike, SortedRecords(s, name), SortedRecords(r, name))
    decreases |s|
  {
    if s != map[] {
      var k := LeastKey(s.Keys);
      assert k in r;
      assert (s - {k}).Keys == (r - {k}).Keys;
      RecordsAlike(alike, name, s - {k}, r - {k});
      InsertAlike(alike, name, SortedRecords(s - {k}, name), SortedRecords(r - {k}, name), s[k], r[k]);
    }
  }

  lemma {:induction false} FilterAlike<T(!new)>(alike: (T, T) -> bool, hit: T -> bool, s: seq<T>, r: seq<T>)
    requires Pairwise(alike, s, r) && forall a, b :: alike(a, b) ==> hit(a) == hit(b)
    ensures Pairwise(alike, Filter(s, hit), Filter(r, hit))
  {
    if s != [] {
      var n := |s| - 1;
      FilterAlike(alike, hit, s[..n], r[..n]);
      assert alike(s[n], r[n]);
    }
  }

  /** Stores whose records are alike pair by pair, under a likeness the sort name
      and the match test cannot see through, give pages that are alike. */
  lemma SearchAlike<T(!new)>(alike: (T, T) -> bool, name: T -> string, hit: T -> bool, s: map<string, T>,
                             r: map<string, T>, q: Query)
    requires forall a, b :: alike(a, b) ==> name(a) == name(b) && hit(a) == hit(b)
    requires s.Keys == r.Keys && forall k :: k in s ==> alike(s[k], r[k])
    ensures var p := Paginate(Filter(SortedRecords(s, name), hit), q);
            var p' := Paginate(Filter(SortedRecords(r, name), hit), q);
            p.total == p'.total && Pairwise(alike, p.items, p'.items)
  {
    RecordsAlike(alike, name, s, r);
    FilterAlike(alike, hit, SortedRecords(s, name), SortedRecords(r, name));
    PageAlike(alike, Filter(SortedRecords(s, name), hit), Filter(SortedRecords(r, name), hit), q);
  }

  lemma PageAlike<T(!new)>(alike: (T, T) -> bool, s: seq<T>, r: seq<T>, q: Query)
    requires Pairwise(alike, s, r)
    ensures Paginate(s, q).total == Paginate(r, q).total && Pairwise(alike, Paginate(s, q).items, Paginate(r, q).items)
  {}
}
