/**
 The IANA bootstrap registry: tables built from the published services, and the
 lookups that walk them.
 */
module Bootstrap {
  import opened Common
  import opened Text
  import opened Prefixes

  type Urls = seq<string>

  /** A service is [labels, urls, ...]; shorter ones are skipped. */
  type Service = seq<seq<string>>

  datatype Publication = Publication(name: string, urls: Urls)

  /** All published (name, urls) pairs, in publication order. */
  function Publications(services: seq<Service>): seq<Publication> {
    if services == [] then []
    else
      var svc := services[|services|-1];
      Publications(services[..|services|-1]) + if |svc| < 2 then [] else Each(svc[0], svc[1])
  }

  function Each(names: seq<string>, urls: Urls): (r: seq<Publication>)
    ensures |r| == |names|
  {
    if names == [] then [] else Each(names[..|names|-1], urls) + [Publication(names[|names|-1], urls)]
  }

  type Zones = map<string, Urls>

  /** Later publications overwrite earlier ones. */
  function LastWins(pubs: seq<Publication>): Zones {
    if pubs == [] then map[]
    else
      var p := pubs[|pubs|-1];
      LastWins(pubs[..|pubs|-1])[ToLower(p.name) := p.urls]
  }

  /* ------------------------------------------------------------------ */
  /* Labels                                                              */
  /* ------------------------------------------------------------------ */

  function Split(s: string): (ls: seq<string>)
    ensures ls != []
    ensures forall i :: 0 <= i < |ls| ==> '.' !in ls[i]
  {
    if s == [] then [""]
    else
      var rest := Split(s[1..]);
      if s[0] == '.' then [""] + rest else [[s[0]] + rest[0]] + rest[1..]
  }

  function Join(ls: seq<string>): string
    requires ls != []
  {
    if |ls| == 1 then ls[0] else ls[0] + "." + Join(ls[1..])
  }

  lemma {:induction false} SplitPrefix(head: string, rest: string)
    requires '.' !in head
    ensures Split(head) == [head]
    ensures Split(head + "." + rest) == [head] + Split(rest)
  {
    var s := head + "." + rest;
    if head == [] {
      assert s[1..] == rest && s[0] == '.';
    } else {
      SplitPrefix(head[1..], rest);
      assert s[1..] == head[1..] + "." + rest && s[0] == head[0];
      assert [head[0]] + head[1..] == head;
    }
  }

  lemma {:induction false} SplitJoin(ls: seq<string>)
    requires ls != [] && forall i :: 0 <= i < |ls| ==> '.' !in ls[i]
    ensures Split(Join(ls)) == ls
  {
    if |ls| == 1 {
      SplitPrefix(ls[0], "");
    } else {
      SplitJoin(ls[1..]);
      SplitPrefix(ls[0], Join(ls[1..]));
    }
  }

  lemma {:induction false} JoinSplit(s: string)
    ensures Join(Split(s)) == s
  {
    if s != [] {
      var rest := Split(s[1..]);
      JoinSplit(s[1..]);
      if s[0] != '.' && |rest| > 1 {
        var ls := Split(s);
        assert ls[1..] == rest[1..];
        assert Join(ls) == ([s[0]] + rest[0]) + "." + Join(rest[1..]);
        assert Join(ls) == [s[0]] + Join(rest);
      }
    }
  }

  predicate SuffixOf(ls: seq<string>, all: seq<string>) {
    |ls| <= |all| && all[|all|-|ls|..] == ls
  }

  function NameLabels(name: string): seq<string> {
    Split(ToLower(if name != [] && name[|name|-1] == '.' then name[..|name|-1] else name))
  }

  /** The walk: the longest suffix of the labels that is a zone of the table. */
  function Nearest(zones: Zones, labels: seq<string>): Option<Urls> {
    if labels == [] then None
    else if Join(labels) in zones then Some(zones[Join(labels)])
    else Nearest(zones, labels[1..])
  }

  /** What DomainServers answers from a table. */
  function DomainAnswer(zones: Zones, name: string): Option<Urls> {
    Nearest(zones, NameLabels(name))
  }

  /* ------------------------------------------------------------------ */
  /* The registry                                                        */
  /* ------------------------------------------------------------------ */

  datatype IpEntry = IpEntry(prefix: ValidPrefix, urls: Urls)

  function ParseEach(parse: string -> Option<ValidPrefix>, cidrs: seq<string>, urls: Urls): seq<IpEntry> {
    if cidrs == [] then []
    else
      var p := parse(cidrs[|cidrs|-1]);
      ParseEach(parse, cidrs[..|cidrs|-1], urls) + if p.Some? then [IpEntry(p.value, urls)] else []
  }

  function ParseAll(parse: string -> Option<ValidPrefix>, services: seq<Service>): seq<IpEntry> {
    if services == [] then []
    else
      var svc := services[|services|-1];
      ParseAll(parse, services[..|services|-1]) + if |svc| < 2 then [] else ParseEach(parse, svc[0], svc[1])
  }

  function Networks(es: seq<IpEntry>): (t: Table)
    ensures |t| == |es| && forall i :: 0 <= i < |es| ==> t[i] == es[i].prefix
  {
    seq(|es|, i requires 0 <= i < |es| => es[i].prefix)
  }

  method ParsePrefixes(parse: string -> Option<ValidPrefix>, services: seq<Service>) returns (out: seq<IpEntry>)
    ensures out == ParseAll(parse, services)
  {
    out := [];
    for i := 0 to |services|
      invariant out == ParseAll(parse, services[..i])
    {
      var svc := services[i];
      assert services[..i+1][..i] == services[..i];
      if |svc| >= 2 {
        var before := out;
        for j := 0 to |svc[0]|
          invariant out == before + ParseEach(parse, svc[0][..j], svc[1])
        {
          assert svc[0][..j+1][..j] == svc[0][..j];
          var p := parse(svc[0][j]);
          if p.Some? {
            out := out + [IpEntry(p.value, svc[1])];
          }
        }
        assert svc[0][..|svc[0]|] == svc[0];
      }
    }
    assert services[..|services|] == services;
  }

  lemma LastWinsSnoc(pubs: seq<Publication>, p: Publication)
    ensures LastWins(pubs + [p]) == LastWins(pubs)[ToLower(p.name) := p.urls]
  {
    assert (pubs + [p])[..|pubs|] == pubs;
  }

  method BuildZones(services: seq<Service>) returns (zones: Zones)
    ensures zones == LastWins(Publications(services))
  {
    zones := map[];
    ghost var pubs := [];
    for i := 0 to |services|
      invariant pubs == Publications(services[..i]) && zones == LastWins(pubs)
    {
      var svc := services[i];
      assert services[..i+1][..i] == services[..i];
      if |svc| >= 2 {
        zones := AddNames(zones, pubs, svc[0], svc[1]);
        pubs := pubs + Each(svc[0], svc[1]);
      }
    }
    assert services[..|services|] == services;
  }

  /** The inner loop: the names of one service. */
  method AddNames(zones: Zones, ghost pubs: seq<Publication>, names: seq<string>, urls: Urls) returns (r: Zones)
    requires zones == LastWins(pubs)
    ensures r == LastWins(pubs + Each(names, urls))
  {
    r := zones;
    assert pubs + Each([], urls) == pubs;
    for j := 0 to |names|
      invariant r == LastWins(pubs + Each(names[..j], urls))
    {
      assert names[..j+1][..j] == names[..j];
      ghost var before, p := pubs + Each(names[..j], urls), Publication(names[j], urls);
      LastWinsSnoc(before, p);
      assert pubs + Each(names[..j+1], urls) == before + [p];
      r := r[ToLower(names[j]) := urls];
    }
    assert names[..|names|] == names;
  }

  class Registry {
    var tldServers: Zones
    var ipv4: seq<IpEntry>
    var ipv6: seq<IpEntry>

    constructor ()
      ensures tldServers == map[] && ipv4 == [] && ipv6 == []
    {
      tldServers, ipv4, ipv6 := map[], [], [];
    }

    /** The three downloaded files, None where the download failed. */
    method Refresh(parse: string -> Option<ValidPrefix>, dns: Option<seq<Service>>, v4: Option<seq<Service>>,
                   v6: Option<seq<Service>>) returns (ok: bool)
      modifies this
      ensures ok == (dns.Some? && v4.Some? && v6.Some?)
      ensures ok ==> && tldServers == LastWins(Publications(dns.value))
                     && ipv4 == ParseAll(parse, v4.value) && ipv6 == ParseAll(parse, v6.value)
      ensures !ok ==> tldServers == old(tldServers) && ipv4 == old(ipv4) && ipv6 == old(ipv6)
    {
      if dns.None? || v4.None? || v6.None? {
        return false;
      }
      tldServers := BuildZones(dns.value);
      ipv4 := ParsePrefixes(parse, v4.value);
      ipv6 := ParsePrefixes(parse, v6.value);
      return true;
    }

    /** The urls of the first entry of the address's family that contains it. */
    method IPServers(a: Bits) returns (urls: Option<Urls>)
      ensures var pool := if |a| == 32 then ipv4 else ipv6;
              urls == IpAnswer(pool, a)
    {
      var pool := ipv6;
      if |a| == 32 {
        pool := ipv4;
      }
      var i := Scan(Networks(pool), a);
      urls := match i case None => None case Some(i) => Some(pool[i].urls);
    }

    method DomainServers(name: string) returns (urls: Option<Urls>)
      ensures urls == DomainAnswer(tldServers, name)
    {
      var labels := NameLabels(name);
      for i := 0 to |labels|
        invariant Nearest(tldServers, labels) == Nearest(tldServers, labels[i..])
      {
        var zone := Join(labels[i..]);
        if zone in tldServers {
          return Some(tldServers[zone]);
        }
        assert labels[i..][1..] == labels[i+1..];
      }
      return None;
    }
  }

  /* ------------------------------------------------------------------ */
  /* DomainServers against a brute-force search of the publications      */
  /* ------------------------------------------------------------------ */

  predicate Matches(p: Publication, labels: seq<string>) {
    SuffixOf(Split(ToLower(p.name)), labels)
  }

  /** b is the publication with the most matching trailing labels, the last of
      those with equally many. */
  predicate Best(pubs: seq<Publication>, labels: seq<string>, b: nat) {
    && b < |pubs| && Matches(pubs[b], labels)
    && forall c :: 0 <= c < |pubs| && Matches(pubs[c], labels) ==>
         var n, m := |Split(ToLower(pubs[c].name))|, |Split(ToLower(pubs[b].name))|;
         n < m || (n == m && c <= b)
  }

  /** A zone of the table holds the last publication of that name. */
  lemma {:induction false} ZoneIsLastPublication(pubs: seq<Publication>, zone: string)
    ensures zone in LastWins(pubs) <==> exists c :: 0 <= c < |pubs| && ToLower(pubs[c].name) == zone
    ensures zone in LastWins(pubs) ==>
              exists b :: 0 <= b < |pubs| && ToLower(pubs[b].name) == zone && LastWins(pubs)[zone] == pubs[b].urls
                && forall c :: b < c < |pubs| ==> ToLower(pubs[c].name) != zone
  {
    if pubs != [] {
      var n := |pubs| - 1;
      var init := pubs[..n];
      ZoneIsLastPublication(init, zone);
      if ToLower(pubs[n].name) == zone {
        assert LastWins(pubs)[zone] == pubs[n].urls;
      } else if zone in LastWins(init) {
        var b :| 0 <= b < |init| && ToLower(init[b].name) == zone && LastWins(init)[zone] == init[b].urls
          && forall c :: b < c < |init| ==> ToLower(init[c].name) != zone;
        assert pubs[b] == init[b];
        forall c | b < c < |pubs| ensures ToLower(pubs[c].name) != zone {
          if c < n { assert pubs[c] == init[c]; }
        }
      } else {
        forall c | 0 <= c < |pubs| ensures ToLower(pubs[c].name) != zone {
          if c < n { assert pubs[c] == init[c]; }
        }
      }
    }
  }

  lemma ZoneLabels(p: Publication, labels: seq<string>)
    requires labels != [] && forall i :: 0 <= i < |labels| ==> '.' !in labels[i]
    ensures ToLower(p.name) == Join(labels) <==> Split(ToLower(p.name)) == labels
  {
    SplitJoin(labels);
    JoinSplit(ToLower(p.name));
  }

  /** The walk over a name's labels finds the best publication, or nothing
      exactly when none matches. */
  lemma {:induction false} NearestIsBest(pubs: seq<Publication>, labels: seq<string>)
    requires forall i :: 0 <= i < |labels| ==> '.' !in labels[i]
    ensures Nearest(LastWins(pubs), labels).None? <==> forall c :: 0 <= c < |pubs| ==> !Matches(pubs[c], labels)
    ensures Nearest(LastWins(pubs), labels).Some? ==>
              exists b: nat :: Best(pubs, labels, b) && Nearest(LastWins(pubs), labels) == Some(pubs[b].urls)
  {
    if labels != [] {
      var zone := Join(labels);
      ZoneIsLastPublication(pubs, zone);
      forall c | 0 <= c < |pubs| ensures ToLower(pubs[c].name) == zone <==> Split(ToLower(pubs[c].name)) == labels {
        ZoneLabels(pubs[c], labels);
      }
      if zone in LastWins(pubs) {
        var b :| 0 <= b < |pubs| && ToLower(pubs[b].name) == zone && LastWins(pubs)[zone] == pubs[b].urls
          && forall c :: b < c < |pubs| ==> ToLower(pubs[c].name) != zone;
        assert Best(pubs, labels, b);
      } else {
        NearestIsBest(pubs, labels[1..]);
        forall c | 0 <= c < |pubs| ensures Matches(pubs[c], labels) <==> Matches(pubs[c], labels[1..]) {
          SuffixTail(Split(ToLower(pubs[c].name)), labels);
        }
        if Nearest(LastWins(pubs), labels[1..]).Some? {
          var b: nat :| Best(pubs, labels[1..], b) && Nearest(LastWins(pubs), labels[1..]) == Some(pubs[b].urls);
          assert Best(pubs, labels, b);
        }
      }
    }
  }

  lemma SuffixTail(ls: seq<string>, all: seq<string>)
    requires all != [] && ls != all
    ensures SuffixOf(ls, all) <==> SuffixOf(ls, all[1..])
  {
    if |ls| == |all| {
      assert all[0..] == all;
    } else if |ls| < |all| {
      assert all[|all|-|ls|..] == all[1..][|all[1..]|-|ls|..];
    }
  }

  /* On strings */

  lemma HeadOfConcat<T>(head: seq<T>, tail: seq<T>)
    requires head != []
    ensures (head + tail)[0] == head[0] && (head + tail)[1..] == head[1..] + tail
  {}

  lemma SplitCons(c: char, s: string)
    ensures Split([c] + s) == if c == '.' then [""] + Split(s) else [[c] + Split(s)[0]] + Split(s)[1..]
    ensures Split("") == [""]
  {
    assert ([c] + s)[1..] == s;
  }

  lemma {:induction false} SplitConcat(p: string, a: string)
    ensures Split(p + "." + a) == Split(p) + Split(a)
  {
    hide Split;
    if p == [] {
      assert p + "." + a == ['.'] + a;
      SplitCons('.', a);
    } else {
      var c, rest := p[0], p[1..];
      SplitConcat(rest, a);
      assert p == [c] + rest && p + "." + a == [c] + (rest + "." + a);
      SplitCons(c, rest);
      SplitCons(c, rest + "." + a);
      HeadOfConcat(Split(rest), Split(a));
    }
  }

  lemma {:induction false} JoinAt(ls: seq<string>, k: nat)
    requires 0 < k < |ls|
    ensures Join(ls) == Join(ls[..k]) + "." + Join(ls[k..])
  {
    if k == 1 {
      assert ls[..1] == [ls[0]];
    } else {
      JoinAt(ls[1..], k - 1);
      assert ls[..k][1..] == ls[1..][..k-1] && ls[1..][k-1..] == ls[k..];
      assert ls[..k][0] == ls[0];
    }
  }

  /** The text is z, or ends in a dot and z. */
  predicate EndsInZone(s: string, z: string) {
    s == z || (|s| > |z| && s[|s|-|z|-1] == '.' && s[|s|-|z|..] == z)
  }

  lemma LabelSuffix(z: string, s: string)
    ensures SuffixOf(Split(z), Split(s)) <==> EndsInZone(s, z)
  {
    var ls := Split(s);
    if SuffixOf(Split(z), ls) {
      var k := |ls| - |Split(z)|;
      JoinSplit(z);
      JoinSplit(s);
      if k > 0 {
        JoinAt(ls, k);
      } else {
        assert ls[0..] == ls;
      }
    }
    if EndsInZone(s, z) && s != z {
      var p := s[..|s|-|z|-1];
      assert s == p + "." + z;
      SplitConcat(p, z);
    }
  }

  /** Of two zones a name ends in, the one with more labels is the longer text. */
  lemma MoreLabelsLonger(s: string, y: string, z: string)
    requires EndsInZone(s, y) && EndsInZone(s, z)
    ensures |Split(y)| <= |Split(z)| <==> |y| <= |z|
  {
    if |y| <= |z| {
      LongerEnds(s, y, z);
      LabelSuffix(y, z);
    }
    if |z| <= |y| {
      LongerEnds(s, z, y);
      LabelSuffix(z, y);
      if |Split(y)| == |Split(z)| {
        assert Split(y)[0..] == Split(y);
        JoinSplit(y);
        JoinSplit(z);
      }
    }
  }

  lemma LongerEnds(s: string, y: string, z: string)
    requires EndsInZone(s, y) && EndsInZone(s, z) && |y| <= |z|
    ensures EndsInZone(z, y)
  {
    assert s[|s|-|y|..] == y && s[|s|-|z|..] == z;
    if |y| < |z| {
      assert z[|z|-|y|-1] == s[|s|-|y|-1];
      assert z[|z|-|y|..] == s[|s|-|y|..];
    }
  }

  /** The published zone is the name or a parent of it, in any case of letters. */
  predicate ZoneMatches(z: string, name: string) {
    || SameText(name, z)
    || (|name| > |z| && name[|name|-|z|-1] == '.' && SameText(name[|name|-|z|..], z))
  }

  lemma LowerZone(z: string, name: string)
    ensures EndsInZone(ToLower(name), ToLower(z)) <==> ZoneMatches(z, name)
  {
    LowerIffSameText(name, z);
    if |name| > |z| {
      var k := |name| - |z|;
      FoldAt(AsciiLower, name, k - 1);
      FoldSlice(AsciiLower, name, k, |name|);
      assert name[k..] == name[k..|name|] && ToLower(name)[k..] == ToLower(name)[k..|name|];
      LowerIffSameText(name[k..], z);
    }
  }

  /** b is the published zone that matches with the longest text, the last of
      those of equal length. */
  predicate BestZone(pubs: seq<Publication>, name: string, b: nat) {
    && b < |pubs| && ZoneMatches(pubs[b].name, name)
    && forall c :: 0 <= c < |pubs| && ZoneMatches(pubs[c].name, name) ==>
         |pubs[c].name| < |pubs[b].name| || (|pubs[c].name| == |pubs[b].name| && c <= b)
  }

  lemma MatchesOnText(p: Publication, name: string)
    ensures Matches(p, Split(ToLower(name))) <==> ZoneMatches(p.name, name)
  {
    LabelSuffix(ToLower(p.name), ToLower(name));
    LowerZone(p.name, name);
  }

  lemma BestOnText(pubs: seq<Publication>, name: string, b: nat)
    requires Best(pubs, Split(ToLower(name)), b)
    ensures BestZone(pubs, name, b)
  {
    var s := ToLower(name);
    MatchesOnText(pubs[b], name);
    LowerZone(pubs[b].name, name);
    forall c | 0 <= c < |pubs| && ZoneMatches(pubs[c].name, name)
      ensures |pubs[c].name| < |pubs[b].name| || (|pubs[c].name| == |pubs[b].name| && c <= b)
    {
      MatchesOnText(pubs[c], name);
      LowerZone(pubs[c].name, name);
      MoreLabelsLonger(s, ToLower(pubs[c].name), ToLower(pubs[b].name));
      MoreLabelsLonger(s, ToLower(pubs[b].name), ToLower(pubs[c].name));
    }
  }

  lemma FinalDot(zones: Zones, name: string)
    ensures DomainAnswer(zones, name + ".") == Nearest(zones, Split(ToLower(name)))
    ensures name == "" || name[|name|-1] != '.' ==> DomainAnswer(zones, name) == Nearest(zones, Split(ToLower(name)))
  {
    assert (name + ".")[..|name|] == name;
  }

  /** What DomainServers returns after Refresh, for every name without its final
      dot: the urls of the published zone that is the name or its longest published
      parent, in any case of letters, the last published of equals; nothing
      exactly when no zone matches.  A final dot makes no difference. */
  lemma DomainServersIsBruteForce(services: seq<Service>, name: string)
    ensures var pubs := Publications(services);
            var r := DomainAnswer(LastWins(pubs), name + ".");
            && (r.None? <==> forall c :: 0 <= c < |pubs| ==> !ZoneMatches(pubs[c].name, name))
            && (r.Some? ==> exists b: nat :: BestZone(pubs, name, b) && r == Some(pubs[b].urls))
            && (name == "" || name[|name|-1] != '.' ==> DomainAnswer(LastWins(pubs), name) == r)
  {
    hide ZoneMatches, Matches, LastWins, Nearest, Split, BestZone, ToLower, DomainAnswer, Publications;
    var pubs, labels := Publications(services), Split(ToLower(name));
    FinalDot(LastWins(pubs), name);
    NearestIsBest(pubs, labels);
    forall c | 0 <= c < |pubs| ensures Matches(pubs[c], labels) <==> ZoneMatches(pubs[c].name, name) {
      MatchesOnText(pubs[c], name);
    }
    var r := DomainAnswer(LastWins(pubs), name + ".");
    if r.Some? {
      var b: nat :| Best(pubs, labels, b) && r == Some(pubs[b].urls);
      BestOnText(pubs, name, b);
    }
  }

  /* ------------------------------------------------------------------ */
  /* Addresses                                                           */
  /* ------------------------------------------------------------------ */

  /** What IPServers answers from a table. */
  function IpAnswer(es: seq<IpEntry>, a: Bits): Option<Urls> {
    match FirstMatch(Networks(es), a) case None => None case Some(i) => Some(es[i].urls)
  }

  /** Some longest match of the address has these urls. */
  ghost predicate OfLongest(es: seq<IpEntry>, a: Bits, urls: Urls) {
    exists i :: 0 <= i < |es| && IsLongest(Networks(es), a, i) && es[i].urls == urls
  }

  /** The entries strictly inside a prefix. */
  function Inside(es: seq<IpEntry>, p: ValidPrefix): (t: Table)
    ensures forall i :: 0 <= i < |t| ==> Covers(p, t[i])
    ensures forall i :: 0 <= i < |es| && Covers(p, es[i].prefix) ==> es[i].prefix in t
  {
    if es == [] then []
    else Inside(es[..|es|-1], p) + if Covers(p, es[|es|-1].prefix) then [es[|es|-1].prefix] else []
  }

  /** Entry j's network is also published with the urls of entry i. */
  predicate SharesUrls(es: seq<IpEntry>, i: nat, j: nat)
    requires i < |es| && j < |es|
  {
    exists m :: 0 <= m < |es| && es[m].urls == es[i].urls
      && |es[m].prefix.bits| == |es[j].prefix.bits| && es[m].prefix.Net() == es[j].prefix.Net()
  }

  /** Whenever a wider entry stands before one it covers and their urls differ,
      every address of the covered network is in an earlier entry or in one still
      narrower. */
  predicate GoodOrder(es: seq<IpEntry>) {
    forall i, j :: 0 <= i < j < |es| && Covers(es[i].prefix, es[j].prefix) && !SharesUrls(es, i, j) ==>
      Shadowed(es[j].prefix.Net(), |es[j].prefix.bits|, Networks(es)[..i] + Inside(es, es[j].prefix))
  }

  lemma {:induction false} LongestExists(ps: Table, a: Bits, n: nat) returns (i: nat)
    requires n <= |ps| && exists j :: 0 <= j < n && Contains(ps[j], a)
    ensures i < n && Contains(ps[i], a)
    ensures forall j :: 0 <= j < n && Contains(ps[j], a) ==> ps[j].len <= ps[i].len
  {
    if exists j :: 0 <= j < n - 1 && Contains(ps[j], a) {
      i := LongestExists(ps, a, n - 1);
      if Contains(ps[n-1], a) && ps[n-1].len > ps[i].len {
        i := n - 1;
      }
    } else {
      i := n - 1;
    }
  }

  /** The first match is a wider entry than the longest one. */
  lemma WiderSharesUrls(es: seq<IpEntry>, a: Bits, h: nat, j: nat)
    requires GoodOrder(es) && FirstMatch(Networks(es), a) == Some(h) && IsLongest(Networks(es), a, j)
    requires Covers(es[h].prefix, es[j].prefix)
    ensures SharesUrls(es, h, j)
  {
    var ps, p := Networks(es), es[j].prefix;
    if !SharesUrls(es, h, j) {
      var shade := ps[..h] + Inside(es, p);
      assert forall q :: q in ps[..h] ==> !Contains(q, a);
      assert forall q :: q in shade ==> q in ps[..h] || q in Inside(es, p);
      ShadowedContains(p.Net(), |a|, shade, a);
      var m :| 0 <= m < |shade| && Contains(shade[m], a);
      assert shade[m] in Inside(es, p);
      assert forall i :: 0 <= i < |es| && Contains(es[i].prefix, a) ==> Contains(ps[i], a);
      NoneInside(es, a, p);
    }
  }

  /** No entry inside a longest match contains the address. */
  lemma NoneInside(es: seq<IpEntry>, a: Bits, p: ValidPrefix)
    requires forall i :: 0 <= i < |es| && Contains(es[i].prefix, a) ==> es[i].prefix.len <= p.len
    ensures forall q :: q in Inside(es, p) ==> !Contains(q, a)
  {
    forall q | q in Inside(es, p) ensures !Contains(q, a) {
      var i := InsideOf(es, p, q);
    }
  }

  lemma GoodOrderAnswers(es: seq<IpEntry>, a: Bits)
    requires GoodOrder(es) && FirstMatch(Networks(es), a).Some?
    ensures OfLongest(es, a, es[FirstMatch(Networks(es), a).value].urls)
  {
    hide GoodOrder;
    var ps := Networks(es);
    var h := FirstMatch(ps, a).value;
    var j := LongestExists(ps, a, |ps|);
    assert IsLongest(ps, a, j);
    if ps[h].len == ps[j].len {
      assert IsLongest(ps, a, h);
    } else {
      ContainingFormChain(ps[h], ps[j], a);
      WiderSharesUrls(es, a, h, j);
      var m :| 0 <= m < |es| && es[m].urls == es[h].urls
        && |es[m].prefix.bits| == |es[j].prefix.bits| && es[m].prefix.Net() == es[j].prefix.Net();
      assert |ps[m].Net()| == ps[m].len && |ps[j].Net()| == ps[j].len;
      assert IsLongest(ps, a, m);
    }
  }

  lemma {:induction false} InsideOf(es: seq<IpEntry>, p: ValidPrefix, q: ValidPrefix) returns (i: nat)
    requires q in Inside(es, p)
    ensures i < |es| && es[i].prefix == q && Covers(p, q)
  {
    var n := |es| - 1;
    if q in Inside(es[..n], p) {
      i := InsideOf(es[..n], p, q);
    } else {
      i := n;
    }
  }

  /** A pair out of order has an address whose answer is not of a longest match. */
  lemma BadOrderFails(es: seq<IpEntry>, i: nat, j: nat) returns (a: Bits)
    requires i < j < |es| && Covers(es[i].prefix, es[j].prefix) && !SharesUrls(es, i, j)
    requires !Shadowed(es[j].prefix.Net(), |es[j].prefix.bits|, Networks(es)[..i] + Inside(es, es[j].prefix))
    ensures FirstMatch(Networks(es), a) == Some(i) && !OfLongest(es, a, es[i].urls)
  {
    var ps := Networks(es);
    var inside := Inside(es, ps[j]);
    var shade := ps[..i] + inside;
    a := UnshadowedAddress(ps[j].Net(), |ps[j].bits|, shade);
    assert Contains(ps[j], a) && Contains(ps[i], a);
    forall m | 0 <= m < i ensures !Contains(ps[m], a) {
      assert shade[m] == ps[m];
    }
    forall m | 0 <= m < |inside| ensures !Contains(inside[m], a) {
      assert shade[i + m] == inside[m];
    }
    forall m | 0 <= m < |es| && Contains(ps[m], a) ensures ps[m].len <= ps[j].len {
      var q := es[m].prefix;
      ContainingFormChain(ps[j], q, a);
      assert Covers(ps[j], q) ==> q in inside;
    }
    forall m | 0 <= m < |es| && IsLongest(ps, a, m) ensures es[m].urls != es[i].urls {
      assert ps[m].Net() == a[..ps[m].len] && ps[j].Net() == a[..ps[j].len];
    }
  }

  lemma AnswersOfLongestIff(es: seq<IpEntry>)
    ensures (forall a :: IpAnswer(es, a).Some? ==> OfLongest(es, a, IpAnswer(es, a).value)) <==> GoodOrder(es)
  {
    if GoodOrder(es) {
      forall a | IpAnswer(es, a).Some? ensures OfLongest(es, a, IpAnswer(es, a).value) {
        GoodOrderAnswers(es, a);
      }
    } else {
      var i, j :| 0 <= i < j < |es| && Covers(es[i].prefix, es[j].prefix) && !SharesUrls(es, i, j)
        && !Shadowed(es[j].prefix.Net(), |es[j].prefix.bits|, Networks(es)[..i] + Inside(es, es[j].prefix));
      var a := BadOrderFails(es, i, j);
      assert IpAnswer(es, a) == Some(es[i].urls);
    }
  }

  /* The table against the published services */

  predicate Parses(parse: string -> Option<ValidPrefix>, p: Publication, e: IpEntry) {
    parse(p.name) == Some(e.prefix) && p.urls == e.urls
  }

  lemma {:induction false} EachParsed(parse: string -> Option<ValidPrefix>, names: seq<string>, urls: Urls, e: IpEntry)
    ensures e in ParseEach(parse, names, urls) <==> exists p :: p in Each(names, urls) && Parses(parse, p, e)
  {
    if names != [] {
      var n := |names| - 1;
      EachParsed(parse, names[..n], urls, e);
      var last := Publication(names[n], urls);
      assert last in Each(names, urls);
      assert forall p :: p in Each(names, urls) <==> p in Each(names[..n], urls) || p == last;
    }
  }

  /** The table holds exactly the published prefixes that parse. */
  lemma {:induction false} PublishedParsed(parse: string -> Option<ValidPrefix>, services: seq<Service>, e: IpEntry)
    ensures e in ParseAll(parse, services) <==> exists p :: p in Publications(services) && Parses(parse, p, e)
  {
    if services != [] {
      var n := |services| - 1;
      var svc := services[n];
      PublishedParsed(parse, services[..n], e);
      if |svc| >= 2 {
        EachParsed(parse, svc[0], svc[1], e);
        assert forall p :: p in Publications(services) <==>
                             p in Publications(services[..n]) || p in Each(svc[0], svc[1]);
      }
    }
  }

  /** A published prefix that contains the address. */
  predicate Reaches(parse: string -> Option<ValidPrefix>, services: seq<Service>, p: Publication, a: Bits) {
    p in Publications(services) && parse(p.name).Some? && Contains(parse(p.name).value, a)
  }

  ghost predicate LongestPublished(parse: string -> Option<ValidPrefix>, services: seq<Service>, p: Publication,
                                   a: Bits) {
    && Reaches(parse, services, p, a)
    && forall q :: Reaches(parse, services, q, a) ==> parse(q.name).value.len <= parse(p.name).value.len
  }

  lemma EntryReaches(parse: string -> Option<ValidPrefix>, services: seq<Service>, a: Bits, i: nat)
    returns (p: Publication)
    requires i < |ParseAll(parse, services)| && Contains(ParseAll(parse, services)[i].prefix, a)
    ensures Reaches(parse, services, p, a) && Parses(parse, p, ParseAll(parse, services)[i])
  {
    var e := ParseAll(parse, services)[i];
    PublishedParsed(parse, services, e);
    p :| p in Publications(services) && Parses(parse, p, e);
  }

  lemma ReachedEntry(parse: string -> Option<ValidPrefix>, services: seq<Service>, a: Bits, p: Publication)
    returns (i: nat)
    requires Reaches(parse, services, p, a)
    ensures i < |ParseAll(parse, services)| && Parses(parse, p, ParseAll(parse, services)[i])
  {
    var e := IpEntry(parse(p.name).value, p.urls);
    assert Parses(parse, p, e);
    PublishedParsed(parse, services, e);
    i :| 0 <= i < |ParseAll(parse, services)| && ParseAll(parse, services)[i] == e;
  }

  lemma LongestIsPublished(parse: string -> Option<ValidPrefix>, services: seq<Service>, a: Bits, urls: Urls)
    ensures OfLongest(ParseAll(parse, services), a, urls) <==>
              exists p :: LongestPublished(parse, services, p, a) && p.urls == urls
  {
    var es := ParseAll(parse, services);
    var ps := Networks(es);
    if i :| 0 <= i < |es| && IsLongest(ps, a, i) && es[i].urls == urls {
      var p := EntryReaches(parse, services, a, i);
      forall q | Reaches(parse, services, q, a) ensures parse(q.name).value.len <= parse(p.name).value.len {
        var j := ReachedEntry(parse, services, a, q);
        assert Contains(ps[j], a);
      }
      assert LongestPublished(parse, services, p, a);
    }
    if p :| LongestPublished(parse, services, p, a) && p.urls == urls {
      var i := ReachedEntry(parse, services, a, p);
      forall j | 0 <= j < |ps| && Contains(ps[j], a) ensures ps[j].len <= ps[i].len {
        var q := EntryReaches(parse, services, a, j);
      }
      assert IsLongest(ps, a, i);
    }
  }

  /** What IPServers returns after Refresh: nothing exactly when no published
      prefix contains the address, and for every address the urls of a longest
      published prefix if and only if the published order is good. */
  lemma IPServersIsBruteForceIff(parse: string -> Option<ValidPrefix>, services: seq<Service>)
    ensures var es := ParseAll(parse, services);
            && (forall a :: IpAnswer(es, a).None? <==> forall p :: !Reaches(parse, services, p, a))
            && ((forall a :: IpAnswer(es, a).Some? ==>
                   exists p :: LongestPublished(parse, services, p, a) && p.urls == IpAnswer(es, a).value)
                <==> GoodOrder(es))
  {
    var es := ParseAll(parse, services);
    forall a ensures IpAnswer(es, a).None? <==> forall p :: !Reaches(parse, services, p, a) {
      if p :| Reaches(parse, services, p, a) {
        var i := ReachedEntry(parse, services, a, p);
        assert Contains(Networks(es)[i], a);
      }
      if IpAnswer(es, a).Some? {
        var p := EntryReaches(parse, services, a, FirstMatch(Networks(es), a).value);
      }
    }
    forall a | IpAnswer(es, a).Some?
      ensures OfLongest(es, a, IpAnswer(es, a).value) <==>
                exists p :: LongestPublished(parse, services, p, a) && p.urls == IpAnswer(es, a).value
    {
      LongestIsPublished(parse, services, a, IpAnswer(es, a).value);
    }
    AnswersOfLongestIff(es);
  }
}
