/**
 What a rendered contact, registrar and domain say: both card formats give the
 caller's view of the record back, and nothing else.
 */
module Rendering {
  import opened Common
  import opened Text
  import opened Redaction
  import opened Mapper
  import opened JCardProjection

  /* ------------------------------------------------------------------ */
  /* The JSContact card                                                  */
  /* ------------------------------------------------------------------ */

  /** The values of all components of one kind, in order. */
  function Parts(cs: seq<Component>, kind: string): seq<string> {
    if cs == [] then []
    else Parts(cs[..|cs|-1], kind) + if cs[|cs|-1].kind == kind then [cs[|cs|-1].value] else []
  }

  function Given(value: string): seq<string> {
    if value != "" then [value] else []
  }

  /** The street lines that are not blank, without white space around them. */
  function Lines(street: seq<string>): seq<string> {
    if street == [] then [] else Lines(street[..|street|-1]) + Given(TrimSpace(street[|street|-1]))
  }

  ghost predicate AddressShows(x: CardAddress, a: Address) {
    && x.countryCode == a.countryCode
    && Parts(x.components, "name") == Lines(a.street)
    && Parts(x.components, "locality") == Given(a.locality)
    && Parts(x.components, "region") == Given(a.region)
    && Parts(x.components, "postcode") == Given(a.postalCode)
    && forall i :: 0 <= i < |x.components| ==> AddressKind(x.components[i].kind)
  }

  predicate AddressKind(k: string) { k == "name" || k == "locality" || k == "region" || k == "postcode" }

  predicate PhoneShows(x: CardPhone, p: PhoneNumber) {
    && x.number == p.number
    && (forall k :: k in x.features ==> k in p.kinds || (p.kinds == [] && k == "voice"))
    && (forall k :: k in p.kinds ==> k in x.features) && (p.kinds == [] ==> "voice" in x.features)
  }

  /** The card says what the view holds. */
  ghost predicate CardShows(card: Card, v: ContactView) {
    && card.name == v.fullName && card.organization == v.organization && card.title == v.title
    && card.emails == v.emails
    && |card.phones| == |v.phones| && (forall i :: 0 <= i < |v.phones| ==> PhoneShows(card.phones[i], v.phones[i]))
    && card.address.Some? == v.address.Some?
    && (v.address.Some? ==> AddressShows(card.address.value, v.address.value))
  }

  /** The card's own data: an identifier made of the handle, filled up with
      zeros, the kind, and the times of the record. */
  predicate CardBelongs(card: Card, handle: string, kind: string, created: int, updated: int) {
    && |card.uid| == 16
    && (forall i :: 0 <= i < 16 ==> card.uid[i] == if i < |handle| then handle[i] else '0')
    && card.kind == (if SameText(kind, "org") || SameText(kind, "organization") then "org" else "individual")
    && card.created == created && card.updated == updated
  }

  lemma {:induction false} UidIsHandle(handle: string)
    ensures |Uid(handle)| == 16
    ensures forall i :: 0 <= i < 16 ==> Uid(handle)[i] == if i < |handle| then handle[i] else '0'
    decreases 16 - |handle|
  {
    if |handle| < 16 {
      UidIsHandle(handle + "0");
    }
  }

  lemma KindOfCard(kind: string)
    ensures CardKind(kind) == if SameText(kind, "org") || SameText(kind, "organization") then "org" else "individual"
  {
    hide ToLower, SameText;
    LowerIs(kind, "org");
    LowerIs(kind, "organization");
  }

  lemma {:induction false} PartsConcat(a: seq<Component>, b: seq<Component>, kind: string)
    ensures Parts(a + b, kind) == Parts(a, kind) + Parts(b, kind)
  {
    if b == [] {
      assert a + b == a;
    } else {
      PartsConcat(a, b[..|b|-1], kind);
      assert (a + b)[..|a + b| - 1] == a + b[..|b|-1];
    }
  }

  lemma OptionalParts(k: string, value: string, kind: string)
    ensures Parts(Optional(k, value), kind) == if k == kind then Given(value) else []
  {
    assert Parts([], kind) == [] && [Component(k, value)][..0] == [];
  }

  lemma {:induction false} StreetParts(street: seq<string>, kind: string)
    ensures Parts(Flatten(street, StreetLine), kind) == if kind == "name" then Lines(street) else []
  {
    if street != [] {
      var n := |street| - 1;
      StreetParts(street[..n], kind);
      PartsConcat(Flatten(street[..n], StreetLine), StreetLine(street[n]), kind);
      OptionalParts("name", TrimSpace(street[n]), kind);
    }
  }

  lemma ComponentParts(a: Address, kind: string)
    ensures Parts(CardAddressOf(a).components, kind)
         == (if kind == "name" then Lines(a.street) else []) + (if kind == "locality" then Given(a.locality) else [])
          + (if kind == "region" then Given(a.region) else [])
          + (if kind == "postcode" then Given(a.postalCode) else [])
  {
    hide Parts, Flatten, Lines;
    var s, l, r, p := Flatten(a.street, StreetLine), Optional("locality", a.locality), Optional("region", a.region),
      Optional("postcode", a.postalCode);
    PartsConcat(s, l, kind);
    PartsConcat(s + l, r, kind);
    PartsConcat(s + l + r, p, kind);
    StreetParts(a.street, kind);
    OptionalParts("locality", a.locality, kind);
    OptionalParts("region", a.region, kind);
    OptionalParts("postcode", a.postalCode, kind);
  }

  lemma ComponentKinds(a: Address)
    ensures forall c :: c in CardAddressOf(a).components ==> AddressKind(c.kind)
  {
    forall c | c in Flatten(a.street, StreetLine) ensures AddressKind(c.kind) {
      FlattenMembers(a.street, StreetLine, c);
    }
    OptionalKind("locality", a.locality);
    OptionalKind("region", a.region);
    OptionalKind("postcode", a.postalCode);
  }

  lemma OptionalKind(kind: string, value: string)
    requires AddressKind(kind)
    ensures forall c :: c in Optional(kind, value) ==> AddressKind(c.kind)
  {}

  lemma AddressShown(a: Address)
    ensures AddressShows(CardAddressOf(a), a)
  {
    ComponentKinds(a);
    hide Parts, Lines, Flatten, AddressKind;
    ComponentParts(a, "name");
    ComponentParts(a, "locality");
    ComponentParts(a, "region");
    ComponentParts(a, "postcode");
  }

  lemma PhoneShown(p: PhoneNumber)
    ensures PhoneShows(Feature(p), p)
  {
    forall k: string ensures k in Feature(p).features <==> k in p.kinds || (k == "voice" && p.kinds == []) {
      FeatureKinds(p, k);
    }
  }

  /** The card of a contact says what the view holds, and is the contact's. */
  lemma CardShown(c: Contact, v: ContactView)
    requires !v.Empty()
    ensures BuildCard(c, v).Some? && CardShows(BuildCard(c, v).value, v)
    ensures CardBelongs(BuildCard(c, v).value, c.handle, c.kind, c.createdAt, c.updatedAt)
  {
    UidIsHandle(c.handle);
    KindOfCard(c.kind);
    hide Uid, CardKind, SameText, AddressShows, PhoneShows, CardAddressOf, Feature;
    forall i | 0 <= i < |v.phones| ensures PhoneShows(Feature(v.phones[i]), v.phones[i]) {
      PhoneShown(v.phones[i]);
    }
    if v.address.Some? {
      AddressShown(v.address.value);
    }
  }

  /* ------------------------------------------------------------------ */
  /* Entities and domains                                                */
  /* ------------------------------------------------------------------ */

  predicate ShowsNothing(v: ContactView) {
    v.fullName == "" && v.organization == "" && v.title == "" && v.emails == [] && v.phones == [] && v.address == None
  }

  /** Which of the two card formats an entity carries, and that each gives the
      view back: none for an empty view, only the jCard for a caller who asked for
      it alone, otherwise the card and, where the server says so, the jCard too. */
  ghost predicate CardsShow(e: Entity, v: ContactView, o: Options) {
    && e.jscard.Some? == (!ShowsNothing(v) && !o.jcardOnly)
    && e.vcard.Some? == (!ShowsNothing(v) && (o.jcardOnly || o.emitJCard))
    && (e.jscard.Some? ==> CardShows(e.jscard.value, v))
    && (e.vcard.Some? ==> JCardShows(e.vcard.value, v))
  }

  ghost predicate ContactShows(e: Entity, c: Contact, roles: seq<string>, o: Options) {
    && e.handle == c.handle && e.roles == roles && e.publicIds == [] && e.entities == []
    && CardsShow(e, RedactContact(c, o.level), o)
    && (e.jscard.Some? ==> CardBelongs(e.jscard.value, c.handle, c.kind, c.createdAt, c.updatedAt))
  }

  lemma FormatsShow(handle: string, roles: seq<string>, ids: seq<string>, card: Option<Card>, v: ContactView,
                    o: Options, order: MapOrder, subs: seq<Entity>)
    requires card.Some? == !ShowsNothing(v)
    requires card.Some? ==> CardShows(card.value, v) && JCardShows(JCard(card.value, order), v)
    ensures CardsShow(WithCard(handle, roles, ids, card, o, order, subs), v, o)
  {
    hide ShowsNothing, CardShows, JCardShows, JCard;
  }

  lemma NothingIsEmpty(c: Contact, v: ContactView)
    ensures v.Empty() == ShowsNothing(v) == BuildCard(c, v).None?
  {}

  /** A rendered contact gives the caller's view of it back, for every contact,
      level and negotiation. */
  lemma EntityShowsContact(c: Contact, o: Options, order: MapOrder)
    ensures ContactShows(EntityOf(c, o, order), c, c.roles, o)
  {
    hide ShowsNothing, CardShows, JCardShows, CardBelongs, RedactContact, JCard, BuildCard, CardsShow;
    var v := RedactContact(c, o.level);
    NothingIsEmpty(c, v);
    if !v.Empty() {
      CardShown(c, v);
      JCardReadsBackView(c, v, order);
    }
    FormatsShow(c.handle, c.roles, [], BuildCard(c, v), v, o, order, []);
  }

  /** The registrar: an organisation of that name, its identifier, and the abuse
      contact under the role of that name. */
  ghost predicate RegistrarShows(e: Entity, r: Registrar, o: Options) {
    && e.handle == r.handle && e.roles == ["registrar"]
    && e.publicIds == Given(r.ianaId)
    && CardsShow(e, ContactView("", r.name, "", [], [], None, []), o)
    && (e.jscard.Some? ==> CardBelongs(e.jscard.value, r.handle, "org", 0, 0))
    && |e.entities| == (if r.abuse.Some? then 1 else 0)
    && (r.abuse.Some? ==> ContactShows(e.entities[0], r.abuse.value, ["abuse"], o))
  }

  lemma EntityShowsRegistrar(r: Registrar, o: Options, order: MapOrder)
    ensures RegistrarShows(RegistrarEntity(r, o, order), r, o)
  {
    var e := RegistrarEntity(r, o, order);
    assert e.publicIds == Given(r.ianaId);
    hide CardsShow, CardBelongs, ContactShows, CardShows, JCardShows, JCard, RegistrarCard, EntityOf, Given;
    RegistrarCards(r, o, order, e.publicIds, e.entities);
    if r.abuse.Some? {
      AbuseShown(r.abuse.value, o, order);
    }
  }

  lemma RegistrarCards(r: Registrar, o: Options, order: MapOrder, ids: seq<string>, subs: seq<Entity>)
    ensures var e := WithCard(r.handle, ["registrar"], ids, RegistrarCard(r), o, order, subs);
            && CardsShow(e, ContactView("", r.name, "", [], [], None, []), o)
            && (e.jscard.Some? ==> CardBelongs(e.jscard.value, r.handle, "org", 0, 0))
  {
    var v := ContactView("", r.name, "", [], [], None, []);
    assert ShowsNothing(v) == (r.name == "") == RegistrarCard(r).None?;
    hide ShowsNothing, CardsShow, CardBelongs, CardShows, JCardShows, JCard, RegistrarCard;
    if r.name != "" {
      RegistrarCardShown(r, order);
    }
    FormatsShow(r.handle, ["registrar"], ids, RegistrarCard(r), v, o, order, subs);
  }

  lemma AbuseShown(c: Contact, o: Options, order: MapOrder)
    ensures ContactShows(EntityOf(c, o, order).(roles := ["abuse"]), c, ["abuse"], o)
  {
    hide ShowsNothing, CardShows, JCardShows, CardBelongs, RedactContact;
    EntityShowsContact(c, o, order);
  }

  lemma RegistrarCardShown(r: Registrar, order: MapOrder)
    requires r.name != ""
    ensures var v := ContactView("", r.name, "", [], [], None, []);
            && RegistrarCard(r).Some? && CardShows(RegistrarCard(r).value, v)
            && JCardShows(JCard(RegistrarCard(r).value, order), v)
            && CardBelongs(RegistrarCard(r).value, r.handle, "org", 0, 0)
  {
    var v := ContactView("", r.name, "", [], [], None, []);
    var c := Contact(r.handle, [], "org", "", r.name, "", [], [], None, 0, 0, map[]);
    assert CardKind("org") == "org" by {
      KindOfCard("org");
      assert SameText("org", "org");
    }
    hide CardShows, JCardShows, CardBelongs, JCard, CardKind, Uid;
    assert BuildCard(c, v).value.phones == [];
    assert BuildCard(c, v) == RegistrarCard(r);
    CardShown(c, v);
    JCardReadsBackView(c, v, order);
  }

  /** Entity i belongs to contact i, the registrar follows, the contact-free part
      is the record's, and the markers tell what the persons among the contacts
      lost. */
  ghost predicate DomainShows(x: DomainObject, d: Domain, o: Options) {
    && x.core == d.core
    && |x.entities| == |d.contacts| + (if d.registrar.Some? then 1 else 0)
    && (forall i :: 0 <= i < |d.contacts| ==> ContactShows(x.entities[i], d.contacts[i], d.contacts[i].roles, o))
    && (d.registrar.Some? ==> RegistrarShows(x.entities[|d.contacts|], d.registrar.value, o))
    && (forall i, j :: 0 <= i < j < |x.redacted| ==> x.redacted[i] != x.redacted[j])
    && (forall i :: 0 <= i < |x.redacted| ==> exists k: Kind :: x.redacted[i] == MarkerFor(k, o.reason))
    && (forall k: Kind :: MarkerFor(k, o.reason) in x.redacted <==>
          exists i :: 0 <= i < |d.contacts| && NaturalPerson(d.contacts[i])
            && (Loses(d.contacts[i], k, o.level) || (k.PostalAddress? && BareCountry(d.contacts[i]) && o.level != 2)))
  }

  /** A rendered domain says what the caller may see of the record. */
  lemma DomainShowsRecord(d: Domain, o: Options, orders: seq<MapOrder>)
    ensures DomainShows(DomainObjectOf(d, o, orders), d, o)
  {
    var x := DomainObjectOf(d, o, orders);
    hide ContactShows, RegistrarShows, Loses, RedactContact, BareCountry;
    forall i | 0 <= i < |d.contacts| ensures ContactShows(x.entities[i], d.contacts[i], d.contacts[i].roles, o) {
      EntityShowsContact(d.contacts[i], o, OrderAt(orders, i));
    }
    if d.registrar.Some? {
      EntityShowsRegistrar(d.registrar.value, o, OrderAt(orders, |d.contacts|));
    }
    forall k: Kind
      ensures MarkerFor(k, o.reason) in x.redacted <==>
                exists i :: 0 <= i < |d.contacts| && NaturalPerson(d.contacts[i])
                  && (Loses(d.contacts[i], k, o.level)
                      || (k.PostalAddress? && BareCountry(d.contacts[i]) && o.level != 2))
    {
      SignalledIffLost(d.contacts, o.level, o.reason, k);
    }
    SignalledIffLost(d.contacts, o.level, o.reason, Name);
  }

  /** A stand-alone entity: the contact, and its own markers with paths that start
      at the root. */
  ghost predicate EntityShows(x: EntityObject, c: Contact, o: Options) {
    && ContactShows(x.entity, c, c.roles, o)
    && (forall i, j :: 0 <= i < j < |x.redacted| ==> x.redacted[i] != x.redacted[j])
    && (forall i :: 0 <= i < |x.redacted| ==> IsRootMarker(x.redacted[i], o.reason))
    && (forall k: Kind :: RootMarker(k, o.reason) in x.redacted <==>
          NaturalPerson(c) && (Loses(c, k, o.level) || (k.PostalAddress? && BareCountry(c) && o.level != 2)))
  }

  /** The marker of a stand-alone entity: the path of a domain's marker is
      "$.entities[*]" and the path from there, this one "$" and the same. */
  function RootMarker(k: Kind, reason: string): Marker {
    MarkerFor(k, reason).(prePath := "$" + FromEntity(k))
  }

  predicate IsRootMarker(m: Marker, reason: string) {
    exists k: Kind :: m == RootMarker(k, reason)
  }

  function FromEntity(k: Kind): string {
    match k
    case Name => ".jscard.name.full"
    case Title => ".jscard.titles"
    case Email => ".jscard.emails"
    case Phone => ".jscard.phones"
    case PostalAddress => ".jscard.addresses"
  }

  lemma Rerooted(m: Marker, rest: string)
    requires rest != "" && m.prePath == "$.entities[*]" + rest
    ensures AtRoot(m) == m.(prePath := "$" + rest)
  {
    assert m.prePath[|"$.entities[*]"|..] == rest;
  }

  lemma FromEntities(k: Kind)
    ensures Path(k) == "$.entities[*]" + FromEntity(k)
  {
    if k.Name? || k.Title? || k.Email? {
      FromEntitiesFirst(k);
    } else {
      FromEntitiesLast(k);
    }
  }

  lemma FromEntitiesFirst(k: Kind)
    requires k.Name? || k.Title? || k.Email?
    ensures Path(k) == "$.entities[*]" + FromEntity(k)
  {}

  lemma FromEntitiesLast(k: Kind)
    requires k.Phone? || k.PostalAddress?
    ensures Path(k) == "$.entities[*]" + FromEntity(k)
  {}

  lemma AtRootIs(k: Kind, reason: string)
    ensures AtRoot(MarkerFor(k, reason)) == RootMarker(k, reason)
  {
    FromEntities(k);
    assert FromEntity(k) != "";
    hide Path, FromEntity, AtRoot;
    Rerooted(MarkerFor(k, reason), FromEntity(k));
  }

  lemma EntityShowsRecord(c: Contact, o: Options, order: MapOrder)
    ensures EntityShows(EntityTopLevel(c, o, order), c, o)
  {
    hide ContactShows, RedactContact, Loses, BareCountry, AtRoot, RootMarker, EntityOf, Dedup, MarkerFor, NaturalPerson;
    EntityShowsContact(c, o, order);
    var marks := RedactContact(c, o.level).marks;
    var ms := Markers(Dedup(marks), o.reason);
    var x := EntityTopLevel(c, o, order).redacted;
    forall k: Kind
      ensures AtRoot(MarkerFor(k, o.reason)) == RootMarker(k, o.reason)
      ensures k in marks <==>
                NaturalPerson(c) && (Loses(c, k, o.level) || (k.PostalAddress? && BareCountry(c) && o.level != 2))
    {
      AtRootIs(k, o.reason);
      PersonMarks(c, o.level, k);
    }
    var kinds := Dedup(marks);
    forall i | 0 <= i < |x| ensures x[i] == RootMarker(kinds[i], o.reason) {
      assert ms[i] == MarkerFor(kinds[i], o.reason);
    }
    RootMarkers(kinds, o.reason, x);
    assert ContactShows(EntityTopLevel(c, o, order).entity, c, c.roles, o);
    forall k: Kind
      ensures RootMarker(k, o.reason) in x <==>
                NaturalPerson(c) && (Loses(c, k, o.level) || (k.PostalAddress? && BareCountry(c) && o.level != 2))
    {
      assert RootMarker(k, o.reason) in x <==> k in kinds;
    }
  }

  lemma PersonMarks(c: Contact, lvl: AccessLevel, k: Kind)
    ensures k in RedactContact(c, lvl).marks <==>
              NaturalPerson(c) && (Loses(c, k, lvl) || (k.PostalAddress? && BareCountry(c) && lvl != 2))
  {
    MarkMembers(c, lvl, k);
    if NaturalPerson(c) {
      MarksAreLosses(c, k, lvl);
    }
  }

  lemma RootMarkers(kinds: seq<Kind>, reason: string, x: seq<Marker>)
    requires forall i, j :: 0 <= i < j < |kinds| ==> kinds[i] != kinds[j]
    requires |x| == |kinds| && forall i :: 0 <= i < |x| ==> x[i] == RootMarker(kinds[i], reason)
    ensures forall i, j :: 0 <= i < j < |x| ==> x[i] != x[j]
    ensures forall k: Kind :: RootMarker(k, reason) in x <==> k in kinds
    ensures forall i :: 0 <= i < |x| ==> IsRootMarker(x[i], reason)
  {
    forall j: Kind, k: Kind | RootMarker(j, reason) == RootMarker(k, reason) ensures j == k {
      assert Description(j)[8] == Description(k)[8] && |Description(j)| == |Description(k)|;
    }
    forall k: Kind | k in kinds ensures RootMarker(k, reason) in x {
      var i :| 0 <= i < |kinds| && kinds[i] == k;
      assert x[i] == RootMarker(k, reason);
    }
  }
}
