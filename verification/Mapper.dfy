/**
 From records to wire objects: JSContact cards, their jCard projection, entities
 and domains.

 A card's emails and phones are Go maps; ranging over them in ToJCard yields an
 order the runtime picks, so each rendering of an entity takes that order as a
 parameter (`MapOrder`).
 */
module Mapper {
  import opened Common
  import opened Text
  import opened Redaction

  /* ------------------------------------------------------------------ */
  /* JSContact                                                           */
  /* ------------------------------------------------------------------ */

  datatype Component = Component(kind: string, value: string)

  datatype CardPhone = CardPhone(number: string, features: set<string>)

  datatype CardAddress = CardAddress(components: seq<Component>, countryCode: string)

  /** Members that are absent on the wire are "" or []. */
  datatype Card = Card(
    uid: string, kind: string, created: int, updated: int, name: string, organization: string, title: string,
    emails: seq<string>, phones: seq<CardPhone>, address: Option<CardAddress>)

  function CardKind(k: string): string {
    var l := ToLower(k);
    if l == "org" || l == "organization" then "org" else "individual"
  }

  /** The sixteen characters of the handle the UID is made of. */
  function Uid(handle: string): string
    decreases 16 - |handle|
  {
    if |handle| >= 16 then handle[..16] else Uid(handle + "0")
  }

  function Feature(p: PhoneNumber): CardPhone {
    var fs := set k | k in p.kinds;
    CardPhone(p.number, if fs == {} then {"voice"} else fs)
  }

  function Optional(kind: string, value: string): seq<Component> {
    if value != "" then [Component(kind, value)] else []
  }

  function StreetLine(line: string): seq<Component> {
    Optional("name", TrimSpace(line))
  }

  function CardAddressOf(a: Address): CardAddress {
    CardAddress(
      Flatten(a.street, StreetLine) + Optional("locality", a.locality) + Optional("region", a.region)
      + Optional("postcode", a.postalCode),
      a.countryCode)
  }

  function BuildCard(c: Contact, v: ContactView): Option<Card> {
    if v.Empty() then None
    else Some(Card(
      Uid(c.handle), CardKind(c.kind), c.createdAt, c.updatedAt, v.fullName, v.organization, v.title, v.emails,
      seq(|v.phones|, i requires 0 <= i < |v.phones| => Feature(v.phones[i])),
      match v.address case None => None case Some(a) => Some(CardAddressOf(a))))
  }

  /* ------------------------------------------------------------------ */
  /* jCard                                                               */
  /* ------------------------------------------------------------------ */

  /** A property: name, values of its `type` parameter, value type, value. */
  datatype Property = Property(name: string, types: seq<string>, valueType: string, value: seq<string>)

  /** The orders in which the maps of emails and of phones are ranged over. */
  datatype MapOrder = MapOrder(emails: seq<nat>, phones: seq<nat>)

  function Upto(n: nat): (s: seq<nat>)
    ensures |s| == n && forall i :: 0 <= i < n ==> s[i] == i
  {
    seq(n, i => i)
  }

  predicate Permutation(order: seq<nat>, n: nat) {
    |order| == n && (forall i :: 0 <= i < n ==> order[i] < n) && multiset(order) == multiset(Upto(n))
  }

  /** The list in the given order; a list that is no permutation stands for the
      identity. */
  function Arrange<T>(s: seq<T>, order: seq<nat>): (r: seq<T>)
    ensures |r| == |s|
    ensures Permutation(order, |s|) ==> forall i :: 0 <= i < |s| ==> r[i] == s[order[i]]
  {
    if Permutation(order, |s|) then seq(|s|, i requires 0 <= i < |s| => s[order[i]]) else s
  }

  function EmailProperty(e: string): seq<Property> {
    if e != "" then [Property("email", ["work"], "text", [e])] else []
  }

  function PhoneTypes(features: set<string>, known: seq<string>): seq<string> {
    if known == [] then []
    else PhoneTypes(features, known[..|known|-1]) + if known[|known|-1] in features then [known[|known|-1]] else []
  }

  function PhoneProperty(p: CardPhone): seq<Property> {
    if p.number == "" then []
    else [Property("tel", ["work"] + PhoneTypes(p.features, ["voice", "fax", "mobile", "sms", "video"]),
                   "uri", ["tel:" + p.number])]
  }

  /** The seven slots of an ADR value. */
  datatype Slots = Slots(pobox: string, street: string, locality: string, region: string, postcode: string,
                         country: string)

  function Place(s: Slots, c: Component): Slots {
    if c.kind == "name" || c.kind == "number" then
      s.(street := if s.street == "" then c.value else s.street + " " + c.value)
    else if c.kind == "locality" then s.(locality := c.value)
    else if c.kind == "region" then s.(region := c.value)
    else if c.kind == "postcode" then s.(postcode := c.value)
    else if c.kind == "country" then s.(country := c.value)
    else if c.kind == "pobox" then s.(pobox := c.value)
    else s
  }

  function PlaceAll(cs: seq<Component>): Slots {
    if cs == [] then Slots("", "", "", "", "", "") else Place(PlaceAll(cs[..|cs|-1]), cs[|cs|-1])
  }

  function AddressProperty(a: CardAddress): Property {
    var s := PlaceAll(a.components);
    Property("adr", ["work"], "text",
             [s.pobox, "", s.street, s.locality, s.region, s.postcode,
              if s.country == "" then a.countryCode else s.country])
  }

  function TextProperty(name: string, value: string): seq<Property> {
    if value != "" then [Property(name, [], "text", [value])] else []
  }

  /** The jCard projection of a card. */
  function JCard(c: Card, order: MapOrder): seq<Property> {
    [Property("version", [], "text", ["4.0"])]
    + TextProperty("fn", c.name) + TextProperty("org", c.organization) + TextProperty("title", c.title)
    + Flatten(Arrange(c.emails, order.emails), EmailProperty)
    + Flatten(Arrange(c.phones, order.phones), PhoneProperty)
    + match c.address case None => [] case Some(a) => [AddressProperty(a)]
  }

  method FillSlots(a: CardAddress) returns (p: Property)
    ensures p == AddressProperty(a)
  {
    var s := Slots("", "", "", "", "", "");
    for i := 0 to |a.components|
      invariant s == PlaceAll(a.components[..i])
    {
      assert a.components[..i+1][..i] == a.components[..i];
      s := Place(s, a.components[i]);
    }
    assert a.components[..|a.components|] == a.components;
    if s.country == "" {
      s := s.(country := a.countryCode);
    }
    p := Property("adr", ["work"], "text", [s.pobox, "", s.street, s.locality, s.region, s.postcode, s.country]);
  }

  method ToJCard(c: Card, order: MapOrder) returns (props: seq<Property>)
    ensures props == JCard(c, order)
  {
    props := [Property("version", [], "text", ["4.0"])];
    props := AppendText(props, "fn", c.name);
    props := AppendText(props, "org", c.organization);
    props := AppendText(props, "title", c.title);
    var emails := EmailProperties(Arrange(c.emails, order.emails));
    props := props + emails;
    var phones := PhoneProperties(Arrange(c.phones, order.phones));
    props := props + phones;
    if c.address.Some? {
      var p := FillSlots(c.address.value);
      props := props + [p];
    }
  }

  method AppendText(props: seq<Property>, name: string, value: string) returns (out: seq<Property>)
    ensures out == props + TextProperty(name, value)
  {
    out := props;
    if value != "" {
      out := out + [Property(name, [], "text", [value])];
    }
  }

  method EmailProperties(emails: seq<string>) returns (props: seq<Property>)
    ensures props == Flatten(emails, EmailProperty)
  {
    props := [];
    for i := 0 to |emails|
      invariant props == Flatten(emails[..i], EmailProperty)
    {
      assert emails[..i+1][..i] == emails[..i];
      if emails[i] != "" {
        props := props + [Property("email", ["work"], "text", [emails[i]])];
      }
    }
    assert emails[..|emails|] == emails;
  }

  method PhoneProperties(phones: seq<CardPhone>) returns (props: seq<Property>)
    ensures props == Flatten(phones, PhoneProperty)
  {
    props := [];
    for i := 0 to |phones|
      invariant props == Flatten(phones[..i], PhoneProperty)
    {
      assert phones[..i+1][..i] == phones[..i];
      props := props + PhoneProperty(phones[i]);
    }
    assert phones[..|phones|] == phones;
  }

  /* ------------------------------------------------------------------ */
  /* Entities and domains                                                */
  /* ------------------------------------------------------------------ */

  datatype Options = Options(level: AccessLevel, reason: string, emitJCard: bool, jcardOnly: bool)

  datatype Entity = Entity(
    handle: string, roles: seq<string>, publicIds: seq<string>, jscard: Option<Card>,
    vcard: Option<seq<Property>>, entities: seq<Entity>)

  function WithCard(handle: string, roles: seq<string>, ids: seq<string>, card: Option<Card>, o: Options,
                    order: MapOrder, subs: seq<Entity>): Entity {
    Entity(handle, roles, ids,
           if o.jcardOnly then None else card,
           if card.Some? && (o.emitJCard || o.jcardOnly) then Some(JCard(card.value, order)) else None,
           subs)
  }

  function EntityOf(c: Contact, o: Options, order: MapOrder): Entity {
    WithCard(c.handle, c.roles, [], BuildCard(c, RedactContact(c, o.level)), o, order, [])
  }

  datatype Registrar = Registrar(handle: string, name: string, ianaId: string, url: string, abuse: Option<Contact>)

  function RegistrarCard(r: Registrar): Option<Card> {
    if r.name == "" then None
    else Some(Card(Uid(r.handle), "org", 0, 0, "", r.name, "", [], [], None))
  }

  function RegistrarEntity(r: Registrar, o: Options, order: MapOrder): Entity {
    WithCard(r.handle, ["registrar"], if r.ianaId != "" then [r.ianaId] else [], RegistrarCard(r), o, order,
             match r.abuse case None => [] case Some(c) => [EntityOf(c, o, order).(roles := ["abuse"])])
  }

  datatype Nameserver = Nameserver(handle: string, ldhName: string, unicodeName: string, ipv4: seq<string>,
                                   ipv6: seq<string>)

  /** The part of a domain record that holds no contact. */
  datatype DomainCore = DomainCore(
    handle: string, ldhName: string, unicodeName: string, status: seq<string>, registered: int, expires: int,
    lastChanged: int, lastRdapUpdate: int, nameservers: seq<Nameserver>, secureDns: Option<seq<string>>)

  datatype Domain = Domain(core: DomainCore, contacts: seq<Contact>, registrar: Option<Registrar>)

  datatype DomainObject = DomainObject(core: DomainCore, entities: seq<Entity>, redacted: seq<Marker>)

  function OrderAt(orders: seq<MapOrder>, i: nat): MapOrder {
    if i < |orders| then orders[i] else MapOrder([], [])
  }

  function ContactEntities(cs: seq<Contact>, o: Options, orders: seq<MapOrder>): (es: seq<Entity>)
    ensures |es| == |cs| && forall i :: 0 <= i < |cs| ==> es[i] == EntityOf(cs[i], o, OrderAt(orders, i))
  {
    seq(|cs|, i requires 0 <= i < |cs| => EntityOf(cs[i], o, OrderAt(orders, i)))
  }

  function DomainObjectOf(d: Domain, o: Options, orders: seq<MapOrder>): DomainObject {
    DomainObject(
      d.core,
      ContactEntities(d.contacts, o, orders)
      + (match d.registrar
         case None => []
         case Some(r) => [RegistrarEntity(r, o, OrderAt(orders, |d.contacts|))]),
      Markers(Dedup(AllMarks(d.contacts, o.level)), o.reason))
  }

  method MapDomain(d: Domain, o: Options, orders: seq<MapOrder>) returns (out: DomainObject)
    ensures out == DomainObjectOf(d, o, orders)
  {
    var entities: seq<Entity> := [];
    var marks: seq<Kind> := [];
    for i := 0 to |d.contacts|
      invariant entities == ContactEntities(d.contacts[..i], o, orders)
      invariant marks == AllMarks(d.contacts[..i], o.level)
    {
      assert d.contacts[..i+1][..i] == d.contacts[..i];
      entities := entities + [EntityOf(d.contacts[i], o, OrderAt(orders, i))];
      marks := marks + RedactContact(d.contacts[i], o.level).marks;
    }
    assert d.contacts[..|d.contacts|] == d.contacts;
    if d.registrar.Some? {
      entities := entities + [RegistrarEntity(d.registrar.value, o, OrderAt(orders, |d.contacts|))];
    }
    var redacted := BuildRedacted(marks, o.reason);
    out := DomainObject(d.core, entities, redacted);
  }

  /** Marker paths of a stand-alone entity start at the root. */
  function AtRoot(m: Marker): Marker {
    var prefix := "$.entities[*]";
    if |m.prePath| > |prefix| && prefix <= m.prePath then m.(prePath := "$" + m.prePath[|prefix|..]) else m
  }

  datatype EntityObject = EntityObject(entity: Entity, redacted: seq<Marker>)

  function EntityTopLevel(c: Contact, o: Options, order: MapOrder): EntityObject {
    var ms := Markers(Dedup(RedactContact(c, o.level).marks), o.reason);
    EntityObject(EntityOf(c, o, order), seq(|ms|, i requires 0 <= i < |ms| => AtRoot(ms[i])))
  }

  /* ------------------------------------------------------------------ */
  /* What the rendering for a tier depends on                            */
  /* ------------------------------------------------------------------ */

  predicate SameContacts(t: Tier, cs: seq<Contact>, ds: seq<Contact>) {
    |cs| == |ds| && forall i :: 0 <= i < |cs| ==> SameFor(t, cs[i], ds[i])
  }

  predicate SameRegistrar(t: Tier, r: Option<Registrar>, s: Option<Registrar>) {
    match (r, s)
    case (None, None) => true
    case (Some(x), Some(y)) =>
      && x.handle == y.handle && x.name == y.name && x.ianaId == y.ianaId
      && x.abuse.Some? == y.abuse.Some?
      && (x.abuse.Some? ==> SameFor(t, x.abuse.value, y.abuse.value))
    case _ => false
  }

  predicate SameDomain(t: Tier, d: Domain, e: Domain) {
    d.core == e.core && SameContacts(t, d.contacts, e.contacts) && SameRegistrar(t, d.registrar, e.registrar)
  }

  /** An anonymous card has no emails and no phones, so the order in which maps
      are ranged over cannot show. */
  lemma CardOrderInvisible(c: Card, a: MapOrder, b: MapOrder)
    requires c.emails == [] && c.phones == []
    ensures JCard(c, a) == JCard(c, b)
  {
    assert Arrange(c.emails, a.emails) == Arrange(c.emails, b.emails) == [];
    assert Arrange(c.phones, a.phones) == Arrange(c.phones, b.phones) == [];
  }

  lemma EntitySame(c: Contact, d: Contact, o: Options, a: MapOrder, b: MapOrder)
    requires SameFor(TierOf(o.level), c, d) && (TierOf(o.level).Anonymous? || a == b)
    ensures EntityOf(c, o, a) == EntityOf(d, o, b)
  {
    ViewReveals(c, d, o.level);
    var v := RedactContact(c, o.level);
    assert BuildCard(c, v) == BuildCard(d, v);
    if BuildCard(c, v).Some? && TierOf(o.level).Anonymous? {
      CardOrderInvisible(BuildCard(c, v).value, a, b);
    }
  }

  lemma MarksSame(cs: seq<Contact>, ds: seq<Contact>, lvl: AccessLevel)
    requires SameContacts(TierOf(lvl), cs, ds)
    ensures AllMarks(cs, lvl) == AllMarks(ds, lvl)
  {
    var f := (c: Contact) => RedactContact(c, lvl).marks;
    forall i | 0 <= i < |cs| ensures f(cs[i]) == f(ds[i]) {
      ViewReveals(cs[i], ds[i], lvl);
    }
    FlattenSame(cs, ds, f);
  }

  lemma RegistrarSame(r: Registrar, s: Registrar, o: Options, a: MapOrder, b: MapOrder)
    requires SameRegistrar(TierOf(o.level), Some(r), Some(s)) && (TierOf(o.level).Anonymous? || a == b)
    ensures RegistrarEntity(r, o, a) == RegistrarEntity(s, o, b)
  {
    if r.abuse.Some? {
      EntitySame(r.abuse.value, s.abuse.value, o, a, b);
    }
    if RegistrarCard(r).Some? {
      CardOrderInvisible(RegistrarCard(r).value, a, b);
    }
  }

  /** Domains that agree on what a tier shows render alike for its callers; for
      anonymous ones, whatever map orders the two renderings used. */
  lemma DomainSame(d: Domain, e: Domain, o: Options, a: seq<MapOrder>, b: seq<MapOrder>)
    requires SameDomain(TierOf(o.level), d, e) && (TierOf(o.level).Anonymous? || a == b)
    ensures DomainObjectOf(d, o, a) == DomainObjectOf(e, o, b)
  {
    MarksSame(d.contacts, e.contacts, o.level);
    forall i | 0 <= i < |d.contacts|
      ensures EntityOf(d.contacts[i], o, OrderAt(a, i)) == EntityOf(e.contacts[i], o, OrderAt(b, i))
    {
      EntitySame(d.contacts[i], e.contacts[i], o, OrderAt(a, i), OrderAt(b, i));
    }
    if d.registrar.Some? {
      RegistrarSame(d.registrar.value, e.registrar.value, o, OrderAt(a, |d.contacts|), OrderAt(b, |d.contacts|));
    }
    assert ContactEntities(d.contacts, o, a) == ContactEntities(e.contacts, o, b);
  }

  lemma EntityTopLevelSame(c: Contact, d: Contact, o: Options, a: MapOrder, b: MapOrder)
    requires SameFor(TierOf(o.level), c, d) && (TierOf(o.level).Anonymous? || a == b)
    ensures EntityTopLevel(c, o, a) == EntityTopLevel(d, o, b)
  {
    ViewReveals(c, d, o.level);
    EntitySame(c, d, o, a, b);
  }
}
