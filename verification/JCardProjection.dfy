/**
 The jCard projection is faithful: whatever order the runtime ranges over the
 maps in, the properties are the same up to order, and reading them back gives
 the redacted view the card was built from.
 */
module JCardProjection {
  import opened Common
  import opened Text
  import opened Redaction
  import opened Mapper

  function Pick<T>(s: seq<T>, i: nat): seq<T> {
    if i < |s| then [s[i]] else []
  }

  lemma {:induction false} PickAll<T>(s: seq<T>, order: seq<nat>)
    requires forall i :: 0 <= i < |order| ==> order[i] < |s|
    ensures Flatten(order, i => Pick(s, i)) == seq(|order|, i requires 0 <= i < |order| => s[order[i]])
  {
    if order != [] {
      PickAll(s, order[..|order|-1]);
    }
  }

  lemma Rearranged<T>(s: seq<T>, order: seq<nat>)
    ensures multiset(Arrange(s, order)) == multiset(s)
  {
    if Permutation(order, |s|) {
      var f := (i: nat) => Pick(s, i);
      PickAll(s, order);
      PickAll(s, Upto(|s|));
      assert seq(|s|, i requires 0 <= i < |s| => s[Upto(|s|)[i]]) == s;
      FlattenRearranged(order, Upto(|s|), f);
    }
  }

  /** Map orders change only the order of properties. */
  lemma OrderOnlyPermutes(c: Card, a: MapOrder, b: MapOrder)
    ensures multiset(JCard(c, a)) == multiset(JCard(c, b))
  {
    Rearranged(c.emails, a.emails);
    Rearranged(c.emails, b.emails);
    Rearranged(c.phones, a.phones);
    Rearranged(c.phones, b.phones);
    FlattenRearranged(Arrange(c.emails, a.emails), Arrange(c.emails, b.emails), EmailProperty);
    FlattenRearranged(Arrange(c.phones, a.phones), Arrange(c.phones, b.phones), PhoneProperty);
    JCardBag(c, a);
    JCardBag(c, b);
  }

  function Fixed(c: Card): seq<Property> {
    [Property("version", [], "text", ["4.0"])]
    + TextProperty("fn", c.name) + TextProperty("org", c.organization) + TextProperty("title", c.title)
  }

  function AddressProperties(c: Card): seq<Property> {
    match c.address case None => [] case Some(a) => [AddressProperty(a)]
  }

  lemma JCardBag(c: Card, o: MapOrder)
    ensures multiset(JCard(c, o))
         == multiset(Fixed(c)) + multiset(Flatten(Arrange(c.emails, o.emails), EmailProperty))
          + multiset(Flatten(Arrange(c.phones, o.phones), PhoneProperty)) + multiset(AddressProperties(c))
  {
    assert JCard(c, o) == Fixed(c) + Flatten(Arrange(c.emails, o.emails), EmailProperty)
                        + Flatten(Arrange(c.phones, o.phones), PhoneProperty) + AddressProperties(c);
  }

  /* ------------------------------------------------------------------ */
  /* Reading a jCard back                                                */
  /* ------------------------------------------------------------------ */

  /** What a reader of one property gets: its types, value type and value. */
  datatype Reading = Reading(types: seq<string>, valueType: string, value: seq<string>)

  function ValueIf(p: Property, name: string): seq<Reading> {
    if p.name == name then [Reading(p.types, p.valueType, p.value)] else []
  }

  /** The readings of all properties of one name, in order. */
  function Values(props: seq<Property>, name: string): seq<Reading> {
    Flatten(props, (p: Property) => ValueIf(p, name))
  }

  function Shown(value: string): seq<Reading> {
    if value != "" then [Reading([], "text", [value])] else []
  }

  function Mail(value: string): seq<Reading> {
    if value != "" then [Reading(["work"], "text", [value])] else []
  }

  function TypeIf(kinds: seq<string>, kind: string): seq<string> {
    if kind in kinds || (kind == "voice" && kinds == []) then [kind] else []
  }

  /** The kinds of a number that vCard knows; a number without kinds is voice. */
  function TelTypes(kinds: seq<string>): seq<string> {
    ["work"] + (TypeIf(kinds, "voice") + TypeIf(kinds, "fax") + TypeIf(kinds, "mobile") + TypeIf(kinds, "sms")
                + TypeIf(kinds, "video"))
  }

  function Tel(p: PhoneNumber): seq<Reading> {
    if p.number != "" then [Reading(TelTypes(p.kinds), "uri", ["tel:" + p.number])] else []
  }

  lemma ValuesConcat(a: seq<Property>, b: seq<Property>, name: string)
    ensures Values(a + b, name) == Values(a, name) + Values(b, name)
  {
    FlattenConcat(a, b, (p: Property) => ValueIf(p, name));
  }

  lemma ValuesOne(p: Property, name: string)
    ensures Values([p], name) == ValueIf(p, name)
  {
    var f := (p: Property) => ValueIf(p, name);
    assert [p][..0] == [] && Flatten([p], f) == Flatten([], f) + f(p);
  }

  lemma {:induction false} ValuesOfFlatten<T>(s: seq<T>, f: T -> seq<Property>, g: T -> seq<Reading>, name: string)
    requires forall i :: 0 <= i < |s| ==> Values(f(s[i]), name) == g(s[i])
    ensures Values(Flatten(s, f), name) == Flatten(s, g)
  {
    if s != [] {
      ValuesOfFlatten(s[..|s|-1], f, g, name);
      ValuesConcat(Flatten(s[..|s|-1], f), f(s[|s|-1]), name);
    }
  }

  lemma {:induction false} NoValues<T>(s: seq<T>, f: T -> seq<Property>, name: string)
    requires forall i :: 0 <= i < |s| ==> Values(f(s[i]), name) == []
    ensures Values(Flatten(s, f), name) == []
  {
    if s != [] {
      NoValues(s[..|s|-1], f, name);
      ValuesConcat(Flatten(s[..|s|-1], f), f(s[|s|-1]), name);
    }
  }

  lemma TextValues(m: string, value: string, name: string)
    ensures Values(TextProperty(m, value), name) == if m == name then Shown(value) else []
  {
    if value != "" {
      ValuesOne(Property(m, [], "text", [value]), name);
    }
  }

  lemma FixedValues(c: Card, name: string)
    requires name != "version"
    ensures Values(Fixed(c), name)
         == (if name == "fn" then Shown(c.name) else []) + (if name == "org" then Shown(c.organization) else [])
          + (if name == "title" then Shown(c.title) else [])
  {
    var v := [Property("version", [], "text", ["4.0"])];
    var fn, org := TextProperty("fn", c.name), TextProperty("org", c.organization);
    var title := TextProperty("title", c.title);
    ValuesOne(v[0], name);
    ValuesConcat(v, fn, name);
    ValuesConcat(v + fn, org, name);
    ValuesConcat(v + fn + org, title, name);
    TextValues("fn", c.name, name);
    TextValues("org", c.organization, name);
    TextValues("title", c.title, name);
  }

  lemma EmailValues(emails: seq<string>, name: string)
    ensures Values(Flatten(emails, EmailProperty), name) == if name == "email" then Flatten(emails, Mail) else []
  {
    forall i | 0 <= i < |emails|
      ensures Values(EmailProperty(emails[i]), name) == if name == "email" then Mail(emails[i]) else []
    {
      ValuesOne(Property("email", ["work"], "text", [emails[i]]), name);
    }
    if name == "email" {
      ValuesOfFlatten(emails, EmailProperty, Mail, name);
    } else {
      NoValues(emails, EmailProperty, name);
    }
  }

  function CardTel(p: CardPhone): seq<Reading> {
    if p.number != "" then
      [Reading(["work"] + PhoneTypes(p.features, ["voice", "fax", "mobile", "sms", "video"]), "uri",
               ["tel:" + p.number])]
    else []
  }

  lemma PhoneValues(phones: seq<CardPhone>, name: string)
    ensures Values(Flatten(phones, PhoneProperty), name) == if name == "tel" then Flatten(phones, CardTel) else []
  {
    forall i | 0 <= i < |phones|
      ensures Values(PhoneProperty(phones[i]), name) == if name == "tel" then CardTel(phones[i]) else []
    {
      if phones[i].number != "" {
        ValuesOne(PhoneProperty(phones[i])[0], name);
      }
    }
    if name == "tel" {
      ValuesOfFlatten(phones, PhoneProperty, CardTel, name);
    } else {
      NoValues(phones, PhoneProperty, name);
    }
  }

  lemma AddressValues(c: Card, name: string)
    ensures Values(AddressProperties(c), name)
         == if name == "adr" && c.address.Some? then [Reading(["work"], "text", AddressProperty(c.address.value).value)]
            else []
  {
    if c.address.Some? {
      ValuesOne(AddressProperty(c.address.value), name);
    }
  }

  /** The values of one name in a jCard, part by part. */
  lemma JCardValues(c: Card, o: MapOrder, name: string)
    requires name != "version"
    ensures var es, ps := Arrange(c.emails, o.emails), Arrange(c.phones, o.phones);
            Values(JCard(c, o), name)
              == Values(Fixed(c), name) + (if name == "email" then Flatten(es, Mail) else [])
               + (if name == "tel" then Flatten(ps, CardTel) else []) + Values(AddressProperties(c), name)
  {
    var es, ps := Arrange(c.emails, o.emails), Arrange(c.phones, o.phones);
    var a, b, d := Fixed(c), Flatten(es, EmailProperty), Flatten(ps, PhoneProperty);
    assert JCard(c, o) == a + b + d + AddressProperties(c);
    ValuesConcat(a, b, name);
    ValuesConcat(a + b, d, name);
    ValuesConcat(a + b + d, AddressProperties(c), name);
    EmailValues(es, name);
    PhoneValues(ps, name);
  }

  /* Addresses */

  /** The non-blank lines, trimmed and joined by a space. */
  function StreetText(street: seq<string>): string {
    if street == [] then ""
    else
      var before, line := StreetText(street[..|street|-1]), TrimSpace(street[|street|-1]);
      if line == "" then before else if before == "" then line else before + " " + line
  }

  lemma PlaceOptional(cs: seq<Component>, kind: string, value: string)
    ensures PlaceAll(cs + Optional(kind, value))
         == if value == "" then PlaceAll(cs) else Place(PlaceAll(cs), Component(kind, value))
  {
    if value == "" {
      assert cs + Optional(kind, value) == cs;
    } else {
      assert (cs + [Component(kind, value)])[..|cs|] == cs;
    }
  }

  lemma {:induction false} StreetSlots(street: seq<string>)
    ensures PlaceAll(Flatten(street, StreetLine)) == Slots("", StreetText(street), "", "", "", "")
  {
    if street != [] {
      StreetSlots(street[..|street|-1]);
      PlaceOptional(Flatten(street[..|street|-1], StreetLine), "name", TrimSpace(street[|street|-1]));
    }
  }

  function AdrOf(a: Address): seq<string> {
    ["", "", StreetText(a.street), a.locality, a.region, a.postalCode, a.countryCode]
  }

  /** Where the components of an address go. */
  lemma Places(s: Slots, v: string)
    ensures Place(s, Component("locality", v)) == s.(locality := v)
    ensures Place(s, Component("region", v)) == s.(region := v)
    ensures Place(s, Component("postcode", v)) == s.(postcode := v)
  {}

  /** The record's address survives the way through the card's components. */
  lemma AddressReadsBack(a: Address)
    ensures AddressProperty(CardAddressOf(a)).value == AdrOf(a)
  {
    hide Place, PlaceAll, Optional, Flatten, StreetText;
    var s := Flatten(a.street, StreetLine);
    var l := s + Optional("locality", a.locality);
    var r := l + Optional("region", a.region);
    StreetSlots(a.street);
    PlaceOptional(s, "locality", a.locality);
    PlaceOptional(l, "region", a.region);
    PlaceOptional(r, "postcode", a.postalCode);
    Places(PlaceAll(s), a.locality);
    Places(PlaceAll(l), a.region);
    Places(PlaceAll(r), a.postalCode);
  }

  lemma PhoneTypesSnoc(p: PhoneNumber, known: seq<string>, k: string)
    ensures PhoneTypes(Feature(p).features, known + [k]) == PhoneTypes(Feature(p).features, known) + TypeIf(p.kinds, k)
  {
    assert (known + [k])[..|known|] == known;
    FeatureKinds(p, k);
  }

  lemma FeatureKinds(p: PhoneNumber, k: string)
    ensures k in Feature(p).features <==> k in p.kinds || (k == "voice" && p.kinds == [])
  {
    var fs := set x | x in p.kinds;
    if p.kinds == [] {
      assert fs == {};
    } else {
      assert p.kinds[0] in fs;
    }
  }

  lemma TypesOfCard(p: PhoneNumber)
    ensures ["work"] + PhoneTypes(Feature(p).features, ["voice", "fax", "mobile", "sms", "video"]) == TelTypes(p.kinds)
  {
    var a: seq<string> := [];
    var b := a + ["voice"];
    var c := b + ["fax"];
    var d := c + ["mobile"];
    var e := d + ["sms"];
    PhoneTypesSnoc(p, a, "voice");
    PhoneTypesSnoc(p, b, "fax");
    PhoneTypesSnoc(p, c, "mobile");
    PhoneTypesSnoc(p, d, "sms");
    PhoneTypesSnoc(p, e, "video");
    assert e + ["video"] == ["voice", "fax", "mobile", "sms", "video"];
    assert PhoneTypes(Feature(p).features, a) + TypeIf(p.kinds, "voice") == TypeIf(p.kinds, "voice");
  }

  lemma {:induction false} TelsOfCard(phones: seq<PhoneNumber>, cards: seq<CardPhone>)
    requires |phones| == |cards| && forall i :: 0 <= i < |phones| ==> cards[i] == Feature(phones[i])
    ensures Flatten(cards, CardTel) == Flatten(phones, Tel)
  {
    if phones != [] {
      TelsOfCard(phones[..|phones|-1], cards[..|phones|-1]);
      TypesOfCard(phones[|phones|-1]);
    }
  }

  predicate ContactProperty(name: string) {
    name == "fn" || name == "org" || name == "title" || name == "email" || name == "tel" || name == "adr"
  }

  /** A jCard that says what the view holds and nothing else: the version first,
      then name, organisation and title, the non-empty emails and numbers, each as
      often as it occurs, the kinds of each number, and the address. */
  ghost predicate JCardShows(props: seq<Property>, v: ContactView) {
    VersionFirst(props) && TextsShow(props, v) && ListsShow(props, v)
  }

  predicate VersionFirst(props: seq<Property>) {
    && props != [] && props[0] == Property("version", [], "text", ["4.0"])
    && (forall i :: 1 <= i < |props| ==> ContactProperty(props[i].name))
  }

  ghost predicate TextsShow(props: seq<Property>, v: ContactView) {
    && Values(props, "fn") == Shown(v.fullName)
    && Values(props, "org") == Shown(v.organization)
    && Values(props, "title") == Shown(v.title)
    && Values(props, "adr") == match v.address case None => [] case Some(a) => [Reading(["work"], "text", AdrOf(a))]
  }

  ghost predicate ListsShow(props: seq<Property>, v: ContactView) {
    && multiset(Values(props, "email")) == multiset(Flatten(v.emails, Mail))
    && multiset(Values(props, "tel")) == multiset(Flatten(v.phones, Tel))
  }

  ghost predicate ContactProperties(props: seq<Property>) {
    forall p :: p in props ==> ContactProperty(p.name)
  }

  lemma TextNames(name: string, value: string)
    requires ContactProperty(name)
    ensures ContactProperties(TextProperty(name, value))
  {}

  lemma EmailNames(es: seq<string>)
    ensures ContactProperties(Flatten(es, EmailProperty))
  {
    forall p | p in Flatten(es, EmailProperty) ensures ContactProperty(p.name) {
      FlattenMembers(es, EmailProperty, p);
    }
  }

  lemma PhoneNames(ps: seq<CardPhone>)
    ensures ContactProperties(Flatten(ps, PhoneProperty))
  {
    forall p | p in Flatten(ps, PhoneProperty) ensures ContactProperty(p.name) {
      FlattenMembers(ps, PhoneProperty, p);
    }
  }

  lemma AddressNames(c: Card)
    ensures ContactProperties(AddressProperties(c))
  {}

  lemma ConcatNames(a: seq<Property>, b: seq<Property>)
    requires ContactProperties(a) && ContactProperties(b)
    ensures ContactProperties(a + b)
  {}

  /** The version comes first, then nothing but contact properties. */
  lemma JCardNames(c: Card, o: MapOrder)
    ensures VersionFirst(JCard(c, o))
  {
    var version := Property("version", [], "text", ["4.0"]);
    var fn, org := TextProperty("fn", c.name), TextProperty("org", c.organization);
    var title := TextProperty("title", c.title);
    var mails := Flatten(Arrange(c.emails, o.emails), EmailProperty);
    var tels := Flatten(Arrange(c.phones, o.phones), PhoneProperty);
    var rest := fn + org + title + mails + tels + AddressProperties(c);
    assert JCard(c, o) == [version] + rest;
    TextNames("fn", c.name);
    TextNames("org", c.organization);
    TextNames("title", c.title);
    hide JCard, ContactProperties, TextProperty, Flatten, AddressProperties;
    EmailNames(Arrange(c.emails, o.emails));
    PhoneNames(Arrange(c.phones, o.phones));
    AddressNames(c);
    ConcatNames(fn, org);
    ConcatNames(fn + org, title);
    ConcatNames(fn + org + title, mails);
    ConcatNames(fn + org + title + mails, tels);
    ConcatNames(fn + org + title + mails + tels, AddressProperties(c));
    InRest(JCard(c, o), version, rest);
  }

  lemma InRest(props: seq<Property>, version: Property, rest: seq<Property>)
    requires props == [version] + rest && ContactProperties(rest)
    ensures forall i :: 1 <= i < |props| ==> ContactProperty(props[i].name)
  {
    hide ContactProperty;
    forall i | 1 <= i < |props| ensures ContactProperty(props[i].name) {
      assert props[i] == rest[i-1];
    }
  }

  lemma ViewTexts(c: Contact, v: ContactView, o: MapOrder)
    requires BuildCard(c, v).Some?
    ensures TextsShow(JCard(BuildCard(c, v).value, o), v)
  {
    var card := BuildCard(c, v).value;
    hide JCard, Values, Shown, AdrOf;
    TextReadsBack(card, o);
    if v.address.Some? {
      AddressReadsBack(v.address.value);
    }
  }

  lemma ViewLists(c: Contact, v: ContactView, o: MapOrder)
    requires BuildCard(c, v).Some?
    ensures ListsShow(JCard(BuildCard(c, v).value, o), v)
  {
    var card := BuildCard(c, v).value;
    hide JCard, Values, Flatten;
    ListsReadBack(card, o);
    TelsOfCard(v.phones, card.phones);
  }

  /** Reading the jCard back gives the redacted view it was made from, whatever
      the map order. */
  lemma JCardReadsBackView(c: Contact, v: ContactView, o: MapOrder)
    requires !v.Empty()
    ensures BuildCard(c, v).Some? && JCardShows(JCard(BuildCard(c, v).value, o), v)
  {
    var card := BuildCard(c, v).value;
    hide JCard, BuildCard, VersionFirst, TextsShow, ListsShow;
    JCardNames(card, o);
    ViewTexts(c, v, o);
    ViewLists(c, v, o);
  }

  lemma TextReadsBack(c: Card, o: MapOrder)
    ensures Values(JCard(c, o), "fn") == Shown(c.name)
    ensures Values(JCard(c, o), "org") == Shown(c.organization)
    ensures Values(JCard(c, o), "title") == Shown(c.title)
    ensures Values(JCard(c, o), "adr") ==
              if c.address.Some? then [Reading(["work"], "text", AddressProperty(c.address.value).value)] else []
  {
    TextReads(c, o, "fn");
    TextReads(c, o, "org");
    TextReads(c, o, "title");
    TextReads(c, o, "adr");
  }

  lemma TextReads(c: Card, o: MapOrder, name: string)
    requires name in ["fn", "org", "title", "adr"]
    ensures Values(JCard(c, o), name)
         == (if name == "fn" then Shown(c.name) else if name == "org" then Shown(c.organization)
             else if name == "title" then Shown(c.title)
             else if c.address.Some? then [Reading(["work"], "text", AddressProperty(c.address.value).value)] else [])
  {
    hide JCard, Values, Fixed, AddressProperties;
    JCardValues(c, o, name);
    FixedValues(c, name);
    AddressValues(c, name);
  }

  lemma ListsReadBack(c: Card, o: MapOrder)
    ensures multiset(Values(JCard(c, o), "email")) == multiset(Flatten(c.emails, Mail))
    ensures multiset(Values(JCard(c, o), "tel")) == multiset(Flatten(c.phones, CardTel))
  {
    JCardValues(c, o, "email");
    JCardValues(c, o, "tel");
    FixedValues(c, "email");
    FixedValues(c, "tel");
    AddressValues(c, "email");
    AddressValues(c, "tel");
    Rearranged(c.emails, o.emails);
    Rearranged(c.phones, o.phones);
    FlattenRearranged(Arrange(c.emails, o.emails), c.emails, Mail);
    FlattenRearranged(Arrange(c.phones, o.phones), c.phones, CardTel);
  }
}
