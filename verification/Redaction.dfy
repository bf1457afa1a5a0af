/**
 Contact records, access tiers, the redaction policy and its RFC 9537 markers.
 */
module Redaction {
  import opened Common

  datatype PhoneNumber = PhoneNumber(number: string, kinds: seq<string>)

  datatype Address = Address(street: seq<string>, locality: string, region: string, postalCode: string,
                             countryCode: string)

  /** The raw record.  Times are clock readings, 0 where unset. */
  datatype Contact = Contact(
    handle: string, roles: seq<string>, kind: string, fullName: string, organization: string, title: string,
    emails: seq<string>, phones: seq<PhoneNumber>, address: Option<Address>,
    createdAt: int, updatedAt: int, extras: map<string, string>)

  /** Levels are integers: any value but the two named ones is anonymous. */
  type AccessLevel = int

  const AUTHENTICATED: AccessLevel := 1
  const PRIVILEGED: AccessLevel := 2

  datatype Tier = Anonymous | Authenticated | Privileged

  /** AccessLevel.String, the tier part of the response-cache key. */
  function TierOf(a: AccessLevel): Tier {
    if a == AUTHENTICATED then Authenticated
    else if a == PRIVILEGED then Privileged
    else Anonymous
  }

  datatype Kind = Name | Title | Email | Phone | PostalAddress

  datatype ContactView = ContactView(
    fullName: string, organization: string, title: string, emails: seq<string>, phones: seq<PhoneNumber>,
    address: Option<Address>, marks: seq<Kind>)
  {
    predicate Empty() {
      fullName == "" && organization == "" && title == "" && emails == [] && phones == [] && address.None?
    }
  }

  predicate IsOrg(c: Contact) {
    c.kind == "org" || c.kind == "organization"
  }

  function CountryOnly(a: Option<Address>): Option<Address> {
    match a
    case None => None
    case Some(x) => Some(Address([], "", "", "", x.countryCode))
  }

  function MarkIf(b: bool, k: Kind): seq<Kind> {
    if b then [k] else []
  }

  function RedactContact(c: Contact, lvl: AccessLevel): ContactView {
    if lvl == PRIVILEGED then
      ContactView(c.fullName, c.organization, c.title, c.emails, c.phones, c.address, [])
    else if lvl == AUTHENTICATED then
      if IsOrg(c) then ContactView(c.fullName, c.organization, "", c.emails, c.phones, c.address, [])
      else ContactView("", c.organization, "", c.emails, c.phones, CountryOnly(c.address),
                       MarkIf(c.fullName != "", Name) + MarkIf(c.title != "", Title)
                       + MarkIf(c.address.Some?, PostalAddress))
    else
      if IsOrg(c) then ContactView("", c.organization, "", [], [], c.address, [])
      else ContactView("", c.organization, "", [], [], CountryOnly(c.address),
                       MarkIf(c.fullName != "", Name) + MarkIf(c.title != "", Title)
                       + MarkIf(c.emails != [], Email) + MarkIf(c.phones != [], Phone)
                       + MarkIf(c.address.Some?, PostalAddress))
  }

  /** The view depends on the level only through its tier, and levels share a
      tier exactly when they are equal or neither is 1 or 2. */
  lemma TierDecidesView(c: Contact, a: AccessLevel, b: AccessLevel)
    ensures TierOf(a) == TierOf(b) <==> a == b || (a != 1 && a != 2 && b != 1 && b != 2)
    ensures TierOf(a) == TierOf(b) ==> RedactContact(c, a) == RedactContact(c, b)
  {}

  /* ------------------------------------------------------------------ */
  /* Tiers show more and more                                            */
  /* ------------------------------------------------------------------ */

  predicate TextLe(a: string, b: string) { a == "" || a == b }

  predicate ListLe<T(==)>(a: seq<T>, b: seq<T>) { a == [] || a == b }

  /** Each part of the one is absent or equal to that of the other. */
  predicate AddressLe(a: Option<Address>, b: Option<Address>) {
    a.None? ||
    (&& b.Some?
     && ListLe(a.value.street, b.value.street) && TextLe(a.value.locality, b.value.locality)
     && TextLe(a.value.region, b.value.region) && TextLe(a.value.postalCode, b.value.postalCode)
     && TextLe(a.value.countryCode, b.value.countryCode))
  }

  predicate ViewLe(v: ContactView, w: ContactView) {
    && TextLe(v.fullName, w.fullName) && TextLe(v.organization, w.organization) && TextLe(v.title, w.title)
    && ListLe(v.emails, w.emails) && ListLe(v.phones, w.phones) && AddressLe(v.address, w.address)
  }

  /** Field by field, a lower tier never shows what a higher one does not; all
      see the organisation, and the privileged view loses nothing of the record.
      Level 1 is authenticated, 2 privileged, every other one anonymous. */
  lemma TiersAreOrdered(c: Contact, a: AccessLevel, b: AccessLevel)
    requires (a != 1 && a != 2) || b == 2 || a == b
    ensures ViewLe(RedactContact(c, a), RedactContact(c, b))
    ensures RedactContact(c, a).organization == c.organization
    ensures b == 2 ==> forall k: Kind :: !Loses(c, k, b)
  {}

  /* ------------------------------------------------------------------ */
  /* Markers                                                             */
  /* ------------------------------------------------------------------ */

  predicate Holds(c: Contact, k: Kind) {
    match k
    case Name => c.fullName != ""
    case Title => c.title != ""
    case Email => c.emails != []
    case Phone => c.phones != []
    case PostalAddress => c.address.Some?
  }

  /** The view lacks the field or shows a shortened one. */
  predicate Loses(c: Contact, k: Kind, lvl: AccessLevel) {
    var v := RedactContact(c, lvl);
    match k
    case Name => v.fullName != c.fullName
    case Title => v.title != c.title
    case Email => v.emails != c.emails
    case Phone => v.phones != c.phones
    case PostalAddress => v.address != c.address
  }

  /** An address that is nothing but a country: redaction leaves it as it is but
      marks it all the same. */
  predicate BareCountry(c: Contact) {
    && c.address.Some? && c.address.value.street == [] && c.address.value.locality == ""
    && c.address.value.region == "" && c.address.value.postalCode == ""
  }

  /** Not recorded as an organisation. */
  predicate NaturalPerson(c: Contact) { c.kind != "org" && c.kind != "organization" }

  /** A natural person's marks name exactly the fields the view loses, and the
      bare-country address below the privileged tier. */
  lemma MarksAreLosses(c: Contact, k: Kind, lvl: AccessLevel)
    requires NaturalPerson(c)
    ensures k in RedactContact(c, lvl).marks <==>
              Loses(c, k, lvl) || (k.PostalAddress? && BareCountry(c) && lvl != 2)
    ensures k in RedactContact(c, lvl).marks ==> Holds(c, k)
  {
    MarkMembers(c, lvl, k);
  }

  lemma MarkMembers(c: Contact, lvl: AccessLevel, k: Kind)
    ensures k in RedactContact(c, lvl).marks <==>
              && !IsOrg(c) && Holds(c, k) && !TierOf(lvl).Privileged?
              && (TierOf(lvl).Authenticated? ==> !k.Email? && !k.Phone?)
  {
    assert forall b: bool, x: Kind :: k in MarkIf(b, x) <==> b && k == x;
  }

  datatype Marker = Marker(description: string, prePath: string, reason: string)

  function Description(k: Kind): string {
    match k
    case Name => "Contact full name"
    case Title => "Contact title"
    case Email => "Contact email address"
    case Phone => "Contact phone number"
    case PostalAddress => "Contact postal address"
  }

  function Path(k: Kind): string {
    match k
    case Name => "$.entities[*].jscard.name.full"
    case Title => "$.entities[*].jscard.titles"
    case Email => "$.entities[*].jscard.emails"
    case Phone => "$.entities[*].jscard.phones"
    case PostalAddress => "$.entities[*].jscard.addresses"
  }

  function MarkerFor(k: Kind, reason: string): Marker {
    Marker(Description(k), Path(k), reason)
  }

  /** The marks without repetitions, in order of first occurrence. */
  function Dedup(marks: seq<Kind>): (r: seq<Kind>)
    ensures forall k :: k in r <==> k in marks
    ensures forall i, j :: 0 <= i < j < |r| ==> r[i] != r[j]
  {
    if marks == [] then []
    else
      var init := Dedup(marks[..|marks|-1]);
      var k := marks[|marks|-1];
      assert marks == marks[..|marks|-1] + [k];
      if k in init then init else init + [k]
  }

  function Markers(kinds: seq<Kind>, reason: string): (ms: seq<Marker>)
    ensures |ms| == |kinds| && forall i :: 0 <= i < |kinds| ==> ms[i] == MarkerFor(kinds[i], reason)
  {
    seq(|kinds|, i requires 0 <= i < |kinds| => MarkerFor(kinds[i], reason))
  }

  lemma MarkersSnoc(kinds: seq<Kind>, k: Kind, reason: string)
    ensures Markers(kinds + [k], reason) == Markers(kinds, reason) + [MarkerFor(k, reason)]
  {}

  lemma DedupSnoc(marks: seq<Kind>, k: Kind)
    ensures Dedup(marks + [k]) == if k in marks then Dedup(marks) else Dedup(marks) + [k]
  {
    assert (marks + [k])[..|marks|] == marks;
  }

  method BuildRedacted(marks: seq<Kind>, reason: string) returns (out: seq<Marker>)
    ensures out == Markers(Dedup(marks), reason)
  {
    out := [];
    var seen: set<Kind> := {};
    for i := 0 to |marks|
      invariant forall k :: k in seen <==> k in marks[..i]
      invariant out == Markers(Dedup(marks[..i]), reason)
    {
      var k := marks[i];
      assert marks[..i+1] == marks[..i] + [k];
      DedupSnoc(marks[..i], k);
      if k !in seen {
        MarkersSnoc(Dedup(marks[..i]), k, reason);
        seen := seen + {k};
        out := out + [MarkerFor(k, reason)];
      }
    }
    assert marks[..|marks|] == marks;
  }

  /** What the markers of a domain say: the member of the contacts' cards that
      the kind stands for, and the configured reason. */
  lemma MarkerTable(reason: string)
    ensures MarkerFor(Name, reason) == Marker("Contact full name", "$.entities[*].jscard.name.full", reason)
    ensures MarkerFor(Title, reason) == Marker("Contact title", "$.entities[*].jscard.titles", reason)
    ensures MarkerFor(Email, reason) == Marker("Contact email address", "$.entities[*].jscard.emails", reason)
    ensures MarkerFor(Phone, reason) == Marker("Contact phone number", "$.entities[*].jscard.phones", reason)
    ensures MarkerFor(PostalAddress, reason)
         == Marker("Contact postal address", "$.entities[*].jscard.addresses", reason)
  {}

  /** Different kinds have different markers. */
  lemma MarkersDiffer(j: Kind, k: Kind, reason: string)
    requires MarkerFor(j, reason) == MarkerFor(k, reason)
    ensures j == k
  {
    assert Description(j)[8] == Description(k)[8];
    assert |Description(j)| == |Description(k)|;
  }

  /** All marks of a list of contacts, as the domain mapper gathers them. */
  function AllMarks(cs: seq<Contact>, lvl: AccessLevel): seq<Kind> {
    Flatten(cs, (c: Contact) => RedactContact(c, lvl).marks)
  }

  /** RFC 9537 signalling for a domain's contacts.  A kind has a marker exactly
      when some natural person among them loses that field (or has a bare-country
      address and the caller is not privileged), and then it has one. */
  lemma SignalledIffLost(cs: seq<Contact>, lvl: AccessLevel, reason: string, k: Kind)
    ensures var ms := Markers(Dedup(AllMarks(cs, lvl)), reason);
            && (MarkerFor(k, reason) in ms <==>
                  exists i :: 0 <= i < |cs| && NaturalPerson(cs[i])
                    && (Loses(cs[i], k, lvl) || (k.PostalAddress? && BareCountry(cs[i]) && lvl != 2)))
            && (forall i, j :: 0 <= i < j < |ms| ==> ms[i] != ms[j])
            && (forall i :: 0 <= i < |ms| ==> exists x: Kind :: ms[i] == MarkerFor(x, reason))
            && (MarkerFor(k, reason) in ms ==> exists i :: 0 <= i < |cs| && NaturalPerson(cs[i]) && Holds(cs[i], k))
  {
    var kinds := Dedup(AllMarks(cs, lvl));
    var ms := Markers(kinds, reason);
    FlattenMembers(cs, (c: Contact) => RedactContact(c, lvl).marks, k);
    MarkerIn(kinds, reason, k);
    forall i | 0 <= i < |cs| ensures k in RedactContact(cs[i], lvl).marks ==> NaturalPerson(cs[i]) && Holds(cs[i], k) {
      MarkMembers(cs[i], lvl, k);
    }
    forall i | 0 <= i < |cs| && NaturalPerson(cs[i])
      ensures k in RedactContact(cs[i], lvl).marks <==>
                Loses(cs[i], k, lvl) || (k.PostalAddress? && BareCountry(cs[i]) && lvl != 2)
    {
      MarksAreLosses(cs[i], k, lvl);
    }
    forall i, j | 0 <= i < j < |ms| ensures ms[i] != ms[j] {
      if ms[i] == ms[j] {
        MarkersDiffer(kinds[i], kinds[j], reason);
      }
    }
  }

  lemma MarkerIn(kinds: seq<Kind>, reason: string, k: Kind)
    ensures MarkerFor(k, reason) in Markers(kinds, reason) <==> k in kinds
  {
    var ms := Markers(kinds, reason);
    if MarkerFor(k, reason) in ms {
      var i :| 0 <= i < |ms| && ms[i] == MarkerFor(k, reason);
      MarkersDiffer(kinds[i], k, reason);
    }
    if k in kinds {
      var i :| 0 <= i < |kinds| && kinds[i] == k;
      assert ms[i] == MarkerFor(k, reason);
    }
  }

  /* ------------------------------------------------------------------ */
  /* What a caller of a tier can tell apart                              */
  /* ------------------------------------------------------------------ */

  /** The parts of a contact that are shown whatever the tier. */
  predicate SameEnvelope(c: Contact, d: Contact) {
    && c.handle == d.handle && c.roles == d.roles && c.kind == d.kind
    && c.createdAt == d.createdAt && c.updatedAt == d.updatedAt
  }

  /** Both have an address, in the same country, or neither has one. */
  predicate SameCountry(c: Contact, d: Contact) {
    && c.address.Some? == d.address.Some?
    && (c.address.Some? ==> c.address.value.countryCode == d.address.value.countryCode)
  }

  /** What the two contacts must share for a caller of tier t not to tell them
      apart, field by field.  `extras` is never shown. */
  predicate SameFor(t: Tier, c: Contact, d: Contact) {
    && SameEnvelope(c, d) && c.organization == d.organization
    && match t
       case Anonymous =>
         if NaturalPerson(c) then SameCountry(c, d) && forall k: Kind :: Holds(c, k) <==> Holds(d, k)
         else c.address == d.address
       case Authenticated =>
         && c.emails == d.emails && c.phones == d.phones
         && (if NaturalPerson(c) then
               SameCountry(c, d) && (Holds(c, Name) <==> Holds(d, Name)) && (Holds(c, Title) <==> Holds(d, Title))
             else c.fullName == d.fullName && c.address == d.address)
       case Privileged =>
         && c.fullName == d.fullName && c.title == d.title && c.emails == d.emails && c.phones == d.phones
         && c.address == d.address
  }

  /** That is exactly what the view of the tier reveals. */
  lemma ViewReveals(c: Contact, d: Contact, lvl: AccessLevel)
    requires SameEnvelope(c, d)
    ensures RedactContact(c, lvl) == RedactContact(d, lvl) <==> SameFor(TierOf(lvl), c, d)
  {
    if SameFor(TierOf(lvl), c, d) {
      assert TierOf(lvl).Anonymous? && !IsOrg(c) ==>
          && (Holds(c, Name) <==> Holds(d, Name)) && (Holds(c, Title) <==> Holds(d, Title))
          && (Holds(c, Email) <==> Holds(d, Email)) && (Holds(c, Phone) <==> Holds(d, Phone));
    }
    if RedactContact(c, lvl) == RedactContact(d, lvl) {
      forall k: Kind
        ensures k in RedactContact(c, lvl).marks && k in RedactContact(d, lvl).marks ==> Holds(c, k) && Holds(d, k)
        ensures !IsOrg(c) && TierOf(lvl).Anonymous? ==> (Holds(c, k) <==> Holds(d, k))
        ensures !IsOrg(c) && TierOf(lvl).Authenticated? && (k.Name? || k.Title?) ==> (Holds(c, k) <==> Holds(d, k))
      {
        MarkMembers(c, lvl, k);
        MarkMembers(d, lvl, k);
      }
    }
  }
}
