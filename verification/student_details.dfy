/** The student record as the student list returns it, and the details
    dialog's read-only view of it. The record's type file is not part of
    this model; the fields below are the ones the dialog reads, except the
    two dates, which it formats through the locale. */
module StudentDetails {
  import opened Wrappers
  import opened JsText

  datatype Contact = Contact(
    phone: Option<string>,
    address: Option<string>,
    district: Option<string>,
    province: Option<string>)

  datatype Guardian = Guardian(
    name: Option<string>,
    phoneNumber: Option<string>,
    occupation: Option<string>,
    address: Option<string>)

  datatype Parent = Parent(name: Option<string>, mobile: Option<string>)

  /** `id` is the response's `_id`; `studentClass` its `class`. */
  datatype StudentResponse = StudentResponse(
    id: string,
    name: string,
    isActive: Option<bool>,
    admissionNumber: Option<nat>,
    studentClass: Option<string>,
    dorm: Option<string>,
    bloodGroup: Option<string>,
    numberOfSiblings: Option<nat>,
    contact: Option<Contact>,
    guardian: Option<Guardian>,
    father: Option<Parent>,
    mother: Option<Parent>)

  /** A possibly missing string in a JavaScript condition: missing and "" are falsy. */
  predicate Truthy(o: Option<string>) {
    o.Some? && o.value != ""
  }

  /** `o || fallback` */
  function OrElse(o: Option<string>, fallback: string): (r: string)
    ensures Truthy(o) ==> r == o.value
    ensures !Truthy(o) ==> r == fallback
  {
    if Truthy(o) then o.value else fallback
  }

  /** `getInitials`: the first UTF-16 unit of every piece of
      `name.split(" ")`, upper-cased; an empty piece (two spaces in a row, a
      leading or a trailing space) gives `undefined`, which `join` drops. */
  function Initials(name: string): (r: string) {
    ToUpper(FirstLetters(Split(name)))
  }

  /** The initials are the upper-cased characters that start the name or
      follow a space, in order. */
  lemma InitialsAreWordStarts(name: string)
    ensures Initials(name) == ToUpper(WordStarts(name, true))
    ensures name != "" && name[0] != ' ' ==> Initials(name) != "" && Initials(name)[0] == AsciiUpper(name[0])
  {
    FirstLettersOfSplit(name);
  }

  /** `[a, b].filter(Boolean)`: the truthy parts, in order. */
  function Compact(parts: seq<Option<string>>): (r: seq<string>)
    ensures |r| <= |parts|
    ensures forall i :: 0 <= i < |r| ==> r[i] != ""
  {
    if parts == [] then []
    else if Truthy(parts[0]) then [parts[0].value] + Compact(parts[1..])
    else Compact(parts[1..])
  }

  /** `.join(sep)` */
  function Join(parts: seq<string>, sep: string): (r: string)
    ensures |parts| == 1 ==> r == parts[0]
    ensures parts == [] ==> r == ""
  {
    if parts == [] then ""
    else if |parts| == 1 then parts[0]
    else parts[0] + sep + Join(parts[1..], sep)
  }

  /** The address card's second line, shown when district or province is
      truthy: the truthy ones joined by ", ". */
  function RegionLine(c: Contact): (r: Option<string>)
    ensures r.Some? <==> Truthy(c.district) || Truthy(c.province)
  {
    if Truthy(c.district) || Truthy(c.province) then
      Some(Join(Compact([c.district, c.province]), ", "))
    else None
  }

  /** The region line in each of its three shapes: never a stray comma. */
  lemma RegionLineCases(c: Contact)
    ensures Truthy(c.district) && Truthy(c.province) ==> RegionLine(c) == Some(c.district.value + ", " + c.province.value)
    ensures Truthy(c.district) && !Truthy(c.province) ==> RegionLine(c) == Some(c.district.value)
    ensures !Truthy(c.district) && Truthy(c.province) ==> RegionLine(c) == Some(c.province.value)
  {
    var parts := [c.district, c.province];
    assert parts[1..] == [c.province];
    assert parts[1..][1..] == [];
    assert Compact(parts[1..]) == (if Truthy(c.province) then [c.province.value] else []);
    var cs := Compact(parts);
    assert cs == (if Truthy(c.district) then [c.district.value] else []) + Compact(parts[1..]);
    if Truthy(c.district) && Truthy(c.province) {
      assert cs[1..] == [c.province.value];
    }
  }

  datatype AddressCard = AddressCard(address: string, region: Option<string>)

  /** A parent's card with the rows it shows: each row appears only when its value is truthy. */
  datatype ParentCard = ParentCard(name: Option<string>, mobile: Option<string>)

  datatype GuardianCard = GuardianCard(
    name: string,
    phoneNumber: Option<string>,
    occupation: Option<string>,
    address: Option<string>)

  /** What the dialog shows. */
  datatype DetailsView = DetailsView(
    initials: string,
    heading: string,
    badge: string,
    admissionText: string,
    classText: string,
    dormText: string,
    phoneText: string,
    siblings: nat,
    bloodGroup: Option<string>,
    address: Option<AddressCard>,
    guardian: Option<GuardianCard>,
    father: Option<ParentCard>,
    mother: Option<ParentCard>)

  /** Keeps a value only when it is truthy. */
  function IfTruthy(o: Option<string>): (r: Option<string>)
    ensures r.Some? <==> Truthy(o)
    ensures r.Some? ==> r.value == o.value
  {
    if Truthy(o) then o else None
  }

  /** A parent's card is shown when the parent has a name or a mobile. */
  function ParentCardOf(p: Option<Parent>): (r: Option<ParentCard>)
    ensures r.Some? <==> p.Some? && (Truthy(p.value.name) || Truthy(p.value.mobile))
  {
    match p
    case None => None
    case Some(q) =>
      if Truthy(q.name) || Truthy(q.mobile) then Some(ParentCard(IfTruthy(q.name), IfTruthy(q.mobile))) else None
  }

  /** The dialog renders nothing unless it is open and has a student. */
  function Render(isOpen: bool, student: Option<StudentResponse>): (r: Option<DetailsView>)
    ensures r.Some? <==> isOpen && student.Some?
  {
    if !isOpen || student.None? then None
    else
      var s := student.value;
      var contact := s.contact.GetOr(Contact(None, None, None, None));
      var address :=
        if Truthy(contact.address) then Some(AddressCard(contact.address.value, RegionLine(contact))) else None;
      var guardian :=
        match s.guardian
        case Some(g) =>
          if Truthy(g.name) then Some(GuardianCard(g.name.value, IfTruthy(g.phoneNumber), IfTruthy(g.occupation), IfTruthy(g.address)))
          else None
        case None => None;
      Some(DetailsView(
        Initials(s.name),
        s.name,
        if s.isActive == Some(true) then "Active" else "Inactive",
        if s.admissionNumber.Some? then NatToString(s.admissionNumber.value) else "undefined",
        OrElse(s.studentClass, "-"),
        OrElse(s.dorm, "-"),
        OrElse(contact.phone, "Not provided"),
        s.numberOfSiblings.GetOr(0),
        IfTruthy(s.bloodGroup),
        address,
        guardian,
        ParentCardOf(s.father),
        ParentCardOf(s.mother)))
  }

  /** The dialog's header and info cards show the record's own values:
      a truthy string as it is, otherwise the placeholder; a missing
      sibling count as 0; the admission number in decimal, and a missing
      one as `String(undefined)`. */
  lemma RenderShowsRecord(s: StudentResponse)
    ensures var v := Render(true, Some(s)).value;
      var c := s.contact.GetOr(Contact(None, None, None, None));
      && v.initials == Initials(s.name)
      && v.heading == s.name
      && (v.badge == "Active" <==> s.isActive == Some(true))
      && (v.badge != "Active" ==> v.badge == "Inactive")
      && (Truthy(s.studentClass) ==> v.classText == s.studentClass.value)
      && (!Truthy(s.studentClass) ==> v.classText == "-")
      && (Truthy(s.dorm) ==> v.dormText == s.dorm.value)
      && (!Truthy(s.dorm) ==> v.dormText == "-")
      && (Truthy(c.phone) ==> v.phoneText == c.phone.value)
      && (!Truthy(c.phone) ==> v.phoneText == "Not provided")
      && (s.numberOfSiblings.Some? ==> v.siblings == s.numberOfSiblings.value)
      && (s.numberOfSiblings.None? ==> v.siblings == 0)
      && (v.bloodGroup.Some? <==> Truthy(s.bloodGroup))
      && (v.bloodGroup.Some? ==> v.bloodGroup.value == s.bloodGroup.value)
      && (s.admissionNumber.Some? ==> DigitsValue(v.admissionText) == s.admissionNumber.value && AllDigits(v.admissionText))
      && (s.admissionNumber.None? ==> v.admissionText == "undefined")
  {
  }

  /** Each optional card appears exactly when the record has what the card
      is about, and shows that part of the record. */
  lemma RenderShowsCards(s: StudentResponse)
    ensures var v := Render(true, Some(s)).value;
      var c := s.contact.GetOr(Contact(None, None, None, None));
      && (v.address.Some? <==> Truthy(c.address))
      && (v.address.Some? ==> v.address.value.address == c.address.value && v.address.value.region == RegionLine(c))
      && (v.guardian.Some? <==> s.guardian.Some? && Truthy(s.guardian.value.name))
      && (v.guardian.Some? ==>
            var g := s.guardian.value;
            && v.guardian.value.name == g.name.value
            && v.guardian.value.phoneNumber == IfTruthy(g.phoneNumber)
            && v.guardian.value.occupation == IfTruthy(g.occupation)
            && v.guardian.value.address == IfTruthy(g.address))
      && (v.father.Some? <==> s.father.Some? && (Truthy(s.father.value.name) || Truthy(s.father.value.mobile)))
      && (v.father.Some? ==> v.father.value == ParentCard(IfTruthy(s.father.value.name), IfTruthy(s.father.value.mobile)))
      && (v.mother.Some? <==> s.mother.Some? && (Truthy(s.mother.value.name) || Truthy(s.mother.value.mobile)))
      && (v.mother.Some? ==> v.mother.value == ParentCard(IfTruthy(s.mother.value.name), IfTruthy(s.mother.value.mobile)))
  {
  }

  /** The dialog's badge and the user table's badge read a missing flag
      differently: a student without `isActive` shows "Inactive", a user
      without it shows "Active". */
  lemma MissingFlagReadsInactive(s: StudentResponse)
    requires s.isActive.None?
    ensures Render(true, Some(s)).value.badge == "Inactive"
  {
  }
}
