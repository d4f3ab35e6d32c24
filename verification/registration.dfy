/** The registration form shared by the DJ-night page (src/pages/Register.jsx)
    and the sports-academy page (src/pages/SportsAcademyRegister.jsx): the form
    record, the ordered validator, the type switch and the member-list edits. */
module Registration {
  import opened Wrappers
  import opened Text
  import opened Validators

  datatype RegType = Individual | Couple | Family

  datatype Member = Member(firstName: string, lastName: string, gender: string)

  /** The form state. `promocode` is only ever written by the academy page. */
  datatype Form = Form(
    regType: RegType,
    firstName: string,
    lastName: string,
    mobile: string,
    email: string,
    gender: string,
    paymentMode: string,
    promocode: string,
    additionalMembers: seq<Member>)

  /** Which of the two pages' rules apply. */
  datatype Page = DjNight | Academy

  datatype MemberField = FirstName | LastName | Gender

  const BlankMember := Member("", "", "Male")

  /** The DJ-night page starts as a Couple with one blank partner. */
  const DjNightInitial := Form(Couple, "", "", "", "", "Male", "Cash", "", [BlankMember])

  /** The academy page starts (and is reset to) an Individual with no members. */
  const AcademyInitial := Form(Individual, "", "", "", "", "Male", "Online", "", [])

  /** The validator's failures, in the order it checks them. */
  datatype FormError =
    | FirstNameRequired
    | LastNameRequired
    | MobileRequired
    | MobileInvalid
    | EmailRequired
    | EmailInvalid
    | CoupleNeedsTwo
    | FamilyNeedsMember
    | MemberIncomplete(index: nat)

  /** The message shown for each failure; the member message names the 1-based index. */
  function Message(e: FormError): string {
    match e
    case FirstNameRequired => "First name is required"
    case LastNameRequired => "Last name is required"
    case MobileRequired => "Mobile number is required"
    case MobileInvalid => "Invalid mobile number (10 digits required)"
    case EmailRequired => "Email is required"
    case EmailInvalid => "Invalid email address"
    case CoupleNeedsTwo => "Couple registration requires 2 members total"
    case FamilyNeedsMember => "Please add at least one additional family member"
    case MemberIncomplete(i) => "Please fill all details for member " + Decimal(i + 1)
  }

  /** The position of each check in the validator's fixed order. */
  function Rank(e: FormError): nat {
    match e
    case FirstNameRequired => 0
    case LastNameRequired => 1
    case MobileRequired => 2
    case MobileInvalid => 3
    case EmailRequired => 4
    case EmailInvalid => 5
    case CoupleNeedsTwo => 6
    case FamilyNeedsMember => 7
    case MemberIncomplete(i) => 8 + i
  }

  predicate Incomplete(m: Member) {
    IsBlank(m.firstName) || IsBlank(m.lastName)
  }

  /** When each rule, taken on its own, is violated by the form. */
  predicate Violates(p: Page, f: Form, e: FormError) {
    match e
    case FirstNameRequired => IsBlank(f.firstName)
    case LastNameRequired => IsBlank(f.lastName)
    case MobileRequired => IsBlank(f.mobile)
    case MobileInvalid => !IsMobile(f.mobile)
    case EmailRequired => IsBlank(f.email)
    case EmailInvalid => !IsEmail(f.email)
    case CoupleNeedsTwo => f.regType == Couple && |f.additionalMembers| != 1
    case FamilyNeedsMember => p == DjNight && f.regType == Family && |f.additionalMembers| == 0
    case MemberIncomplete(i) => i < |f.additionalMembers| && Incomplete(f.additionalMembers[i])
  }

  /** The first member at or after `from` whose trimmed first or last name is empty. */
  function FirstIncomplete(ms: seq<Member>, from: nat): (r: Option<nat>)
    requires from <= |ms|
    ensures r.Some? ==> from <= r.value < |ms| && Incomplete(ms[r.value])
    ensures r.Some? ==> forall j :: from <= j < r.value ==> !Incomplete(ms[j])
    ensures r.None? ==> forall j :: from <= j < |ms| ==> !Incomplete(ms[j])
    decreases |ms| - from
  {
    if from == |ms| then None
    else if IsBlank(ms[from].firstName) || IsBlank(ms[from].lastName) then Some(from)
    else FirstIncomplete(ms, from + 1)
  }

  /** `validateForm`: the first failing rule, or `None` (the source's `null`)
      when every rule holds. The academy page has no Family rule. */
  function ValidateForm(p: Page, f: Form): (r: Option<FormError>)
    ensures r.Some? ==> Violates(p, f, r.value)
  {
    var ms := f.additionalMembers;
    if IsBlank(f.firstName) then Some(FirstNameRequired)
    else if IsBlank(f.lastName) then Some(LastNameRequired)
    else if IsBlank(f.mobile) then Some(MobileRequired)
    else if !IsMobile(f.mobile) then Some(MobileInvalid)
    else if IsBlank(f.email) then Some(EmailRequired)
    else if !IsEmail(f.email) then Some(EmailInvalid)
    else if f.regType == Couple && |ms| != 1 then Some(CoupleNeedsTwo)
    else if p == DjNight && f.regType == Family && |ms| == 0 then Some(FamilyNeedsMember)
    else match FirstIncomplete(ms, 0)
      case Some(i) => Some(MemberIncomplete(i))
      case None => None
  }

  /** `validateForm` returns `null` exactly when no rule is violated, and
      otherwise the violated rule that comes first in the fixed order. */
  lemma ValidateFormFirstFailure(p: Page, f: Form)
    ensures ValidateForm(p, f).None? <==> forall e :: !Violates(p, f, e)
    ensures ValidateForm(p, f).Some? ==>
      forall e :: Rank(e) < Rank(ValidateForm(p, f).value) ==> !Violates(p, f, e)
  {
    var r := ValidateForm(p, f);
    forall e | r.None? || Rank(e) < Rank(r.value)
      ensures !Violates(p, f, e)
    {
      RuleBeforeResult(p, f, e);
    }
  }

  /** Every rule ranked before the reported one (or every rule, when none is reported) holds. */
  lemma RuleBeforeResult(p: Page, f: Form, e: FormError)
    requires ValidateForm(p, f).None? || Rank(e) < Rank(ValidateForm(p, f).value)
    ensures !Violates(p, f, e)
  {
    var ms := f.additionalMembers;
    var first := FirstIncomplete(ms, 0);
    match e
    case MemberIncomplete(i) =>
      if i < |ms| {
        assert first.None? || i < first.value;
      }
    case _ =>
  }

  /** The members on the DJ-night page are switched from one type to another by
      `handleTypeChange`: Couple always gets exactly one blank partner, any
      other type keeps the list. The academy page empties the list for
      Individual, gives Couple one blank partner and keeps it otherwise. */
  function MembersAfterTypeChange(p: Page, t: RegType, ms: seq<Member>): seq<Member> {
    if t == Couple then [BlankMember]
    else if p == Academy && t == Individual then []
    else ms
  }

  /** Only the type and the member list change; the registrant's own fields stay. */
  predicate SamePrimary(f: Form, g: Form) {
    && f.firstName == g.firstName && f.lastName == g.lastName
    && f.mobile == g.mobile && f.email == g.email && f.gender == g.gender
    && f.paymentMode == g.paymentMode && f.promocode == g.promocode
  }

  /** `handleTypeChange(type)` on either page. */
  function ChangeType(p: Page, f: Form, t: RegType): (r: Form)
    ensures r.regType == t && SamePrimary(f, r)
    ensures t == Couple ==> r.additionalMembers == [BlankMember]
    ensures p == DjNight && t != Couple ==> r.additionalMembers == f.additionalMembers
    ensures p == Academy && t == Individual ==> r.additionalMembers == []
    ensures p == Academy && t == Family ==> r.additionalMembers == f.additionalMembers
  {
    f.(regType := t, additionalMembers := MembersAfterTypeChange(p, t, f.additionalMembers))
  }

  /** After switching to Couple the member-count rule can no longer fail, and the
      only member complaint left is about the blank partner at index 0. */
  lemma CoupleSwitchSatisfiesCount(p: Page, f: Form)
    ensures !Violates(p, ChangeType(p, f, Couple), CoupleNeedsTwo)
    ensures !Violates(p, ChangeType(p, f, Couple), FamilyNeedsMember)
    ensures ValidateForm(p, ChangeType(p, f, Couple)) != Some(CoupleNeedsTwo)
  {
  }

  /** On the academy page an Individual form can fail only on the registrant's own fields. */
  lemma AcademyIndividualHasNoMemberErrors(f: Form)
    ensures forall i: nat :: !Violates(Academy, ChangeType(Academy, f, Individual), MemberIncomplete(i))
    ensures ValidateForm(Academy, ChangeType(Academy, f, Individual)).Some? ==>
      Rank(ValidateForm(Academy, ChangeType(Academy, f, Individual)).value) < 6
  {
  }

  /** The sequence with the element at `index` left out, as
      `filter((_, i) => i !== index)` builds it; any other index keeps the list. */
  function RemoveAt<T>(ms: seq<T>, index: int): (r: seq<T>)
    ensures 0 <= index < |ms| ==> |r| == |ms| - 1
    ensures 0 <= index < |ms| ==> forall j :: 0 <= j < index ==> r[j] == ms[j]
    ensures 0 <= index < |ms| ==> forall j :: index <= j < |r| ==> r[j] == ms[j + 1]
    ensures !(0 <= index < |ms|) ==> r == ms
  {
    if ms == [] then []
    else if index == 0 then RemoveAt(ms[1..], index - 1)
    else [ms[0]] + RemoveAt(ms[1..], index - 1)
  }

  /** One member with one field replaced. */
  function SetField(m: Member, field: MemberField, value: string): Member {
    match field
    case FirstName => m.(firstName := value)
    case LastName => m.(lastName := value)
    case Gender => m.(gender := value)
  }

  function GetField(m: Member, field: MemberField): string {
    match field
    case FirstName => m.firstName
    case LastName => m.lastName
    case Gender => m.gender
  }

  /** The sequence with the element at `index` passed through `SetField`, as
      `map((member, i) => i === index ? {...member, [field]: value} : member)` builds it. */
  function UpdateAt(ms: seq<Member>, index: int, field: MemberField, value: string): (r: seq<Member>)
    ensures |r| == |ms|
    ensures forall j :: 0 <= j < |ms| && j != index ==> r[j] == ms[j]
    ensures 0 <= index < |ms| ==> r[index] == SetField(ms[index], field, value)
    ensures 0 <= index < |ms| ==> GetField(r[index], field) == value
    ensures 0 <= index < |ms| ==>
      forall g: MemberField :: g != field ==> GetField(r[index], g) == GetField(ms[index], g)
  {
    if ms == [] then []
    else [if index == 0 then SetField(ms[0], field, value) else ms[0]]
         + UpdateAt(ms[1..], index - 1, field, value)
  }

  /** `addMember`: one blank member appended at the end. */
  function AddMember(f: Form): (r: Form)
    ensures SamePrimary(f, r) && r.regType == f.regType
    ensures |r.additionalMembers| == |f.additionalMembers| + 1
    ensures r.additionalMembers[..|f.additionalMembers|] == f.additionalMembers
    ensures r.additionalMembers[|f.additionalMembers|] == BlankMember
  {
    f.(additionalMembers := f.additionalMembers + [BlankMember])
  }

  /** `removeMember(index)`. */
  function RemoveMember(f: Form, index: int): (r: Form)
    ensures SamePrimary(f, r) && r.regType == f.regType
    ensures r.additionalMembers == RemoveAt(f.additionalMembers, index)
  {
    f.(additionalMembers := RemoveAt(f.additionalMembers, index))
  }

  /** `handleMemberChange(index, field, value)`. */
  function ChangeMember(f: Form, index: int, field: MemberField, value: string): (r: Form)
    ensures SamePrimary(f, r) && r.regType == f.regType
    ensures r.additionalMembers == UpdateAt(f.additionalMembers, index, field, value)
  {
    f.(additionalMembers := UpdateAt(f.additionalMembers, index, field, value))
  }

  /** Removing the member that `addMember` just appended gives back the form. */
  lemma RemoveUndoesAdd(f: Form)
    ensures RemoveMember(AddMember(f), |f.additionalMembers|) == f
  {
    var ms := f.additionalMembers;
    var r := RemoveAt(ms + [BlankMember], |ms|);
    assert r == ms;
  }

  /** A change that writes back the value a field already has leaves the form as it was. */
  lemma ChangeMemberSameValue(f: Form, index: int, field: MemberField)
    requires 0 <= index < |f.additionalMembers|
    ensures ChangeMember(f, index, field, GetField(f.additionalMembers[index], field)) == f
  {
    var ms := f.additionalMembers;
    var r := UpdateAt(ms, index, field, GetField(ms[index], field));
    assert r[index] == ms[index] by {
      match field
      case FirstName =>
      case LastName =>
      case Gender =>
    }
    assert r == ms;
  }

  /** The last of two changes to the same field of the same member wins. */
  lemma ChangeMemberLastWins(f: Form, index: int, field: MemberField, v1: string, v2: string)
    ensures ChangeMember(ChangeMember(f, index, field, v1), index, field, v2)
         == ChangeMember(f, index, field, v2)
  {
    var ms := f.additionalMembers;
    var a := UpdateAt(UpdateAt(ms, index, field, v1), index, field, v2);
    var b := UpdateAt(ms, index, field, v2);
    if 0 <= index < |ms| {
      assert a[index] == b[index] by {
        match field
        case FirstName =>
        case LastName =>
        case Gender =>
      }
    }
    assert a == b;
  }

  /** Summary line "Total Members": the registrant plus the additional members. */
  function TotalMembers(f: Form): (n: nat)
    ensures n >= 1
    ensures n - 1 == |f.additionalMembers|
  {
    1 + |f.additionalMembers|
  }

  /** A couple form that passes validation counts exactly two people, and a
      DJ-night family form that passes counts at least two. */
  lemma ValidFormTotals(p: Page, f: Form)
    requires ValidateForm(p, f).None?
    ensures f.regType == Couple ==> TotalMembers(f) == 2
    ensures p == DjNight && f.regType == Family ==> TotalMembers(f) >= 2
  {
  }

  /** The DJ-night price: 2000 for a Couple and 4000 for any other type. */
  function DjNightAmount(t: RegType): (a: nat)
    ensures t == Couple <==> a == 2000
    ensures t != Couple <==> a == 4000
  {
    if t == Couple then 2000 else 4000
  }

  /** The eighth character of a message tells the member messages apart from the rest. */
  lemma MemberMessageMark(e: FormError)
    ensures |Message(e)| > 7
    ensures e.MemberIncomplete? <==> Message(e)[7] == 'f'
  {
  }

  /** The number in a member's message reads back as the member's 1-based position. */
  lemma MemberMessageNumber(i: nat)
    ensures var r := Message(MemberIncomplete(i));
      |r| > 35 && AllDigits(r[35..]) && DigitsValue(r[35..]) == i + 1
  {
    var prefix := "Please fill all details for member ";
    assert Message(MemberIncomplete(i)) == prefix + Decimal(i + 1);
    assert (prefix + Decimal(i + 1))[35..] == Decimal(i + 1);
    DecimalRoundTrip(i + 1);
  }

  /** Different failures show different messages, so the message identifies the rule. */
  lemma MessageInjective(e1: FormError, e2: FormError)
    requires Message(e1) == Message(e2)
    ensures e1 == e2
  {
    MemberMessageMark(e1);
    MemberMessageMark(e2);
    if e1.MemberIncomplete? {
      var prefix := "Please fill all details for member ";
      assert Message(e1)[|prefix|..] == Decimal(e1.index + 1);
      assert Message(e2)[|prefix|..] == Decimal(e2.index + 1);
      DecimalInjective(e1.index + 1, e2.index + 1);
    }
  }

  /** The form's text inputs that the shared change handler copies into the form. */
  datatype Input = FirstNameInput | LastNameInput | MobileInput | EmailInput | GenderInput | PaymentModeInput

  function Read(f: Form, input: Input): string {
    match input
    case FirstNameInput => f.firstName
    case LastNameInput => f.lastName
    case MobileInput => f.mobile
    case EmailInput => f.email
    case GenderInput => f.gender
    case PaymentModeInput => f.paymentMode
  }

  /** What both pages keep besides the form: the error line and the busy flag. */
  datatype PageState = PageState(form: Form, error: string, loading: bool)

  /** Typing into an input stores the value under that input's name and clears the error. */
  function InputChanged(s: PageState, input: Input, value: string): (r: PageState)
    ensures r.error == "" && r.loading == s.loading
    ensures Read(r.form, input) == value
    ensures forall other :: other != input ==> Read(r.form, other) == Read(s.form, other)
    ensures r.form.regType == s.form.regType && r.form.promocode == s.form.promocode
    ensures r.form.additionalMembers == s.form.additionalMembers
  {
    var f := s.form;
    var g := match input
      case FirstNameInput => f.(firstName := value)
      case LastNameInput => f.(lastName := value)
      case MobileInput => f.(mobile := value)
      case EmailInput => f.(email := value)
      case GenderInput => f.(gender := value)
      case PaymentModeInput => f.(paymentMode := value);
    PageState(g, "", s.loading)
  }

  /** Writing back what an input already holds changes nothing but the error line. */
  lemma InputChangedSameValue(s: PageState, input: Input)
    ensures InputChanged(s, input, Read(s.form, input)) == s.(error := "")
  {
    var r := InputChanged(s, input, Read(s.form, input));
    assert r.form == s.form;
  }

  /** Pressing submit: the error is cleared, then either the first validation
      failure is shown and nothing is sent, or the page turns busy and the form
      is sent (the second component). */
  function SubmitStart(p: Page, s: PageState): (r: (PageState, Option<Form>))
    ensures r.0.form == s.form
    ensures r.1.Some? <==> forall e :: !Violates(p, s.form, e)
    ensures r.1.Some? ==> r.1.value == s.form && r.0.error == "" && r.0.loading
    ensures r.1.None? ==> ValidateForm(p, s.form).Some? && r.0.error == Message(ValidateForm(p, s.form).value)
    ensures r.1.None? ==> r.0.loading == s.loading
  {
    ValidateFormFirstFailure(p, s.form);
    match ValidateForm(p, s.form)
    case Some(e) => (PageState(s.form, Message(e), s.loading), None)
    case None => (PageState(s.form, "", true), Some(s.form))
  }

  /** How the create call ended: it answered (with `success` and the new
      registration's id) or it threw with a message, possibly empty. */
  datatype CreateReply = Answered(success: bool, registrationId: string) | Threw(message: string)

  const RegistrationFailed := "Registration failed. Please try again."

  /** The DJ-night page after the create call: on success it navigates to the
      success page of the new registration (third component); an answer without
      success changes nothing; a throw shows its message or the fallback. The
      busy flag is cleared in every case. */
  function DjNightSubmitted(s: PageState, reply: CreateReply): (r: (PageState, Option<string>))
    ensures !r.0.loading && r.0.form == s.form
    ensures r.1.Some? <==> reply.Answered? && reply.success
    ensures r.1.Some? ==> r.1.value == "/success/" + reply.registrationId
    ensures reply.Threw? ==> r.0.error != "" && (reply.message != "" ==> r.0.error == reply.message)
    ensures reply.Answered? ==> r.0.error == s.error
  {
    match reply
    case Answered(ok, id) => (s.(loading := false), if ok then Some("/success/" + id) else None)
    case Threw(m) => (s.(loading := false, error := OrElse(m, RegistrationFailed)), None)
  }
}
