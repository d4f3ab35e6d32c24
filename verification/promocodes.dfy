/** The admin's promocode panel (src/components/PromocodeManagement.jsx): the
    create form and its required-field guard, the payload it sends, and the
    per-code toggle, delete guard and remaining-uses column. */
module Promocodes {
  import opened Wrappers
  import opened Text

  /** The create form; every field holds the text of its input box. */
  datatype PromoForm = PromoForm(code: string, individualPrice: string, couplePrice: string, quantity: string)

  const EmptyForm := PromoForm("", "", "", "")

  datatype PromoField = CodeField | IndividualPriceField | CouplePriceField | QuantityField

  function FieldText(f: PromoForm, field: PromoField): string {
    match field
    case CodeField => f.code
    case IndividualPriceField => f.individualPrice
    case CouplePriceField => f.couplePrice
    case QuantityField => f.quantity
  }

  /** Typing into a box: the code is stored upper-cased, the numbers as typed. */
  function InputChanged(f: PromoForm, field: PromoField, value: string): (r: PromoForm)
    ensures FieldText(r, field) == (if field == CodeField then ToUpper(value) else value)
    ensures forall other :: other != field ==> FieldText(r, other) == FieldText(f, other)
    ensures field == CodeField ==> forall i :: 0 <= i < |r.code| ==> !('a' <= r.code[i] <= 'z')
  {
    match field
    case CodeField => f.(code := ToUpper(value))
    case IndividualPriceField => f.(individualPrice := value)
    case CouplePriceField => f.(couplePrice := value)
    case QuantityField => f.(quantity := value)
  }

  /** Retyping a code the box already shows leaves the form as it is. */
  lemma RetypedCodeStable(f: PromoForm, typed: string)
    ensures var g := InputChanged(f, CodeField, typed);
      InputChanged(g, CodeField, g.code) == g
  {
    ToUpperIdempotent(typed);
  }

  // ---------------------------------------------------------------------------
  // Converting the number boxes

  /** The text of a whole number: a `-` for negatives, then its decimal digits. */
  function IntegerText(n: int): (r: string)
    ensures |r| >= 1
  {
    if n < 0 then "-" + Decimal(-n) else Decimal(n)
  }

  /** `Number(text)` on the whole-number texts a number box can hold: an
      optional `-` and at least one digit. `None` for anything else, which the
      model does not evaluate (fractions and exponents). */
  function ParseInteger(t: string): (r: Option<int>)
    ensures r.Some? && r.value < 0 ==> t != [] && t[0] == '-'
  {
    if |t| > 1 && t[0] == '-' && AllDigits(t[1..]) then Some(0 - DigitsValue(t[1..]) as int)
    else if t != [] && AllDigits(t) then Some(DigitsValue(t))
    else None
  }

  /** Every whole number is read back from its own text. */
  lemma ParseIntegerText(n: int)
    ensures ParseInteger(IntegerText(n)) == Some(n)
  {
    if n < 0 {
      ParseNegativeText(-n);
    } else {
      ParseNaturalText(n);
    }
  }

  lemma ParseNegativeText(m: nat)
    requires m > 0
    ensures ParseInteger("-" + Decimal(m)) == Some(-(m as int))
  {
    var t := "-" + Decimal(m);
    assert t[1..] == Decimal(m);
    DecimalRoundTrip(m);
  }

  lemma ParseNaturalText(m: nat)
    ensures ParseInteger(Decimal(m)) == Some(m)
  {
    DecimalRoundTrip(m);
    assert Decimal(m)[0] != '-';
  }

  /** What the create call sends: the code as it stands and the three numbers. */
  datatype Payload = Payload(code: string, individualPrice: Option<int>, couplePrice: Option<int>, quantity: Option<int>)

  const AllFieldsRequired := "All fields are required"

  /** "Create": refused with a message unless all four boxes are non-empty (the
      text is not trimmed, so "0" passes); otherwise the payload. */
  function Submit(f: PromoForm): (r: Result<Payload, string>)
    ensures r.Failure? <==> exists field :: FieldText(f, field) == ""
    ensures r.Failure? ==> r.error == AllFieldsRequired
    ensures r.Success? ==> r.value.code == f.code
    ensures r.Success? ==>
      && r.value.individualPrice == ParseInteger(f.individualPrice)
      && r.value.couplePrice == ParseInteger(f.couplePrice)
      && r.value.quantity == ParseInteger(f.quantity)
  {
    if f.code == "" || f.individualPrice == "" || f.couplePrice == "" || f.quantity == "" then
      assert FieldText(f, CodeField) == "" || FieldText(f, IndividualPriceField) == ""
          || FieldText(f, CouplePriceField) == "" || FieldText(f, QuantityField) == "";
      Failure(AllFieldsRequired)
    else Success(Payload(f.code, ParseInteger(f.individualPrice), ParseInteger(f.couplePrice), ParseInteger(f.quantity)))
  }

  /** Filling the boxes with a code and three whole numbers sends exactly those numbers. */
  lemma SubmitSendsTypedNumbers(code: string, individual: int, couple: int, quantity: int)
    requires code != ""
    ensures Submit(PromoForm(code, IntegerText(individual), IntegerText(couple), IntegerText(quantity)))
         == Success(Payload(code, Some(individual), Some(couple), Some(quantity)))
  {
    ParseIntegerText(individual);
    ParseIntegerText(couple);
    ParseIntegerText(quantity);
  }

  /** After the create call: success empties the form, failure keeps it. */
  function Created(f: PromoForm, ok: bool): (r: PromoForm)
    ensures ok ==> forall field :: FieldText(r, field) == ""
    ensures !ok ==> r == f
  {
    if ok then EmptyForm else f
  }

  /** A form just emptied by a successful create cannot be submitted as it is. */
  lemma CreatedFormRefused(f: PromoForm)
    ensures Submit(Created(f, true)).Failure?
  {
    assert FieldText(Created(f, true), CodeField) == "";
  }

  // ---------------------------------------------------------------------------
  // The list of codes

  /** A row of the list. */
  datatype PromoRow = PromoRow(id: string, code: string, quantity: int, usedCount: int, isActive: bool)

  datatype Request = Deactivate(id: string) | Activate(id: string) | DeleteCode(id: string)

  /** The toggle button deactivates an active code and activates an inactive one. */
  function Toggle(p: PromoRow): (r: Request)
    ensures r.Deactivate? <==> p.isActive
    ensures r.Activate? <==> !p.isActive
    ensures !r.DeleteCode? && (r.Deactivate? ==> r.id == p.id) && (r.Activate? ==> r.id == p.id)
  {
    if p.isActive then Deactivate(p.id) else Activate(p.id)
  }

  /** The state a toggle asks for, once the server has done it. */
  function Applied(p: PromoRow, r: Request): PromoRow {
    match r
    case Deactivate(_) => p.(isActive := false)
    case Activate(_) => p.(isActive := true)
    case DeleteCode(_) => p
  }

  /** A toggle flips the active flag, and two toggles restore it. */
  lemma ToggleFlips(p: PromoRow)
    ensures Applied(p, Toggle(p)).isActive == !p.isActive
    ensures Applied(Applied(p, Toggle(p)), Toggle(Applied(p, Toggle(p)))) == p
  {
  }

  const UsedCannotDelete := "Cannot delete promocode that has been used. Deactivate it instead."

  /** What "Delete" does: a used code is refused with a message, a declined
      confirmation does nothing, otherwise the delete is sent. */
  datatype DeleteOutcome = Refused(message: string) | Cancelled | Send(request: Request)

  function DeletePressed(p: PromoRow, confirmed: bool): (r: DeleteOutcome)
    ensures r.Refused? <==> p.usedCount > 0
    ensures r.Refused? ==> r.message == UsedCannotDelete
    ensures r.Send? <==> p.usedCount <= 0 && confirmed
    ensures r.Send? ==> r.request == DeleteCode(p.id)
  {
    if p.usedCount > 0 then Refused(UsedCannotDelete)
    else if !confirmed then Cancelled
    else Send(DeleteCode(p.id))
  }

  /** The delete button is shown only for a code nobody has used. */
  predicate DeleteShown(p: PromoRow)
    ensures DeleteShown(p) ==> Remaining(p) == p.quantity
  {
    p.usedCount == 0
  }

  /** For any real use count the button shows exactly when a confirmed delete is sent. */
  lemma DeleteShownAgrees(p: PromoRow)
    requires p.usedCount >= 0
    ensures DeleteShown(p) <==> DeletePressed(p, true).Send?
    ensures !DeleteShown(p) ==> DeletePressed(p, true) == Refused(UsedCannotDelete)
  {
  }

  /** The remaining-uses column, flagged when nothing is left. */
  function Remaining(p: PromoRow): (n: int)
    ensures n + p.usedCount == p.quantity
  {
    p.quantity - p.usedCount
  }

  predicate Danger(p: PromoRow) {
    Remaining(p) == 0
  }

  /** The flag shows exactly when every use is spent, and a flagged code can be
      deleted only if it never had any uses. */
  lemma DangerWhenSpent(p: PromoRow)
    ensures Danger(p) <==> p.usedCount == p.quantity
    ensures Danger(p) && p.quantity > 0 ==> DeletePressed(p, true).Refused?
  {
  }
}
