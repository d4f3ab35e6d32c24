/** The sports-academy registration page (src/pages/SportsAcademyRegister.jsx):
    its price rules, the promocode flow, the UPI payment link and the reset
    after a successful registration. The form itself and its validator are the
    shared ones of module Registration, under the academy's rules. */
module SportsAcademy {
  import opened Wrappers
  import opened Text
  import opened Uri
  import opened Registration

  /** What a valid promocode tells the page: its code, the two prices it grants
      and how many uses remain. Prices are whole rupees. */
  datatype Promo = Promo(code: string, individualPrice: int, couplePrice: int, remaining: int)

  /** The page: the shared form state plus the applied promocode, the promocode
      input box and the promocode request's busy flag. */
  datatype AcademyState = AcademyState(
    page: PageState,
    promo: Option<Promo>,
    promoInput: string,
    promoLoading: bool)

  const Initial := AcademyState(PageState(AcademyInitial, "", false), None, "", false)

  const IndividualPrice := 1149
  const CouplePrice := 1999

  /** The list price, which ignores any promocode. */
  function OriginalAmount(t: RegType): (a: nat)
    ensures t == Individual <==> a == IndividualPrice
    ensures t != Individual <==> a == CouplePrice
  {
    if t == Individual then IndividualPrice else CouplePrice
  }

  /** The amount to pay: the promocode's price for the registration type when a
      promocode is applied, the list price otherwise. */
  function Amount(t: RegType, promo: Option<Promo>): (a: int)
    ensures promo.None? ==> a == OriginalAmount(t) && a > 0
    ensures promo.Some? && t == Individual ==> a == promo.value.individualPrice
    ensures promo.Some? && t != Individual ==> a == promo.value.couplePrice
  {
    match promo
    case None => OriginalAmount(t)
    case Some(p) => if t == Individual then p.individualPrice else p.couplePrice
  }

  /** The discount line: the list price less the amount to pay. */
  function Discount(t: RegType, promo: Option<Promo>): (d: int)
    ensures Amount(t, promo) + d == OriginalAmount(t)
  {
    OriginalAmount(t) - Amount(t, promo)
  }

  /** There is a discount only under a promocode whose price differs from the list price. */
  lemma DiscountOnlyWithPromo(t: RegType, promo: Option<Promo>)
    ensures Discount(t, promo) != 0 <==> promo.Some? && Amount(t, promo) != OriginalAmount(t)
    ensures promo.None? ==> Discount(t, promo) == 0
  {
  }

  /** Registration is free only under a promocode. */
  lemma FreeOnlyWithPromo(t: RegType, promo: Option<Promo>)
    requires Amount(t, promo) == 0
    ensures promo.Some?
    ensures t == Individual ==> promo.value.individualPrice == 0
    ensures t != Individual ==> promo.value.couplePrice == 0
  {
  }

  function CurrentAmount(s: AcademyState): int {
    Amount(s.page.form.regType, s.promo)
  }

  // ---------------------------------------------------------------------------
  // The UPI payment link

  const UpiId := "8866793934@ybl"
  /** The payee name "BEAT BLAZE 2025" and the note "Event Registration",
      before encoding; written word by word, with the spaces between. */
  const PayeeName := "BEAT" + " " + "BLAZE" + " " + "2025"
  const Note := "Event" + " " + "Registration"

  /** Everything of the link up to the amount's digits. */
  const LinkHead := "upi://pay?pa=" + UpiId + "&pn=" + EncodeURIComponent(PayeeName) + "&am="
  /** Everything of the link after the amount's digits. */
  const LinkTail := "&cu=INR&tn=" + EncodeURIComponent(Note)

  /** The payment link is built only for a positive amount; otherwise the link
      (and the QR code drawn from it) is cleared. */
  function PaymentLink(amount: int): (r: Option<string>)
    ensures r.Some? <==> amount > 0
    ensures r.Some? ==> |r.value| > |LinkHead| + |LinkTail|
  {
    if amount > 0 then Some(LinkHead + Decimal(amount) + LinkTail) else None
  }

  /** Words of unreserved characters joined by spaces encode to the same
      words joined by `%20`. */
  lemma EncodeWords(a: string, b: string)
    requires forall i :: 0 <= i < |a| ==> a[i] as int < 0x80 && Unreserved(a[i] as int)
    requires forall i :: 0 <= i < |b| ==> b[i] as int < 0x80 && Unreserved(b[i] as int)
    ensures EncodeURIComponent(a + " " + b) == a + "%20" + b
  {
    EncodeUnreserved(a);
    EncodeUnreserved(b);
    EncodeSpaced(a, b);
  }

  /** One more word of unreserved characters after a space adds `%20` and the word. */
  lemma EncodeNextWord(a: string, encoded: string, b: string)
    requires EncodeURIComponent(a) == encoded
    requires forall i :: 0 <= i < |b| ==> b[i] as int < 0x80 && Unreserved(b[i] as int)
    ensures EncodeURIComponent(a + " " + b) == encoded + "%20" + b
  {
    EncodeUnreserved(b);
    EncodeSpaced(a, b);
  }

  lemma PayeeEncoded()
    ensures EncodeURIComponent(PayeeName) == "BEAT" + "%20" + "BLAZE" + "%20" + "2025"
  {
    EncodeWords("BEAT", "BLAZE");
    EncodeNextWord("BEAT" + " " + "BLAZE", "BEAT" + "%20" + "BLAZE", "2025");
  }

  lemma NoteEncoded()
    ensures EncodeURIComponent(Note) == "Event" + "%20" + "Registration"
  {
    EncodeWords("Event", "Registration");
  }

  /** The link, character for character, with the encoded payee name and note. */
  lemma PaymentLinkText(amount: int)
    requires amount > 0
    ensures PaymentLink(amount) == Some(
      "upi://pay?pa=" + "8866793934@ybl" + "&pn=" + ("BEAT" + "%20" + "BLAZE" + "%20" + "2025") + "&am=" + Decimal(amount)
      + ("&cu=INR&tn=" + ("Event" + "%20" + "Registration")))
  {
    LinkHeadText();
    LinkTailText();
  }

  lemma LinkHeadText()
    ensures LinkHead == "upi://pay?pa=" + "8866793934@ybl" + "&pn=" + ("BEAT" + "%20" + "BLAZE" + "%20" + "2025") + "&am="
  {
    PayeeEncoded();
  }

  lemma LinkTailText()
    ensures LinkTail == "&cu=INR&tn=" + ("Event" + "%20" + "Registration")
  {
    NoteEncoded();
  }

  /** The leading run of decimal digits of a text. */
  function LeadingDigits(s: string): (r: string)
    ensures |r| <= |s| && r == s[..|r|] && AllDigits(r)
    ensures |r| < |s| ==> !IsDigit(s[|r|])
  {
    if s != [] && IsDigit(s[0]) then [s[0]] + LeadingDigits(s[1..]) else []
  }

  /** Reading the amount back out of a payment link: the digits between the
      link's head and its tail. */
  function LinkAmount(url: string): (r: Option<nat>)
    ensures r.Some? ==> |url| > |LinkHead| + |LinkTail|
    ensures r.Some? ==> url[..|LinkHead|] == LinkHead && url[|url| - |LinkTail|..] == LinkTail
    ensures r.Some? ==> AllDigits(url[|LinkHead|..|url| - |LinkTail|])
  {
    if |url| <= |LinkHead| || url[..|LinkHead|] != LinkHead then None
    else
      var digits := LeadingDigits(url[|LinkHead|..]);
      if digits != [] && url[|LinkHead| + |digits|..] == LinkTail then
        assert url[|LinkHead|..|url| - |LinkTail|] == digits;
        Some(DigitsValue(digits))
      else None
  }

  lemma LeadingDigitsBeforeTail(d: string, tail: string)
    requires AllDigits(d) && tail != [] && !IsDigit(tail[0])
    ensures LeadingDigits(d + tail) == d
  {
    if d != [] {
      assert (d + tail)[1..] == d[1..] + tail;
      LeadingDigitsBeforeTail(d[1..], tail);
      assert [d[0]] + d[1..] == d;
    } else {
      assert d + tail == tail;
    }
  }

  /** The amount written into the payment link is the amount read back from it. */
  lemma PaymentLinkAmount(amount: int)
    requires amount > 0
    ensures LinkAmount(PaymentLink(amount).value) == Some(amount)
  {
    var url := PaymentLink(amount).value;
    var d := Decimal(amount);
    assert url == LinkHead + (d + LinkTail);
    assert url[..|LinkHead|] == LinkHead;
    assert url[|LinkHead|..] == d + LinkTail;
    LeadingDigitsBeforeTail(d, LinkTail);
    assert url[|LinkHead| + |d|..] == LinkTail;
    DecimalRoundTrip(amount);
  }

  /** Different amounts give different links. */
  lemma PaymentLinkInjective(a: int, b: int)
    requires a > 0 && b > 0 && PaymentLink(a) == PaymentLink(b)
    ensures a == b
  {
    PaymentLinkAmount(a);
    PaymentLinkAmount(b);
  }

  /** How the page presents an amount: a free registration disables the
      payment-mode select and shows "FREE (₹0)" as the total; a positive amount
      shows the payment section. */
  predicate PaymentModeDisabled(amount: int) {
    amount == 0
  }

  predicate PaymentSectionShown(amount: int) {
    amount > 0
  }

  /** The "Total Amount" cell: the free text for a zero amount, the formatted
      amount otherwise. */
  datatype TotalLabel = FreeTotal(text: string) | PriceTotal(amount: int)

  const FreeText := "FREE (₹0)"

  function Total(amount: int): (r: TotalLabel)
    ensures r.FreeTotal? <==> amount == 0
    ensures r.FreeTotal? ==> r.text == FreeText
    ensures r.PriceTotal? ==> r.amount == amount
  {
    if amount == 0 then FreeTotal(FreeText) else PriceTotal(amount)
  }

  /** The free-registration banner appears in the applied-promocode box when the amount is 0. */
  predicate FreeBannerShown(s: AcademyState)
    ensures FreeBannerShown(s) ==> PaymentLink(CurrentAmount(s)).None?
  {
    s.promo.Some? && CurrentAmount(s) == 0
  }

  /** For a non-negative amount, exactly one of "free" and "pay by link" holds. */
  lemma FreeOrPaid(amount: int)
    requires amount >= 0
    ensures PaymentModeDisabled(amount) <==> PaymentLink(amount).None?
    ensures PaymentSectionShown(amount) <==> PaymentLink(amount).Some?
    ensures PaymentModeDisabled(amount) <==> Total(amount).FreeTotal?
  {
  }

  /** The free banner, the disabled select and the free total go together. */
  lemma FreeBannerAgrees(s: AcademyState)
    ensures FreeBannerShown(s) <==> PaymentModeDisabled(CurrentAmount(s))
    ensures FreeBannerShown(s) <==> Total(CurrentAmount(s)).FreeTotal?
  {
  }

  // ---------------------------------------------------------------------------
  // The promocode flow

  /** The promocode box shows what was typed, upper-cased. */
  function PromoInputChanged(s: AcademyState, typed: string): (r: AcademyState)
    ensures r.promoInput == ToUpper(typed)
    ensures |r.promoInput| == |typed|
    ensures forall i :: 0 <= i < |typed| ==> !('a' <= r.promoInput[i] <= 'z')
    ensures r.page == s.page && r.promo == s.promo && r.promoLoading == s.promoLoading
  {
    s.(promoInput := ToUpper(typed))
  }

  /** Typing the box's own contents again leaves it as it is. */
  lemma PromoInputStable(s: AcademyState, typed: string)
    ensures PromoInputChanged(PromoInputChanged(s, typed), PromoInputChanged(s, typed).promoInput)
         == PromoInputChanged(s, typed)
  {
    ToUpperIdempotent(typed);
  }

  /** The Apply button is disabled while a lookup runs or while the box is blank;
      outside a lookup it is disabled exactly when pressing it would look nothing up. */
  predicate ApplyDisabled(s: AcademyState)
    ensures !s.promoLoading ==> (ApplyDisabled(s) <==> ApplyPromocode(s).1.None?)
  {
    s.promoLoading || IsBlank(s.promoInput)
  }

  /** Applying a promocode: a blank box shows "Please enter a promocode" and
      looks nothing up; otherwise the error is cleared, the lookup turns busy and
      the trimmed code is looked up (the second component). */
  function ApplyPromocode(s: AcademyState): (r: (AcademyState, Option<string>))
    ensures r.1.None? <==> IsBlank(s.promoInput)
    ensures r.1.None? ==> r.0 == s.(page := s.page.(error := "Please enter a promocode"))
    ensures r.1.Some? ==> r.1.value == Trim(s.promoInput) && r.1.value != []
    ensures r.1.Some? ==> r.0.promoLoading && r.0.page.error == ""
    ensures r.0.promo == s.promo && r.0.promoInput == s.promoInput && r.0.page.form == s.page.form
  {
    if IsBlank(s.promoInput) then
      (s.(page := s.page.(error := "Please enter a promocode")), None)
    else
      (s.(page := s.page.(error := ""), promoLoading := true), Some(Trim(s.promoInput)))
  }

  /** How the lookup ended: a valid code with its data, a refusal with the
      server's message (possibly empty), or a throw with its message. */
  datatype PromoReply = PromoValid(data: Promo) | PromoRefused(message: string) | PromoThrew(message: string)

  /** The lookup's answer: a valid code is applied and copied into the form;
      otherwise any applied code is dropped, the form's code is emptied and an
      error is shown, with a fallback for an empty message. */
  function PromoReplied(s: AcademyState, reply: PromoReply): (r: AcademyState)
    ensures !r.promoLoading && r.promoInput == s.promoInput
    ensures r.page.loading == s.page.loading
    ensures r.page.form == s.page.form.(promocode := r.page.form.promocode)
    ensures reply.PromoValid? <==> r.promo.Some?
    ensures reply.PromoValid? ==>
      r.promo == Some(reply.data) && r.page.form.promocode == reply.data.code && r.page.error == ""
    ensures !reply.PromoValid? ==> r.page.form.promocode == "" && r.page.error != ""
    ensures !reply.PromoValid? && reply.message != "" ==> r.page.error == reply.message
  {
    var f := s.page.form;
    match reply
    case PromoValid(d) =>
      AcademyState(PageState(f.(promocode := d.code), "", s.page.loading), Some(d), s.promoInput, false)
    case PromoRefused(m) =>
      AcademyState(PageState(f.(promocode := ""), OrElse(m, "Invalid promocode"), s.page.loading),
                   None, s.promoInput, false)
    case PromoThrew(m) =>
      AcademyState(PageState(f.(promocode := ""), OrElse(m, "Failed to validate promocode"), s.page.loading),
                   None, s.promoInput, false)
  }

  /** Removing the applied code clears the code, the box, the form's code and the error. */
  function RemovePromocode(s: AcademyState): (r: AcademyState)
    ensures r.promo.None? && r.promoInput == "" && r.page.error == ""
    ensures r.page.form == s.page.form.(promocode := "")
    ensures r.page.loading == s.page.loading && r.promoLoading == s.promoLoading
  {
    AcademyState(PageState(s.page.form.(promocode := ""), "", s.page.loading), None, "", s.promoLoading)
  }

  /** A valid code sets the price the code grants for the current type; removing
      it again restores the list price and an empty box. */
  lemma ApplyThenRemove(s: AcademyState, d: Promo)
    requires !IsBlank(s.promoInput)
    ensures var applied := PromoReplied(ApplyPromocode(s).0, PromoValid(d));
      && CurrentAmount(applied) == (if s.page.form.regType == Individual then d.individualPrice else d.couplePrice)
      && applied.page.form.promocode == d.code
      && var removed := RemovePromocode(applied);
         && CurrentAmount(removed) == OriginalAmount(s.page.form.regType)
         && Discount(removed.page.form.regType, removed.promo) == 0
         && removed.promoInput == "" && removed.page.form.promocode == ""
  {
  }

  /** Changing the registration type under the academy's rules. */
  function TypeChanged(s: AcademyState, t: RegType): (r: AcademyState)
    ensures r.page.form == ChangeType(Academy, s.page.form, t)
    ensures r.promo == s.promo && r.page.error == s.page.error
    ensures CurrentAmount(r) == Amount(t, s.promo)
    ensures r.promoInput == s.promoInput && r.promoLoading == s.promoLoading && r.page.loading == s.page.loading
  {
    s.(page := s.page.(form := ChangeType(Academy, s.page.form, t)))
  }

  // ---------------------------------------------------------------------------
  // Submitting

  /** Pressing submit: the shared validation under the academy's rules. The
      first failure is shown and nothing is sent, or the error is cleared, the
      page turns busy and the form is sent. */
  function Submit(s: AcademyState): (r: (AcademyState, Option<Form>))
    ensures r.1.Some? <==> forall e :: !Violates(Academy, s.page.form, e)
    ensures r.1.Some? ==> r.1.value == s.page.form
    ensures r.1.Some? ==> r.0.page.error == "" && r.0.page.loading
    ensures r.1.None? ==>
      && ValidateForm(Academy, s.page.form).Some?
      && r.0.page.error == Message(ValidateForm(Academy, s.page.form).value)
      && r.0.page.loading == s.page.loading
    ensures r.0.page.form == s.page.form
    ensures r.0.promo == s.promo && r.0.promoInput == s.promoInput && r.0.promoLoading == s.promoLoading
  {
    var (p, req) := SubmitStart(Academy, s.page);
    (s.(page := p), req)
  }

  /** After the create call: success resets the form to the initial Individual
      form and drops the promocode and the box; an answer without success only
      ends the busy state; a throw shows its message or the fallback. */
  function Submitted(s: AcademyState, reply: CreateReply): (r: AcademyState)
    ensures !r.page.loading && r.promoLoading == s.promoLoading
    ensures reply.Answered? && reply.success ==>
      r.page.form == AcademyInitial && r.promo.None? && r.promoInput == "" && r.page.error == s.page.error
    ensures reply.Answered? && !reply.success ==> r == s.(page := s.page.(loading := false))
    ensures reply.Threw? ==> r.page.form == s.page.form && r.promo == s.promo && r.page.error != ""
    ensures reply.Threw? && reply.message != "" ==> r.page.error == reply.message
    ensures reply.Threw? ==> r.promoInput == s.promoInput
  {
    match reply
    case Answered(ok, _) =>
      if ok then AcademyState(PageState(AcademyInitial, s.page.error, false), None, "", s.promoLoading)
      else s.(page := s.page.(loading := false))
    case Threw(m) => s.(page := s.page.(loading := false, error := OrElse(m, RegistrationFailed)))
  }

  /** A valid submission that succeeds leaves the page as it first appeared
      (apart from a promocode lookup still running), at the list price. */
  lemma SubmitSuccessRestoresInitial(s: AcademyState, id: string)
    requires !s.promoLoading
    requires forall e :: !Violates(Academy, s.page.form, e)
    ensures Submitted(Submit(s).0, Answered(true, id)) == Initial
    ensures CurrentAmount(Submitted(Submit(s).0, Answered(true, id))) == IndividualPrice
  {
  }
}
