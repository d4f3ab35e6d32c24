/** The entry scanner's check-in session (src/pages/Scanner.jsx): codes arrive
    typed or from the camera, each code is looked up at most once per session,
    and an accepted guest who has not entered yet can be checked in. */
module Scanner {
  import opened Wrappers
  import opened Text

  /** The part of a looked-up registration that the session's decisions read. */
  datatype Details = Details(registrationId: string, status: string, attended: bool)

  /** The looked-up answer as kept by the page; `justMarked` is set by the page
      itself after a check-in. */
  datatype ScanResult = ScanResult(valid: bool, data: Option<Details>, justMarked: bool)

  datatype Session = Session(
    scannedCodes: set<string>,
    result: Option<ScanResult>,
    error: string,
    cameraMode: bool,
    manualInput: string,
    loading: bool,
    marking: bool)

  const Start := Session({}, None, "", false, "", false, false)

  const AlreadyScanned := "This QR code was already scanned in this session"
  const FetchFailed := "Failed to fetch details"
  const MarkFailed := "Failed to mark attendance"

  /** The requests the session sends: a details lookup, or a check-in. */
  datatype Request = FetchDetails(code: string) | MarkRequest(registrationId: string)

  /** Typing a registration id: stored upper-cased. */
  function ManualInputChanged(s: Session, typed: string): (r: Session)
    ensures r.manualInput == ToUpper(typed)
    ensures forall i :: 0 <= i < |r.manualInput| ==> !('a' <= r.manualInput[i] <= 'z')
    ensures r.(manualInput := s.manualInput) == s
  {
    s.(manualInput := ToUpper(typed))
  }

  /** Submitting the typed id: a blank box does nothing; a code seen before in
      this session only shows the "already scanned" error; a new code clears the
      error and the result, turns busy and is looked up, trimmed. */
  function ManualScan(s: Session): (r: (Session, Option<Request>))
    ensures IsBlank(s.manualInput) ==> r == (s, None)
    ensures !IsBlank(s.manualInput) && Trim(s.manualInput) in s.scannedCodes ==>
      r == (s.(error := AlreadyScanned), None)
    ensures r.1.Some? <==> !IsBlank(s.manualInput) && Trim(s.manualInput) !in s.scannedCodes
    ensures r.1.Some? ==>
      && r.1.value == FetchDetails(Trim(s.manualInput))
      && r.0 == s.(loading := true, error := "", result := None)
    ensures r.0.scannedCodes == s.scannedCodes
  {
    if IsBlank(s.manualInput) then (s, None)
    else
      var id := Trim(s.manualInput);
      if id in s.scannedCodes then (s.(error := AlreadyScanned), None)
      else (s.(loading := true, error := "", result := None), Some(FetchDetails(id)))
  }

  /** A code decoded by the camera: the camera is switched off in every case;
      a code seen before only shows the "already scanned" error; a new one
      clears the error and the result, turns busy and is looked up, trimmed. */
  function CameraDecoded(s: Session, text: string): (r: (Session, Option<Request>))
    ensures !r.0.cameraMode
    ensures Trim(text) in s.scannedCodes ==> r == (s.(error := AlreadyScanned, cameraMode := false), None)
    ensures r.1.Some? <==> Trim(text) !in s.scannedCodes
    ensures r.1.Some? ==>
      && r.1.value == FetchDetails(Trim(text))
      && r.0 == s.(cameraMode := false, loading := true, error := "", result := None)
    ensures r.0.scannedCodes == s.scannedCodes
  {
    var code := Trim(text);
    if code in s.scannedCodes then (s.(error := AlreadyScanned, cameraMode := false), None)
    else (s.(cameraMode := false, loading := true, error := "", result := None), Some(FetchDetails(code)))
  }

  /** The lookup's answer for `code`: on success the answer is shown and the
      code joins the session's set (a typed code also empties the box); on
      failure the set is kept and the thrown message, or the fallback, is shown. */
  function Fetched(s: Session, code: string, typed: bool, reply: Result<ScanResult, string>): (r: Session)
    ensures !r.loading
    ensures reply.Success? ==> r.scannedCodes == s.scannedCodes + {code} && r.result == Some(reply.value)
    ensures reply.Success? ==> r.manualInput == (if typed then "" else s.manualInput)
    ensures reply.Failure? ==> r.scannedCodes == s.scannedCodes && r.result == s.result && r.error != ""
    ensures reply.Failure? && reply.error != "" ==> r.error == reply.error
    ensures r.cameraMode == s.cameraMode && r.marking == s.marking
  {
    match reply
    case Success(answer) =>
      s.(result := Some(answer), loading := false, scannedCodes := s.scannedCodes + {code},
         manualInput := if typed then "" else s.manualInput)
    case Failure(m) => s.(error := OrElse(m, FetchFailed), loading := false)
  }

  /** Switching between typing and the camera clears the error and the result. */
  function ToggleCamera(s: Session): (r: Session)
    ensures r.cameraMode == !s.cameraMode && r.error == "" && r.result.None?
    ensures r.scannedCodes == s.scannedCodes && r.manualInput == s.manualInput
  {
    s.(cameraMode := !s.cameraMode, error := "", result := None)
  }

  /** "Confirm Check-In": nothing without looked-up details; otherwise the page
      turns busy, clears the error and asks to mark the registration. */
  function MarkAttendance(s: Session): (r: (Session, Option<Request>))
    ensures r.1.None? <==> s.result.None? || s.result.value.data.None?
    ensures r.1.None? ==> r.0 == s
    ensures r.1.Some? ==>
      && r.1.value == MarkRequest(s.result.value.data.value.registrationId)
      && r.0 == s.(marking := true, error := "")
  {
    if s.result.None? || s.result.value.data.None? then (s, None)
    else (s.(marking := true, error := ""), Some(MarkRequest(s.result.value.data.value.registrationId)))
  }

  /** The check-in's answer: on success it replaces the result, flagged as just
      marked; on failure the previous result stays and the error is shown. */
  function Marked(s: Session, reply: Result<ScanResult, string>): (r: Session)
    ensures !r.marking && r.scannedCodes == s.scannedCodes
    ensures reply.Success? ==> r.result == Some(reply.value.(justMarked := true)) && r.error == s.error
    ensures reply.Failure? ==> r.result == s.result && r.error != ""
    ensures reply.Failure? && reply.error != "" ==> r.error == reply.error
  {
    match reply
    case Success(answer) => s.(result := Some(answer.(justMarked := true)), marking := false)
    case Failure(m) => s.(error := OrElse(m, MarkFailed), marking := false)
  }

  /** "Scan Next": back to the empty scanner, remembering every code seen. */
  function Reset(s: Session): (r: Session)
    ensures r.result.None? && r.error == "" && r.manualInput == "" && !r.cameraMode
    ensures r.scannedCodes == s.scannedCodes
    ensures r.loading == s.loading && r.marking == s.marking
  {
    s.(result := None, error := "", manualInput := "", cameraMode := false)
  }

  // ---------------------------------------------------------------------------
  // What the page shows

  /** The input panel (typing or camera) shows only with no result and no error. */
  predicate InputPanelShown(s: Session) {
    s.result.None? && s.error == ""
  }

  /** The result card shows for a valid answer that carries details. */
  predicate ResultShown(s: Session) {
    s.result.Some? && s.result.value.valid && s.result.value.data.Some?
  }

  /** "Confirm Check-In" is offered for an accepted guest not yet in and not just marked. */
  predicate CheckInOffered(r: ScanResult)
    requires r.data.Some?
    ensures CheckInOffered(r) ==> HeaderOf(r) == ReadyToCheckIn
  {
    r.data.value.status == "Accepted" && !r.data.value.attended && !r.justMarked
  }

  datatype Header = CheckInComplete | AlreadyCheckedIn | ReadyToCheckIn

  /** The card's header: a fresh check-in first, then an earlier one, else ready. */
  function HeaderOf(r: ScanResult): (h: Header)
    requires r.data.Some?
    ensures h == CheckInComplete <==> r.justMarked
    ensures h == AlreadyCheckedIn <==> !r.justMarked && r.data.value.attended
    ensures h == ReadyToCheckIn <==> !r.justMarked && !r.data.value.attended
  {
    if r.justMarked then CheckInComplete
    else if r.data.value.attended then AlreadyCheckedIn
    else ReadyToCheckIn
  }

  function HeaderText(h: Header): string {
    match h
    case CheckInComplete => "Check-In Complete"
    case AlreadyCheckedIn => "Already Checked In"
    case ReadyToCheckIn => "Ready to Check In"
  }

  /** The "Registration not approved" banner shows for any status but Accepted. */
  predicate NotApproved(r: ScanResult)
    requires r.data.Some?
  {
    r.data.value.status != "Accepted"
  }

  /** The button is offered exactly when the header says ready and the
      registration is approved. */
  lemma OfferMatchesHeader(r: ScanResult)
    requires r.data.Some?
    ensures CheckInOffered(r) <==> HeaderOf(r) == ReadyToCheckIn && !NotApproved(r)
  {
  }

  /** A successful check-in takes the button away and shows "Check-In Complete",
      whatever the answer said about attendance. */
  lemma MarkedRemovesOffer(s: Session, answer: ScanResult)
    requires answer.data.Some?
    ensures var r := Marked(s, Success(answer));
      && r.result.value.data.Some?
      && !CheckInOffered(r.result.value)
      && HeaderText(HeaderOf(r.result.value)) == "Check-In Complete"
  {
  }

  /** "Scan Next" always returns to the input panel, and pressing it twice is
      the same as pressing it once. */
  lemma ResetShowsInput(s: Session)
    ensures InputPanelShown(Reset(s))
    ensures Reset(Reset(s)) == Reset(s)
  {
  }

  /** A successful lookup of a valid registration replaces the input panel by
      the result card; a failed lookup replaces it by the error card. */
  lemma FetchedShowsCard(s: Session, code: string, typed: bool, reply: Result<ScanResult, string>)
    requires s.error == ""
    ensures reply.Success? && reply.value.valid && reply.value.data.Some? ==>
      ResultShown(Fetched(s, code, typed, reply)) && !InputPanelShown(Fetched(s, code, typed, reply))
    ensures reply.Failure? ==> !InputPanelShown(Fetched(s, code, typed, reply))
  {
  }

  // ---------------------------------------------------------------------------
  // Whole sessions

  /** Everything that can happen to the page, in the order it happens. */
  datatype Event =
    | Typed(text: string)
    | SubmitTyped
    | Decoded(text: string)
    | FetchAnswered(code: string, typed: bool, reply: Result<ScanResult, string>)
    | CameraToggled
    | ConfirmPressed
    | MarkAnswered(reply: Result<ScanResult, string>)
    | ScanNext

  function Step(s: Session, e: Event): (r: Session)
    ensures s.scannedCodes <= r.scannedCodes
    ensures !e.FetchAnswered? ==> r.scannedCodes == s.scannedCodes
  {
    match e
    case Typed(text) => ManualInputChanged(s, text)
    case SubmitTyped => ManualScan(s).0
    case Decoded(text) => CameraDecoded(s, text).0
    case FetchAnswered(code, typed, reply) => Fetched(s, code, typed, reply)
    case CameraToggled => ToggleCamera(s)
    case ConfirmPressed => MarkAttendance(s).0
    case MarkAnswered(reply) => Marked(s, reply)
    case ScanNext => Reset(s)
  }

  function Run(s: Session, events: seq<Event>): Session
    decreases |events|
  {
    if events == [] then s else Run(Step(s, events[0]), events[1..])
  }

  /** Nothing in a session ever forgets a scanned code. */
  lemma {:induction false} RunKeepsCodes(s: Session, events: seq<Event>)
    ensures s.scannedCodes <= Run(s, events).scannedCodes
    decreases |events|
  {
    if events != [] {
      RunKeepsCodes(Step(s, events[0]), events[1..]);
    }
  }

  predicate AddsCode(e: Event, c: string) {
    e.FetchAnswered? && e.code == c && e.reply.Success?
  }

  /** Codes join the set only through a successful lookup answer. */
  lemma {:induction false} RunAddsOnlyAnsweredCodes(s: Session, events: seq<Event>, c: string)
    requires c in Run(s, events).scannedCodes && c !in s.scannedCodes
    ensures exists i :: 0 <= i < |events| && AddsCode(events[i], c)
    decreases |events|
  {
    var e := events[0];
    var t := Step(s, e);
    if c in t.scannedCodes {
      assert AddsCode(events[0], c);
    } else {
      RunAddsOnlyAnsweredCodes(t, events[1..], c);
      var i :| 0 <= i < |events[1..]| && AddsCode(events[1..][i], c);
      assert events[i + 1] == events[1..][i];
    }
  }

  /** Once a code has been looked up successfully, no later submission of it,
      typed or scanned, is looked up again in the same session. */
  lemma NoSecondLookup(s: Session, code: string, typed: bool, answer: ScanResult, later: seq<Event>, text: string)
    requires Trim(text) == code
    ensures var t := Run(Fetched(s, code, typed, Success(answer)), later);
      && CameraDecoded(t, text).1.None?
      && (IsBlank(t.manualInput) || Trim(t.manualInput) != code || ManualScan(t).1.None?)
  {
    RunKeepsCodes(Fetched(s, code, typed, Success(answer)), later);
  }
}
