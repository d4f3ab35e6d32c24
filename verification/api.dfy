/** The client side of the HTTP API (src/services/api.js): the one-slot
    credential store kept in the browser's storage, the HTTP Basic header built
    from it (section 2 of RFC 7617, base 64 as in section 4 of RFC 4648), the
    login call, and the rule every wrapper follows on a failed response. */
module Api {
  import opened Wrappers
  import opened Text
  import opened Octets
  import opened Validators
  import Base64

  /** The stored `auth` entry. */
  datatype Credentials = Credentials(username: string, password: string, role: string)

  /** The storage slot: empty, or one entry. */
  type Store = Option<Credentials>

  /** Reading the slot back. */
  function GetUser(store: Store): (r: Option<Credentials>)
    ensures r.None? <==> store.None?
    ensures r.Some? ==> r.value == store.value
  {
    store
  }

  /** Logging out empties the slot. */
  function Logout(store: Store): (r: Store)
    ensures GetUser(r).None?
  {
    None
  }

  /** How the login request ended: an ok response carrying the account's role,
      a response that was not ok with the server's message (possibly empty), or
      a rejection before any response, whose message is passed on unchanged. */
  datatype LoginReply = LoginOk(role: string) | LoginNotOk(message: string) | LoginRejected(message: string)

  /** Logging in: only an ok response stores the credentials, together with the
      role the server reported; otherwise the slot is untouched and the call
      fails with the server's message or "Login failed". */
  function Login(store: Store, username: string, password: string, reply: LoginReply)
    : (r: (Store, Result<string, string>))
    ensures r.1.Success? <==> reply.LoginOk?
    ensures r.1.Success? ==> r.0 == Some(Credentials(username, password, reply.role)) && r.1.value == reply.role
    ensures r.1.Failure? ==> r.0 == store
    ensures reply.LoginNotOk? ==> r.1.error != "" && (reply.message != "" ==> r.1.error == reply.message)
    ensures reply.LoginRejected? ==> r.1.error == reply.message
  {
    match reply
    case LoginOk(role) => (Some(Credentials(username, password, role)), Success(role))
    case LoginNotOk(m) => (store, Failure(OrElse(m, "Login failed")))
    case LoginRejected(m) => (store, Failure(m))
  }

  /** After a successful login the slot hands back exactly what was typed and
      the role the server sent. */
  lemma GetUserAfterLogin(store: Store, username: string, password: string, role: string)
    ensures GetUser(Login(store, username, password, LoginOk(role)).0)
         == Some(Credentials(username, password, role))
  {
  }

  /** Logging out after any sequence of logins leaves nothing to read back. */
  lemma GetUserAfterLogout(store: Store, username: string, password: string, reply: LoginReply)
    ensures GetUser(Logout(Login(store, username, password, reply).0)).None?
  {
  }

  // ---------------------------------------------------------------------------
  // The Basic authorization header

  /** `btoa` of `username:password`: `None` when the text has a character
      outside Latin-1, where `btoa` throws. */
  function BasicToken(c: Credentials): (r: Option<string>)
    ensures r.Some? <==> IsLatin1(c.username + ":" + c.password)
    ensures r.Some? ==> |r.value| == 4 * ((|c.username| + |c.password| + 3) / 3)
  {
    match Latin1(c.username + ":" + c.password)
    case None => None
    case Some(bs) => Some(Base64.Encode(bs))
  }

  const Authorization := "Authorization"
  const BasicPrefix := "Basic "

  /** The headers added to authenticated calls: none without a stored entry,
      `Authorization: Basic <token>` with one; `None` where `btoa` throws. */
  function AuthHeaders(store: Store): (r: Option<map<string, string>>)
    ensures store.None? ==> r == Some(map[])
    ensures store.Some? ==> (r.None? <==> !IsLatin1(store.value.username + ":" + store.value.password))
    ensures store.Some? && r.Some? ==>
      && r.value.Keys == {Authorization}
      && r.value[Authorization] == BasicPrefix + BasicToken(store.value).value
  {
    match store
    case None => Some(map[])
    case Some(c) =>
      match BasicToken(c)
      case None => None
      case Some(token) => Some(map[Authorization := BasicPrefix + token])
  }

  /** What a server reads from such a header: the user-id before the first
      colon and the password after it (section 2 of RFC 7617). */
  function ParseBasic(value: string): (r: Option<(string, string)>)
    ensures r.Some? ==> ':' !in r.value.0
  {
    if |value| < |BasicPrefix| || value[..|BasicPrefix|] != BasicPrefix then None
    else match Base64.Decode(value[|BasicPrefix|..])
      case None => None
      case Some(bs) =>
        var text := Latin1Chars(bs);
        var k := IndexOf(text, ':');
        if k == |text| then None else Some((text[..k], text[k + 1..]))
  }

  /** The stored user name and password come back out of the header, provided
      the user name has no colon (which section 2 of RFC 7617 forbids). */
  lemma AuthHeaderRoundTrip(c: Credentials)
    requires IsLatin1(c.username + ":" + c.password)
    requires ':' !in c.username
    ensures AuthHeaders(Some(c)).Some?
    ensures ParseBasic(AuthHeaders(Some(c)).value[Authorization]) == Some((c.username, c.password))
  {
    var text := c.username + ":" + c.password;
    var bs := Latin1(text).value;
    var value := AuthHeaders(Some(c)).value[Authorization];
    assert value == BasicPrefix + Base64.Encode(bs);
    assert value[..|BasicPrefix|] == BasicPrefix;
    assert value[|BasicPrefix|..] == Base64.Encode(bs);
    Base64.DecodeEncode(bs);
    Latin1RoundTrip(text);
    SplitAtColon(c.username, c.password);
  }

  /** A colon-free user name ends at the first colon of `user:password`. */
  lemma SplitAtColon(u: string, p: string)
    requires ':' !in u
    ensures IndexOf(u + ":" + p, ':') == |u|
    ensures (u + ":" + p)[..|u|] == u && (u + ":" + p)[|u| + 1..] == p
  {
    var text := u + ":" + p;
    assert text[|u|] == ':';
    assert forall k :: 0 <= k < |u| ==> text[k] == u[k];
    assert text[..|u|] == u;
    assert text[|u| + 1..] == p;
  }

  // ---------------------------------------------------------------------------
  // Failed responses

  /** Every wrapper of the API other than login, logout and getUser. */
  datatype Endpoint =
    | AuthVerify
    | CheckStatus | CreateRegistration | GetRegistration | VerifyRegistration
    | GetRegistrationStatus | ToggleRegistrationStatus | GetStatistics | GetRegistrations
    | GetRegistrationDetails | UpdateStatus | UpdateRegistration | DeleteRegistration
    | ExportRegistrations
    | GetScanDetails | MarkAttendance | LegacyScan | GetScanHistory
    | CreatePromocode | GetPromocodes | ValidatePromocode | GetPromocodeUsage
    | DeactivatePromocode | ActivatePromocode | DeletePromocode

  /** Each wrapper's own text for a failed response without a message. */
  function Fallback(e: Endpoint): (r: string)
    ensures r != ""
  {
    match e
    case AuthVerify => "Verification failed"
    case CheckStatus => "Failed to check status"
    case CreateRegistration => "Registration failed"
    case GetRegistration => "Failed to fetch registration"
    case VerifyRegistration => "Verification failed"
    case GetRegistrationStatus => "Failed to fetch registration status"
    case ToggleRegistrationStatus => "Failed to toggle registration status"
    case GetStatistics => "Failed to fetch statistics"
    case GetRegistrations => "Failed to fetch registrations"
    case GetRegistrationDetails => "Failed to fetch registration details"
    case UpdateStatus => "Failed to update status"
    case UpdateRegistration => "Failed to update registration"
    case DeleteRegistration => "Failed to delete registration"
    case ExportRegistrations => "Failed to export registrations"
    case GetScanDetails => "Failed to fetch details"
    case MarkAttendance => "Failed to mark attendance"
    case LegacyScan => "Scan failed"
    case GetScanHistory => "Failed to fetch scan history"
    case CreatePromocode => "Failed to create promocode"
    case GetPromocodes => "Failed to fetch promocodes"
    case ValidatePromocode => "Invalid promocode"
    case GetPromocodeUsage => "Failed to fetch usage data"
    case DeactivatePromocode => "Failed to deactivate promocode"
    case ActivatePromocode => "Failed to activate promocode"
    case DeletePromocode => "Failed to delete promocode"
  }

  /** How a request ended: an ok response, a response that was not ok with the
      body's message (possibly empty), or a rejection before a usable response
      (network failure, unreadable body, `btoa` refusing the credentials). */
  datatype Reply = Ok | NotOk(message: string) | Rejected(message: string)

  /** A wrapper's outcome: `None` when it resolves with the response, or the
      message it throws. A response that is not ok throws the body's message or
      the wrapper's fallback, except that the export wrapper always throws its
      fixed text; a rejection is rethrown unchanged. */
  function Call(e: Endpoint, reply: Reply): (r: Option<string>)
    ensures r.None? <==> reply.Ok?
    ensures reply.NotOk? ==> r.value != ""
    ensures reply.NotOk? && e != ExportRegistrations && reply.message != "" ==> r.value == reply.message
    ensures reply.NotOk? && (e == ExportRegistrations || reply.message == "") ==> r.value == Fallback(e)
    ensures reply.Rejected? ==> r.value == reply.message
  {
    match reply
    case Ok => None
    case NotOk(m) => Some(if e == ExportRegistrations then Fallback(e) else OrElse(m, Fallback(e)))
    case Rejected(m) => Some(m)
  }

  /** A page's own fallback text (`err.message || ...`) never shows for a
      failed response: the wrapper's message is never empty. */
  lemma PageFallbackUnreached(e: Endpoint, message: string, pageFallback: string)
    ensures OrElse(Call(e, NotOk(message)).value, pageFallback) == Call(e, NotOk(message)).value
  {
    if e != ExportRegistrations {
      assert Fallback(e) != "";
    }
  }
}
