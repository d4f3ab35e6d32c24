# BEAT BLAZE 2025 event front end: the decisions inside the handlers

This project models the front end of the BEAT BLAZE 2025 event-registration site, a React app. It covers the small pure decisions made inside the event handlers, and proves properties of them in Dafny 4.11. Each handler becomes a function from state to state over immutable records. A handler that awaits the server is split in two:
- a *start* function returns the new state and the request it would send, if any;
- a *completion* function takes the server's answer (or the thrown message) as an input.

Modules, one per concern of the program:

| module | file | what it models |
|---|---|---|
| `Wrappers` | wrappers.dfy | `Option` and `Result` |
| `Text` | text.dfy | JavaScript `trim()` over the ECMAScript white-space and line-terminator set, ASCII `toUpperCase()`, the `a \|\| b` message fallback, decimal digits |
| `Validators` | validators.dfy | the mobile regex `^[0-9]{10}$` and the email regex `^[^\s@]+@[^\s@]+\.[^\s@]+$` |
| `Registration` | registration.dfy | the registration form, the ordered `validateForm` of both pages, type switching, the member-list edits, the DJ-night submit |
| `SportsAcademy` | academy.dfy | the academy page: price table with promocode override, discount, UPI payment link, the promocode flow, the reset after a successful submit |
| `Octets`, `Base64`, `Uri` | octets.dfy, base64.dfy, uri.dfy | Latin-1 and UTF-8 bytes, base 64 (section 4 of RFC 4648, as `btoa` produces it), `encodeURIComponent` |
| `Api` | api.dfy | api.js's one-slot credential store, the HTTP Basic header (section 2 of RFC 7617), `login`, and each wrapper's throw-message-or-fallback rule |
| `Access` | access.dfy | the route table and `ProtectedRoute` of App.jsx, the login page's guard and role redirect |
| `Scanner` | scanner.dfy | the entry scanner's session: duplicate guard, lookups, check-in, reset, the result card's header and button |
| `Admin` | admin.dfy | the dashboard's status badge, filters, and the actions the details window offers and sends |
| `Promocodes` | promocodes.dfy | the promocode admin panel: create form, required-field guard, payload, toggle, delete guard, remaining uses |
| `Countdown` | countdown.dfy | `calculateTimeLeft` on the landing page |

The network, `alert`/`confirm`, the clock and navigation are inputs or outputs:
- a server answer is a datatype argument;
- a `confirm` answer is a `bool` argument;
- the countdown's `difference` (event time less now, in milliseconds) is an `int` argument;
- a navigation is a returned path.

## Model

| member | source | states |
|---|---|---|
| `Registration.ValidateForm` | src/pages/Register.jsx:70-96 | a reported failure is a rule the form really violates |
| `Registration.ValidateFormFirstFailure` | src/pages/Register.jsx:70-96 | `validateForm` returns null exactly when no rule is violated; otherwise every rule earlier in the fixed order holds, so the reported one is the first failing rule |
| `Registration.RuleBeforeResult` | src/pages/Register.jsx:79-93 | any single rule ranked before the result (member rules included, by 1-based index) holds |
| `Registration.FirstIncomplete` | src/pages/Register.jsx:88-93 | the member loop finds the lowest index whose trimmed first or last name is empty, and none before it |
| `Registration.MessageInjective` | src/pages/Register.jsx:71-91 | different rules show different messages; the member message's number identifies the member |
| `Registration.MemberMessageNumber` | src/pages/Register.jsx:88-91 | the number in the message about an incomplete member reads back as that member's 1-based position |
| `Validators.EmailIffPattern` | src/pages/Register.jsx:76 | the email check holds iff there is no whitespace, exactly one `@`, a non-empty local part, and a `.` with a character on each side in the domain |
| `Validators.IsMobile` | src/pages/Register.jsx:74 | a number the pattern accepts has no white space for `trim()` to remove |
| `Validators.IsEmail` | src/pages/Register.jsx:76 | an address the check accepts holds an `@` and is at least as long as `a@b.c` |
| `Validators.OnlyOneAt` | src/pages/Register.jsx:76 | "exactly one `@`" as a count equals "no `@` anywhere else" |
| `Validators.EmailAccepts` | src/pages/Register.jsx:76 | a plain address passes the email check |
| `Validators.EmailRejects` | src/pages/Register.jsx:76 | a text without `@` fails it |
| `Validators.MobileExamples` | src/pages/Register.jsx:74 | ten digits pass the mobile check; five digits fail it |
| `Validators.PaddedMobileRejected` | src/pages/Register.jsx:73-74 | the mobile check is untrimmed: `" 9876543210"` is refused although its trimmed text passes |
| `Validators.MobileIsNotBlank` | src/pages/Register.jsx:73-74 | a valid mobile number is never blank, so the presence check never hides a format pass |
| `Validators.EmailIsNotBlank` | src/pages/Register.jsx:75-76 | a valid email is never blank |
| `Registration.ChangeType` | src/pages/Register.jsx:32-42 | the type is set and the registrant's fields are kept; Couple gets one blank partner; on the DJ-night page other types keep the list; the academy page empties it for Individual |
| `Registration.CoupleSwitchSatisfiesCount` | src/pages/Register.jsx:79-86 | after switching to Couple the Couple-count and Family-count rules cannot fail |
| `Registration.AcademyIndividualHasNoMemberErrors` | src/pages/SportsAcademyRegister.jsx:64-74 | an academy Individual form can only fail on the registrant's own fields |
| `Registration.RemoveAt` | src/pages/Register.jsx:57 | `filter((_, i) => i !== index)` drops exactly that index and keeps the rest in order; an out-of-range index keeps the list |
| `Registration.UpdateAt` | src/pages/Register.jsx:64-66 | the `map` changes one field of one member and nothing else |
| `Registration.AddMember` | src/pages/Register.jsx:44-52 | one blank member is appended after the unchanged existing ones |
| `Registration.RemoveMember` | src/pages/Register.jsx:54-59 | the form's member list loses exactly the given index; nothing else changes |
| `Registration.ChangeMember` | src/pages/Register.jsx:61-68 | the form's member list gets the one-field update; nothing else changes |
| `Registration.RemoveUndoesAdd` | src/pages/Register.jsx:44-59 | removing the member just added gives back the form |
| `Registration.ChangeMemberSameValue` | src/pages/Register.jsx:61-68 | writing back a field's own value leaves the form unchanged |
| `Registration.ChangeMemberLastWins` | src/pages/Register.jsx:61-68 | of two edits of the same field the later one wins |
| `Registration.TotalMembers` | src/pages/Register.jsx:369 | the count is the registrant plus the additional members |
| `Registration.ValidFormTotals` | src/pages/Register.jsx:78-86 | a couple form that passes validation counts exactly two people; a DJ-night family form that passes counts at least two |
| `Registration.DjNightAmount` | src/pages/Register.jsx:123 | 2000 exactly for Couple, 4000 exactly otherwise |
| `Registration.InputChanged` | src/pages/Register.jsx:23-30 | the named input takes the value, every other input keeps its value, and the error is cleared |
| `Registration.InputChangedSameValue` | src/pages/Register.jsx:23-30 | retyping an input's own value changes only the error line |
| `Registration.SubmitStart` | src/pages/Register.jsx:98-108 | the form is sent exactly when no rule is violated, with the error cleared and the page busy; otherwise nothing is sent and the error is the message of `validateForm`'s first failing rule |
| `Registration.DjNightSubmitted` | src/pages/Register.jsx:110-120 | navigates to `/success/<id>` exactly on a successful answer; a throw shows its message or the fallback; the busy flag always ends |
| `Access.DjNightLandsOnSuccess` | src/App.jsx:66 | the path a successful registration navigates to shows that registration's success page |
| `SportsAcademy.OriginalAmount` | src/pages/SportsAcademyRegister.jsx:195 | the list price is 1149 exactly for Individual and 1999 otherwise |
| `SportsAcademy.Amount` | src/pages/SportsAcademyRegister.jsx:187-192 | without a promocode, the list price (positive); with one, its price for the type |
| `SportsAcademy.Discount` | src/pages/SportsAcademyRegister.jsx:194-196 | amount plus discount is the list price |
| `SportsAcademy.DiscountOnlyWithPromo` | src/pages/SportsAcademyRegister.jsx:194-196 | a discount is non-zero exactly under a promocode whose price differs; it is 0 without one |
| `SportsAcademy.FreeOnlyWithPromo` | src/pages/SportsAcademyRegister.jsx:187-192 | a zero amount needs a promocode granting price 0 for the type |
| `SportsAcademy.PaymentLink` | src/pages/SportsAcademyRegister.jsx:199-225 | a link exists exactly for a positive amount; otherwise it is cleared |
| `SportsAcademy.PaymentLinkText` | src/pages/SportsAcademyRegister.jsx:203-205 | the link is exactly `upi://pay?pa=8866793934@ybl&pn=BEAT%20BLAZE%202025&am=<amount>&cu=INR&tn=Event%20Registration` |
| `SportsAcademy.PayeeEncoded` | src/pages/SportsAcademyRegister.jsx:204-205 | `encodeURIComponent('BEAT BLAZE 2025')` is `BEAT%20BLAZE%202025` |
| `SportsAcademy.NoteEncoded` | src/pages/SportsAcademyRegister.jsx:205 | `encodeURIComponent('Event Registration')` is `Event%20Registration` |
| `SportsAcademy.EncodeWords` | src/pages/SportsAcademyRegister.jsx:204-205 | words of unreserved characters joined by a space encode to the words joined by `%20` |
| `SportsAcademy.EncodeNextWord` | src/pages/SportsAcademyRegister.jsx:204-205 | one more unreserved word after a space adds `%20` and the word to the encoding |
| `SportsAcademy.PaymentLinkAmount` | src/pages/SportsAcademyRegister.jsx:205 | the amount read back from the link is the amount written into it |
| `SportsAcademy.PaymentLinkInjective` | src/pages/SportsAcademyRegister.jsx:205 | different amounts give different links |
| `SportsAcademy.LeadingDigits` | src/pages/SportsAcademyRegister.jsx:205 | reads the longest digit prefix, which ends before the first non-digit |
| `SportsAcademy.LinkAmount` | src/pages/SportsAcademyRegister.jsx:205 | a link whose amount can be read back starts with the link head, ends with the link tail, and holds at least one character, all digits, between them |
| `SportsAcademy.Total` | src/pages/SportsAcademyRegister.jsx:636-637 | the total reads "FREE (₹0)" exactly for amount 0, and the amount otherwise |
| `SportsAcademy.FreeOrPaid` | src/pages/SportsAcademyRegister.jsx:386 | for a non-negative amount: the select is disabled iff no link is built iff the total is the free text |
| `SportsAcademy.FreeBannerAgrees` | src/pages/SportsAcademyRegister.jsx:581-588 | the free banner, the disabled select and the free total go together |
| `SportsAcademy.FreeBannerShown` | src/pages/SportsAcademyRegister.jsx:581-584 | while the free banner shows, no payment link is made |
| `SportsAcademy.PromoInputChanged` | src/pages/SportsAcademyRegister.jsx:548 | the promocode box holds the typed text with its ASCII letters upper-cased, the same length, with no ASCII lower-case letter left |
| `SportsAcademy.PromoInputStable` | src/pages/SportsAcademyRegister.jsx:548 | retyping the box's contents leaves it unchanged |
| `SportsAcademy.ApplyPromocode` | src/pages/SportsAcademyRegister.jsx:85-95 | a blank box shows "Please enter a promocode" and looks nothing up; otherwise the trimmed, non-blank code is looked up |
| `SportsAcademy.ApplyDisabled` | src/pages/SportsAcademyRegister.jsx:557 | outside a lookup, the Apply button is disabled exactly when pressing it would look nothing up |
| `SportsAcademy.PromoReplied` | src/pages/SportsAcademyRegister.jsx:97-113 | a valid code is applied and copied into the form; otherwise the promo is dropped, the form's code emptied, and an error shown, with fallbacks |
| `SportsAcademy.RemovePromocode` | src/pages/SportsAcademyRegister.jsx:116-121 | clears the promo, the box, the form's code and the error |
| `SportsAcademy.ApplyThenRemove` | src/pages/SportsAcademyRegister.jsx:85-121 | applying a code sets its price; removing it restores the list price with no discount |
| `SportsAcademy.TypeChanged` | src/pages/SportsAcademyRegister.jsx:64-74 | the academy type switch changes only the form: the promocode, the box, the error and both busy flags are kept, and the amount follows the new type |
| `SportsAcademy.Submit` | src/pages/SportsAcademyRegister.jsx:145-155 | the form is sent exactly when no academy rule is violated, with the error cleared and the page busy; otherwise the first failing rule's message shows and the busy flag is untouched; the form and the promocode stay |
| `SportsAcademy.Submitted` | src/pages/SportsAcademyRegister.jsx:157-183 | success resets the form and drops promo and box; an unsuccessful answer only ends the busy state; a throw shows its message or the fallback and keeps the form, the promocode and the box |
| `SportsAcademy.SubmitSuccessRestoresInitial` | src/pages/SportsAcademyRegister.jsx:165-177 | a valid submission that succeeds returns the page to its initial state at the Individual list price |
| `Text.Trim` | src/pages/Register.jsx:71 | `trim()` is never longer than the text and yields empty exactly for a blank text |
| `Text.TrimSlice` | src/pages/Register.jsx:71 | `trim()` keeps the slice between the first and the last character that is not white space; everything outside it is white space |
| `Text.TrimStartSuffix` | src/pages/Register.jsx:71 | dropping the leading white space keeps a suffix that starts with a character that is not white space |
| `Text.TrimEndPrefix` | src/pages/Register.jsx:71 | dropping the trailing white space keeps a prefix that ends with a character that is not white space |
| `Text.TrimIdempotent` | src/pages/Register.jsx:71 | trimming twice is trimming once |
| `Text.ToUpper` | src/pages/Scanner.jsx:232 | every ASCII lower-case letter is upper-cased; every other character is kept |
| `Text.ToUpperIdempotent` | src/pages/Scanner.jsx:232 | upper-casing twice is upper-casing once |
| `Text.OrElse` | src/services/api.js:46 | `m \|\| fallback` is the message when non-empty and the fallback otherwise, so it is never empty when the fallback is not |
| `Text.Decimal` | src/pages/Register.jsx:91 | the decimal text of a number has digits only and no leading zero |
| `Text.DecimalRoundTrip` | src/pages/Register.jsx:91 | reading the decimal text back gives the number |
| `Text.DecimalInjective` | src/pages/Register.jsx:91 | different numbers have different decimal texts |
| `Octets.Latin1` | src/services/api.js:22 | `btoa` accepts a text exactly when every character is at most U+00FF, taking one byte per character |
| `Octets.Latin1RoundTrip` | src/services/api.js:22 | bytes taken from a Latin-1 text give back the text |
| `Base64.Encode` | src/services/api.js:22 | the base-64 text has four characters per started group of three bytes |
| `Base64.BlockRoundTrip` | src/services/api.js:22 | a three-byte group decodes back from its four characters |
| `Base64.DecodeEncode` | src/services/api.js:22 | decoding the base-64 text gives back the bytes |
| `Uri.DecodeEncodeBytes` | src/pages/SportsAcademyRegister.jsx:205 | percent-decoding the encoding gives back the bytes |
| `Uri.EncodeURIComponent` | src/pages/SportsAcademyRegister.jsx:205 | the encoding is never shorter than the text and holds only ASCII characters |
| `Uri.EncodeAppend` | src/pages/SportsAcademyRegister.jsx:205 | `encodeURIComponent` distributes over concatenation |
| `Uri.EncodeUnreserved` | src/pages/SportsAcademyRegister.jsx:205 | a text of unreserved characters encodes to itself |
| `Uri.SpaceEncoded` | src/pages/SportsAcademyRegister.jsx:205 | a space encodes to `%20` |
| `Api.GetUser` | src/services/api.js:83-86 | reading the slot gives the stored entry or null |
| `Api.Logout` | src/services/api.js:79-81 | after logout nothing can be read back |
| `Api.Login` | src/services/api.js:32-56 | only an ok response stores username, password and role; otherwise the store is untouched and the message or "Login failed" is thrown |
| `Api.GetUserAfterLogin` | src/services/api.js:50 | after a successful login `getUser` returns the stored username, password and role |
| `Api.GetUserAfterLogout` | src/services/api.js:79-86 | after any login, a logout leaves `getUser` null |
| `Api.BasicToken` | src/services/api.js:21-22 | the token exists exactly for a Latin-1 `user:password`, with the base-64 length |
| `Api.AuthHeaders` | src/services/api.js:18-28 | no stored entry gives no headers; a stored one gives only `Authorization: Basic <token>` |
| `Api.ParseBasic` | src/services/api.js:24 | the user-id read from a header contains no colon |
| `Api.AuthHeaderRoundTrip` | src/services/api.js:18-28 | a server decoding the header recovers the stored username and password |
| `Api.Call` | src/services/api.js:58-77 | an ok response resolves; a non-ok one throws the body's message or the wrapper's fallback, never empty; a rejection is rethrown unchanged |
| `Api.Fallback` | src/services/api.js:100 | every wrapper's fallback text is non-empty |
| `Api.PageFallbackUnreached` | src/services/api.js:58-77 | since a wrapper's message is never empty, a page's own `err.message \|\| ...` fallback never shows for a non-ok response |
| `Access.Match` | src/App.jsx:64-95 | the dashboard and scanner screens are matched by exactly their paths |
| `Access.Protect` | src/App.jsx:17-29 | the page shows exactly when a user is stored and the role list is empty or holds the role; otherwise it redirects to `/login` |
| `Access.Route` | src/App.jsx:64-95 | unknown paths redirect to `/`; redirects only go to `/` or `/login`; a shown page is the matched one |
| `Access.AdminAdmission` | src/App.jsx:75-82 | `/admin` shows exactly for a stored admin, else redirects to `/login` |
| `Access.ScannerAdmission` | src/App.jsx:85-92 | `/scanner` shows exactly for a stored admin or staff user, else redirects to `/login` |
| `Access.EmptyRolesAdmitAnyUser` | src/App.jsx:24-28 | an empty role list admits any stored user |
| `Access.RedirectsSettle` | src/App.jsx:95 | a redirect lands on a page that shows for anyone |
| `Access.SuccessPathShows` | src/App.jsx:66 | `/success/<id>` shows the success page of `id` |
| `Access.LoginSubmit` | src/pages/Login.jsx:24-33 | an empty username or password shows the message and sends nothing; otherwise the fields are sent |
| `Access.LoginSubmitStores` | src/pages/Login.jsx:28-36 | the fields the page sends are the ones an ok login stores, with the role the server reports |
| `Access.LandingFor` | src/pages/Login.jsx:41-46 | admin goes to `/admin`, staff to `/scanner`, any other role nowhere |
| `Access.LoginCompleted` | src/pages/Login.jsx:35-52 | navigates by role exactly on success; a failure shows the thrown message or the page's fallback |
| `Access.LandingAdmitsRole` | src/pages/Login.jsx:42-46 | the page a login redirects to admits the account just stored |
| `Access.LoginErrorIsServerMessage` | src/pages/Login.jsx:48-50 | for a non-ok login the page shows the API's message, never its own fallback |
| `Scanner.ManualInputChanged` | src/pages/Scanner.jsx:232 | the box holds the typed text with its ASCII letters upper-cased; nothing else changes |
| `Scanner.ManualScan` | src/pages/Scanner.jsx:119-133 | a blank box changes nothing; a code already seen shows the "already scanned" error and sends nothing; a new one is looked up trimmed |
| `Scanner.CameraDecoded` | src/pages/Scanner.jsx:47-69 | the camera turns off; a code already seen sends nothing; a new one is looked up trimmed |
| `Scanner.Fetched` | src/pages/Scanner.jsx:71-93 | a successful lookup adds the code and shows the answer; a failed one keeps the set and shows the message or fallback |
| `Scanner.ToggleCamera` | src/pages/Scanner.jsx:101-109 | flips the camera and clears error and result |
| `Scanner.MarkAttendance` | src/pages/Scanner.jsx:150-155 | nothing happens without looked-up details; otherwise the registration is marked |
| `Scanner.Marked` | src/pages/Scanner.jsx:156-168 | success replaces the result with `justMarked` set; failure keeps it and shows the error |
| `Scanner.Reset` | src/pages/Scanner.jsx:171-181 | clears result, error, box and camera, and keeps every scanned code |
| `Scanner.HeaderOf` | src/pages/Scanner.jsx:289-300 | "Check-In Complete" iff just marked, else "Already Checked In" iff attended, else "Ready to Check In" |
| `Scanner.OfferMatchesHeader` | src/pages/Scanner.jsx:401 | the button is offered iff the header reads "Ready to Check In" and the registration is approved |
| `Scanner.MarkedRemovesOffer` | src/pages/Scanner.jsx:156-163 | after a successful check-in the button is gone and the header reads "Check-In Complete" |
| `Scanner.ResetShowsInput` | src/pages/Scanner.jsx:196 | after a reset the input panel shows, and resetting twice is resetting once |
| `Scanner.FetchedShowsCard` | src/pages/Scanner.jsx:277-288 | a successful lookup of a valid registration shows the result card; a failed one shows the error card, never the input panel |
| `Scanner.Step` | src/pages/Scanner.jsx:47-181 | no handler removes a scanned code; only a lookup answer can add one |
| `Scanner.RunKeepsCodes` | src/pages/Scanner.jsx:180 | over any sequence of events the scanned set only grows |
| `Scanner.RunAddsOnlyAnsweredCodes` | src/pages/Scanner.jsx:77 | a code joins the set only through a successful lookup answer for that code (answers are not tied to an earlier request) |
| `Scanner.NoSecondLookup` | src/pages/Scanner.jsx:56-64 | once a code was looked up successfully, no later camera scan or typed entry of it is looked up again |
| `Scanner.CheckInOffered` | src/pages/Scanner.jsx:401 | "Confirm Check-In" is offered only under the "Ready to Check In" header |
| `Admin.BadgeClass` | src/pages/AdminDashboard.jsx:105-111 | Accepted, Rejected and everything else map to their badge, each iff |
| `Admin.ChangeFilter` | src/pages/AdminDashboard.jsx:48-54 | the named filter takes the value and the others are unchanged |
| `Admin.FiltersByKeys` | src/pages/AdminDashboard.jsx:11-16 | filters agreeing on all four keys are equal |
| `Admin.ChangeFilterLaws` | src/pages/AdminDashboard.jsx:48-54 | setting a filter to its own value is a no-op; later settings win; different keys commute |
| `Admin.FilterChanged` | src/pages/AdminDashboard.jsx:20-22 | a filter change re-reads the list with the new filters |
| `Admin.ModalActions` | src/pages/AdminDashboard.jsx:315-327 | Delete is always offered; Accept and Reject exactly for Pending |
| `Admin.OfferedStatusLooksPending` | src/pages/AdminDashboard.jsx:315-327 | Accept is offered only for a registration wearing the pending badge; any other badge gets Delete alone |
| `Admin.OpenDetails` | src/pages/AdminDashboard.jsx:56-59 | opens the window on the chosen registration |
| `Admin.Press` | src/pages/AdminDashboard.jsx:61-89 | a request is sent exactly for an offered button in an open window once confirmed, with the right status or delete |
| `Admin.StatusChangesOnlyFromPending` | src/pages/AdminDashboard.jsx:315-324 | a status change is sent only for a pending registration, only to Accepted or Rejected |
| `Admin.OpenedWindowOffers` | src/pages/AdminDashboard.jsx:315-327 | in a freshly opened window a confirmed Delete is sent, and a confirmed Accept iff pending |
| `Admin.DeclinedSendsNothing` | src/pages/AdminDashboard.jsx:62-64 | a declined confirmation sends nothing |
| `Admin.ActionDone` | src/pages/AdminDashboard.jsx:66-73 | success re-reads the list and closes the window; failure changes nothing |
| `Admin.ClosedWindowSendsNothing` | src/pages/AdminDashboard.jsx:69-70 | after a successful action no button sends until a registration is opened again |
| `Promocodes.InputChanged` | src/components/PromocodeManagement.jsx:34-40 | the code is stored with its ASCII letters upper-cased, the other fields as typed, the rest unchanged |
| `Promocodes.RetypedCodeStable` | src/components/PromocodeManagement.jsx:38 | retyping the shown code leaves the form unchanged |
| `Promocodes.ParseInteger` | src/components/PromocodeManagement.jsx:53-55 | a negative number is read only from a text starting with `-` |
| `Promocodes.ParseIntegerText` | src/components/PromocodeManagement.jsx:53-55 | `Number` reads every whole number of magnitude at most 2^53 back from its text |
| `Promocodes.Submit` | src/components/PromocodeManagement.jsx:42-56 | refused with "All fields are required" iff some field is empty; otherwise the code is passed through and the three numbers converted |
| `Promocodes.SubmitSendsTypedNumbers` | src/components/PromocodeManagement.jsx:51-56 | typing three whole numbers of magnitude at most 2^53 sends exactly those numbers |
| `Promocodes.Created` | src/components/PromocodeManagement.jsx:58-62 | a successful create empties every field; a failure keeps the form |
| `Promocodes.CreatedFormRefused` | src/components/PromocodeManagement.jsx:59 | the emptied form cannot be submitted as it is |
| `Promocodes.Toggle` | src/components/PromocodeManagement.jsx:66-72 | an active code is deactivated and an inactive one activated, by its id |
| `Promocodes.ToggleFlips` | src/components/PromocodeManagement.jsx:66-72 | a toggle flips the flag, and two toggles restore the row |
| `Promocodes.DeletePressed` | src/components/PromocodeManagement.jsx:79-96 | a used code is refused with its message; a confirmed delete of an unused code is sent |
| `Promocodes.DeleteShownAgrees` | src/components/PromocodeManagement.jsx:228 | the delete button shows exactly when a confirmed delete would be sent |
| `Promocodes.DeleteShown` | src/components/PromocodeManagement.jsx:228 | a code whose delete button shows still has all its uses remaining |
| `Promocodes.Remaining` | src/components/PromocodeManagement.jsx:204-205 | remaining plus used is the quantity |
| `Promocodes.DangerWhenSpent` | src/components/PromocodeManagement.jsx:204 | the danger flag shows exactly when all uses are spent, and such a code (with uses) cannot be deleted |
| `Countdown.Tick` | src/pages/Home.jsx:15-28 | a positive difference gives hours below 24, minutes and seconds below 60; otherwise the previous value stays |
| `Countdown.TickDays` | src/pages/Home.jsx:22 | days is the difference divided by 86400000, rounded down |
| `Countdown.TickRecomposes` | src/pages/Home.jsx:22-25 | the recomposed milliseconds are at most the difference and less than 1000 below it |
| `Countdown.TickAfterEvent` | src/pages/Home.jsx:6-11 | a non-positive difference keeps the state, so a late page shows all zeros |
| `Countdown.JsRem` | src/pages/Home.jsx:23 | JavaScript `%` on a non-negative dividend is the ordinary remainder |
| `Countdown.TickDigits` | src/pages/Home_new.jsx:23-25 | hours, minutes and seconds are the mixed-radix digits of the difference |
| `Countdown.TickUnique` | src/pages/Home_new.jsx:20-26 | the split is the only in-range time that recomposes to the difference within a second |
| `Countdown.MixedRadix` | src/pages/Home_new.jsx:22-25 | a count of seconds equals its days, hours, minutes and seconds put together |
| `Countdown.TickMonotone` | src/pages/Home_backup.jsx:20-26 | less time left never shows more |
| `Countdown.SecondsSplit` | src/pages/Home_backup.jsx:22-25 | a well-formed split of a count of seconds is recovered by the page's divisions |
| `Countdown.FloorDiv` | src/pages/Home_backup.jsx:22 | `Math.floor(a / b)` for positive `b` brackets `a` between `q·b` and `q·b + b` |

## Left out

- Network calls and the server are left out. Every answer is an input: ok, not ok with a message, or thrown. Server-side rules (promocode quantity, ticket ids, idempotent check-in) are not in the program.
- Rendering, CSS, `alert`, `confirm`, the clipboard and `navigate` are left out. A confirmation answer is a `bool` input; a navigation is a returned path.
- QR-code drawing and camera decoding are foreign libraries. The camera is modelled as "a decoded text arrives" (`Scanner.CameraDecoded`).
- The clock is left out. The countdown takes `difference` as an integer number of milliseconds. Locale formatting is left out too (`toLocaleString`), so `SportsAcademy.Total` carries the amount itself, not its formatted text.
- Overlapping requests, double clicks and the camera callback's stale view of `scannedCodes` are concurrency, which the page does not coordinate. The model applies events one at a time.
- The app's other parts are not modelled:
  - the registration-status check the academy page has commented out;
  - the dashboard's statistics, CSV export download and usage window;
  - the promocode list loading and the "view usage" window;
  - the scanner's and dashboard's logout buttons, which are `Api.Logout` followed by a navigation to `/login`;
  - the login page's `handleChange`, which only copies a field and clears the error;
  - api.js's unused `handleApiError` helper.
- The success, pass and verify pages and the scroll-to-top component are fetch-and-render views with no decision worth modelling. src/pages/Success.jsx, src/pages/Pass.jsx, src/pages/Verify.jsx and src/components/ScrollToTop.jsx are not part of this model.
- `Access.Match`: routes are matched exactly. React Router's case-insensitive matching, trailing slashes and percent-decoding of parameters are not modelled.
- `SportsAcademy.Amount`: promocode prices and the amounts computed from them are whole rupees (`int`). A fractional price that the admin panel's `Number()` could store is not modelled on the academy page: the `am=` field of the payment link, the discount subtraction and the `=== 0` free test are proved for whole numbers only.
- `Promocodes.ParseInteger`: `Number()` is modelled only on texts of an optional `-` and digits. Other texts (fractions, exponents, surrounding blanks) give `None` and are not evaluated.
- `Promocodes.ParseInteger` / `Text.Decimal`: numbers are unbounded `int`, while JavaScript's are IEEE 754 doubles. `Number()` rounds a digit text beyond 2^53 to a nearby double (`"9007199254740993"` reads as 9007199254740992), so the read-back and the sent payload are exact only up to 2^53. Template literals print amounts of 1e21 and more in exponent form (`1e+21`), which `Text.Decimal` and the payment link's `am=` field do not model.
- `Text.ToUpper`: models `toUpperCase()` on ASCII letters only. Every other character is kept unchanged. JavaScript's full Unicode case mapping (`é` to `É`, `ß` to `SS`, which can change the length) is not modelled.
- ManualInputChanged (`Scanner.ManualInputChanged`): the typed ticket id is upper-cased through `Text.ToUpper`, so only ASCII letters change; the Unicode mapping of `toUpperCase()` is not modelled.
- InputChanged (`Promocodes.InputChanged`): the code field is upper-cased through `Text.ToUpper`, so only ASCII letters change; the Unicode mapping of `toUpperCase()` is not modelled.
- PromoInputChanged (`SportsAcademy.PromoInputChanged`): upper-cased through `Text.ToUpper`. Its clause that the box keeps the typed length holds for this ASCII mapping, not for JavaScript's, where `ß` becomes `SS`.
- `Uri.EncodeBytes`: `encodeURIComponent` works on the UTF-8 bytes of the text. Dafny characters are Unicode scalar values, so the lone surrogates on which the JavaScript function throws do not arise.
- `Scanner.Fetched`: the answer is stored as the server sends it. The page would fail to render a `valid` answer without `data`, and `Scanner.ResultShown` requires data for that reason.
- `Api.Call`: a response body that is not JSON makes `response.json()` throw. This is covered by the `Rejected` case, whose message is whatever the runtime throws.
