/** The admin dashboard's decisions (src/pages/AdminDashboard.jsx): the badge
    for a status, the four list filters, and which actions the details window
    offers and sends, each gated by a confirmation. */
module Admin {
  import opened Wrappers

  /** The badge style for a registration status: anything unknown looks pending. */
  function BadgeClass(status: string): (r: string)
    ensures r == "status-accepted" <==> status == "Accepted"
    ensures r == "status-rejected" <==> status == "Rejected"
    ensures r == "status-pending" <==> status != "Accepted" && status != "Rejected"
  {
    if status == "Accepted" then "status-accepted"
    else if status == "Rejected" then "status-rejected"
    else "status-pending"
  }

  /** The list filters; all start empty, meaning "any". */
  datatype Filters = Filters(status: string, regType: string, paymentMode: string, search: string)

  const NoFilters := Filters("", "", "", "")

  datatype FilterKey = StatusKey | TypeKey | PaymentModeKey | SearchKey

  function GetFilter(f: Filters, key: FilterKey): string {
    match key
    case StatusKey => f.status
    case TypeKey => f.regType
    case PaymentModeKey => f.paymentMode
    case SearchKey => f.search
  }

  /** Changing one filter: that key takes the new value and the others keep theirs. */
  function ChangeFilter(f: Filters, key: FilterKey, value: string): (r: Filters)
    ensures GetFilter(r, key) == value
    ensures forall k :: k != key ==> GetFilter(r, k) == GetFilter(f, k)
  {
    match key
    case StatusKey => f.(status := value)
    case TypeKey => f.(regType := value)
    case PaymentModeKey => f.(paymentMode := value)
    case SearchKey => f.(search := value)
  }

  /** Filters are determined by their four keys. */
  lemma FiltersByKeys(f: Filters, g: Filters)
    requires forall k :: GetFilter(f, k) == GetFilter(g, k)
    ensures f == g
  {
    assert GetFilter(f, StatusKey) == GetFilter(g, StatusKey);
    assert GetFilter(f, TypeKey) == GetFilter(g, TypeKey);
    assert GetFilter(f, PaymentModeKey) == GetFilter(g, PaymentModeKey);
    assert GetFilter(f, SearchKey) == GetFilter(g, SearchKey);
  }

  /** Setting a filter to its own value changes nothing; of two settings of the
      same key the later one wins; settings of different keys commute. */
  lemma ChangeFilterLaws(f: Filters, key: FilterKey, other: FilterKey, v: string, w: string)
    ensures ChangeFilter(f, key, GetFilter(f, key)) == f
    ensures ChangeFilter(ChangeFilter(f, key, v), key, w) == ChangeFilter(f, key, w)
    ensures key != other ==>
      ChangeFilter(ChangeFilter(f, key, v), other, w) == ChangeFilter(ChangeFilter(f, other, w), key, v)
  {
    FiltersByKeys(ChangeFilter(f, key, GetFilter(f, key)), f);
    FiltersByKeys(ChangeFilter(ChangeFilter(f, key, v), key, w), ChangeFilter(f, key, w));
    if key != other {
      FiltersByKeys(ChangeFilter(ChangeFilter(f, key, v), other, w),
                    ChangeFilter(ChangeFilter(f, other, w), key, v));
    }
  }

  // ---------------------------------------------------------------------------
  // The details window

  /** The buttons of the details window. */
  datatype Action = Accept | Reject | Delete

  /** Accept and Reject are offered only for a pending registration; Delete always. */
  function ModalActions(status: string): (r: set<Action>)
    ensures Delete in r
    ensures Accept in r <==> status == "Pending"
    ensures Reject in r <==> status == "Pending"
  {
    if status == "Pending" then {Accept, Reject, Delete} else {Delete}
  }

  /** The window offers Accept and Reject only for a registration whose badge
      is the pending one, and only Delete for an accepted or rejected one. */
  lemma OfferedStatusLooksPending(status: string)
    ensures Accept in ModalActions(status) ==> BadgeClass(status) == "status-pending"
    ensures BadgeClass(status) != "status-pending" ==> ModalActions(status) == {Delete}
  {
  }

  /** The registration shown in the window. */
  datatype Selected = Selected(id: string, status: string)

  datatype Dashboard = Dashboard(filters: Filters, selected: Option<Selected>, showModal: bool)

  /** What the dashboard asks of the API. */
  datatype Request =
    | FetchList(filters: Filters)
    | UpdateStatusRequest(id: string, status: string)
    | DeleteRequest(id: string)

  /** A filter change re-reads the list with the new filters. */
  function FilterChanged(d: Dashboard, key: FilterKey, value: string): (r: (Dashboard, Request))
    ensures r.0.filters == ChangeFilter(d.filters, key, value)
    ensures r.1 == FetchList(r.0.filters)
    ensures r.0.selected == d.selected && r.0.showModal == d.showModal
  {
    var f := ChangeFilter(d.filters, key, value);
    (d.(filters := f), FetchList(f))
  }

  /** "View" on a row opens the window on that registration. */
  function OpenDetails(d: Dashboard, sel: Selected): (r: Dashboard)
    ensures r.showModal && r.selected == Some(sel) && r.filters == d.filters
  {
    d.(selected := Some(sel), showModal := true)
  }

  /** Pressing a window button, with `confirmed` the answer to the confirmation
      question: only a button the window shows, and only once confirmed, sends
      its request. */
  function Press(d: Dashboard, action: Action, confirmed: bool): (r: Option<Request>)
    ensures r.Some? <==> d.showModal && d.selected.Some? && action in ModalActions(d.selected.value.status) && confirmed
    ensures r.Some? && action == Accept ==> r.value == UpdateStatusRequest(d.selected.value.id, "Accepted")
    ensures r.Some? && action == Reject ==> r.value == UpdateStatusRequest(d.selected.value.id, "Rejected")
    ensures r.Some? && action == Delete ==> r.value == DeleteRequest(d.selected.value.id)
  {
    if !d.showModal || d.selected.None? || action !in ModalActions(d.selected.value.status) || !confirmed then None
    else match action
      case Accept => Some(UpdateStatusRequest(d.selected.value.id, "Accepted"))
      case Reject => Some(UpdateStatusRequest(d.selected.value.id, "Rejected"))
      case Delete => Some(DeleteRequest(d.selected.value.id))
  }

  /** A status change is only ever sent for the pending registration on show,
      and only to Accepted or Rejected. */
  lemma StatusChangesOnlyFromPending(d: Dashboard, action: Action, confirmed: bool)
    requires Press(d, action, confirmed).Some? && Press(d, action, confirmed).value.UpdateStatusRequest?
    ensures confirmed && d.selected.value.status == "Pending"
    ensures Press(d, action, confirmed).value.id == d.selected.value.id
    ensures Press(d, action, confirmed).value.status in {"Accepted", "Rejected"}
  {
  }

  /** In a freshly opened window, a confirmed Delete is always sent, and a
      confirmed Accept exactly when the registration is pending. */
  lemma OpenedWindowOffers(d: Dashboard, sel: Selected)
    ensures Press(OpenDetails(d, sel), Delete, true) == Some(DeleteRequest(sel.id))
    ensures Press(OpenDetails(d, sel), Accept, true).Some? <==> sel.status == "Pending"
  {
  }

  /** A declined confirmation never sends anything. */
  lemma DeclinedSendsNothing(d: Dashboard, action: Action)
    ensures Press(d, action, false).None?
  {
  }

  /** After an update or a delete: success re-reads the list and closes the
      window; failure keeps everything (the page only alerts). */
  function ActionDone(d: Dashboard, ok: bool): (r: (Dashboard, Option<Request>))
    ensures ok ==> !r.0.showModal && r.1 == Some(FetchList(d.filters))
    ensures !ok ==> r == (d, None)
    ensures r.0.filters == d.filters && r.0.selected == d.selected
  {
    if ok then (d.(showModal := false), Some(FetchList(d.filters))) else (d, None)
  }

  /** Once an action succeeded, pressing any button sends nothing until a
      registration is opened again. */
  lemma ClosedWindowSendsNothing(d: Dashboard, action: Action, confirmed: bool)
    ensures Press(ActionDone(d, true).0, action, confirmed).None?
  {
  }
}
