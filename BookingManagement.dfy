/**
 * The booking desk of the admin client
 * (transit-management-system/client/src/components/BookingManagement.jsx):
 * the booking list kept in the component's state, the status moves its
 * action buttons offer, the booking dialog's submit handler, and the
 * tab and search filter.
 */
module BookingManagement {
  import opened Wrappers
  import opened Forms
  import JsArray
  import JsString

  /** The status values of a booking (`status` of the booking records). */
  datatype BookingStatus = Pending | Confirmed | InProgress | Completed | Cancelled

  /** The `userId` object of a booking: the passenger. */
  datatype Passenger = Passenger(id: string, name: string, email: string)

  /** A pickup or dropoff location. */
  datatype Place = Place(address: string, latitude: Field, longitude: Field)

  /**
   * The `assignedVehicle` object of a booking. The fleet's entries carry a
   * capacity and a status; the objects of the initial bookings do not
   * (`None`).
   */
  datatype VehicleRef = VehicleRef(id: string, vehicleId: string, vehicleType: string,
                                   capacity: Option<nat>, status: Option<string>)

  datatype Booking = Booking(
    id: string,
    passenger: Passenger,
    pickup: Place,
    dropoff: Place,
    requestedTime: string,
    status: BookingStatus,
    assignedVehicle: Option<VehicleRef>,
    specialRequirements: string,
    passengerCount: Field,
    createdAt: string)

  /**
   * The `formData` of the booking dialog; `assignedVehicle` is the `_id` of
   * the chosen fleet vehicle, or `""` for none.
   */
  datatype BookingForm = BookingForm(
    pickup: Place,
    dropoff: Place,
    requestedTime: string,
    status: BookingStatus,
    assignedVehicle: string,
    specialRequirements: string,
    passengerCount: Field)

  /**
   * The reasons a submit leaves the list alone: a required field is empty,
   * or the requested time is not a valid date, so that `toISOString` throws
   * and the handler stops.
   */
  datatype BookingRejection = MissingRequiredFields | InvalidRequestedTime

  /** The fleet the vehicle selector offers (`mockVehicles`). */
  const Fleet: seq<VehicleRef> := [
    VehicleRef("201", "BUS001", "bus", Some(40), Some("active")),
    VehicleRef("202", "VAN002", "van", Some(15), Some("active")),
    VehicleRef("203", "SPV003", "specialized", Some(8), Some("active")),
    VehicleRef("204", "BUS004", "bus", Some(45), Some("active"))
  ]

  /** The passenger every new booking is made for. */
  const DemoPassenger: Passenger := Passenger("101", "John Smith", "john.smith@example.com")

  // ----- Status moves offered by the action buttons -----

  /**
   * The status moves the action buttons of a booking's row offer, in the
   * order the buttons appear: Confirm, Start Trip, Complete Trip, Cancel.
   * Every offered move goes forward in `Rank`.
   */
  function Actions(s: BookingStatus): (r: seq<BookingStatus>)
    ensures forall t :: t in r <==>
      || (s == Pending && t == Confirmed)
      || (s == Confirmed && t == InProgress)
      || (s == InProgress && t == Completed)
      || ((s == Pending || s == Confirmed) && t == Cancelled)
    ensures r == [] <==> s == Completed || s == Cancelled
    ensures forall t :: t in r ==> Rank(t) > Rank(s)
  {
    match s
    case Pending => [Confirmed, Cancelled]
    case Confirmed => [InProgress, Cancelled]
    case InProgress => [Completed]
    case Completed => []
    case Cancelled => []
  }

  /** How far along a booking is: 0 pending, 1 confirmed, 2 under way, 3 finished. */
  function Rank(s: BookingStatus): (n: nat)
    ensures n <= 3
    ensures n == 3 <==> s == Completed || s == Cancelled
  {
    match s
    case Pending => 0
    case Confirmed => 1
    case InProgress => 2
    case Completed => 3
    case Cancelled => 3
  }

  /** A sequence of statuses in which every step is an offered move. */
  ghost predicate IsActionPath(p: seq<BookingStatus>) {
    forall i :: 0 <= i < |p| - 1 ==> p[i + 1] in Actions(p[i])
  }

  /**
   * Along offered moves every step raises the rank, so no status repeats and
   * a booking reaches a final status after at most three button presses.
   */
  lemma {:induction false} ActionPathsAreShort(p: seq<BookingStatus>)
    requires IsActionPath(p) && p != []
    ensures Rank(p[|p| - 1]) >= Rank(p[0]) + |p| - 1
    ensures |p| <= 4
    decreases |p|
  {
    if |p| > 1 {
      var rest := p[1..];
      assert IsActionPath(rest) by {
        forall i | 0 <= i < |rest| - 1
          ensures rest[i + 1] in Actions(rest[i])
        {
          assert rest[i] == p[i + 1] && rest[i + 1] == p[i + 2];
        }
      }
      ActionPathsAreShort(rest);
    }
  }

  // ----- The booking list -----

  /**
   * `handleUpdateStatus(id, newStatus)`: every booking with that `_id` gets
   * the new status and keeps all its other fields; every other booking is
   * unchanged.
   */
  function UpdateStatus(bookings: seq<Booking>, id: string, newStatus: BookingStatus): (r: seq<Booking>)
    ensures |r| == |bookings|
    ensures forall i :: 0 <= i < |bookings| && bookings[i].id == id ==>
      r[i].status == newStatus && r[i] == bookings[i].(status := r[i].status)
    ensures forall i :: 0 <= i < |bookings| && bookings[i].id != id ==> r[i] == bookings[i]
  {
    JsArray.Map(bookings, (b: Booking) => if b.id == id then b.(status := newStatus) else b)
  }

  /** A second status update of the same booking overrides the first. */
  lemma UpdateStatusLastWins(bookings: seq<Booking>, id: string, first: BookingStatus, second: BookingStatus)
    ensures UpdateStatus(UpdateStatus(bookings, id, first), id, second) == UpdateStatus(bookings, id, second)
  {
    var once := UpdateStatus(bookings, id, first);
    assert forall i :: 0 <= i < |bookings| ==> once[i].id == bookings[i].id;
  }

  /**
   * The vehicle stored for the form's selection:
   * `formData.assignedVehicle ? mockVehicles.find(v => v._id === formData.assignedVehicle) : null`.
   * `None` stands for both `null` and an unknown id (`undefined`).
   */
  function AssignedFrom(selection: string): (r: Option<VehicleRef>)
    ensures selection == "" ==> r.None?
    ensures r.Some? ==> r.value in Fleet && r.value.id == selection
    ensures selection != "" && (exists v :: v in Fleet && v.id == selection) ==> r.Some?
  {
    if selection == "" then None else JsArray.Find(Fleet, (v: VehicleRef) => v.id == selection)
  }

  /** Some booking carries the id `id`. */
  predicate AnyWithId(bookings: seq<Booking>, id: string) {
    exists b :: b in bookings && b.id == id
  }

  /**
   * The dialog's values written over a booking: locations, requested time,
   * status, vehicle, requirements and passenger count; the `_id`, the
   * passenger and `createdAt` stay.
   */
  function WithForm(b: Booking, form: BookingForm, requestedIso: string): (r: Booking)
    ensures r.id == b.id && r.passenger == b.passenger && r.createdAt == b.createdAt
    ensures r.pickup == form.pickup && r.dropoff == form.dropoff && r.requestedTime == requestedIso
    ensures r.status == form.status && r.assignedVehicle == AssignedFrom(form.assignedVehicle)
    ensures r.specialRequirements == form.specialRequirements && r.passengerCount == form.passengerCount
  {
    Booking(b.id, b.passenger, form.pickup, form.dropoff, requestedIso, form.status,
            AssignedFrom(form.assignedVehicle), form.specialRequirements, form.passengerCount, b.createdAt)
  }

  /**
   * `handleSubmit`. `requestedIso` is `new Date(formData.requestedTime).toISOString()`,
   * `None` when that throws; `newId` and `now` are `Date.now().toString()` and
   * the current ISO time.
   *
   * An empty pickup address, dropoff address or requested time is refused.
   * When editing (`current` is the booking the dialog was opened on) the
   * time is converted inside the `map`, once per booking with that `_id`, so
   * an invalid time stops the handler only if such a booking exists; those
   * bookings take the dialog's values, everything else is unchanged. When
   * creating, the new booking for the demo passenger goes to the front.
   */
  function SubmitBooking(bookings: seq<Booking>, form: BookingForm, current: Option<Booking>,
                         requestedIso: Option<string>, newId: string, now: string)
    : (r: Submission<Booking, BookingRejection>)
    ensures form.pickup.address == "" || form.dropoff.address == "" || form.requestedTime == "" ==>
      r == Rejected(MissingRequiredFields)
    ensures r.Saved? <==>
      && form.pickup.address != "" && form.dropoff.address != "" && form.requestedTime != ""
      && (requestedIso.Some? || (current.Some? && !AnyWithId(bookings, current.value.id)))
    ensures r.Saved? && current.Some? ==>
      && |r.items| == |bookings|
      && (forall i :: 0 <= i < |bookings| && bookings[i].id == current.value.id ==>
            r.items[i] == WithForm(bookings[i], form, requestedIso.value))
      && (forall i :: 0 <= i < |bookings| && bookings[i].id != current.value.id ==> r.items[i] == bookings[i])
    ensures r.Saved? && current.None? ==>
      && |r.items| == |bookings| + 1
      && r.items[1..] == bookings
      && r.items[0].id == newId && r.items[0].passenger == DemoPassenger && r.items[0].createdAt == now
      && r.items[0] == WithForm(r.items[0], form, requestedIso.value)
  {
    if form.pickup.address == "" || form.dropoff.address == "" || form.requestedTime == "" then
      Rejected(MissingRequiredFields)
    else if current.Some? then
      if requestedIso.None? && AnyWithId(bookings, current.value.id) then Rejected(InvalidRequestedTime)
      else
        // Only reached with `requestedIso` absent when no booking has the id,
        // so the fallback text is never stored.
        var iso := requestedIso.GetOr("");
        var updated := JsArray.Map(bookings, (b: Booking) =>
          if b.id == current.value.id then WithForm(b, form, iso) else b);
        Saved(updated)
    else if requestedIso.None? then Rejected(InvalidRequestedTime)
    else
      var added := Booking(newId, DemoPassenger, form.pickup, form.dropoff, requestedIso.value, form.status,
                           AssignedFrom(form.assignedVehicle), form.specialRequirements, form.passengerCount, now);
      Saved([added] + bookings)
  }

  function BookingKeeper(id: string): Booking -> bool {
    (b: Booking) => b.id != id
  }

  /**
   * `handleDeleteBooking`: once the user confirms, the list keeps exactly the
   * bookings with another `_id`; without confirmation nothing changes.
   */
  function DeleteBooking(bookings: seq<Booking>, id: string, confirmed: bool): (r: seq<Booking>)
    ensures !confirmed ==> r == bookings
    ensures confirmed ==> forall b :: b in r <==> b in bookings && b.id != id
  {
    if confirmed then JsArray.Filter(bookings, BookingKeeper(id)) else bookings
  }

  /** The bookings that survive a deletion keep their order. */
  lemma DeleteBookingKeepsOrder(bookings: seq<Booking>, id: string)
    ensures JsArray.Sublist(DeleteBooking(bookings, id, true), bookings)
  {
    JsArray.FilterIsSublist(bookings, BookingKeeper(id));
  }

  // ----- Tabs and search -----

  /** The status a tab shows: tabs 1 to 5 are one status each, any other tab shows all. */
  function TabStatus(tab: int): (r: Option<BookingStatus>)
    ensures r.Some? <==> 1 <= tab <= 5
    ensures tab == 1 ==> r == Some(Pending)
    ensures tab == 2 ==> r == Some(Confirmed)
    ensures tab == 3 ==> r == Some(InProgress)
    ensures tab == 4 ==> r == Some(Completed)
    ensures tab == 5 ==> r == Some(Cancelled)
  {
    if tab == 1 then Some(Pending)
    else if tab == 2 then Some(Confirmed)
    else if tab == 3 then Some(InProgress)
    else if tab == 4 then Some(Completed)
    else if tab == 5 then Some(Cancelled)
    else None
  }

  /**
   * The search of the booking list: the passenger's name, the pickup
   * address, the dropoff address or the assigned vehicle's `vehicleId`
   * contains the query, ignoring case.
   */
  predicate BookingMatches(b: Booking, query: string) {
    || JsString.MatchesIgnoringCase(b.passenger.name, query)
    || JsString.MatchesIgnoringCase(b.pickup.address, query)
    || JsString.MatchesIgnoringCase(b.dropoff.address, query)
    || (b.assignedVehicle.Some? && JsString.MatchesIgnoringCase(b.assignedVehicle.value.vehicleId, query))
  }

  predicate Shown(b: Booking, tab: int, query: string) {
    (TabStatus(tab).None? || b.status == TabStatus(tab).value) && BookingMatches(b, query)
  }

  function BookingView(tab: int, query: string): Booking -> bool {
    (b: Booking) => Shown(b, tab, query)
  }

  /**
   * `filteredBookings`: the bookings of the current tab that match the
   * search, in their order.
   */
  function FilteredBookings(bookings: seq<Booking>, tab: int, query: string): (r: seq<Booking>)
    ensures forall b :: b in r <==> b in bookings && Shown(b, tab, query)
    ensures 1 <= tab <= 5 ==> forall b :: b in r ==> b.status == TabStatus(tab).value
  {
    JsArray.Filter(bookings, BookingView(tab, query))
  }

  /** The filtered list is an order-preserving sub-list of the bookings. */
  lemma FilteredBookingsKeepOrder(bookings: seq<Booking>, tab: int, query: string)
    ensures JsArray.Sublist(FilteredBookings(bookings, tab, query), bookings)
  {
    JsArray.FilterIsSublist(bookings, BookingView(tab, query));
  }

  /** The first tab with an empty search shows every booking. */
  lemma AllTabEmptySearchShowsAll(bookings: seq<Booking>)
    ensures FilteredBookings(bookings, 0, "") == bookings
  {
    forall b | b in bookings
      ensures BookingView(0, "")(b)
    {
      JsString.EmptyQueryMatches(b.passenger.name);
    }
    JsArray.FilterKeepsAll(bookings, BookingView(0, ""));
  }

  /** A search keeps to the bookings of the tab's status; an empty one shows all of them. */
  lemma StatusTabEmptySearch(bookings: seq<Booking>, tab: int)
    requires 1 <= tab <= 5
    ensures forall b :: b in FilteredBookings(bookings, tab, "") <==> b in bookings && b.status == TabStatus(tab).value
  {
    forall b | b in bookings
      ensures BookingMatches(b, "")
    {
      JsString.EmptyQueryMatches(b.passenger.name);
    }
  }
}
