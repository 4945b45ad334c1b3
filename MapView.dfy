/**
 * The live map of the admin client
 * (transit-management-system/client/src/components/MapView.jsx): the
 * type, status and route filters with the deselection of a vehicle that is
 * filtered out, the reset of the filters, and the simulated refresh of the
 * vehicles' live figures.
 */
module MapView {
  import opened Wrappers
  import JsArray
  import JsString

  datatype Driver = Driver(id: string, name: string)

  datatype RouteRef = RouteRef(id: string, routeId: string, name: string, routeType: string)

  datatype Position = Position(latitude: real, longitude: real, lastUpdated: string)

  /**
   * A vehicle on the map with its live figures; `nextStop` and
   * `estimatedArrival` are `None` for `null`.
   */
  datatype TrackedVehicle = TrackedVehicle(
    id: string,
    vehicleId: string,
    vehicleType: string,
    capacity: nat,
    status: string,
    currentLocation: Position,
    currentRoute: Option<RouteRef>,
    currentDriver: Option<Driver>,
    speed: nat,
    nextStop: Option<string>,
    estimatedArrival: Option<string>,
    passengerCount: nat)

  /** The three selectors; `"all"` in any of them imposes no constraint. */
  datatype Filters = Filters(vehicleType: string, status: string, route: string)

  /** The filters after `handleResetFilters`. */
  const AllFilters: Filters := Filters("all", "all", "all")

  // ----- Filtering and selection -----

  function HasType(t: string): TrackedVehicle -> bool {
    (v: TrackedVehicle) => v.vehicleType == t
  }

  function HasStatus(s: string): TrackedVehicle -> bool {
    (v: TrackedVehicle) => v.status == s
  }

  /** `vehicle.currentRoute && vehicle.currentRoute._id === route`. */
  function OnRoute(route: string): TrackedVehicle -> bool {
    (v: TrackedVehicle) => v.currentRoute.Some? && v.currentRoute.value.id == route
  }

  /** The conjunction the three selectors stand for. */
  predicate Passes(v: TrackedVehicle, f: Filters) {
    && (f.vehicleType == "all" || v.vehicleType == f.vehicleType)
    && (f.status == "all" || v.status == f.status)
    && (f.route == "all" || (v.currentRoute.Some? && v.currentRoute.value.id == f.route))
  }

  /** The filter effect's list: the chained `filter` calls on a copy of the vehicles. */
  function Filtered(vehicles: seq<TrackedVehicle>, f: Filters): (r: seq<TrackedVehicle>)
    ensures forall v :: v in r <==> v in vehicles && Passes(v, f)
    ensures f.route != "all" ==> forall v :: v in r ==> v.currentRoute.Some?
  {
    var byType := if f.vehicleType != "all" then JsArray.Filter(vehicles, HasType(f.vehicleType)) else vehicles;
    var byStatus := if f.status != "all" then JsArray.Filter(byType, HasStatus(f.status)) else byType;
    if f.route != "all" then JsArray.Filter(byStatus, OnRoute(f.route)) else byStatus
  }

  /** The tests that the first one, two or three selectors impose together. */
  function TypeStage(f: Filters): TrackedVehicle -> bool {
    (v: TrackedVehicle) => f.vehicleType == "all" || v.vehicleType == f.vehicleType
  }

  function StatusStage(f: Filters): TrackedVehicle -> bool {
    (v: TrackedVehicle) => TypeStage(f)(v) && (f.status == "all" || v.status == f.status)
  }

  function AllStages(f: Filters): TrackedVehicle -> bool {
    (v: TrackedVehicle) => Passes(v, f)
  }

  /** A filter applied only when `active` extends the accumulated test `acc` to `combined`. */
  lemma FilterWhen(s: seq<TrackedVehicle>, acc: TrackedVehicle -> bool, active: bool,
                   q: TrackedVehicle -> bool, combined: TrackedVehicle -> bool)
    requires forall v :: combined(v) == (acc(v) && (!active || q(v)))
    ensures (if active then JsArray.Filter(JsArray.Filter(s, acc), q) else JsArray.Filter(s, acc))
         == JsArray.Filter(s, combined)
  {
    if active {
      JsArray.FilterOfFilter(s, acc, q, combined);
    } else {
      JsArray.FilterCongruent(s, acc, combined);
    }
  }

  /**
   * The chained filters are one filter on the conjunction of the three
   * selectors.
   */
  lemma FilteredIsConjunction(vehicles: seq<TrackedVehicle>, f: Filters)
    ensures Filtered(vehicles, f) == JsArray.Filter(vehicles, AllStages(f))
  {
    var byType := if f.vehicleType != "all" then JsArray.Filter(vehicles, HasType(f.vehicleType)) else vehicles;
    assert byType == JsArray.Filter(vehicles, TypeStage(f)) by {
      if f.vehicleType != "all" {
        JsArray.FilterCongruent(vehicles, HasType(f.vehicleType), TypeStage(f));
      } else {
        JsArray.FilterKeepsAll(vehicles, TypeStage(f));
      }
    }
    var byStatus := if f.status != "all" then JsArray.Filter(byType, HasStatus(f.status)) else byType;
    assert byStatus == JsArray.Filter(vehicles, StatusStage(f)) by {
      FilterWhen(vehicles, TypeStage(f), f.status != "all", HasStatus(f.status), StatusStage(f));
    }
    FilterWhen(vehicles, StatusStage(f), f.route != "all", OnRoute(f.route), AllStages(f));
  }

  /** The map's list is an order-preserving sub-list of the vehicles. */
  lemma FilteredKeepsOrder(vehicles: seq<TrackedVehicle>, f: Filters)
    ensures JsArray.Sublist(Filtered(vehicles, f), vehicles)
  {
    FilteredIsConjunction(vehicles, f);
    JsArray.FilterIsSublist(vehicles, AllStages(f));
  }

  /**
   * The filter effect: the filtered list, and the selection afterwards. A
   * selected vehicle none of whose `_id` is in the filtered list is
   * deselected; otherwise the selection stays as it was.
   */
  function ApplyFilters(vehicles: seq<TrackedVehicle>, f: Filters, selected: Option<TrackedVehicle>)
    : (r: (seq<TrackedVehicle>, Option<TrackedVehicle>))
    ensures r.0 == Filtered(vehicles, f)
    ensures selected.None? ==> r.1.None?
    ensures selected.Some? ==>
      (r.1 == selected <==> exists v :: v in r.0 && v.id == selected.value.id)
    ensures r.1.None? || r.1 == selected
  {
    var filtered := Filtered(vehicles, f);
    if selected.Some? && JsArray.Find(filtered, (v: TrackedVehicle) => v.id == selected.value.id).None? then
      (filtered, None)
    else
      (filtered, selected)
  }

  /**
   * `handleResetFilters`: with every selector back to `"all"` the map shows
   * every vehicle, and a selected vehicle that is on the map stays selected.
   */
  lemma ResetShowsEverything(vehicles: seq<TrackedVehicle>, selected: Option<TrackedVehicle>)
    ensures ApplyFilters(vehicles, AllFilters, selected).0 == vehicles
    ensures selected.Some? && selected.value in vehicles ==> ApplyFilters(vehicles, AllFilters, selected).1 == selected
  {
    FilteredIsConjunction(vehicles, AllFilters);
    JsArray.FilterKeepsAll(vehicles, AllStages(AllFilters));
  }

  // ----- The simulated refresh -----

  /**
   * The random numbers one vehicle's refresh draws: the location offsets,
   * `Math.floor(Math.random() * 35)`, `Math.floor(Math.random() * 10)` and
   * `Math.floor(Math.random() * capacity)`.
   */
  datatype Draw = Draw(latOffset: real, lonOffset: real, speedRoll: nat, etaRoll: nat, passengerRoll: nat)

  /** A draw within the ranges `Math.random` gives. */
  predicate DrawInRange(d: Draw, capacity: nat) {
    d.speedRoll < 35 && d.etaRoll < 10 && (d.passengerRoll < capacity || d.passengerRoll == 0)
  }

  /**
   * One vehicle after `refreshData`: moved by the draw's offsets at time
   * `now`; an active vehicle gets a speed of 10 or more, an arrival estimate
   * and at most `capacity` passengers, any other vehicle stands still with no
   * passengers and no estimate. Everything else is kept.
   */
  function Refreshed(v: TrackedVehicle, d: Draw, now: string): (r: TrackedVehicle)
    ensures r.id == v.id && r.vehicleId == v.vehicleId && r.vehicleType == v.vehicleType
    ensures r.capacity == v.capacity && r.status == v.status && r.nextStop == v.nextStop
    ensures r.currentRoute == v.currentRoute && r.currentDriver == v.currentDriver
    ensures r.currentLocation.lastUpdated == now
    ensures r.passengerCount <= r.capacity
    ensures v.status != "active" ==> r.speed == 0 && r.passengerCount == 0 && r.estimatedArrival.None?
    ensures v.status == "active" ==> r.speed >= 10 && r.estimatedArrival.Some?
    ensures v.status == "active" && DrawInRange(d, v.capacity) ==> r.speed < 45
    ensures v.status == "active" && DrawInRange(d, v.capacity) ==>
      r.passengerCount == d.passengerRoll && (v.capacity > 0 ==> r.passengerCount < v.capacity)
  {
    var active := v.status == "active";
    v.(currentLocation := Position(v.currentLocation.latitude + d.latOffset,
                                   v.currentLocation.longitude + d.lonOffset, now),
       speed := if active then d.speedRoll + 10 else 0,
       estimatedArrival := if active then Some(JsString.IntText(d.etaRoll + 1) + " min") else None,
       passengerCount := if active then Min(v.capacity, d.passengerRoll) else 0)
  }

  function Min(a: nat, b: nat): (m: nat)
    ensures m <= a && m <= b && (m == a || m == b)
  {
    if a <= b then a else b
  }

  /**
   * `refreshData`: every vehicle of `base` refreshed with its own draw, in
   * order. The component always refreshes from its fixed initial list
   * (`mockVehicles`), not from the vehicles currently shown.
   */
  function Refresh(base: seq<TrackedVehicle>, draws: seq<Draw>, now: string): (r: seq<TrackedVehicle>)
    requires |draws| == |base|
    ensures |r| == |base|
    ensures forall i :: 0 <= i < |base| ==> r[i] == Refreshed(base[i], draws[i], now)
    decreases |base|
  {
    if base == [] then [] else [Refreshed(base[0], draws[0], now)] + Refresh(base[1..], draws[1..], now)
  }

  /** After a refresh no vehicle carries more passengers than it has seats. */
  lemma {:induction false} RefreshRespectsCapacity(base: seq<TrackedVehicle>, draws: seq<Draw>, now: string)
    requires |draws| == |base|
    ensures forall v :: v in Refresh(base, draws, now) ==> v.passengerCount <= v.capacity
  {
    var r := Refresh(base, draws, now);
    forall v | v in r
      ensures v.passengerCount <= v.capacity
    {
      var i :| 0 <= i < |r| && r[i] == v;
      assert v == Refreshed(base[i], draws[i], now);
    }
  }
}
