/**
 * The fleet page of the admin client
 * (transit-management-system/client/src/components/VechicleManagement.jsx):
 * the vehicle list kept in the component's state, the vehicle dialog's
 * submit handler with its driver and route lookups, deletion and search.
 */
module VehicleManagement {
  import opened Wrappers
  import opened Forms
  import JsArray
  import JsString

  datatype Driver = Driver(id: string, name: string)

  datatype RouteRef = RouteRef(id: string, routeId: string, name: string)

  datatype Position = Position(latitude: real, longitude: real, lastUpdated: string)

  /**
   * A fleet vehicle; `currentRoute` and `currentDriver` are `None` for
   * `null` and for a lookup that found nothing (`undefined`).
   */
  datatype Vehicle = Vehicle(
    id: string,
    vehicleId: string,
    vehicleType: string,
    capacity: Field,
    status: string,
    currentLocation: Position,
    currentRoute: Option<RouteRef>,
    currentDriver: Option<Driver>)

  /**
   * The `formData` of the vehicle dialog; `currentDriver` and `currentRoute`
   * hold the chosen `_id`, or `""` for none.
   */
  datatype VehicleForm = VehicleForm(
    vehicleId: string,
    vehicleType: string,
    capacity: Field,
    status: string,
    currentDriver: string,
    currentRoute: string)

  /** The one alert of `handleSubmit`. */
  datatype VehicleRejection = MissingRequiredFields

  /** The drivers the dialog offers (`mockDrivers`). */
  const Drivers: seq<Driver> := [
    Driver("201", "John Doe"),
    Driver("202", "Jane Smith"),
    Driver("203", "Robert Johnson"),
    Driver("204", "Emily Davis")
  ]

  /** The routes the dialog offers (`mockRoutes`). */
  const Routes: seq<RouteRef> := [
    RouteRef("101", "R101", "Downtown Express"),
    RouteRef("102", "R102", "Accessible Route"),
    RouteRef("103", "R103", "North Campus Shuttle"),
    RouteRef("104", "R104", "South Line")
  ]

  /** `formData.currentDriver ? mockDrivers.find(d => d._id === formData.currentDriver) : null`. */
  function DriverFrom(selection: string): (r: Option<Driver>)
    ensures selection == "" ==> r.None?
    ensures r.Some? ==> r.value in Drivers && r.value.id == selection
    ensures selection != "" && (exists d :: d in Drivers && d.id == selection) ==> r.Some?
  {
    if selection == "" then None else JsArray.Find(Drivers, (d: Driver) => d.id == selection)
  }

  /** `formData.currentRoute ? mockRoutes.find(r => r._id === formData.currentRoute) : null`. */
  function RouteFrom(selection: string): (r: Option<RouteRef>)
    ensures selection == "" ==> r.None?
    ensures r.Some? ==> r.value in Routes && r.value.id == selection
    ensures selection != "" && (exists route :: route in Routes && route.id == selection) ==> r.Some?
  {
    if selection == "" then None else JsArray.Find(Routes, (route: RouteRef) => route.id == selection)
  }

  /**
   * `{ ...vehicle, ...formData, currentDriver, currentRoute }`: the form's
   * id, type, capacity and status replace the vehicle's, the driver and the
   * route are looked up; `_id` and the location stay.
   */
  function WithForm(v: Vehicle, form: VehicleForm): (r: Vehicle)
    ensures r.id == v.id && r.currentLocation == v.currentLocation
    ensures r.vehicleId == form.vehicleId && r.vehicleType == form.vehicleType
    ensures r.capacity == form.capacity && r.status == form.status
    ensures r.currentDriver == DriverFrom(form.currentDriver) && r.currentRoute == RouteFrom(form.currentRoute)
  {
    Vehicle(v.id, form.vehicleId, form.vehicleType, form.capacity, form.status, v.currentLocation,
            RouteFrom(form.currentRoute), DriverFrom(form.currentDriver))
  }

  /**
   * `handleSubmit`: an empty vehicle id or a falsy capacity is refused. When
   * editing (`current` is the vehicle the dialog was opened on) every vehicle
   * with that `_id` takes the dialog's values and every other vehicle is
   * unchanged. When creating, one vehicle with the fresh id `newId` is
   * appended, placed at latitude 0 and longitude 0 at time `now`.
   */
  function SubmitVehicle(vehicles: seq<Vehicle>, form: VehicleForm, current: Option<Vehicle>, newId: string, now: string)
    : (r: Submission<Vehicle, VehicleRejection>)
    ensures r.Rejected? <==> form.vehicleId == "" || !Filled(form.capacity)
    ensures r.Saved? && current.Some? ==>
      && |r.items| == |vehicles|
      && (forall i :: 0 <= i < |vehicles| && vehicles[i].id == current.value.id ==> r.items[i] == WithForm(vehicles[i], form))
      && (forall i :: 0 <= i < |vehicles| && vehicles[i].id != current.value.id ==> r.items[i] == vehicles[i])
    ensures r.Saved? && current.None? ==>
      && |r.items| == |vehicles| + 1
      && r.items[..|vehicles|] == vehicles
      && r.items[|vehicles|].id == newId
      && r.items[|vehicles|].currentLocation == Position(0.0, 0.0, now)
      && r.items[|vehicles|] == WithForm(r.items[|vehicles|], form)
  {
    if form.vehicleId == "" || !Filled(form.capacity) then Rejected(MissingRequiredFields)
    else if current.Some? then
      Saved(JsArray.Map(vehicles, (v: Vehicle) => if v.id == current.value.id then WithForm(v, form) else v))
    else
      var added := Vehicle(newId, form.vehicleId, form.vehicleType, form.capacity, form.status,
                           Position(0.0, 0.0, now), RouteFrom(form.currentRoute), DriverFrom(form.currentDriver));
      Saved(vehicles + [added])
  }

  /** Re-submitting an edit that was saved changes nothing more. */
  lemma {:induction false} EditTwiceIsEditOnce(vehicles: seq<Vehicle>, form: VehicleForm, current: Vehicle, newId: string, now: string)
    requires SubmitVehicle(vehicles, form, Some(current), newId, now).Saved?
    ensures SubmitVehicle(SubmitVehicle(vehicles, form, Some(current), newId, now).items, form, Some(current), newId, now)
         == SubmitVehicle(vehicles, form, Some(current), newId, now)
  {
    var once := SubmitVehicle(vehicles, form, Some(current), newId, now).items;
    var twice := SubmitVehicle(once, form, Some(current), newId, now).items;
    forall i | 0 <= i < |once|
      ensures twice[i] == once[i]
    {
      if vehicles[i].id == current.id {
        assert once[i] == WithForm(vehicles[i], form);
      }
    }
  }

  function VehicleKeeper(id: string): Vehicle -> bool {
    (v: Vehicle) => v.id != id
  }

  /**
   * `handleDeleteVehicle`: once the user confirms, the list keeps exactly
   * the vehicles with another `_id`; without confirmation nothing changes.
   */
  function DeleteVehicle(vehicles: seq<Vehicle>, id: string, confirmed: bool): (r: seq<Vehicle>)
    ensures !confirmed ==> r == vehicles
    ensures confirmed ==> forall v :: v in r <==> v in vehicles && v.id != id
  {
    if confirmed then JsArray.Filter(vehicles, VehicleKeeper(id)) else vehicles
  }

  /** The vehicles that survive a deletion keep their order. */
  lemma DeleteVehicleKeepsOrder(vehicles: seq<Vehicle>, id: string)
    ensures JsArray.Sublist(DeleteVehicle(vehicles, id, true), vehicles)
  {
    JsArray.FilterIsSublist(vehicles, VehicleKeeper(id));
  }

  /**
   * The search of the vehicle list: the vehicle id, the type, the driver's
   * name when there is a driver, or the route's name when there is a route
   * contains the query, ignoring case.
   */
  predicate VehicleMatches(v: Vehicle, query: string) {
    || JsString.MatchesIgnoringCase(v.vehicleId, query)
    || JsString.MatchesIgnoringCase(v.vehicleType, query)
    || (v.currentDriver.Some? && JsString.MatchesIgnoringCase(v.currentDriver.value.name, query))
    || (v.currentRoute.Some? && JsString.MatchesIgnoringCase(v.currentRoute.value.name, query))
  }

  function VehicleSearch(query: string): Vehicle -> bool {
    (v: Vehicle) => VehicleMatches(v, query)
  }

  /** `filteredVehicles`: the vehicles that match the search, in their order. */
  function FilteredVehicles(vehicles: seq<Vehicle>, query: string): (r: seq<Vehicle>)
    ensures forall v :: v in r <==> v in vehicles && VehicleMatches(v, query)
  {
    JsArray.Filter(vehicles, VehicleSearch(query))
  }

  /** The search result is an order-preserving sub-list of the vehicles. */
  lemma FilteredVehiclesKeepOrder(vehicles: seq<Vehicle>, query: string)
    ensures JsArray.Sublist(FilteredVehicles(vehicles, query), vehicles)
  {
    JsArray.FilterIsSublist(vehicles, VehicleSearch(query));
  }

  /** An empty search shows every vehicle. */
  lemma EmptySearchShowsAllVehicles(vehicles: seq<Vehicle>)
    ensures FilteredVehicles(vehicles, "") == vehicles
  {
    forall v | v in vehicles
      ensures VehicleSearch("")(v)
    {
      JsString.EmptyQueryMatches(v.vehicleId);
    }
    JsArray.FilterKeepsAll(vehicles, VehicleSearch(""));
  }
}
