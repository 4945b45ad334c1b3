/**
 * The route editor of the admin client
 * (transit-management-system/client/src/components/RouteManagement.jsx):
 * the stop and schedule lists of the route form, the route list kept in the
 * component's state, its search, and the 24-hour to 12-hour time formatter.
 *
 * Every handler is a function from the state it reads (the route list, the
 * form, the new-stop form) to the state it hands to `setState`.
 */
module RouteManagement {
  import opened Wrappers
  import opened Forms
  import JsArray
  import JsString

  datatype Location = Location(latitude: Field, longitude: Field)

  datatype Stop = Stop(stopId: string, name: string, location: Location, arrivalTime: string)

  datatype ScheduleEntry = ScheduleEntry(day: string, startTime: string, endTime: string, frequency: Field)

  /** The values of the route form's type selector. */
  datatype RouteType = Fixed | OnDemand | Specialized

  /** A route; `description` is `None` when the property is absent. */
  datatype Route = Route(
    id: string,
    routeId: string,
    name: string,
    description: Option<string>,
    routeType: RouteType,
    stops: seq<Stop>,
    schedule: seq<ScheduleEntry>)

  /** The `formData` of the route dialog. */
  datatype RouteForm = RouteForm(
    routeId: string,
    name: string,
    description: string,
    routeType: RouteType,
    stops: seq<Stop>,
    schedule: seq<ScheduleEntry>)

  /** The reasons `handleSubmit` gives for refusing a route. */
  datatype RouteRejection = MissingRequiredFields | NoStops

  /** The new-stop form after a stop was added. */
  const BlankStop: Stop := Stop("", "", Location(Text(""), Text("")), "")

  /** The new-schedule form after an entry was added. */
  const BlankSchedule: ScheduleEntry := ScheduleEntry("monday", "", "", Number(30.0))

  // ----- Stops and schedule entries of the form -----

  /** The guard of `handleAddStop`: id, name and both coordinates are filled. */
  predicate StopComplete(s: Stop) {
    s.stopId != "" && s.name != "" && Filled(s.location.latitude) && Filled(s.location.longitude)
  }

  /**
   * `handleAddStop`: the route form and the new-stop form afterwards. An
   * incomplete stop changes nothing; a complete one is appended after the
   * existing stops and the new-stop form is cleared.
   */
  function AddStop(form: RouteForm, newStop: Stop): (r: (RouteForm, Stop))
    ensures !StopComplete(newStop) ==> r.0 == form && r.1 == newStop
    ensures StopComplete(newStop) ==>
      && r.0 == form.(stops := r.0.stops)
      && |r.0.stops| == |form.stops| + 1
      && r.0.stops[..|form.stops|] == form.stops
      && r.0.stops[|form.stops|] == newStop
      && r.1 == BlankStop
  {
    if !StopComplete(newStop) then (form, newStop)
    else (form.(stops := form.stops + [newStop]), BlankStop)
  }

  function StopKeeper(stopId: string): Stop -> bool {
    (s: Stop) => s.stopId != stopId
  }

  /**
   * `handleRemoveStop`: the form keeps exactly the stops with another
   * `stopId`; nothing else in the form changes.
   */
  function RemoveStop(form: RouteForm, stopId: string): (r: RouteForm)
    ensures r == form.(stops := r.stops)
    ensures forall s :: s in r.stops <==> s in form.stops && s.stopId != stopId
  {
    form.(stops := JsArray.Filter(form.stops, StopKeeper(stopId)))
  }

  /** The stops that survive a removal keep their order. */
  lemma RemoveStopKeepsOrder(form: RouteForm, stopId: string)
    ensures JsArray.Sublist(RemoveStop(form, stopId).stops, form.stops)
  {
    JsArray.FilterIsSublist(form.stops, StopKeeper(stopId));
  }

  /** The guard of `handleAddSchedule`: both times and the frequency are filled. */
  predicate ScheduleComplete(e: ScheduleEntry) {
    e.startTime != "" && e.endTime != "" && Filled(e.frequency)
  }

  /**
   * `handleAddSchedule`: an incomplete entry changes nothing; a complete one
   * is appended and the new-schedule form is reset to Monday, every 30
   * minutes.
   */
  function AddSchedule(form: RouteForm, entry: ScheduleEntry): (r: (RouteForm, ScheduleEntry))
    ensures !ScheduleComplete(entry) ==> r.0 == form && r.1 == entry
    ensures ScheduleComplete(entry) ==>
      && r.0 == form.(schedule := r.0.schedule)
      && |r.0.schedule| == |form.schedule| + 1
      && r.0.schedule[..|form.schedule|] == form.schedule
      && r.0.schedule[|form.schedule|] == entry
      && r.1 == BlankSchedule
  {
    if !ScheduleComplete(entry) then (form, entry)
    else (form.(schedule := form.schedule + [entry]), BlankSchedule)
  }

  /**
   * `handleRemoveSchedule(index)`: `splice(index, 1)` on a copy of the
   * schedule. A valid index removes exactly that entry and the others keep
   * their order; an index past the end removes nothing; a negative one
   * counts from the end.
   */
  function RemoveSchedule(form: RouteForm, index: int): (r: RouteForm)
    ensures r == form.(schedule := r.schedule)
    ensures 0 <= index < |form.schedule| ==>
      && |r.schedule| == |form.schedule| - 1
      && r.schedule[..index] == form.schedule[..index]
      && r.schedule[index..] == form.schedule[index + 1..]
    ensures index >= |form.schedule| ==> r.schedule == form.schedule
  {
    form.(schedule := JsArray.SpliceOne(form.schedule, index))
  }

  /** Removing at `index - length` is removing at `index`. */
  lemma RemoveScheduleFromEnd(form: RouteForm, index: int)
    requires 0 <= index < |form.schedule|
    ensures RemoveSchedule(form, index - |form.schedule|) == RemoveSchedule(form, index)
  {
  }

  // ----- The route list -----

  /** `{ ...route, ...formData }`: every form field replaces the route's, `_id` stays. */
  function Applied(route: Route, form: RouteForm): (r: Route)
    ensures r.id == route.id
    ensures r.routeId == form.routeId && r.name == form.name
    ensures r.description == Some(form.description)
    ensures r.routeType == form.routeType && r.stops == form.stops && r.schedule == form.schedule
  {
    Route(route.id, form.routeId, form.name, Some(form.description), form.routeType, form.stops, form.schedule)
  }

  /** `{ _id: newId, ...formData }`. */
  function FromForm(newId: string, form: RouteForm): (r: Route)
    ensures r.id == newId
    ensures r == Applied(r, form)
  {
    Route(newId, form.routeId, form.name, Some(form.description), form.routeType, form.stops, form.schedule)
  }

  /**
   * `handleSubmit`: a form without a route id or a name, or without a stop,
   * is refused. When editing (`current` is the route the dialog was opened
   * on) every route with that `_id` takes the form's values and keeps its
   * `_id` and position, and every other route is unchanged. When creating,
   * one route with the fresh id `newId` is appended.
   */
  function SubmitRoute(routes: seq<Route>, form: RouteForm, current: Option<Route>, newId: string)
    : (r: Submission<Route, RouteRejection>)
    ensures form.routeId == "" || form.name == "" ==> r == Rejected(MissingRequiredFields)
    ensures form.routeId != "" && form.name != "" && form.stops == [] ==> r == Rejected(NoStops)
    ensures r.Saved? <==> form.routeId != "" && form.name != "" && form.stops != []
    ensures r.Saved? && current.Some? ==>
      && |r.items| == |routes|
      && (forall i :: 0 <= i < |routes| ==> r.items[i].id == routes[i].id)
      && (forall i :: 0 <= i < |routes| && routes[i].id == current.value.id ==> r.items[i] == Applied(routes[i], form))
      && (forall i :: 0 <= i < |routes| && routes[i].id != current.value.id ==> r.items[i] == routes[i])
    ensures r.Saved? && current.None? ==>
      && |r.items| == |routes| + 1
      && r.items[..|routes|] == routes
      && r.items[|routes|].id == newId
      && r.items[|routes|] == Applied(r.items[|routes|], form)
  {
    if form.routeId == "" || form.name == "" then Rejected(MissingRequiredFields)
    else if |form.stops| == 0 then Rejected(NoStops)
    else if current.Some? then
      Saved(JsArray.Map(routes, (route: Route) => if route.id == current.value.id then Applied(route, form) else route))
    else
      Saved(routes + [FromForm(newId, form)])
  }

  /** Submitting the same form twice for the same route changes nothing more. */
  lemma {:induction false} EditTwiceIsEditOnce(routes: seq<Route>, form: RouteForm, current: Route, newId: string)
    requires SubmitRoute(routes, form, Some(current), newId).Saved?
    ensures SubmitRoute(SubmitRoute(routes, form, Some(current), newId).items, form, Some(current), newId)
         == SubmitRoute(routes, form, Some(current), newId)
  {
    var once := SubmitRoute(routes, form, Some(current), newId).items;
    var twice := SubmitRoute(once, form, Some(current), newId).items;
    assert |twice| == |once|;
    forall i | 0 <= i < |once|
      ensures twice[i] == once[i]
    {
      if routes[i].id == current.id {
        assert once[i] == Applied(routes[i], form);
      }
    }
  }

  function RouteKeeper(id: string): Route -> bool {
    (route: Route) => route.id != id
  }

  /**
   * `handleDeleteRoute`: once the user confirms, the list keeps exactly the
   * routes with another `_id`; without confirmation nothing changes.
   */
  function DeleteRoute(routes: seq<Route>, id: string, confirmed: bool): (r: seq<Route>)
    ensures !confirmed ==> r == routes
    ensures confirmed ==> forall route :: route in r <==> route in routes && route.id != id
  {
    if confirmed then JsArray.Filter(routes, RouteKeeper(id)) else routes
  }

  /** Deleting keeps the surviving routes in order. */
  lemma DeleteRouteKeepsOrder(routes: seq<Route>, id: string, confirmed: bool)
    ensures JsArray.Sublist(DeleteRoute(routes, id, confirmed), routes)
  {
    if confirmed {
      JsArray.FilterIsSublist(routes, RouteKeeper(id));
    } else {
      SublistOfItself(routes);
    }
  }

  lemma {:induction false} SublistOfItself<T>(s: seq<T>)
    ensures JsArray.Sublist(s, s)
    decreases |s|
  {
    if s != [] {
      SublistOfItself(s[1..]);
    }
  }

  /**
   * The search of the route list: the route id, the name or, when present,
   * the description contains the query, ignoring case
   * (`route.description?.toLowerCase()` is `undefined`, hence falsy, when the
   * route has no description).
   */
  predicate RouteMatches(route: Route, query: string) {
    || JsString.MatchesIgnoringCase(route.routeId, query)
    || JsString.MatchesIgnoringCase(route.name, query)
    || (route.description.Some? && JsString.MatchesIgnoringCase(route.description.value, query))
  }

  function RouteSearch(query: string): Route -> bool {
    (route: Route) => RouteMatches(route, query)
  }

  /** `filteredRoutes`: the routes that match the search, in their order. */
  function FilteredRoutes(routes: seq<Route>, query: string): (r: seq<Route>)
    ensures forall route :: route in r <==> route in routes && RouteMatches(route, query)
  {
    JsArray.Filter(routes, RouteSearch(query))
  }

  /** The search result is an order-preserving sub-list of the routes. */
  lemma FilteredRoutesKeepOrder(routes: seq<Route>, query: string)
    ensures JsArray.Sublist(FilteredRoutes(routes, query), routes)
  {
    JsArray.FilterIsSublist(routes, RouteSearch(query));
  }

  /** An empty search shows every route. */
  lemma EmptySearchShowsAllRoutes(routes: seq<Route>)
    ensures FilteredRoutes(routes, "") == routes
  {
    forall route | route in routes
      ensures RouteSearch("")(route)
    {
      JsString.EmptyQueryMatches(route.routeId);
    }
    JsArray.FilterKeepsAll(routes, RouteSearch(""));
  }

  // ----- formatTime -----

  /** `a % b` with JavaScript's sign rule: the remainder takes the sign of `a`. */
  function TruncatedRemainder(a: int, b: int): (r: int)
    requires b > 0
    ensures a >= 0 ==> r == a % b
    ensures a < 0 ==> -b < r <= 0 && r == -((-a) % b)
  {
    if a >= 0 then a % b else -((-a) % b)
  }

  /**
   * `hour % 12 || 12` for `hour = parseInt(hours, 10)`: `NaN` and a zero
   * remainder (falsy) both give 12.
   */
  function Hour12(hour: Option<int>): (r: int)
    ensures hour.None? ==> r == 12
    ensures hour.Some? && hour.value >= 0 ==> 1 <= r <= 12 && r % 12 == hour.value % 12
    ensures hour.Some? && hour.value < 0 ==> -11 <= r <= 12 && r != 0
  {
    if hour.None? then 12
    else
      var m := TruncatedRemainder(hour.value, 12);
      if m == 0 then 12 else m
  }

  /** `hour >= 12`; `NaN >= 12` is false. */
  predicate IsAfternoon(hour: Option<int>) {
    hour.Some? && hour.value >= 12
  }

  /** `${minutes}`: an absent second part renders as `undefined`. */
  function MinutesText(minutes: Option<string>): string {
    if minutes.Some? then minutes.value else "undefined"
  }

  /**
   * `formatTime(time24)`: `""` for empty input; otherwise the 12-hour hour,
   * the minutes text as typed, and `AM` or `PM`.
   */
  function FormatTime(time24: string): (r: string)
    ensures time24 == "" <==> r == ""
  {
    if time24 == "" then ""
    else
      var (hours, minutes) := JsString.SplitColonPair(time24);
      Rendered(JsString.ParseInt(hours), minutes)
  }

  /** The template `${hour12}:${minutes} ${ampm}`. */
  function Rendered(hour: Option<int>, minutes: Option<string>): string {
    JsString.IntText(Hour12(hour)) + ":" + MinutesText(minutes) + " " + (if IsAfternoon(hour) then "PM" else "AM")
  }

  /**
   * For a time `hours:minutes` whose hour text reads as `h`: the minutes
   * text passes through unchanged, the suffix is `PM` exactly when `h >= 12`,
   * and the rendered hour is the 12-hour hour of `h` (1 to 12 when `h` is not
   * negative, with the same remainder modulo 12).
   */
  lemma FormatTimeParts(hours: string, minutes: string, h: int)
    requires ':' !in hours && ':' !in minutes
    requires JsString.ParseInt(hours) == Some(h)
    ensures FormatTime(hours + ":" + minutes)
         == JsString.IntText(Hour12(Some(h))) + ":" + minutes + " " + (if h >= 12 then "PM" else "AM")
    ensures h >= 0 ==> 1 <= Hour12(Some(h)) <= 12 && Hour12(Some(h)) % 12 == h % 12
  {
    var t := hours + ":" + minutes;
    JsString.UpToOf(hours, ':', minutes);
    assert t[|hours| + 1..] == minutes;
    assert JsString.SplitColonPair(t) == (hours, Some(minutes));
  }

  /** A time without a colon renders its minutes as `undefined`. */
  lemma FormatTimeWithoutMinutes(hours: string)
    requires hours != [] && ':' !in hours
    ensures FormatTime(hours)
         == JsString.IntText(Hour12(JsString.ParseInt(hours))) + ":" + "undefined" + " "
            + (if IsAfternoon(JsString.ParseInt(hours)) then "PM" else "AM")
  {
    assert JsString.SplitColonPair(hours) == (hours, None);
    assert FormatTime(hours) == Rendered(JsString.ParseInt(hours), None);
  }

  /** An hour that is not a number (`NaN`) renders as 12 AM. */
  lemma FormatTimeNotANumber(hours: string, minutes: string)
    requires ':' !in hours && ':' !in minutes && hours != []
    requires JsString.ParseInt(hours).None?
    ensures FormatTime(hours + ":" + minutes) == "12:" + minutes + " AM"
  {
    var t := hours + ":" + minutes;
    JsString.UpToOf(hours, ':', minutes);
    assert t[|hours| + 1..] == minutes;
    assert JsString.SplitColonPair(t) == (hours, Some(minutes));
    assert FormatTime(t) == Rendered(None, Some(minutes));
    TwelveText();
  }

  lemma TwelveText()
    ensures JsString.IntText(12) == "12"
  {
    assert JsString.NatText(12) == JsString.NatText(1) + [JsString.DigitChar(2)];
  }
}
