# Transit management system — a Dafny model

This project models the core of the transit management system. That core
has two parts.

The first is the standalone vehicle server (`server.js`). It holds the
fleet as an in-memory list of JSON records. It loads that list from
`data/vehicles.json` at start-up, normalising `speed` and `heading`. It offers
REST handlers to list, create, replace, patch and delete vehicles. It takes
location reports over HTTP and over a socket. It broadcasts the whole list to
every client after each change. Its saves are serialised by an
`isSaving` flag and a `saveQueue` that is drained with `setTimeout`.

The second part is the admin client's five management pages. Each keeps its
records in the component's state:
- route management: stop and schedule editing in the dialog, submit, delete, search and the 12-hour time display;
- booking management: submit with the vehicle lookup, delete, the status buttons and their transitions, the status tabs and search;
- user management: the dialog's defaults, submit with the e-mail check, the active toggle, delete, the role tabs and search;
- vehicle management: submit with the driver and route lookups, delete, search;
- the live map: the type, status and route filters, their reset, the deselection of a vehicle that is filtered out, and the simulated refresh of live figures.

The model has these parts:
- **The server is a class.** `VehicleServer.Server` has the fields `vehicles`, `isSaving`, the queue length and the pending timers. Each handler is a method that states the whole new state.
  - The save serialiser is also a value-level state machine, `SaveQueue`. Its lemmas prove that every queued request produces exactly one further write.
  - Record transformations are functions on JSON objects, in `VehicleRecords`.
- **The client pages are pure functions** from the page's state and the dialog's form to the new state, because React state updates replace values. Their partners are:
  - membership and order lemmas for every filter and search;
  - idempotence for edits;
  - a pattern characterisation for the e-mail check;
  - a rank argument for the status buttons.

Common JavaScript behaviour is modelled once, in `JsArray` and `JsString`:
`filter`, `map`, `find`, `splice`, case-insensitive `includes`, `parseInt` and number-to-string.

The model keeps the source's edge cases. Some of them:
- An edit replaces every record that has the edited `_id`, not just the first.
- A deletion needs the user's confirmation, which is a parameter.
- A booking edit ignores an invalid requested time when no booking matches the edited one.
- A user without an `active` flag is shown as active by the dialog, and a first toggle makes the flag `true`; a second toggle then leaves the user explicitly inactive, not without a flag (`UserManagement.ToggleTwiceOfUnsetUser`).
- The map's refresh always starts from the component's initial vehicles.
- `formatTime` of a time without minutes renders `undefined`.

Two properties of the save path are worth stating on their own:
- **The save queue does not coalesce requests.** Each queued request is shifted off by its own completed write and gets a follow-up save of its own (`SaveQueue.KRequestsKFollowUps`).
- **The save is not atomic.** The old file is unlinked before the temporary file is renamed, so a rename that fails after the unlink leaves no data file at all (`VehicleServer.Server.FinishSave` with `FailedAfterUnlink`).

A stored speed of `0` is falsy. It therefore comes back as the default `30` after a save and a reload (`VehicleRecords.ZeroSpeedIsNotDurable`).

## Model

| member | source | states |
|---|---|---|
| JsArray.Filter | transit-management-system/client/src/components/RouteManagement.jsx:386-390 | `filter` keeps exactly the elements that pass, and none that fail |
| JsArray.Map | transit-management-system/server.js:41-45 | `map` keeps the length and applies the function index by index |
| JsArray.Find | transit-management-system/client/src/components/VechicleManagement.jsx:200-205 | `find` is `undefined` exactly when nothing passes; otherwise it is the first element that passes |
| JsArray.FilterKeepsCount | transit-management-system/client/src/components/RouteManagement.jsx:386-390 | `filter` keeps every copy of a passing value and drops every copy of a failing one |
| JsArray.FilterIsSublist | transit-management-system/client/src/components/RouteManagement.jsx:386-390 | a filtered list is an order-preserving sub-list of its input |
| JsArray.FilterKeepsAll | transit-management-system/client/src/components/RouteManagement.jsx:386-390 | a filter that every element passes returns the list unchanged |
| JsArray.FilterOfFilter | transit-management-system/client/src/components/MapView.jsx:257-271 | two chained filters equal one filter on the conjunction of their tests |
| JsArray.FilterCongruent | transit-management-system/client/src/components/MapView.jsx:257-271 | filters with pointwise-equal tests give the same list |
| JsArray.SpliceOne | transit-management-system/client/src/components/RouteManagement.jsx:333-340 | `splice(start, 1)` removes the one element at the effective start and keeps the others in order; at or past the end it removes nothing |
| JsArray.SpliceStart | transit-management-system/client/src/components/RouteManagement.jsx:333-340 | a non-negative start is used as given; a negative start is `length + start`, or 0 when that is negative |
| JsString.LowerChar | transit-management-system/client/src/components/RouteManagement.jsx:386-390 | `toLowerCase` maps A-Z to a-z and leaves every other character alone |
| JsString.ToLower | transit-management-system/client/src/components/RouteManagement.jsx:386-390 | lower-casing keeps the length and lowers each character |
| JsString.ToLowerIdempotent | transit-management-system/client/src/components/RouteManagement.jsx:386-390 | lower-casing twice is lower-casing once |
| JsString.Includes | transit-management-system/client/src/components/RouteManagement.jsx:386-390 | `includes` holds exactly when the query occurs as a contiguous slice |
| JsString.EmptyQueryMatches | transit-management-system/client/src/components/RouteManagement.jsx:386-390 | every field matches the empty search |
| JsString.FieldMatchesItself | transit-management-system/client/src/components/RouteManagement.jsx:386-390 | a field matches a search for its own text in any case |
| JsString.DigitValue | transit-management-system/client/src/components/RouteManagement.jsx:395-397 | a decimal digit's value is below 10 |
| JsString.DigitChar | transit-management-system/client/src/components/RouteManagement.jsx:395-397 | a digit value's character is a digit with that value |
| JsString.DigitPrefix | transit-management-system/client/src/components/RouteManagement.jsx:395-397 | the longest leading run of digits that `parseInt` reads |
| JsString.TrimStart | transit-management-system/client/src/components/RouteManagement.jsx:395-397 | `parseInt` skips leading white space: the result is a suffix that starts with no space |
| JsString.Unsigned | transit-management-system/client/src/components/RouteManagement.jsx:395-397 | one leading `+` or `-` is removed, and nothing else |
| JsString.NatText | transit-management-system/client/src/components/RouteManagement.jsx:397-399 | the decimal text of a number is a non-empty run of digits |
| JsString.IntText | transit-management-system/client/src/components/RouteManagement.jsx:397-399 | an integer's text starts with a minus sign exactly when it is negative, and is the digits of a non-negative one |
| JsString.NatTextValue | transit-management-system/client/src/components/RouteManagement.jsx:395-399 | reading back the text of a number gives the number |
| JsString.ParseIntText | transit-management-system/client/src/components/RouteManagement.jsx:395-397 | `parseInt` of a number's text is that number |
| JsString.DigitPrefixOfDigits | transit-management-system/client/src/components/RouteManagement.jsx:395-397 | a string of digits is its own digit prefix |
| JsString.UpTo | transit-management-system/client/src/components/RouteManagement.jsx:395 | the text before the first separator: a prefix without the separator, ended by one or by the end of the string |
| JsString.UpToOf | transit-management-system/client/src/components/RouteManagement.jsx:395 | the part before the first separator of `a + sep + b` is `a` when `a` holds none |
| JsString.SplitColonPair | transit-management-system/client/src/components/RouteManagement.jsx:395 | `split(':')` destructured into two: the text before the first colon, then the text between it and the next colon, or `undefined` when there is no colon |
| VehicleRecords.FindIndex | transit-management-system/server.js:132 | `findIndex` is -1 exactly when no record's `id` strictly equals the key; otherwise it is the first match |
| VehicleRecords.Assign | transit-management-system/server.js:164 | assigning sets one property (assigning `undefined` removes it) and leaves every other one unchanged |
| VehicleRecords.Normalized | transit-management-system/server.js:41-45 | a loaded record gains `speed` and `heading`; each keeps a truthy stored value and otherwise gets 30 or 0; nothing else changes |
| VehicleRecords.Loaded | transit-management-system/server.js:36-45 | loading normalises every stored record, in order |
| VehicleRecords.NormalizedIdempotent | transit-management-system/server.js:41-45 | normalising twice is normalising once |
| VehicleRecords.LoadedIdempotent | transit-management-system/server.js:41-45 | reloading a loaded list changes nothing |
| VehicleRecords.Created | transit-management-system/server.js:113-118 | a created record is the body plus the fresh `id` and `lastUpdated`, with defaulted `speed` and `heading` |
| VehicleRecords.CreatedReloadsUnchanged | transit-management-system/server.js:115-118 | a created record survives a save and a reload unchanged |
| VehicleRecords.Merged | transit-management-system/server.js:138-143 | a replaced record takes the body's properties over the old ones, with `id` forced to the path's and a new `lastUpdated` |
| VehicleRecords.FieldSet | transit-management-system/server.js:164-165 | a PATCH sets the one property and `lastUpdated`, and nothing else |
| VehicleRecords.Relocated | transit-management-system/server.js:220-224 | a location report sets `location`, and `heading` only when one is given, plus `lastUpdated`; nothing else changes |
| VehicleRecords.ZeroSpeedIsNotDurable | transit-management-system/server.js:164 | a speed patched to 0 reads 30 after a save and a reload |
| SaveQueue.Request | transit-management-system/server.js:59-67 | a save request while saving only grows the queue; otherwise it starts a write and sets the flag |
| SaveQueue.Complete | transit-management-system/server.js:97-104 | a finished write clears the flag; a non-empty queue loses one entry and gains one scheduled follow-up |
| SaveQueue.Fire | transit-management-system/server.js:103 | a fired follow-up uses up one timer, starts a write exactly when none is in flight and queues otherwise, keeps the saver's invariant and never increases the work left to drain |
| SaveQueue.StepsPreserveValid | transit-management-system/server.js:59-104 | no step leaves a queued request without a scheduled follow-up once nothing is being saved |
| SaveQueue.DrainWritesEachPending | transit-management-system/server.js:59-104 | left alone, every queued request and every scheduled follow-up leads to exactly one more write, and the saver ends idle with an empty queue |
| SaveQueue.RequestsWhileSavingQueue | transit-management-system/server.js:61-64 | k requests during a write grow the queue by k |
| SaveQueue.KRequestsKFollowUps | transit-management-system/server.js:59-104 | k requests during a write cause exactly k follow-up writes: the queue does not coalesce |
| VehicleServer.Server.constructor | transit-management-system/server.js:20-56 | start-up loads and normalises a readable file; a missing file becomes `[]`; an unreadable one leaves the list empty |
| VehicleServer.Server.RequestSave | transit-management-system/server.js:59-78 | while a write is in flight, a request only queues; otherwise it snapshots the current list for a write |
| VehicleServer.Server.FinishSave | transit-management-system/server.js:81-104 | the file holds the snapshot after a rename, is unchanged after an early failure, and is gone after a failure following the unlink; the queue steps as in `SaveQueue.Complete` |
| VehicleServer.Server.RunTimer | transit-management-system/server.js:103 | a follow-up save runs `saveVehicles` again |
| VehicleServer.Server.List | transit-management-system/server.js:109-111 | `GET` answers the current list |
| VehicleServer.Server.Connect | transit-management-system/server.js:242 | a new socket is sent the current list |
| VehicleServer.Server.Post | transit-management-system/server.js:113-128 | `POST` appends the created record, asks for a save, broadcasts and answers 201 with the record |
| VehicleServer.Server.Put | transit-management-system/server.js:130-152 | `PUT` answers 404 and changes nothing for an unknown id; otherwise it replaces the first match by the merge, keeps the rest, saves, broadcasts and answers it |
| VehicleServer.Server.PatchField | transit-management-system/server.js:155-192 | a PATCH of one field answers 404 for an unknown id; otherwise it sets the field on the first match only, saves and broadcasts |
| VehicleServer.Server.PatchSpeed | transit-management-system/server.js:155-172 | `PATCH .../speed` as above with the body's `speed` |
| VehicleServer.Server.PatchStatus | transit-management-system/server.js:175-192 | `PATCH .../status` as above with the body's `status` |
| VehicleServer.Server.Delete | transit-management-system/server.js:194-209 | `DELETE` answers 404 for an unknown id; otherwise it removes the first match, keeps the others in order, saves, broadcasts and answers 204 |
| VehicleServer.Server.PatchLocation | transit-management-system/server.js:212-235 | a location PATCH answers 404 for an unknown id; otherwise it relocates the first match and broadcasts; it asks for a save only on the sampled tenth of updates, and an unsampled update leaves the saver, the writes and the data file alone |
| VehicleServer.Server.SocketUpdateLocation | transit-management-system/server.js:245-262 | a socket location report for a known id behaves like the PATCH, an unsampled one leaving the data file alone; an unknown id changes nothing and broadcasts nothing |
| RouteManagement.AddStop | transit-management-system/client/src/components/RouteManagement.jsx:284-303 | an incomplete stop changes nothing; a complete one is appended last and the stop form is reset |
| RouteManagement.RemoveStop | transit-management-system/client/src/components/RouteManagement.jsx:305-310 | exactly the stops with another `stopId` remain |
| RouteManagement.RemoveStopKeepsOrder | transit-management-system/client/src/components/RouteManagement.jsx:305-310 | the remaining stops keep their order |
| RouteManagement.AddSchedule | transit-management-system/client/src/components/RouteManagement.jsx:312-331 | an incomplete entry changes nothing; a complete one is appended and the entry form resets to Monday, every 30 minutes |
| RouteManagement.RemoveSchedule | transit-management-system/client/src/components/RouteManagement.jsx:333-340 | a valid index removes exactly that entry and keeps the rest in order; an index past the end removes nothing |
| RouteManagement.RemoveScheduleFromEnd | transit-management-system/client/src/components/RouteManagement.jsx:333-340 | a negative index counts from the end of the schedule |
| RouteManagement.Applied | transit-management-system/client/src/components/RouteManagement.jsx:359 | an edited route takes every form field and keeps its `_id` |
| RouteManagement.FromForm | transit-management-system/client/src/components/RouteManagement.jsx:362-367 | a new route is the form with the fresh `_id` |
| RouteManagement.SubmitRoute | transit-management-system/client/src/components/RouteManagement.jsx:342-372 | missing fields or no stops are refused and nothing else is; an edit replaces every route with the `_id` and only those; a creation appends one route |
| RouteManagement.EditTwiceIsEditOnce | transit-management-system/client/src/components/RouteManagement.jsx:356-361 | submitting the same edit twice equals submitting it once |
| RouteManagement.DeleteRoute | transit-management-system/client/src/components/RouteManagement.jsx:374-379 | once confirmed, exactly the routes with another `_id` remain; otherwise nothing changes |
| RouteManagement.DeleteRouteKeepsOrder | transit-management-system/client/src/components/RouteManagement.jsx:374-379 | the remaining routes keep their order |
| RouteManagement.FilteredRoutes | transit-management-system/client/src/components/RouteManagement.jsx:386-390 | the search shows exactly the routes whose route id, name or, when present, description contains the query, ignoring case |
| RouteManagement.FilteredRoutesKeepOrder | transit-management-system/client/src/components/RouteManagement.jsx:386-390 | the search keeps the routes' order |
| RouteManagement.EmptySearchShowsAllRoutes | transit-management-system/client/src/components/RouteManagement.jsx:386-390 | an empty search shows every route |
| RouteManagement.TruncatedRemainder | transit-management-system/client/src/components/RouteManagement.jsx:397 | JavaScript's `%` has the sign of the dividend and a magnitude below the divisor |
| RouteManagement.Hour12 | transit-management-system/client/src/components/RouteManagement.jsx:397 | `hour % 12 \|\| 12` is 1 to 12 and agrees with the hour modulo 12 for a non-negative hour; `NaN` gives 12 |
| RouteManagement.FormatTime | transit-management-system/client/src/components/RouteManagement.jsx:393-400 | the display is empty exactly when the time is empty |
| RouteManagement.FormatTimeParts | transit-management-system/client/src/components/RouteManagement.jsx:393-400 | `HH:MM` with hours h displays as the 12-hour hour, the same minutes and AM below 12, PM from 12 |
| RouteManagement.FormatTimeWithoutMinutes | transit-management-system/client/src/components/RouteManagement.jsx:395-399 | a time without a colon displays `undefined` minutes |
| RouteManagement.FormatTimeNotANumber | transit-management-system/client/src/components/RouteManagement.jsx:396-398 | hours that are not a number display as 12 AM |
| BookingManagement.Actions | transit-management-system/client/src/components/BookingManagement.jsx:713-759 | the buttons offered for each status; none for a completed or cancelled booking; every button moves the booking forward |
| BookingManagement.Rank | transit-management-system/client/src/components/BookingManagement.jsx:713-759 | the progress of a status, highest exactly for the final ones |
| BookingManagement.ActionPathsAreShort | transit-management-system/client/src/components/BookingManagement.jsx:713-759 | a run of button presses from any status is at most three presses long |
| BookingManagement.UpdateStatus | transit-management-system/client/src/components/BookingManagement.jsx:374-382 | every booking with the id takes the new status and keeps the rest; every other booking is unchanged |
| BookingManagement.UpdateStatusLastWins | transit-management-system/client/src/components/BookingManagement.jsx:374-382 | of two status updates the second wins |
| BookingManagement.AssignedFrom | transit-management-system/client/src/components/BookingManagement.jsx:332-334 | no selection assigns nothing; a selected fleet id assigns that whole fleet entry, capacity and status included |
| BookingManagement.WithForm | transit-management-system/client/src/components/BookingManagement.jsx:324-338 | an edited booking takes the form's places, status, vehicle, requirements and passenger count and the ISO time, and keeps its id, passenger and creation time |
| BookingManagement.SubmitBooking | transit-management-system/client/src/components/BookingManagement.jsx:314-365 | missing fields are refused; an invalid time fails a creation, or an edit that matches a booking; an edit updates every matching booking only; a creation puts the new booking first |
| BookingManagement.DeleteBooking | transit-management-system/client/src/components/BookingManagement.jsx:367-372 | once confirmed, exactly the bookings with another `_id` remain; otherwise nothing changes |
| BookingManagement.DeleteBookingKeepsOrder | transit-management-system/client/src/components/BookingManagement.jsx:367-372 | the remaining bookings keep their order |
| BookingManagement.TabStatus | transit-management-system/client/src/components/BookingManagement.jsx:387-392 | tabs 1 to 5 stand for pending, confirmed, in progress, completed and cancelled, in that order, and any other tab for none |
| BookingManagement.FilteredBookings | transit-management-system/client/src/components/BookingManagement.jsx:385-402 | the list shows exactly the bookings of the tab's status that match the search; a status tab shows only that status |
| BookingManagement.FilteredBookingsKeepOrder | transit-management-system/client/src/components/BookingManagement.jsx:385-402 | the list keeps the bookings' order |
| BookingManagement.AllTabEmptySearchShowsAll | transit-management-system/client/src/components/BookingManagement.jsx:385-402 | the first tab with an empty search shows every booking |
| BookingManagement.StatusTabEmptySearch | transit-management-system/client/src/components/BookingManagement.jsx:387-392 | a status tab with an empty search shows exactly the bookings of that status |
| UserManagement.EmailAccepted | transit-management-system/client/src/components/UserManagement.jsx:207-211 | the e-mail check; an accepted address has an `@` and at least five characters |
| UserManagement.EmailAcceptedIsPattern | transit-management-system/client/src/components/UserManagement.jsx:207-211 | the check accepts exactly the strings of the form local@domain.tld with no space or `@` in any part |
| UserManagement.AcceptedMatchesPattern | transit-management-system/client/src/components/UserManagement.jsx:207-211 | every accepted address has that form |
| UserManagement.SplitIsAccepted | transit-management-system/client/src/components/UserManagement.jsx:207-211 | every string of that form is accepted |
| UserManagement.UsualAddressAccepted | transit-management-system/client/src/components/UserManagement.jsx:207-211 | an address local@host.tld whose three parts are non-empty and free of spaces and `@` is accepted |
| UserManagement.TwoAtSignsRefused | transit-management-system/client/src/components/UserManagement.jsx:207-211 | an address with two `@` signs is refused |
| UserManagement.OnlyOneAt | transit-management-system/client/src/components/UserManagement.jsx:207-211 | a string of that form holds exactly one `@` |
| UserManagement.DialogFor | transit-management-system/client/src/components/UserManagement.jsx:157-181 | the dialog shows a user's fields with an empty password, or blank fields with role customer for a new user; it shows active unless the flag is `false` |
| UserManagement.WithForm | transit-management-system/client/src/components/UserManagement.jsx:214-228 | an edited user takes the form's fields and keeps its `_id` and creation time |
| UserManagement.SubmitUser | transit-management-system/client/src/components/UserManagement.jsx:199-244 | a missing name or e-mail, or a missing password on creation, is refused, then an e-mail off the pattern; nothing else is; an edit updates every user with the `_id` only; a creation appends one user created at `now` |
| UserManagement.Flipped | transit-management-system/client/src/components/UserManagement.jsx:257 | `!user.active`: an active user becomes inactive; an inactive or unset one becomes active |
| UserManagement.ToggleUserStatus | transit-management-system/client/src/components/UserManagement.jsx:253-261 | every user with the id has the flag flipped; every other user is unchanged |
| UserManagement.ToggleTwiceRestores | transit-management-system/client/src/components/UserManagement.jsx:253-261 | toggling twice restores users whose flag is set |
| UserManagement.ToggleTwiceOfUnsetUser | transit-management-system/client/src/components/UserManagement.jsx:257 | toggling twice a user with no flag leaves them inactive, though the dialog showed them active |
| UserManagement.DeleteUser | transit-management-system/client/src/components/UserManagement.jsx:246-251 | once confirmed, exactly the users with another `_id` remain; otherwise nothing changes |
| UserManagement.DeleteUserKeepsOrder | transit-management-system/client/src/components/UserManagement.jsx:246-251 | the remaining users keep their order |
| UserManagement.TabRole | transit-management-system/client/src/components/UserManagement.jsx:266-269 | tabs 1 to 3 stand for admin, driver and customer, in that order, and any other tab for none |
| UserManagement.FilteredUsers | transit-management-system/client/src/components/UserManagement.jsx:264-277 | the list shows exactly the users of the tab's role whose name or e-mail contains the query, ignoring case |
| UserManagement.FilteredUsersKeepOrder | transit-management-system/client/src/components/UserManagement.jsx:264-277 | the list keeps the users' order |
| UserManagement.AllTabEmptySearchShowsAll | transit-management-system/client/src/components/UserManagement.jsx:264-277 | the first tab with an empty search shows every user |
| VehicleManagement.DriverFrom | transit-management-system/client/src/components/VechicleManagement.jsx:201-203 | no selection gives no driver; a listed driver's id gives that driver |
| VehicleManagement.RouteFrom | transit-management-system/client/src/components/VechicleManagement.jsx:204-206 | no selection gives no route; a listed route's id gives that route |
| VehicleManagement.WithForm | transit-management-system/client/src/components/VechicleManagement.jsx:196-207 | an edited vehicle takes the form's fields and the looked-up driver and route, and keeps its `_id` and location |
| VehicleManagement.SubmitVehicle | transit-management-system/client/src/components/VechicleManagement.jsx:186-232 | only an empty vehicle id or a falsy capacity is refused; an edit updates every vehicle with the `_id` only; a creation appends one vehicle at latitude 0, longitude 0 |
| VehicleManagement.EditTwiceIsEditOnce | transit-management-system/client/src/components/VechicleManagement.jsx:194-210 | submitting the same edit twice equals submitting it once |
| VehicleManagement.DeleteVehicle | transit-management-system/client/src/components/VechicleManagement.jsx:234-239 | once confirmed, exactly the vehicles with another `_id` remain; otherwise nothing changes |
| VehicleManagement.DeleteVehicleKeepsOrder | transit-management-system/client/src/components/VechicleManagement.jsx:234-239 | the remaining vehicles keep their order |
| VehicleManagement.FilteredVehicles | transit-management-system/client/src/components/VechicleManagement.jsx:242-247 | the search shows exactly the vehicles whose id, type, driver's name or route's name contains the query |
| VehicleManagement.FilteredVehiclesKeepOrder | transit-management-system/client/src/components/VechicleManagement.jsx:242-247 | the search keeps the vehicles' order |
| VehicleManagement.EmptySearchShowsAllVehicles | transit-management-system/client/src/components/VechicleManagement.jsx:242-247 | an empty search shows every vehicle |
| MapView.Filtered | transit-management-system/client/src/components/MapView.jsx:256-273 | the map shows exactly the vehicles that pass every selector; a route selector hides vehicles without a route |
| MapView.FilterWhen | transit-management-system/client/src/components/MapView.jsx:263-270 | a selector applied only when it is not `all` extends the combined test |
| MapView.FilteredIsConjunction | transit-management-system/client/src/components/MapView.jsx:257-271 | the chained filters are one filter on the conjunction of the selectors |
| MapView.FilteredKeepsOrder | transit-management-system/client/src/components/MapView.jsx:256-273 | the map keeps the vehicles' order |
| MapView.ApplyFilters | transit-management-system/client/src/components/MapView.jsx:256-279 | the selection survives exactly when a vehicle with its `_id` is still shown, and is cleared otherwise |
| MapView.ResetShowsEverything | transit-management-system/client/src/components/MapView.jsx:289-295 | after a reset every vehicle is shown and a shown selection stays |
| MapView.Refreshed | transit-management-system/client/src/components/MapView.jsx:305-318 | an active vehicle gets a speed of 10 to 44, an estimate and at most its capacity in passengers; any other vehicle stops with no passengers and no estimate; identity, route and driver are kept |
| MapView.Min | transit-management-system/client/src/components/MapView.jsx:316 | `Math.min` is the smaller of the two |
| MapView.Refresh | transit-management-system/client/src/components/MapView.jsx:301-322 | the refresh refreshes each initial vehicle with its own draw, in order |
| MapView.RefreshRespectsCapacity | transit-management-system/client/src/components/MapView.jsx:313-316 | after a refresh no vehicle carries more passengers than its capacity |

## Left out

- File I/O is reduced to the three outcomes of a save: the `.tmp` path, `mkdirSync`, the 100 ms wait after a failed unlink and the JSON formatting are not modelled.
- VehicleServer.Server.constructor: for a missing file, the `mkdirSync` of the `data` directory and the `writeFile` of `[]` are assumed to succeed. If either fails, the code catches the error, the list stays empty and no file is created.
- A data file that parses to something other than an array of objects is not modelled. In the code such a file leaves the raw parsed value, or an un-normalised list, in `vehicles`.
- Clocks, ids, `Math.random` draws and `window.confirm` are parameters (`now`, `newId`, `sampled`, `Draw`, `confirmed`), because they are inputs from outside the program.
- VehicleServer.Server.SocketUpdateLocation: the 'update-location' payload is assumed to be an object; a `null` or `undefined` payload makes the destructuring throw, which is not modelled.
- Express and socket.io transport: requests are method calls, and broadcasts and written snapshots are ghost logs; body parsing, CORS and the static files are not modelled.
- `console` logging and the `.catch` of every save call are left out, because they have no effect on the state.
- JavaScript numbers are `real`s: `NaN`, infinities and double rounding are not modelled. `parseInt` results beyond 2^53 are exact integers here.
- The order of keys in a JSON object is not modelled, because records are maps.
- `toLowerCase` is modelled on ASCII letters only; other Unicode case mappings are not.
- Rendering (JSX, Material UI, dialogs' open and close state, snackbars, `formatDate`, the map's markers) is left out, because it only displays the state modelled here.
- The dialogs' open handlers of the route, booking and vehicle pages are not modelled; the user page's is (`DialogFor`), for its `active` default. The three unmodelled handlers do more than copy a record into the form:
  - the route and booking handlers turn a missing description or special requirements into `''`;
  - the booking and vehicle handlers replace the nested vehicle, driver and route objects with their `_id`;
  - the booking handler reformats `requestedTime` to local time in whole minutes.
- SubmitBooking: `new Date(...).toISOString()` is the parameter `requestedIso`, `None` when the date is invalid and the call throws; date parsing is not modelled.
- MapView.Refreshed: the location jitter is an arbitrary offset, because `(Math.random() - 0.5) * 0.005` is a floating-point draw.
- The Mongoose models, the authentication and analytics pages and the rest of the client are not part of this model.
- server.js has no movement simulation: locations change only through reports, which are modelled.
