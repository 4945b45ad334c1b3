/**
 * The standalone vehicle server of transit-management-system/server.js: the
 * module-level `vehicles` array, the `isSaving` / `saveQueue` save
 * serialiser, the REST handlers under /api/vehicles and the socket handlers.
 *
 * Each handler runs to completion on the event loop, so each is one method.
 * The asynchronous parts of a save are separate events: `FinishSave` (the
 * awaited file operations end, the `finally` block runs) and `RunTimer` (a
 * follow-up scheduled with `setTimeout` fires). What is broadcast with
 * `io.emit('vehicle-update', vehicles)` and which snapshots are written are
 * recorded in ghost logs; the data file is the ghost `disk`.
 */
module VehicleServer {
  import opened Wrappers
  import opened VehicleRecords
  import SaveQueue

  /** The HTTP answer of a handler. */
  datatype Response =
    | Created(record: Record)   // 201 with the new record
    | Ok(record: Record)        // 200 with the updated record
    | NoContent                 // 204
    | NotFound                  // 404 'Vehicle not found'

  /** What data/vehicles.json holds. */
  datatype FileState =
    | Missing
    | Unreadable               // read or JSON.parse fails
    | Holds(contents: seq<Record>)

  /**
   * How the awaited part of a save ends: the rename succeeded, or a step
   * failed before the old file was unlinked, or after (the rename failed
   * once the old file was gone, which leaves no file at all).
   */
  datatype SaveOutcome = Renamed | FailedBeforeUnlink | FailedAfterUnlink

  class Server {
    var vehicles: seq<Record>
    var isSaving: bool
    /** `saveQueue.length`; the queue only ever holds `true`. */
    var queueLen: nat
    /** Follow-up `saveVehicles` calls scheduled with `setTimeout` and not yet run. */
    var timers: nat

    /** Every snapshot sent with 'vehicle-update' to all clients, in order. */
    ghost var broadcasts: seq<seq<Record>>
    /** Every snapshot a write was started for, in order. */
    ghost var writes: seq<seq<Record>>
    /** The snapshot of the write in flight. */
    ghost var writing: seq<Record>
    ghost var disk: FileState

    ghost function SaveState(): SaveQueue.Saver
      reads this
    {
      SaveQueue.Saver(isSaving, queueLen, timers)
    }

    /** While a write is in flight, `writing` is the last snapshot logged. */
    ghost predicate WriteLogged()
      reads this
    {
      isSaving ==> |writes| > 0 && writing == writes[|writes| - 1]
    }

    ghost predicate Valid()
      reads this
    {
      SaveQueue.Valid(SaveState()) && WriteLogged()
    }

    /** One call of `saveVehicles()` as seen by the handler that made it. */
    twostate predicate SaveRequested()
      reads this
    {
      && SaveState() == SaveQueue.Request(old(SaveState())).0
      && (if old(isSaving)
          then writes == old(writes) && writing == old(writing)
          else writes == old(writes) + [vehicles] && writing == vehicles)
      && disk == old(disk)
    }

    /** One `io.emit('vehicle-update', vehicles)`. */
    twostate predicate Broadcast()
      reads this
    {
      broadcasts == old(broadcasts) + [vehicles]
    }

    /**
     * Start-up: the module-level initial values, then `loadVehicles()`. A
     * file that is missing is created holding `[]`; a file that cannot be
     * read or parsed leaves the list empty.
     */
    constructor (file: FileState)
      ensures Valid()
      ensures vehicles == (if file.Holds? then Loaded(file.contents) else [])
      ensures disk == (if file.Missing? then Holds([]) else file)
      ensures !isSaving && queueLen == 0 && timers == 0
      ensures broadcasts == [] && writes == []
    {
      isSaving, queueLen, timers := false, 0, 0;
      broadcasts, writes, writing := [], [], [];
      match file
      case Holds(stored) =>
        vehicles := JsArray.Map(stored, Normalized);
        disk := file;
      case Missing =>
        vehicles := [];
        disk := Holds([]);
      case Unreadable =>
        vehicles := [];
        disk := file;
    }

    /**
     * `saveVehicles()` up to its first `await`: while a save is in
     * progress only a queue entry is added; otherwise `isSaving` is set and
     * a write of the current snapshot starts.
     */
    method RequestSave()
      requires WriteLogged()
      modifies this
      ensures Valid()
      ensures SaveRequested()
      ensures vehicles == old(vehicles) && broadcasts == old(broadcasts)
    {
      if isSaving {
        queueLen := queueLen + 1;
        return;
      }
      isSaving := true;
      writes := writes + [vehicles];
      writing := vehicles;
    }

    /**
     * The write in flight ends, in success or failure: `isSaving` is reset
     * and, if requests are queued, one is removed and one follow-up save is
     * scheduled.
     */
    method FinishSave(outcome: SaveOutcome)
      requires Valid() && isSaving
      modifies this
      ensures Valid()
      ensures SaveState() == SaveQueue.Complete(old(SaveState()))
      ensures disk == match outcome
        case Renamed => Holds(old(writing))
        case FailedBeforeUnlink => old(disk)
        case FailedAfterUnlink => Missing
      ensures vehicles == old(vehicles) && broadcasts == old(broadcasts) && writes == old(writes)
    {
      match outcome {
        case Renamed => disk := Holds(writing);
        case FailedBeforeUnlink =>
        case FailedAfterUnlink => disk := Missing;
      }
      isSaving := false;
      if queueLen > 0 {
        queueLen := queueLen - 1;
        timers := timers + 1;
      }
    }

    /** A follow-up save scheduled by `FinishSave` fires. */
    method RunTimer()
      requires Valid() && timers > 0
      modifies this
      ensures Valid()
      ensures SaveState() == SaveQueue.Fire(old(SaveState())).0
      ensures !old(isSaving) ==> writes == old(writes) + [vehicles]
      ensures old(isSaving) ==> writes == old(writes)
      ensures vehicles == old(vehicles) && broadcasts == old(broadcasts) && disk == old(disk)
    {
      timers := timers - 1;
      RequestSave();
    }

    /** `GET /api/vehicles`. */
    method List() returns (r: seq<Record>)
      ensures r == vehicles
    {
      r := vehicles;
    }

    /** A new socket connection is sent the current list: the same read as `List`. */
    method Connect() returns (initial: seq<Record>)
      ensures initial == vehicles
    {
      initial := List();
    }

    /** `POST /api/vehicles`: append the body as a new record. */
    method Post(body: Record, newId: string, now: string) returns (resp: Response)
      requires Valid()
      modifies this
      ensures Valid()
      ensures vehicles == old(vehicles) + [VehicleRecords.Created(body, newId, now)]
      ensures resp == Created(VehicleRecords.Created(body, newId, now))
      ensures SaveRequested() && Broadcast()
    {
      var vehicle := VehicleRecords.Created(body, newId, now);
      vehicles := vehicles + [vehicle];
      RequestSave();
      broadcasts := broadcasts + [vehicles];
      resp := Created(vehicle);
    }

    /**
     * `PUT /api/vehicles/:id`: the first record with the id becomes the
     * old record merged with the body, with the id forced back to the
     * path's.
     */
    method Put(id: string, body: Record, now: string) returns (resp: Response)
      requires Valid()
      modifies this
      ensures Valid()
      ensures old(FindIndex(vehicles, Some(JStr(id)))) == -1 ==> resp == NotFound && unchanged(this)
      ensures var i := old(FindIndex(vehicles, Some(JStr(id))));
              i >= 0 ==>
                && |vehicles| == |old(vehicles)|
                && vehicles[i] == Merged(old(vehicles)[i], body, id, now)
                && (forall j :: 0 <= j < |vehicles| && j != i ==> vehicles[j] == old(vehicles)[j])
                && resp == Ok(vehicles[i])
                && SaveRequested() && Broadcast()
    {
      var index := FindIndex(vehicles, Some(JStr(id)));
      if index == -1 {
        return NotFound;
      }
      var updated := Merged(vehicles[index], body, id, now);
      vehicles := vehicles[index := updated];
      RequestSave();
      broadcasts := broadcasts + [vehicles];
      resp := Ok(updated);
    }

    /**
     * The two PATCH handlers that set one field (`speed` or `status`) from
     * the body, and `lastUpdated`, on the first record with the id.
     */
    method PatchField(id: string, field: string, body: Record, now: string) returns (resp: Response)
      requires Valid() && field != "lastUpdated"
      modifies this
      ensures Valid()
      ensures old(FindIndex(vehicles, Some(JStr(id)))) == -1 ==> resp == NotFound && unchanged(this)
      ensures var i := old(FindIndex(vehicles, Some(JStr(id))));
              i >= 0 ==>
                && |vehicles| == |old(vehicles)|
                && vehicles[i] == FieldSet(old(vehicles)[i], field, Get(body, field), now)
                && (forall j :: 0 <= j < |vehicles| && j != i ==> vehicles[j] == old(vehicles)[j])
                && resp == Ok(vehicles[i])
                && SaveRequested() && Broadcast()
    {
      var index := FindIndex(vehicles, Some(JStr(id)));
      if index == -1 {
        return NotFound;
      }
      vehicles := vehicles[index := FieldSet(vehicles[index], field, Get(body, field), now)];
      RequestSave();
      broadcasts := broadcasts + [vehicles];
      resp := Ok(vehicles[index]);
    }

    /** `PATCH /api/vehicles/:id/speed`. */
    method PatchSpeed(id: string, body: Record, now: string) returns (resp: Response)
      requires Valid()
      modifies this
      ensures Valid()
      ensures old(FindIndex(vehicles, Some(JStr(id)))) == -1 ==> resp == NotFound && unchanged(this)
      ensures var i := old(FindIndex(vehicles, Some(JStr(id))));
              i >= 0 ==>
                && |vehicles| == |old(vehicles)|
                && vehicles[i] == FieldSet(old(vehicles)[i], "speed", Get(body, "speed"), now)
                && (forall j :: 0 <= j < |vehicles| && j != i ==> vehicles[j] == old(vehicles)[j])
                && resp == Ok(vehicles[i])
                && SaveRequested() && Broadcast()
    {
      resp := PatchField(id, "speed", body, now);
    }

    /** `PATCH /api/vehicles/:id/status`. */
    method PatchStatus(id: string, body: Record, now: string) returns (resp: Response)
      requires Valid()
      modifies this
      ensures Valid()
      ensures old(FindIndex(vehicles, Some(JStr(id)))) == -1 ==> resp == NotFound && unchanged(this)
      ensures var i := old(FindIndex(vehicles, Some(JStr(id))));
              i >= 0 ==>
                && |vehicles| == |old(vehicles)|
                && vehicles[i] == FieldSet(old(vehicles)[i], "status", Get(body, "status"), now)
                && (forall j :: 0 <= j < |vehicles| && j != i ==> vehicles[j] == old(vehicles)[j])
                && resp == Ok(vehicles[i])
                && SaveRequested() && Broadcast()
    {
      resp := PatchField(id, "status", body, now);
    }

    /**
     * `DELETE /api/vehicles/:id`: the first record with the id is spliced
     * out; the others keep their order.
     */
    method Delete(id: string) returns (resp: Response)
      requires Valid()
      modifies this
      ensures Valid()
      ensures old(FindIndex(vehicles, Some(JStr(id)))) == -1 ==> resp == NotFound && unchanged(this)
      ensures var i := old(FindIndex(vehicles, Some(JStr(id))));
              i >= 0 ==>
                && |vehicles| == |old(vehicles)| - 1
                && (forall j :: 0 <= j < i ==> vehicles[j] == old(vehicles)[j])
                && (forall j :: i <= j < |vehicles| ==> vehicles[j] == old(vehicles)[j + 1])
                && resp == NoContent
                && SaveRequested() && Broadcast()
    {
      var index := FindIndex(vehicles, Some(JStr(id)));
      if index == -1 {
        return NotFound;
      }
      vehicles := vehicles[..index] + vehicles[index + 1..];
      RequestSave();
      broadcasts := broadcasts + [vehicles];
      resp := NoContent;
    }

    /**
     * `PATCH /api/vehicles/:id/location`: set `location`, and `heading` when
     * the body has one. `sampled` is the outcome of `Math.random() < 0.1`,
     * which decides whether this update asks for a save.
     */
    method PatchLocation(id: string, body: Record, now: string, sampled: bool) returns (resp: Response)
      requires Valid()
      modifies this
      ensures Valid()
      ensures old(FindIndex(vehicles, Some(JStr(id)))) == -1 ==> resp == NotFound && unchanged(this)
      ensures var i := old(FindIndex(vehicles, Some(JStr(id))));
              i >= 0 ==>
                && |vehicles| == |old(vehicles)|
                && vehicles[i] == Relocated(old(vehicles)[i], Get(body, "location"), Get(body, "heading"), now)
                && (forall j :: 0 <= j < |vehicles| && j != i ==> vehicles[j] == old(vehicles)[j])
                && resp == Ok(vehicles[i])
                && (sampled ==> SaveRequested())
                && (!sampled ==> SaveState() == old(SaveState()) && writes == old(writes) && writing == old(writing)
                                 && disk == old(disk))
                && Broadcast()
    {
      var index := FindIndex(vehicles, Some(JStr(id)));
      if index == -1 {
        return NotFound;
      }
      vehicles := vehicles[index := Relocated(vehicles[index], Get(body, "location"), Get(body, "heading"), now)];
      if sampled {
        RequestSave();
      }
      broadcasts := broadcasts + [vehicles];
      resp := Ok(vehicles[index]);
    }

    /**
     * The socket event 'update-location' `{ id, location, heading }`: like
     * the PATCH handler, but an unknown id is silently ignored and nothing
     * is broadcast.
     */
    method SocketUpdateLocation(data: Record, now: string, sampled: bool)
      requires Valid()
      modifies this
      ensures Valid()
      ensures old(FindIndex(vehicles, Get(data, "id"))) == -1 ==> unchanged(this)
      ensures var i := old(FindIndex(vehicles, Get(data, "id")));
              i >= 0 ==>
                && |vehicles| == |old(vehicles)|
                && vehicles[i] == Relocated(old(vehicles)[i], Get(data, "location"), Get(data, "heading"), now)
                && (forall j :: 0 <= j < |vehicles| && j != i ==> vehicles[j] == old(vehicles)[j])
                && (sampled ==> SaveRequested())
                && (!sampled ==> SaveState() == old(SaveState()) && writes == old(writes) && writing == old(writing)
                                 && disk == old(disk))
                && Broadcast()
    {
      var index := FindIndex(vehicles, Get(data, "id"));
      if index == -1 {
        return;
      }
      vehicles := vehicles[index := Relocated(vehicles[index], Get(data, "location"), Get(data, "heading"), now)];
      if sampled {
        RequestSave();
      }
      broadcasts := broadcasts + [vehicles];
    }
  }
}
