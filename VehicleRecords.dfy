/**
 * The vehicle records of the standalone server (transit-management-system/server.js):
 * arbitrary JSON objects, looked up by their `id` property, and the record
 * transformations its handlers apply.
 *
 * A record is a map from property name to JSON value. A property whose value
 * is `undefined` is an absent key: an assignment of `undefined` removes the
 * key, which is all that `JSON.stringify`, `||` and `!== undefined` can tell
 * apart.
 */
module VehicleRecords {
  import opened Wrappers
  import JsArray

  datatype Json =
    | JNull
    | JBool(b: bool)
    | JNum(n: real)
    | JStr(s: string)
    | JArr(items: seq<Json>)
    | JObj(fields: map<string, Json>)

  type Record = map<string, Json>

  const DefaultSpeed: Json := JNum(30.0)
  const DefaultHeading: Json := JNum(0.0)

  /** `record.key`; `None` is `undefined`. */
  function Get(record: Record, key: string): Option<Json> {
    if key in record then Some(record[key]) else None
  }

  /**
   * JavaScript truthiness: `undefined`, `null`, `false`, `0` and `""` are
   * falsy; every other value, including every object and array, is truthy.
   */
  predicate Truthy(v: Option<Json>) {
    match v
    case None => false
    case Some(JNull) => false
    case Some(JBool(b)) => b
    case Some(JNum(n)) => n != 0.0
    case Some(JStr(s)) => s != ""
    case Some(JArr(_)) => true
    case Some(JObj(_)) => true
  }

  /** `v || fallback`. */
  function Or(v: Option<Json>, fallback: Json): Json {
    if Truthy(v) then v.value else fallback
  }

  /**
   * `a === b`: primitives compare by value, two `undefined`s are equal, and
   * objects and arrays compare by reference, so two of them read from JSON
   * are never the same object.
   */
  predicate StrictEquals(a: Option<Json>, b: Option<Json>) {
    match (a, b)
    case (None, None) => true
    case (Some(x), Some(y)) => x == y && !x.JArr? && !x.JObj?
    case _ => false
  }

  /** The test `v => v.id === key` of `findIndex` and `find`. */
  predicate HasId(record: Record, key: Option<Json>) {
    StrictEquals(Get(record, "id"), key)
  }

  /** `vehicles.findIndex(v => v.id === key)`: the first match, or -1. */
  function FindIndex(vehicles: seq<Record>, key: Option<Json>): (r: int)
    ensures -1 <= r < |vehicles|
    ensures r == -1 <==> forall j :: 0 <= j < |vehicles| ==> !HasId(vehicles[j], key)
    ensures r >= 0 ==> HasId(vehicles[r], key)
    ensures r >= 0 ==> forall j :: 0 <= j < r ==> !HasId(vehicles[j], key)
    decreases |vehicles|
  {
    if vehicles == [] then -1
    else if HasId(vehicles[0], key) then 0
    else
      var k := FindIndex(vehicles[1..], key);
      assert forall j :: 1 <= j < |vehicles| ==> vehicles[j] == vehicles[1..][j - 1];
      if k == -1 then -1 else k + 1
  }

  /** `record.key = v` (an assignment of `undefined` removes the key). */
  function Assign(record: Record, key: string, v: Option<Json>): (r: Record)
    ensures Get(r, key) == v
    ensures forall k :: k != key ==> Get(r, k) == Get(record, k)
  {
    if v.Some? then record[key := v.value] else record - {key}
  }

  /**
   * The normalisation applied to every record read from the data file:
   * `{ ...vehicle, speed: vehicle.speed || 30, heading: vehicle.heading || 0 }`.
   */
  function Normalized(v: Record): (r: Record)
    ensures r.Keys == v.Keys + {"speed", "heading"}
    ensures forall k :: k in v && k != "speed" && k != "heading" ==> r[k] == v[k]
    ensures Truthy(Get(v, "speed")) ==> r["speed"] == v["speed"]
    ensures !Truthy(Get(v, "speed")) ==> r["speed"] == DefaultSpeed
    ensures Truthy(Get(v, "heading")) ==> r["heading"] == v["heading"]
    ensures !Truthy(Get(v, "heading")) ==> r["heading"] == DefaultHeading
  {
    v["speed" := Or(Get(v, "speed"), DefaultSpeed)]["heading" := Or(Get(v, "heading"), DefaultHeading)]
  }

  /** `vehicles.map(normalise)` of `loadVehicles`. */
  function Loaded(stored: seq<Record>): (r: seq<Record>)
    ensures |r| == |stored|
    ensures forall i :: 0 <= i < |stored| ==> r[i] == Normalized(stored[i])
  {
    JsArray.Map(stored, Normalized)
  }

  /** Normalising a normalised record changes nothing. */
  lemma NormalizedIdempotent(v: Record)
    ensures Normalized(Normalized(v)) == Normalized(v)
  {
    var n := Normalized(v);
    assert Truthy(Get(n, "speed"));
    assert Get(n, "heading") == Some(n["heading"]);
    if !Truthy(Get(n, "heading")) {
      assert n["heading"] == DefaultHeading || !Truthy(Some(n["heading"]));
    }
  }

  /** Loading a list that was itself produced by a load gives the same list. */
  lemma LoadedIdempotent(stored: seq<Record>)
    ensures Loaded(Loaded(stored)) == Loaded(stored)
  {
    var once := Loaded(stored);
    forall i | 0 <= i < |stored|
      ensures Loaded(once)[i] == once[i]
    {
      NormalizedIdempotent(stored[i]);
    }
  }

  /**
   * The record `POST /api/vehicles` appends: the body with a fresh `id`
   * and `lastUpdated`, `speed || 30`, `heading || 0`.
   */
  function Created(body: Record, id: string, now: string): (r: Record)
    ensures r.Keys == body.Keys + {"id", "lastUpdated", "speed", "heading"}
    ensures HasId(r, Some(JStr(id)))
    ensures r["lastUpdated"] == JStr(now)
    ensures Truthy(Get(body, "speed")) ==> r["speed"] == body["speed"]
    ensures !Truthy(Get(body, "speed")) ==> r["speed"] == DefaultSpeed
    ensures Truthy(Get(body, "heading")) ==> r["heading"] == body["heading"]
    ensures !Truthy(Get(body, "heading")) ==> r["heading"] == DefaultHeading
    ensures forall k :: k in body && k !in {"id", "lastUpdated", "speed", "heading"} ==> r[k] == body[k]
  {
    var v := body["id" := JStr(id)]["lastUpdated" := JStr(now)];
    v["speed" := Or(Get(v, "speed"), DefaultSpeed)]["heading" := Or(Get(v, "heading"), DefaultHeading)]
  }

  /** A freshly created record survives a save and reload unchanged. */
  lemma CreatedReloadsUnchanged(body: Record, id: string, now: string)
    ensures Normalized(Created(body, id, now)) == Created(body, id, now)
  {
    var c := Created(body, id, now);
    assert Truthy(Get(c, "speed"));
  }

  /**
   * The record `PUT /api/vehicles/:id` stores:
   * `{ ...current, ...body, id, lastUpdated }`.
   */
  function Merged(current: Record, body: Record, id: string, now: string): (r: Record)
    ensures r.Keys == current.Keys + body.Keys + {"id", "lastUpdated"}
    ensures HasId(r, Some(JStr(id)))
    ensures r["lastUpdated"] == JStr(now)
    ensures forall k :: k in body && k != "id" && k != "lastUpdated" ==> r[k] == body[k]
    ensures forall k :: k in current && k !in body && k != "id" && k != "lastUpdated" ==> r[k] == current[k]
  {
    (current + body)["id" := JStr(id)]["lastUpdated" := JStr(now)]
  }

  /** `vehicle.key = value; vehicle.lastUpdated = now` (the PATCH speed and status handlers). */
  function FieldSet(record: Record, key: string, value: Option<Json>, now: string): (r: Record)
    requires key != "lastUpdated"
    ensures Get(r, key) == value
    ensures Get(r, "lastUpdated") == Some(JStr(now))
    ensures forall k :: k != key && k != "lastUpdated" ==> Get(r, k) == Get(record, k)
  {
    Assign(record, key, value)["lastUpdated" := JStr(now)]
  }

  /**
   * A location report: `vehicle.location = location`, `heading` only when
   * one is supplied (`heading !== undefined`), then `lastUpdated`.
   */
  function Relocated(record: Record, location: Option<Json>, heading: Option<Json>, now: string): (r: Record)
    ensures Get(r, "location") == location
    ensures heading.Some? ==> Get(r, "heading") == heading
    ensures heading.None? ==> Get(r, "heading") == Get(record, "heading")
    ensures Get(r, "lastUpdated") == Some(JStr(now))
    ensures forall k :: k !in {"location", "heading", "lastUpdated"} ==> Get(r, k) == Get(record, k)
  {
    var moved := Assign(record, "location", location);
    var turned := if heading.Some? then moved["heading" := heading.value] else moved;
    turned["lastUpdated" := JStr(now)]
  }

  /** Setting the speed to 0 is not durable: after a save and reload it reads 30. */
  lemma ZeroSpeedIsNotDurable(record: Record, now: string)
    ensures Normalized(FieldSet(record, "speed", Some(JNum(0.0)), now))["speed"] == DefaultSpeed
  {
    var r := FieldSet(record, "speed", Some(JNum(0.0)), now);
    assert Get(r, "speed") == Some(JNum(0.0));
  }
}
