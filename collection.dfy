/**
 * The collection logic of the two request handlers, stated on values: the
 * ordered list of stored records before an operation, and the response and
 * list of records the operation writes back.
 */
module Collection {
  import opened Json
  import opened Identity

  datatype Option<+T> = None | Some(value: T)

  /** NotFound is the 404 answer; PayloadNotObject is the handler failing on
      a truthy request body that is not a JSON object (a list, a number, a
      string or `true`), before anything is saved. */
  datatype Error = NotFound | PayloadNotObject

  datatype Result<+T> = Ok(value: T) | Err(error: Error)

  /** What an operation answers and the collection it leaves stored. */
  datatype Outcome<+T> = Outcome(response: Result<T>, after: seq<Record>)

  /** `rec.get("__backendId") == backend_id`, by Python equality: only a
      string equal to the target matches. */
  predicate HasBackendId(record: Record, target: string)
    ensures HasBackendId(record, target) <==>
              BackendIdKey in record && record[BackendIdKey].JString? && record[BackendIdKey].s == target
  {
    Get(record, BackendIdKey) == JString(target)
  }

  /** The first index at or after `from` whose record matches the target. */
  function FindFrom(records: seq<Record>, target: string, from: nat): (found: Option<nat>)
    requires from <= |records|
    decreases |records| - from
    ensures found.Some? ==> from <= found.value < |records| && HasBackendId(records[found.value], target)
    ensures found.Some? ==> forall j :: from <= j < found.value ==> !HasBackendId(records[j], target)
    ensures found.None? ==> forall j :: from <= j < |records| ==> !HasBackendId(records[j], target)
  {
    if from == |records| then None
    else if HasBackendId(records[from], target) then Some(from)
    else FindFrom(records, target, from + 1)
  }

  /** The `next(...)` over `enumerate(records)`: the least index whose record
      matches, or None when no record does. */
  function FindIndex(records: seq<Record>, target: string): (found: Option<nat>)
    ensures found.Some? ==> found.value < |records| && HasBackendId(records[found.value], target)
    ensures found.Some? ==> forall j :: 0 <= j < found.value ==> !HasBackendId(records[j], target)
    ensures found.None? <==> forall j :: 0 <= j < |records| ==> !HasBackendId(records[j], target)
  {
    FindFrom(records, target, 0)
  }

  /** The GET answer: each stored record passed, as a copy, through identity
      assignment; `uuids[i]` is the value `uuid4()` would give for record i. */
  function ListView(records: seq<Record>, uuids: seq<UuidHex>): (listed: seq<Record>)
    requires |uuids| == |records|
    ensures |listed| == |records|
    ensures forall i :: 0 <= i < |listed| ==> Identified(listed[i])
    ensures forall i :: 0 <= i < |listed| && TruthyAt(records[i], BackendIdKey) ==>
              Get(listed[i], BackendIdKey) == records[i][BackendIdKey]
    ensures forall i :: 0 <= i < |listed| && Identified(records[i]) ==> listed[i] == records[i]
  {
    var listed := seq(|records|, i requires 0 <= i < |records| => AssignIdentity(records[i], uuids[i]));
    assert forall i :: 0 <= i < |listed| && Identified(records[i]) ==> listed[i] == records[i] by {
      forall i | 0 <= i < |listed| && Identified(records[i]) {
        AssignIdentityFixedPoints(records[i], uuids[i]);
      }
    }
    listed
  }

  /** `request.get_json(force=True) or {}` as the handlers then use it: a
      falsy body becomes the empty record, an object is taken as it is, and
      any other truthy body makes the handler fail. */
  function ParsePayload(body: JValue): (p: Result<Record>)
    ensures p.Ok? <==> !Truthy(body) || body.JObject?
    ensures p.Ok? && Truthy(body) ==> JObject(p.value) == body
    ensures p.Ok? && !Truthy(body) ==> p.value == map[]
    ensures p.Err? ==> p.error == PayloadNotObject
  {
    if !Truthy(body) then Ok(map[])
    else if body.JObject? then Ok(body.fields)
    else Err(PayloadNotObject)
  }

  /** `records.pop(i)`: the list without its element at index i. */
  function RemoveAt(records: seq<Record>, i: nat): (rest: seq<Record>)
    requires i < |records|
    ensures |rest| == |records| - 1
    ensures forall j :: 0 <= j < i ==> rest[j] == records[j]
    ensures forall j :: i <= j < |rest| ==> rest[j] == records[j + 1]
    ensures multiset(rest) + multiset{records[i]} == multiset(records)
  {
    assert records == records[..i] + [records[i]] + records[i + 1..];
    records[..i] + records[i + 1..]
  }

  /** POST: identity is assigned to the payload, which is appended and
      returned. */
  function CreateStep(records: seq<Record>, body: JValue, hex: UuidHex): (o: Outcome<Record>)
    ensures o.response.Ok? <==> ParsePayload(body).Ok?
    ensures o.response.Err? ==> o.response.error == PayloadNotObject && o.after == records
    ensures o.response.Ok? ==> o.after == records + [o.response.value]
    ensures o.response.Ok? ==> o.response.value == AssignIdentity(ParsePayload(body).value, hex)
  {
    match ParsePayload(body)
    case Err(e) => Outcome(Err(e), records)
    case Ok(payload) =>
      var stored := AssignIdentity(payload, hex);
      Outcome(Ok(stored), records + [stored])
  }

  /** PUT: the first matching record is replaced in full by the payload,
      whose `__backendId` is forced to the target and whose `id` defaults to
      it; nothing of the old record is kept. */
  function UpdateStep(records: seq<Record>, target: string, body: JValue): (o: Outcome<Record>)
    ensures FindIndex(records, target).None? ==> o == Outcome(Err(NotFound), records)
    ensures FindIndex(records, target).Some? && ParsePayload(body).Err? ==>
              o == Outcome(Err(PayloadNotObject), records)
    ensures FindIndex(records, target).Some? && ParsePayload(body).Ok? ==>
              var i, p := FindIndex(records, target).value, ParsePayload(body).value;
              && o.response.Ok?
              && |o.after| == |records|
              && o.after[i] == o.response.value
              && (forall j :: 0 <= j < |records| && j != i ==> o.after[j] == records[j])
              && o.response.value.Keys == p.Keys + {BackendIdKey, IdKey}
              && o.response.value[BackendIdKey] == JString(target)
              && o.response.value[IdKey] == (if IdKey in p then p[IdKey] else JString(target))
              && (forall k :: k in p && k != BackendIdKey && k != IdKey ==> o.response.value[k] == p[k])
  {
    match FindIndex(records, target)
    case None => Outcome(Err(NotFound), records)
    case Some(i) =>
      match ParsePayload(body)
      case Err(e) => Outcome(Err(e), records)
      case Ok(payload) =>
        var stored := SetIdentity(payload, JString(target));
        Outcome(Ok(stored), records[i := stored])
  }

  /** DELETE: the first matching record is removed. */
  function DeleteStep(records: seq<Record>, target: string): (o: Outcome<()>)
    ensures FindIndex(records, target).None? ==> o == Outcome(Err(NotFound), records)
    ensures FindIndex(records, target).Some? ==>
              o == Outcome(Ok(()), RemoveAt(records, FindIndex(records, target).value))
  {
    match FindIndex(records, target)
    case None => Outcome(Err(NotFound), records)
    case Some(i) => Outcome(Ok(()), RemoveAt(records, i))
  }
}
