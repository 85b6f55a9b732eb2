/**
 * The record store behind the HTTP handlers. Each request loads the whole
 * collection, changes the loaded list in place and saves it back; the
 * `records` field stands for that stored list, so reading it is `load_data`
 * and assigning it is `save_data`.
 */
module Server {
  import opened Json
  import opened Identity
  import opened Collection

  class Store {
    var records: seq<Record>

    /** A store whose backing file does not exist yet reads as empty. */
    constructor ()
      ensures records == []
    {
      records := [];
    }

    /** GET /api/records: the stored records, each identified on a copy; the
        store itself is not changed. */
    method List(uuids: seq<UuidHex>) returns (listed: seq<Record>)
      requires |uuids| == |records|
      ensures listed == ListView(records, uuids)
    {
      var stored := records;
      listed := seq(|stored|, i requires 0 <= i < |stored| => AssignIdentity(stored[i], uuids[i]));
    }

    /** POST /api/records. */
    method Create(body: JValue, hex: UuidHex) returns (response: Result<Record>)
      modifies this
      ensures Outcome(response, records) == CreateStep(old(records), body, hex)
    {
      var parsed := ParsePayload(body);
      if parsed.Err? {
        return Err(parsed.error);
      }
      var payload := AssignIdentity(parsed.value, hex);
      records := records + [payload];
      response := Ok(payload);
    }

    /** PUT /api/records/<target>. */
    method Update(target: string, body: JValue) returns (response: Result<Record>)
      modifies this
      ensures Outcome(response, records) == UpdateStep(old(records), target, body)
    {
      var found := FindIndex(records, target);
      if found.None? {
        return Err(NotFound);
      }
      var parsed := ParsePayload(body);
      if parsed.Err? {
        return Err(parsed.error);
      }
      var payload := parsed.value[BackendIdKey := JString(target)];
      if IdKey !in payload {
        payload := payload[IdKey := JString(target)];
      }
      records := records[found.value := payload];
      response := Ok(payload);
    }

    /** DELETE /api/records/<target>. */
    method Delete(target: string) returns (response: Result<()>)
      modifies this
      ensures Outcome(response, records) == DeleteStep(old(records), target)
    {
      var found := FindIndex(records, target);
      if found.None? {
        return Err(NotFound);
      }
      var i := found.value;
      records := records[..i] + records[i + 1..];
      response := Ok(());
    }
  }
}
