/**
 * Properties that relate several operations of the record store: what a
 * later list or lookup sees after a create, update or delete, the
 * uniqueness of identities that update and delete keep and create does not,
 * and two worked scenarios of create and update.
 */
module Properties {
  import opened Json
  import opened Identity
  import opened Collection

  /** a and b carry the same string `__backendId`. */
  predicate SameStringId(a: Record, b: Record) {
    Get(a, BackendIdKey).JString? && Get(a, BackendIdKey) == Get(b, BackendIdKey)
  }

  /** No two stored records carry the same string `__backendId`. */
  predicate DistinctIds(records: seq<Record>) {
    forall i, j :: 0 <= i < j < |records| ==> !SameStringId(records[i], records[j])
  }

  /** A created record is listed, unchanged, at the end of the next list, and
      the records before it are listed as they were before. */
  lemma CreateThenList(records: seq<Record>, body: JValue, hex: UuidHex, uuids: seq<UuidHex>)
    requires CreateStep(records, body, hex).response.Ok?
    requires |uuids| == |records| + 1
    ensures var o := CreateStep(records, body, hex);
            && ListView(o.after, uuids)[|records|] == o.response.value
            && TruthyAt(ListView(o.after, uuids)[|records|], BackendIdKey)
            && ListView(o.after, uuids)[..|records|] == ListView(records, uuids[..|records|])
  {
  }

  /** After an update the lookup of the target finds the same index again. */
  lemma UpdateThenFind(records: seq<Record>, target: string, body: JValue)
    requires UpdateStep(records, target, body).response.Ok?
    ensures FindIndex(UpdateStep(records, target, body).after, target) == FindIndex(records, target)
  {
  }

  /** After an update to a non-empty target, the next list shows the stored
      record at the matched index, carrying the target as its identity
      whatever `__backendId` the payload had. */
  lemma UpdateThenList(records: seq<Record>, target: string, body: JValue, uuids: seq<UuidHex>)
    requires target != ""
    requires UpdateStep(records, target, body).response.Ok?
    requires |uuids| == |records|
    ensures var o, i := UpdateStep(records, target, body), FindIndex(records, target).value;
            && ListView(o.after, uuids)[i] == o.response.value
            && ListView(o.after, uuids)[i][BackendIdKey] == JString(target)
  {
  }

  /** After a delete, the lookup of the same target finds the next record
      that matched it before, at an index one lower, or nothing. */
  lemma DeleteExposesNextMatch(records: seq<Record>, target: string)
    requires FindIndex(records, target).Some?
    ensures var i := FindIndex(records, target).value;
            var rest := DeleteStep(records, target).after;
            FindIndex(rest, target) ==
              match FindFrom(records, target, i + 1)
              case None => None
              case Some(k) => Some(k - 1)
  {
    var i := FindIndex(records, target).value;
    var rest := RemoveAt(records, i);
    assert DeleteStep(records, target).after == rest;
    RemovedLookup(records, target, i);
  }

  /** Removing index i, with no match before it, moves the next match after
      i down by one. */
  lemma RemovedLookup(records: seq<Record>, target: string, i: nat)
    requires i < |records|
    requires forall j :: 0 <= j < i ==> !HasBackendId(records[j], target)
    ensures FindIndex(RemoveAt(records, i), target) ==
              match FindFrom(records, target, i + 1)
              case None => None
              case Some(k) => Some(k - 1)
  {
    var rest := RemoveAt(records, i);
    var next := FindFrom(records, target, i + 1);
    forall j | 0 <= j < i
      ensures !HasBackendId(rest[j], target)
    {
      assert rest[j] == records[j];
    }
    if next.None? {
      forall j | i <= j < |rest|
        ensures !HasBackendId(rest[j], target)
      {
        assert rest[j] == records[j + 1];
      }
    } else {
      var k := next.value;
      forall j | i <= j < k - 1
        ensures !HasBackendId(rest[j], target)
      {
        assert rest[j] == records[j + 1];
      }
      assert rest[k - 1] == records[k];
      FirstMatchIsFound(rest, target, k - 1);
    }
  }

  /** An index whose record matches and no earlier one does is what the
      lookup returns. */
  lemma FirstMatchIsFound(records: seq<Record>, target: string, k: nat)
    requires k < |records| && HasBackendId(records[k], target)
    requires forall j :: 0 <= j < k ==> !HasBackendId(records[j], target)
    ensures FindIndex(records, target) == Some(k)
  {
  }

  /** Update keeps identities distinct: the replaced record has the same
      `__backendId` as the one it replaces. */
  lemma UpdatePreservesDistinctIds(records: seq<Record>, target: string, body: JValue)
    requires DistinctIds(records)
    ensures DistinctIds(UpdateStep(records, target, body).after)
  {
  }

  /** Delete keeps identities distinct, and then no record answers to the
      deleted target any more. */
  lemma DeletePreservesDistinctIds(records: seq<Record>, target: string)
    requires DistinctIds(records)
    ensures DistinctIds(DeleteStep(records, target).after)
    ensures DeleteStep(records, target).response.Ok? ==>
              FindIndex(DeleteStep(records, target).after, target).None?
  {
  }

  /** Create checks no uniqueness: posting an object payload whose
      `__backendId` is a non-empty string already stored at some index gives
      two records with that identity. (A falsy `__backendId` in the payload
      is replaced, so it cannot clash this way.) */
  lemma CreateCanDuplicateIds(records: seq<Record>, k: nat, body: JValue, hex: UuidHex, s: string)
    requires k < |records| && Get(records[k], BackendIdKey) == JString(s) && s != ""
    requires body.JObject? && BackendIdKey in body.fields && body.fields[BackendIdKey] == JString(s)
    ensures !DistinctIds(CreateStep(records, body, hex).after)
  {
    var after := CreateStep(records, body, hex).after;
    assert SameStringId(after[k], after[|records|]);
  }

  /** Scenario: creating `{"name": "a"}` in an empty store stores
      and returns the payload with both identity fields set to the fresh
      `rec_` value. */
  lemma CreateIntoEmptyStore(hex: UuidHex)
    ensures var expected := map["name" := JString("a"), BackendIdKey := FreshId(hex), IdKey := FreshId(hex)];
            CreateStep([], JObject(map["name" := JString("a")]), hex) == Outcome(Ok(expected), [expected])
  {
  }

  /** Scenario: updating record `r1` with `{"name": "b"}` stores
      exactly `{"name": "b", "__backendId": "r1", "id": "r1"}`; the old `id`
      and every other old field are gone. */
  lemma UpdateStoredRecord()
    ensures var old1 := map[BackendIdKey := JString("r1"), IdKey := JString("old"), "name" := JString("a")];
            var new1 := map["name" := JString("b"), BackendIdKey := JString("r1"), IdKey := JString("r1")];
            UpdateStep([old1], "r1", JObject(map["name" := JString("b")])) == Outcome(Ok(new1), [new1])
  {
  }

  /** A stored record that has an `id` but no `__backendId` is listed with
      that `id` as its identity, yet an update or delete by it finds nothing:
      lookup uses only the stored `__backendId`. */
  lemma ListedIdNotFound(hex: UuidHex, body: JValue)
    ensures var records := [map[IdKey := JString("r1")]];
            && ListView(records, [hex])[0][BackendIdKey] == JString("r1")
            && UpdateStep(records, "r1", body).response == Err(NotFound)
            && DeleteStep(records, "r1").response == Err(NotFound)
  {
  }

  /** A stored record with no truthy `__backendId` but a truthy `id` is
      listed with that `id` as its identity, yet the lookup of any non-empty
      target never lands on it: the lookup reads only the stored
      `__backendId`. (A stored `""` is falsy but still equals the target
      `""`, hence the non-empty target.) */
  lemma ListedIdNeverFound(records: seq<Record>, uuids: seq<UuidHex>, i: nat, target: string)
    requires |uuids| == |records| && i < |records| && target != ""
    requires !TruthyAt(records[i], BackendIdKey) && TruthyAt(records[i], IdKey)
    ensures ListView(records, uuids)[i][BackendIdKey] == records[i][IdKey]
    ensures FindIndex(records, target) != Some(i)
  {
  }

  /** A stored record with neither a truthy `__backendId` nor a truthy `id`
      is listed with the identity drawn by that read, so two reads drawing
      different fresh values list it with different identities. */
  lemma ListOfUnidentifiedRecordIsUnstable(records: seq<Record>, u1: seq<UuidHex>, u2: seq<UuidHex>, i: nat)
    requires |u1| == |records| && |u2| == |records| && i < |records|
    requires !TruthyAt(records[i], BackendIdKey) && !TruthyAt(records[i], IdKey) && u1[i] != u2[i]
    ensures ListView(records, u1)[i][BackendIdKey] != ListView(records, u2)[i][BackendIdKey]
  {
  }
}
