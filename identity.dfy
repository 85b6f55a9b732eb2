/**
 * The identity-assignment rule `add_backend_id`: every record leaving the
 * store carries a truthy `__backendId`, taken from the record itself when it
 * can be and generated otherwise, and an `id` that mirrors it when absent.
 */
module Identity {
  import opened Json

  const BackendIdKey: string := "__backendId"
  const IdKey: string := "id"
  const FreshPrefix: string := "rec_"
  const HexDigits: string := "0123456789abcdef"

  /** Any 32 lower-case hexadecimal digits: a superset of the texts
      `uuid4().hex` produces (which also fix a version and a variant digit). */
  predicate IsUuidHex(h: string) {
    |h| == 32 && forall i :: 0 <= i < |h| ==> h[i] in HexDigits
  }

  type UuidHex = h: string | IsUuidHex(h) witness "00000000000000000000000000000000"

  /** The generated identity `"rec_" + uuid4().hex`. */
  function FreshId(hex: UuidHex): (v: JValue)
    ensures v.JString? && |v.s| == |FreshPrefix| + 32
    ensures v.s[..|FreshPrefix|] == FreshPrefix && v.s[|FreshPrefix|..] == hex
  {
    JString(FreshPrefix + hex)
  }

  /** A record that already carries an identity: a truthy `__backendId` and
      some `id` (of any value). */
  predicate Identified(record: Record) {
    TruthyAt(record, BackendIdKey) && IdKey in record
  }

  /** `record["__backendId"] = identity` followed by
      `record.setdefault("id", identity)`. */
  function SetIdentity(record: Record, identity: JValue): (r: Record)
    ensures r.Keys == record.Keys + {BackendIdKey, IdKey}
    ensures r[BackendIdKey] == identity
    ensures IdKey in record ==> r[IdKey] == record[IdKey]
    ensures IdKey !in record ==> r[IdKey] == identity
    ensures forall k :: k in record && k != BackendIdKey && k != IdKey ==> r[k] == record[k]
  {
    var stamped := record[BackendIdKey := identity];
    if IdKey in stamped then stamped else stamped[IdKey := identity]
  }

  /** `add_backend_id`: the identity is the first truthy one of the stored
      `__backendId`, the stored `id` and a fresh `rec_` value. */
  function AssignIdentity(record: Record, hex: UuidHex): (r: Record)
    ensures Identified(r)
    ensures TruthyAt(record, BackendIdKey) ==> r[BackendIdKey] == record[BackendIdKey]
    ensures !TruthyAt(record, BackendIdKey) && TruthyAt(record, IdKey) ==> r[BackendIdKey] == record[IdKey]
    ensures !TruthyAt(record, BackendIdKey) && !TruthyAt(record, IdKey) ==> r[BackendIdKey] == FreshId(hex)
    ensures IdKey in record ==> r[IdKey] == record[IdKey]
    ensures IdKey !in record ==> r[IdKey] == r[BackendIdKey]
    ensures r.Keys == record.Keys + {BackendIdKey, IdKey}
    ensures forall k :: k in record && k != BackendIdKey && k != IdKey ==> r[k] == record[k]
  {
    SetIdentity(record, Or(Or(Get(record, BackendIdKey), Get(record, IdKey)), FreshId(hex)))
  }

  /** The records `add_backend_id` leaves unchanged are exactly the
      identified ones. */
  lemma AssignIdentityFixedPoints(record: Record, hex: UuidHex)
    ensures AssignIdentity(record, hex) == record <==> Identified(record)
  {
  }

  /** Assigning identity twice is assigning it once, whatever fresh value the
      second call is given. */
  lemma AssignIdentityIdempotent(record: Record, first: UuidHex, second: UuidHex)
    ensures AssignIdentity(AssignIdentity(record, first), second) == AssignIdentity(record, first)
  {
  }

  /** The fresh value matters only when neither `__backendId` nor `id` is
      truthy; otherwise the result does not depend on it. */
  lemma AssignIdentityUsesFreshOnlyWhenNeeded(record: Record, h1: UuidHex, h2: UuidHex)
    ensures (TruthyAt(record, BackendIdKey) || TruthyAt(record, IdKey)) ==>
              AssignIdentity(record, h1) == AssignIdentity(record, h2)
    ensures (!TruthyAt(record, BackendIdKey) && !TruthyAt(record, IdKey) && h1 != h2) ==>
              AssignIdentity(record, h1) != AssignIdentity(record, h2)
  {
  }

  /** The update path (force `__backendId`, default `id`) is identity
      assignment on the payload after its `__backendId` is overwritten with a
      truthy value: the fresh value is then never used. */
  lemma ForcedIdentityIsAssignment(payload: Record, identity: JValue, hex: UuidHex)
    requires Truthy(identity)
    ensures SetIdentity(payload, identity) == AssignIdentity(payload[BackendIdKey := identity], hex)
  {
  }
}
