# Record store model

A Dafny model of the record store in `server.py`, a small CRUD service over an
ordered, file-backed list of schema-less JSON records. The model covers:

- the identity rule `add_backend_id`, which chooses `__backendId` and defaults `id`;
- the four operations: list (GET), create (POST), update (PUT) and delete (DELETE);
- the first-match lookup by `__backendId` that update and delete share.

The model has five modules:

- `Json` (json.dfy): decoded JSON values, Python truthiness, `dict.get` and `or`.
- `Identity` (identity.dfy): `add_backend_id` and its properties.
- `Collection` (collection.dfy): the handlers' logic as pure functions. These are
  the lookup, the list view, the payload fallback `or {}`, `pop`, and one step
  function per write operation. A step function gives the response and the
  list saved afterwards.
- `Server` (store.dfy): a `Store` class. Its `records` field stands for the
  stored list. Its methods change that list in place, as the handlers do, and
  each is proved equal to its step function.
- `Properties` (properties.dfy): lemmas relating several operations. They cover
  what a later list or lookup sees, the uniqueness of identities, and the
  two worked scenarios of create and update.

The answers map onto HTTP like this:

- `Ok` is 200, or 201 for a create, or 204 for a delete.
- `Err(NotFound)` is the 404 answer.
- `Err(PayloadNotObject)` is a truthy request body that is not a JSON object, such
  as a list, a number, a string or `true`. On that body, `payload.get` (POST) or
  `payload["__backendId"] = …` (PUT) raises, so the handler fails before saving
  anything.

The random `uuid4().hex` is an input of type `UuidHex` (32 lower-case hex digits).
`Store.List` and `ListView` take one such value per stored record. Only records
that lack a truthy `__backendId` and `id` use theirs.

Three behaviours of the code are easy to miss, and the model states them as the code has them:

- Identity uses Python truthiness, not "non-empty string". A truthy non-string
  `__backendId` or `id` (a number, `true`, a list) is kept as the identity.
- A stored record with a truthy `id` but no truthy `__backendId` is listed with
  that `id` as its identity. The lookup of update and delete never lands on that
  record, because it reads only the stored `__backendId`
  (`Properties.ListedIdNeverFound`). In a store holding only that record,
  update and delete by that `id` answer NotFound (`Properties.ListedIdNotFound`).
  A stored record with neither a truthy `__backendId` nor a truthy `id` is
  listed with a fresh identity that is never saved, so two reads drawing
  different fresh values disagree (`Properties.ListOfUnidentifiedRecordIsUnstable`).
- Nothing keeps identities unique. Update and delete preserve uniqueness, but
  create breaks it whenever the payload's `__backendId` is a non-empty string
  that is already stored (`Properties.CreateCanDuplicateIds`).

## Model

| member | source | states |
|---|---|---|
| `Json.Truthy` | server.py:25 | Python's truth test on a decoded value: the falsy values are exactly null, `false`, zero, `""`, `[]` and `{}` |
| `Json.Get` | server.py:25 | `dict.get`: the stored value when the key is present; the result is null iff the key is absent or holds null |
| `Json.Or` | server.py:25 | Python `or`: the left value when truthy, else the right; the result is truthy iff either is |
| `Identity.FreshId` | server.py:25 | a generated identity is the string `rec_` followed by the 32 hex digits |
| `Identity.SetIdentity` | server.py:26-27 | `__backendId` is overwritten with the identity; `id` is set to it only if absent; the keys are the old ones plus those two; every other field is kept |
| `Identity.AssignIdentity` | server.py:24-28 | `__backendId` is the old truthy `__backendId`, else the truthy `id`, else the fresh `rec_` value, and is always truthy; an existing `id` (even falsy) is kept, an absent one becomes the identity; no other key changes |
| `Identity.AssignIdentityFixedPoints` | server.py:25-27 | identity assignment leaves a record unchanged iff it already has a truthy `__backendId` and an `id` |
| `Identity.AssignIdentityIdempotent` | server.py:25-27 | applying identity assignment twice gives the once-applied record, whatever the second fresh value |
| `Identity.AssignIdentityUsesFreshOnlyWhenNeeded` | server.py:25 | the result does not depend on the fresh value when `__backendId` or `id` is truthy, and differs for different fresh values when neither is |
| `Identity.ForcedIdentityIsAssignment` | server.py:66-67 | the update path's forced identity equals identity assignment on the payload whose `__backendId` was overwritten with a truthy value |
| `Collection.HasBackendId` | server.py:55 | a record matches the target iff it stores `__backendId` as a JSON string equal to the target, so a number `5` never matches `"5"` |
| `Collection.FindFrom` | server.py:55 | the result is the least index at or after the start whose record's `__backendId` equals the target, or None when there is none |
| `Collection.FindIndex` | server.py:55-58 | the found index is the least matching one; None iff no stored record matches |
| `Collection.ListView` | server.py:41-43 | the list has the store's length; every listed record is identified; a stored truthy `__backendId` is never changed by a read; already identified records are listed unchanged |
| `Collection.ParsePayload` | server.py:45 | a falsy body becomes the empty record, an object body its own fields, and any other truthy body fails |
| `Collection.RemoveAt` | server.py:61 | `pop(i)` shortens the list by one, keeps the records before i, shifts those after down by one, and removes exactly one copy of record i |
| `Collection.CreateStep` | server.py:45-49 | on an object or falsy payload, the identified payload is appended and returned; otherwise the request fails and the list is unchanged |
| `Collection.UpdateStep` | server.py:54-70 | NotFound with the list unchanged when no record matches; otherwise only the first match's index changes and the length stays. The new record is the payload's own fields with `__backendId` forced to the target and `id` defaulted to it, not merged with the old record |
| `Collection.DeleteStep` | server.py:54-63 | NotFound with the list unchanged when no record matches; otherwise exactly the first match is removed |
| `Server.Store.constructor` | server.py:12-14 | a store without a backing file starts empty |
| `Server.Store.List` | server.py:41-43 | the GET answer equals the list view of the stored records; the store is not modified |
| `Server.Store.Create` | server.py:45-49 | the response and the new stored list are those of `CreateStep` on the old list |
| `Server.Store.Update` | server.py:54-70 | the in-place replacement gives the response and the new list of `UpdateStep` on the old list |
| `Server.Store.Delete` | server.py:54-63 | the in-place `pop` gives the response and the new list of `DeleteStep` on the old list |
| `Properties.CreateThenList` | server.py:41-49 | after a create the next list shows the returned record, with a truthy identity, last; the earlier records are listed as before |
| `Properties.UpdateThenFind` | server.py:55-68 | after an update the lookup of the target returns the same index |
| `Properties.UpdateThenList` | server.py:65-70 | after an update the next list shows the stored record at the matched index, with `__backendId` equal to the target whatever the payload said |
| `Properties.DeleteExposesNextMatch` | server.py:55-62 | after a delete the lookup of the same target finds the next former match, one index lower, or nothing |
| `Properties.RemovedLookup` | server.py:55-61 | removing an index before which nothing matches shifts the next match down by one |
| `Properties.FirstMatchIsFound` | server.py:55 | a matching index with no earlier match is exactly what the lookup returns |
| `Properties.UpdatePreservesDistinctIds` | server.py:65-68 | if no two records shared a string `__backendId` before an update, none do after |
| `Properties.DeletePreservesDistinctIds` | server.py:61-62 | delete keeps identities distinct, and with distinct identities the deleted target is then not found at all |
| `Properties.CreateCanDuplicateIds` | server.py:45-47 | posting an object payload whose `__backendId` is a non-empty string already stored at some index yields two records with that string identity |
| `Properties.CreateIntoEmptyStore` | server.py:45-49 | creating `{"name": "a"}` in an empty store stores and returns it with `__backendId` and `id` both `rec_` plus the fresh hex |
| `Properties.UpdateStoredRecord` | server.py:65-70 | updating `r1` with `{"name": "b"}` stores exactly `{"name": "b", "__backendId": "r1", "id": "r1"}`, dropping the old `id` and fields |
| `Properties.ListedIdNeverFound` | server.py:41-58 | a stored record with no truthy `__backendId` but a truthy `id` is listed with that `id` as its identity, and the lookup of any non-empty target never returns its index |
| `Properties.ListedIdNotFound` | server.py:41-58 | a stored record with only `id` `r1` is listed with identity `r1`, but update and delete of `r1` answer NotFound |
| `Properties.ListOfUnidentifiedRecordIsUnstable` | server.py:41-43 | a stored record with neither a truthy `__backendId` nor a truthy `id` is listed, at its index, with a different `__backendId` for each different fresh value drawn |

## Left out

- Flask routing, `jsonify`, status codes, the index page and `app.run` (server.py:31-36, 73-74): web plumbing. The answers are `Ok`/`Err` values.
- File reading and writing and JSON (de)serialisation in `load_data`/`save_data` (server.py:12-21): I/O done by a library. The `records` field is the stored list. An unreadable file, malformed JSON, or a file whose content is not a list of objects are not modelled.
- `uuid4` randomness: it is a foreign call, so its value is an input. Uniqueness of generated ids is not claimed; the code never checks it.
- The lost update between concurrent requests, each of which loads, changes and saves the whole file: this is concurrency, and the source has no lock to model.
- Flask rejecting a body that is not valid JSON (`get_json(force=True)`): library behaviour. Only the `or {}` fallback for a falsy parsed body is modelled.
- Key order of dicts and of the JSON output: the model's records are maps.
- JSON `NaN` and `Infinity`, which Python's decoder accepts: numbers are exact reals.
- In-place mutation of the dict by `add_backend_id`: the model works on values. No aliasing is observable here, because GET works on copies and each payload is freshly decoded.
- Properties.UpdateThenList: requires a non-empty target. The route never passes an empty path segment, and an empty target would be a falsy identity.
