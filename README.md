# Announcements table of the High School Management System

This project models the announcement endpoints of the school management API
(`src/backend/routers/announcements.py`) in Dafny and proves what they promise.

The model keeps these parts of the handlers:

- The announcement collection is a map from ObjectId to document. The teacher
  directory is a set of usernames. Both are fields of the class
  `AnnouncementRouter.Router`.
- The five handlers are methods of that class: list active, list all, create,
  update and delete.
- Each handler first runs a chain of guards. The guards are pure functions in
  module `Announcements` (`CreateGuard`, `UpdateGuard`, `DeleteGuard`,
  `DateGuard`). A failed guard returns an `Error` and writes nothing.
- Both listings issue the store query `find(filter).sort("created_at", -1)`.
  It is modelled by `Announcements.Find`, a scan that inserts each matching
  document in order. Its result is specified by `QueryResult`: a permutation
  of the matching documents, newest `created_at` first, in any order among ties.
- The active filter compares the stored timestamp strings with the current
  time's `isoformat() + "Z"`. It uses code-point lexicographic order
  (`LexOrder.LexLe`), which is how MongoDB compares strings without a
  collation. The order is proved total.
- The loop that turns each `_id` into a string is `Router.RenderIds`. It
  changes nothing else in the documents.
- The model uses three outside functions: `datetime.fromisoformat` (applied
  after "Z" is replaced by "+00:00"), `ObjectId(s)` and `str(ObjectId)`. They
  are constants of function type that the router is built with
  (`parseIso`, `objectId`, `render`). "Now" is a parameter, `Clock(utc, stamp)`.
- The id the store assigns on insert is a parameter of `Create`. It must not
  already be in the map.
- The router is built only from an `objectId` and a `render` for which
  `ObjectId(str(oid)) == oid`, as BSON guarantees (`Router.IdsRoundTrip`). So
  the id string a handler returns can be passed back to update or delete.

The object invariant `Router.Valid()` says three things about every stored
record: its expiration date parses, its start date (if present) is non-empty
and parses, and its creator is in the teacher directory. Create, update and
delete preserve it. No handler requires it, because the source never relies
on it. The third clause holds only because these handlers never change the
teacher directory. Outside this module the directory is edited, and a
teacher who is removed leaves their announcements behind.

## Model

| member | source | states |
|---|---|---|
| `LexOrder.LexLeReflexive` | src/backend/routers/announcements.py:23-33 | the string order used by `$gte`/`$lte` and the sort is reflexive |
| `LexOrder.LexLeAntisymmetric` | src/backend/routers/announcements.py:23-33 | two strings each at or before the other are equal |
| `LexOrder.LexLeTransitive` | src/backend/routers/announcements.py:23-33 | the string order is transitive |
| `LexOrder.LexLeTotal` | src/backend/routers/announcements.py:23-33 | any two strings are comparable, so the `created_at` sort is well defined |
| `Announcements.ActiveWindowIsInterval` | src/backend/routers/announcements.py:23-33 | if a record is active at two times, it is active at every time between them |
| `Announcements.OutsideWindowNotActive` | src/backend/routers/announcements.py:23-33 | a record is inactive exactly when its expiration date is strictly before now, or its start date is strictly after now |
| `Announcements.InsertPosition` | src/backend/routers/announcements.py:33 | the insertion point lies after every strictly newer record and at the first record no newer than the new one |
| `Announcements.InsertKeepsNewestFirst` | src/backend/routers/announcements.py:33 | inserting at that point keeps a sequence ordered by `created_at` descending |
| `Announcements.InsertAddsOne` | src/backend/routers/announcements.py:33 | insertion adds exactly the new entry, and keeps ids distinct when the new id is fresh |
| `Announcements.Find` | src/backend/routers/announcements.py:23-33 | the query returns every matching record once, as stored, and no other, ordered newest first |
| `Announcements.QueryResultCount` | src/backend/routers/announcements.py:50 | a query result has as many entries as the table has matching records |
| `Announcements.ListedAfterInsert` | src/backend/routers/announcements.py:50 | a record just stored under an id appears, with that id and unchanged, in the list-all result |
| `Announcements.AwareExpiryRaises` | src/backend/routers/announcements.py:73-78 | as written, every expiration date with an offset ("Z" included) makes the future check raise TypeError |
| `Announcements.ZuluExpiryRaises` | src/backend/routers/announcements.py:74-75 | for a "Z" date in 2099, checked in 2023: the date is in the future, the intended check accepts it, and the check as written raises |
| `Announcements.ExpiryCheckCorrected` | src/backend/routers/announcements.py:73-78 | the corrected check never raises and accepts exactly the dates whose UTC instant is after now; it agrees with the written check wherever that one does not raise |
| `Announcements.DateGuardPrecedence` | src/backend/routers/announcements.py:73-85 | an unparsable expiration date gives the format error; otherwise a date not after now gives "must be in the future"; only then is an unparsable non-empty start date rejected; otherwise the checks pass |
| `Announcements.StartTimeNotChecked` | src/backend/routers/announcements.py:80-85 | the start date is checked only for format, never for its time |
| `Announcements.UnauthorizedFirst` | src/backend/routers/announcements.py:68-70 | create, update and delete fail with Unauthorized for a non-teacher, whatever the other inputs |
| `Announcements.UpdateGuardPrecedence` | src/backend/routers/announcements.py:113-140 | update checks the user, then a malformed id (InvalidId), then a missing record (NotFound), then the date checks |
| `Announcements.DeleteGuardPrecedence` | src/backend/routers/announcements.py:170-184 | delete checks the user, then a malformed id; it fails with NotFound exactly when no record has the id |
| `Announcements.RevisedIdempotent` | src/backend/routers/announcements.py:142-159 | applying the same update twice gives the same record as applying it once |
| `Announcements.RevisedWellFormed` | src/backend/routers/announcements.py:128-159 | a record that passes the date checks is well formed after the update |
| `Announcements.DeleteUndoesCreate` | src/backend/routers/announcements.py:176-186 | given `ObjectId(str(oid)) == oid`, deleting by the id string a create returned passes every delete check and gives back the table from before the create |
| `AnnouncementRouter.Router.RenderIds` | src/backend/routers/announcements.py:36-37 | each returned document is the fetched one, in the same position, with its `_id` as a string |
| `AnnouncementRouter.Router.GetActive` | src/backend/routers/announcements.py:18-39 | returns exactly the active records (`expiration_date >= now`, and `start_date` absent or `<= now`), newest first, with ids rendered |
| `AnnouncementRouter.Router.GetAll` | src/backend/routers/announcements.py:42-56 | a non-teacher gets Unauthorized; a teacher gets every record, newest first, with ids rendered |
| `AnnouncementRouter.Router.Create` | src/backend/routers/announcements.py:59-100 | on a guard failure, returns that error and leaves the table unchanged; otherwise it adds exactly one record under the fresh id, with the given message and expiration, the caller as `created_by`, now as `created_at`, and a start date only if a non-empty one was given; it returns that record; the invariant is kept |
| `AnnouncementRouter.Router.Update` | src/backend/routers/announcements.py:103-164 | on a guard failure, returns that error and leaves the table unchanged; otherwise it sets message and expiration, sets the start date if a non-empty one was given and clears it otherwise, and keeps `created_by`, `created_at` and every other record; it returns the stored record; the invariant is kept |
| `AnnouncementRouter.Router.Delete` | src/backend/routers/announcements.py:167-186 | on a guard failure, returns that error and leaves the table unchanged; otherwise it removes only that id, so the table shrinks by one, and returns the confirmation message |

## Findings

| source | as written | input that shows it | evidently intended | confidence | as-written member | corrected member |
|---|---|---|---|---|---|---|
| src/backend/routers/announcements.py:73-78 (also 128-133) | `expiration_dt <= datetime.utcnow()` compares the parsed date with a naive datetime. With "Z" turned into "+00:00", the parsed date is aware, so Python raises TypeError. `except ValueError` does not catch it, so the request fails with a server error. | `expiration_date="2099-01-01T00:00:00Z"` on create or update | an expiration date is rejected only when its instant, read in UTC, is not after now | high (Python's rule on comparing naive and aware datetimes); not executed | `Announcements.AwareExpiryRaises` (on `ExpiryCheckAsWritten`) | `Announcements.ExpiryCheckCorrected` (on `ExpiryCheck`, used by `DateGuard`) |

The router model uses the corrected check. A naive expiration date (no
offset) gets the same answer from both checks.

## Left out

- HTTP wiring: the FastAPI router and the mapping of `HTTPException` to status codes. Each error is one `Error` constructor; a success is `Ok`.
- The MongoDB client and its query language (`$and`, `$or`, `$exists`, `$set`, `$unset`, `.sort`). These become map operations and `Find`.
- `datetime.fromisoformat` and the "Z" substitution. They are the abstract `parseIso`.
- `datetime.utcnow()` is an input. `Create` reads the clock twice (lines 75 and 91); the model takes both readings as one `Clock`.
- The BSON ObjectId format, its parsing and rendering (`objectId`, `render`) and id generation (`newId`) are abstract.
- The update in the source is two writes (`$unset`, then `$set`, lines 151-159). Concurrent requests can interleave with them. The model performs the update as one atomic step.
- Documents with missing or non-string fields, which the handlers never write, are not modelled. So MongoDB's type bracketing in `$gte`/`$lte` is not modelled either.
- The teacher lookup `find_one({"_id": username})` is modelled as set membership. A found teacher document is never empty, so it is always truthy.
- `AnnouncementRouter.Router.Create`: requires that the store-assigned id is not already in the map. The store guarantees this; the handler does not check it.
- The active filter and the sort compare timestamps as strings, as the source does. So two timestamps written in different ISO-8601 forms compare by their text, not by the instants they name.
