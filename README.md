# Farm survey store: a Dafny model

This project models the server side of a small farm-survey API. The API has two
tables: farm surveys (farmer, crop, location, sync flag, `last_updated`) and the tree
observations recorded under each survey. It models the request handlers that read and
write those tables, the validation each request body goes through before a handler runs,
and the optimistic-concurrency check on survey updates.

- `schemas.dfy` (module `Schemas`) covers the request and response shapes. A request body
  is modelled as it arrives: each field is `Absent`, `Null` or `Given(v)`. The parsers
  `ParseSurveyCreate`, `ParseSurveyUpdate`, `ParseTreeCreate` and `ParseTreeUpdate` accept
  a body or reject it as the validator does:
  - required fields must be given;
  - an optional field treats null the same as absent;
  - `sync_status` on create defaults to false;
  - the field constraints are latitude in [-90, 90], longitude in [-180, 180], non-empty
    names, a positive `tree_count` and non-negative measurements.
  Each parser comes with an encoder. A round-trip lemma shows that the parser accepts a
  payload's encoding exactly when the payload is valid.
- `models.dfy` (module `Models`) covers the two tables:
  - the row types;
  - the table invariant `Tables`: primary keys, every tree referencing an existing
    survey, and every stored row meeting its column constraints;
  - the row an insert stores (timestamps taken from the clock readings passed in);
  - the row a partial update leaves (`ApplySurveyUpdate`, `ApplyTreeUpdate`);
  - the cascade that removes a deleted survey's trees;
  - the ordered scans a query returns, with inductive lemmas about what each scan holds.
- `main.dfy` (module `Api`) covers the handlers:
  - the conflict test `Conflicts`, with its one-second tolerance `TOLERANCE` in
    microseconds;
  - the converters from stored rows to response records, with their inverses;
  - SQL-style paging;
  - the class `FarmStore`, which holds the two tables as maps plus the next id of each.
    Its methods are the ten handlers, each an atomic step that states the store's whole
    new state. The survey listing `GetSurveys` has no error path and returns a plain
    sequence. The other nine return `Ok(...)` or `Err(NotFound | Conflict | Validation)`
    (HTTP 404, 409, 422). `Valid()` (the table invariant) is kept by every method.

Checks run in the framework's order. Body validation (422) comes before the id lookup
(404), and for a survey update the lookup comes before the conflict test (409). A clock
reading is an argument (`now`, or `createdAt` and `updatedAt` for tree creation, whose
handler reads the clock twice) and a timestamp is an integer count of microseconds. The
source's `abs((stored - supplied).total_seconds()) > 1` becomes
`|stored - supplied| > 1_000_000`, so a difference of exactly one second passes.

Three modelling choices follow from the source:
- The tree update handler looks up only the tree and does not re-check its survey
  (`main.py:178-183`). The model does the same; the table invariant guarantees that the
  survey exists.
- The source leaves id assignment to the database engine (`models.py:10`, `models.py:25`).
  The model hands out ids from a counter per table.
- The source's queries carry no ORDER BY (`main.py:67`, `models.py:19`), so the order of
  surveys and trees in a listing is whatever the engine returns. The model returns them in
  ascending id order.

## Model

| member | source | states |
|---|---|---|
| `Schemas.ParseGeoLocation` | schemas.py:6-9 | an accepted location has both coordinates given and in range, and is exactly what was sent |
| `Schemas.ParseSurveyCreate` | schemas.py:20-30 | an accepted create body is valid (non-empty name and crop, valid location); name, crop and location are required and echoed; `sync_status` is echoed, or false when left out |
| `Schemas.ParseSurveyUpdate` | schemas.py:33-38 | an accepted update body is valid; each field is supplied exactly when it was given, with the given value |
| `Schemas.ParseTreeCreate` | schemas.py:41-53 | an accepted tree body is valid (non-empty species, count > 0, non-negative measurements); species and count are required; optional fields are echoed, null as absent |
| `Schemas.ParseTreeUpdate` | schemas.py:56-63 | an accepted tree update is valid; the constraints bind only the fields that are given |
| `Schemas.GeoLocationRoundTrip` | schemas.py:6-9 | a location is accepted exactly when both coordinates are in range |
| `Schemas.GeoLocationBoundaries` | schemas.py:8-9 | latitude ±90 and longitude ±180 are accepted; ±91 and ±181 are rejected |
| `Schemas.SurveyCreateRoundTrip` | schemas.py:20-30 | the create parser accepts a payload's encoding exactly when the payload is valid, and returns it unchanged |
| `Schemas.SurveyCreateSyncDefault` | schemas.py:25 | leaving `sync_status` out of a create body gives false |
| `Schemas.SurveyCreateRequiresFields` | schemas.py:22-24 | a create body without name, crop or location is rejected |
| `Schemas.SurveyUpdateRoundTrip` | schemas.py:33-38 | the update parser accepts an update's encoding exactly when the update is valid |
| `Schemas.SuppliedSend` | schemas.py:35-38 | an optional value sent and read back is the same value; a field read back and sent again is unchanged, except that null comes back as absent |
| `Schemas.SurveyUpdateEmptyBody` | schemas.py:33-38 | an empty update body is accepted and supplies no field |
| `Schemas.TreeCreateRoundTrip` | schemas.py:41-53 | the tree parser accepts a payload's encoding exactly when the payload is valid |
| `Schemas.TreeUpdateRoundTrip` | schemas.py:56-63 | the tree update parser accepts an update's encoding exactly when the update is valid |
| `Models.NewSurveyRow` | main.py:48-55 | an inserted survey echoes the payload's fields, takes the given id and has `last_updated` equal to the clock; it is a valid row exactly when the payload is valid |
| `Models.Tables` | models.py:10-26 | the table invariant (primary keys, a valid row per key, every tree's survey present) implies that the next id of each table is not yet taken |
| `Models.NewTreeRow` | main.py:139-148 | an inserted tree echoes the payload, belongs to the given survey, takes `created_at` and `updated_at` from two separate clock readings, and is valid exactly when the payload is |
| `Models.ApplySurveyUpdate` | main.py:101-112 | a supplied field (false included) overwrites; an unsupplied field keeps its value; latitude and longitude move together; the id stays; `last_updated` becomes the clock; validity is preserved |
| `Models.ApplyTreeUpdate` | main.py:185-199 | supplied fields overwrite and the others stay; a nullable field holding a value is never cleared; id, survey and `created_at` never change; `updated_at` becomes the clock; validity is preserved |
| `Models.SurveyUpdatesCompose` | main.py:101-112 | two successive survey updates equal one update in which the later supplied value wins for each field |
| `Models.SurveyUpdateIdempotent` | main.py:101-112 | replaying the same survey update changes nothing but the timestamp |
| `Models.EmptySurveyUpdate` | main.py:101-112 | an empty survey update only sets `last_updated` to the clock |
| `Models.EmptyTreeUpdate` | main.py:185-199 | an empty tree update only sets `updated_at` to the clock |
| `Models.CascadeKeepsTables` | models.py:19-26 | removing a survey together with its trees keeps the table invariant: no tree is left pointing at the deleted survey |
| `Models.SurveysInExactly` | main.py:67 | the survey scan holds exactly the stored surveys in the id range, in strictly ascending id order |
| `Models.SurveysInCount` | main.py:67 | the survey scan has one row per stored id in range |
| `Models.TreesInExactly` | main.py:165 | a survey's tree scan holds exactly that survey's stored trees, in strictly ascending id order |
| `Models.TreesInNone` | main.py:221-223 | a survey that no tree references has an empty tree list |
| `Models.CascadeDelete` | models.py:26 | after the cascade, the deleted survey has no trees and every other survey's tree list is unchanged |
| `Models.TreesInInsert` | main.py:139-152 | a new tree goes at the end of its own survey's list, and every other list is unchanged |
| `Api.Conflicts` | main.py:93-99 | an update conflicts exactly when a timestamp is supplied and it lies outside the closed one-second window around the stored `last_updated` |
| `Api.ConflictSymmetric` | main.py:95 | the conflict test gives the same answer whichever timestamp is ahead |
| `Api.ConflictBoundary` | main.py:93-95 | no timestamp never conflicts; exactly one second apart passes; one microsecond more conflicts |
| `Api.LostUpdateDetected` | main.py:92-112 | after another client's update commits more than a second after the record was read, an update carrying the old timestamp conflicts |
| `Api.UpdateWithinToleranceNotDetected` | main.py:92-112 | an intervening update that commits within one second of the read is not detected |
| `Api.TreeToSchema` | main.py:239-252 | a tree response carries exactly the stored row (it converts back to it) and is valid when the row is |
| `Api.SurveyToSchema` | main.py:217-236 | a survey response carries exactly the stored row with the location nested, plus one response per given tree in order (none when trees are not included); it is valid when the rows are |
| `Api.Page` | main.py:64-67 | a page has `min(limit, n - skip)` records, clamped at zero, taken in order from position `skip`; a negative offset counts as zero and a negative limit as no limit |
| `Api.ConsecutivePagesDisjoint` | main.py:67 | with ids in ascending order, a page and the page after it share no survey |
| `Api.FarmStore.constructor` | main.py:17-18 | the store starts with both tables empty and satisfies the table invariant |
| `Api.FarmStore.TreesOfExactly` | models.py:19 | the trees loaded for a survey are exactly its rows in the tree table, all valid, in ascending id order |
| `Api.FarmStore.CreateSurvey` | main.py:45-61 | an invalid body is a Validation error and changes nothing; otherwise the survey is stored under a fresh id, echoing the input, with `last_updated == now` and an empty tree list; the survey counter moves one past the new id; nothing else changes |
| `Api.FarmStore.GetSurveys` | main.py:64-68 | `skip` defaults to 0 and `limit` to 100; the page has `min(limit, count - skip)` surveys, each the rendering of a stored survey with its trees, in ascending id order |
| `Api.FarmStore.GetSurvey` | main.py:71-77 | NotFound exactly when the id is absent; otherwise the rendering of the stored survey, whose tree list holds exactly its trees, in ascending id order |
| `Api.FarmStore.UpdateSurvey` | main.py:80-116 | in order: Validation, NotFound if the id is absent, Conflict exactly when `Conflicts` holds; any error leaves the store unchanged; success replaces only that survey with `ApplySurveyUpdate(old, update, now)` |
| `Api.FarmStore.DeleteSurvey` | main.py:119-127 | NotFound exactly when the id is absent, changing nothing; otherwise the survey and all its trees are removed, and the other surveys and their tree lists are unchanged |
| `Api.FarmStore.CreateTree` | main.py:131-154 | Validation, then NotFound when the survey is missing (no tree added); otherwise the tree gets a fresh id, the given survey and the two clock readings as `created_at` and `updated_at`, and goes at the end of that survey's list; the tree counter moves one past the new id; nothing else changes |
| `Api.FarmStore.GetTrees` | main.py:157-166 | NotFound exactly when the survey is absent; otherwise exactly that survey's trees, valid, in ascending id order |
| `Api.FarmStore.GetTree` | main.py:169-175 | NotFound exactly when the id is absent; otherwise the stored tree, whose survey exists |
| `Api.FarmStore.UpdateTree` | main.py:178-203 | Validation, then NotFound exactly when the id is absent; any error changes nothing; success replaces only that tree with `ApplyTreeUpdate(old, update, now)` |
| `Api.FarmStore.DeleteTree` | main.py:206-214 | NotFound exactly when the id is absent, changing nothing; otherwise only that tree is removed |

## Left out

- Web plumbing is left out: routing, CORS, static files and the root page (`main.py:17-42`). HTTP status codes appear only as the `Error` constructors.
- Database sessions (`add`, `commit`, `refresh`), table creation and `database.py` are left out. `database.py` is not part of this model. Each handler is one atomic step on the maps.
- Concurrency is left out. Each call is atomic, so the check-then-write race between concurrent requests is not modelled.
- Timestamps are integers in microseconds, and each call of `datetime.utcnow()` is a clock-reading argument. ISO-8601 parsing of the `last_updated` query parameter is not modelled. The failure when that parameter carries a time zone and the stored value does not is not modelled either. `total_seconds()` divides the exact microsecond count by 10^6 with correct rounding, so comparing its result with 1 agrees with comparing the microsecond difference with 1_000_000.
- `last_updated` and `updated_at` never decrease, and a new tree has `created_at <= updated_at`, only if the clock never goes backwards. The model takes each reading as an argument and does not constrain the clock.
- Coordinates and measurements are `real`. Floating-point behaviour (NaN, rounding) is not modelled.
- Id assignment is left to the database engine in the source. The model hands out ids from a counter, so ids are never reused. SQLite without AUTOINCREMENT can reuse the highest deleted id, and the model does not capture that.
- `Api.FarmStore.GetSurveys`: no order is promised for the survey listing. The model fixes ascending id order, and the paging rules follow SQLite's treatment of negative LIMIT and OFFSET.
- `Api.FarmStore.TreesOf`: the order in which a survey's trees are loaded is the store's iteration order. The model fixes ascending id order.
- `Schemas.ParseTreeCreate`, `Schemas.ParseTreeUpdate`: `tree_count` and `age_avg` are unbounded `int`s in the model. In the source they go into SQLite `Integer` columns (`models.py:28`, `models.py:31`), which hold only signed 64-bit values. A body with `tree_count` of 2^63 or more is accepted by these parsers and stored by `Api.FarmStore.CreateTree` and `Api.FarmStore.UpdateTree`, where the source fails, either at validation or at commit.
- `Api.FarmStore.GetSurvey`, `Api.FarmStore.UpdateSurvey`, `Api.FarmStore.DeleteSurvey`, `Api.FarmStore.CreateTree`, `Api.FarmStore.GetTrees`, `Api.FarmStore.GetTree`, `Api.FarmStore.UpdateTree`, `Api.FarmStore.DeleteTree`: ids, and the `skip` and `limit` of `Api.FarmStore.GetSurveys`, are unbounded `int`s in the model. The source binds them into SQLite queries, which refuse integers outside the signed 64-bit range. For such an id the source fails with a server error, while the model answers `Err(NotFound)`; for such a `skip` or `limit` the source fails, while the model returns a page.
- Type coercion by the validator (for example a numeric string sent for a number) is not modelled. Request field types are fixed in the model.
- The frontend (`src/app.ts`, `static/js/app.js`), the service worker and the type declarations are outside this model.
