# Crowd-level server: facility snapshot update

This project models, in Dafny, the report endpoint of a small crowd-level
server. The server keeps one JSON document. Its `facilities` list holds one
record per physical facility: `id`, `name`, `sub_name`, `max_capacity` and
`current_count`. A reporter POSTs a body with an `id`, a `name`, a
`max_capacity` and a `current_count`. The server checks the body, loads the
whole document and builds a two-field patch. It merges the patch into the
first record with that id and rewrites the whole document only when such a
record exists. It answers `{"Result": "Correct!"}` or `{"Result": "Failed"}`.

Layout:

- `facilities.dfy`, module `Facilities`: the `Facility` record and the `Patch`.
  It defines `Merge` (the `dict.update` of a record), `FirstMatch` (where the
  first record with an id is) and `Updated` (the list after a report). The
  lemmas about them are here too.
- `server.dfy`, module `Server`: the request body `Information` and its
  validation rules (`Accepted`: `name` of 1 to 50 characters,
  `max_capacity >= 0`, `current_count >= 0`; a body that breaks one is
  answered with status 422, `Unprocessable`). It also holds the imperative
  `UpdateJson` loop over an `array<Facility>`, which mutates the loaded list
  in place. `Handle` gives the answer and the stored document after a report.
  The class `Store` holds the document on disk as a `seq<Facility>` field.
  Its `Load` copies the document into a fresh array. Its `Save` replaces the
  document wholesale. Its `Update` is the endpoint. `Store.Update` and
  `UpdateJson` are proved against `Handle` and `Updated`.

Three things the endpoint in `main.py` does not do, and so the model does
not do either:

- It checks no credential: any caller's report is applied.
- Nothing appends the report to a log; the document holds only the latest
  figures.
- `save_to_json` truncates the file and rewrites it in place
  (main.py:79). The model only says that the document is replaced as a whole.

## Model

| member | source | states |
|---|---|---|
| Facilities.FirstMatch | main.py:72-73 | the loop's stopping point: `Some(k)` exactly when a record has the id, with `k` the first such position (every earlier record has a different id); `None` exactly when no record has it |
| Facilities.Updated | main.py:71-76 | a report never changes the list's length, nor any record's `id`, `name` or `sub_name` |
| Facilities.FirstMatchOnlyReadsIds | main.py:72-73 | which record the loop stops at depends only on the ids, position by position |
| Facilities.UpdatedHit | main.py:72-75 | if some record has the id, the first such record gets the new `max_capacity` and `current_count` and keeps its `id`, `name` and `sub_name`; every other record is unchanged |
| Facilities.UpdatedMiss | main.py:72-76 | if no record has the id, there is no match and the list is exactly as before |
| Facilities.UpdatedOnlyFirst | main.py:72-75 | a later record with the same id as an earlier one is left untouched |
| Facilities.UpdatedIdempotent | main.py:72-75 | applying the same report twice gives the same list as applying it once |
| Facilities.UpdatedLastWriterWins | main.py:72-75 | a second report for the same id fully overrides the first |
| Facilities.Merge | main.py:74 | `dict.update` with the patch: the two figures are overwritten and every other field stays (its effect is stated by `UpdatedHit`) |
| Facilities.UpdatedCommute | main.py:72-75 | after reports for two different known ids, the first record with each id holds its own report's figures, so neither update is lost; the two orders give the same list |
| Facilities.UpdatedKeepsNonNegative | main.py:74 | merging a patch with non-negative figures into a list with non-negative figures keeps every figure non-negative |
| Server.Handle | main.py:52-69 | the answer is 422 exactly when the body breaks a validation rule; it is `"Correct!"` exactly when the body is valid and some record has its id, and `"Failed"` exactly when the body is valid and none has; on any answer but `"Correct!"` the document is unchanged; on `"Correct!"` it is the patched list |
| Server.UpdateJson | main.py:71-76 | returns true exactly when some record of the list had the id, and leaves the array equal to `Updated` of its old contents |
| Server.Store.Load | main.py:54-55 | the loaded list is a fresh array holding the stored document |
| Server.Store.Save | main.py:78-80 | the stored document is replaced wholesale by the given list |
| Server.Store.Update | main.py:52-69 | the answer and the new stored document are those of `Handle` on the old document; a document with non-negative figures keeps them |
| Server.HandleKeepsRegistry | main.py:57-60 | whatever the answer, the stored list keeps its length and every record's `id`, `name` and `sub_name` |
| Server.HandleKnownId | main.py:63-66 | a valid report for a known id is answered `"Correct!"`; the first matching record stores the reported figures and keeps its identity fields; every other record is unchanged |
| Server.HandleKeepsNonNegative | main.py:20-21 | since accepted bodies have non-negative figures, a document with non-negative figures never gets a negative one |
| Server.HandleIgnoresName | main.py:57-60 | the body's `name` never reaches the document: two valid reports that differ only in their names store the same document |
| Server.Replay | main.py:52-69 | answering reports one after another never changes the list's length or any record's `id`, `name` or `sub_name`, and keeps a document with non-negative figures non-negative |
| Server.HandleAtPosition | main.py:72-75 | one report changes position `j` exactly when it is valid, names the id at `j`, and `j` is the first position with that id; it then merges its patch there |
| Server.ReplayLastWriterWins | main.py:52-69 | after any run of reports, the first record with an id holds the figures of the last valid report for that id (or its own if none); updates to other ids are never lost; a record that is not the first with its id never changes |
| Server.HandleAcceptsOverCapacity | main.py:20-21 | a `current_count` above `max_capacity` is accepted and stored as given, not rejected or clamped |

## Left out

- The validation rules (`Accepted`, main.py:17-21) are a predicate with no row of their own. `Handle` states what each rule decides.
- `PatchOf` (main.py:57-60), which builds the two-field patch, has no row of its own. `HandleIgnoresName` and `HandleKnownId` state what the patch carries and what it leaves out.
- `LastAccepted` is a helper that picks the last valid report for an id out of a run of reports; it models no source line of its own.
- File I/O and JSON encoding are not modelled. A missing or unreadable `data.json`, malformed JSON, or a document without a `facilities` key would raise an error and produce a server error. The model's document is always present and well formed.
- Records are modelled with exactly the five seed fields. Two things `dict` semantics allow are left out: a record without an `id` key (which would raise `KeyError`), and `update` adding a missing `max_capacity` or `current_count` key.
- Ids are integers. Python's `==` would also match a stored `4.0` or `true` against a reported `4` or `1`; stored ids of other JSON types are not modelled.
- Dict aliasing is not modelled. `update_json` mutates the dict object that the list holds. The model replaces the array element with a merged copy. Nothing else holds a reference to that dict, so the observable result is the same.
- Concurrent requests and crash behaviour are not modelled. The source takes no lock, and `save_to_json` truncates the file before rewriting it. Each call of `Store.Update` is taken as one uninterrupted step.
- Pydantic's type coercion of the body (strings or booleans for integers) is not modelled. The body arrives already typed.
- The name's length is measured in Unicode scalar values. Python counts code points, which differ only for lone surrogates.
- The console messages of the endpoint (main.py:65, main.py:68) are left out; they do not affect the answer or the document.
- The HTML page endpoint, template rendering, static files and CORS setup (main.py:14, main.py:26-48) are framework glue.
- The reporting client (`client.py`) is not part of this model. It only reads configuration and sends one POST.
