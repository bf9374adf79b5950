# Note CRUD service — a Dafny model

This project models the core of a small web service for a single "Note" resource.
The service lists, reads, creates, partially updates and deletes rows of a `notes`
table. A row has a UUID primary key, an `optlock` version column, a non-null title
of at most 255 characters, a nullable content, and server-assigned `created_at` and
`updated_at` timestamps.

The database session is replaced by an in-memory table: a `NoteStore` class with a
`notes: map<Id, Note>` field and a monotone server clock `clock`. The modules follow
the source files:

- `note_model.dfy` (`NoteModel`) holds the `Note` row and its column constraints
  (`WellFormed`). It also holds the row an INSERT stores (`Inserted`) and the row an
  UPDATE writes (`Flushed`: version plus one, `updated_at` refreshed).
- `note_schema.dfy` (`NoteSchema`) holds request validation for create and update
  (`ValidateCreate`, `ValidateUpdate`) and the sparse `model_dump(exclude_unset=True)`
  of an update (`Dump`). It also holds the `NoteSummaryDTO`/`NoteDTO` projections
  (`Summary`, `Detail`).
- `note_service.dfy` (`NoteService`) holds `NoteStore` and its five operations. It
  also holds the partial-update specification (`Patched`), which the assignment loop
  of `UpdateNote` is proved against. The listing order (`IsListing`) is here too,
  together with the lemmas about both.
- `wrappers.dfy` holds `Option` and `Result`.

Function-level modelling choices:

- `Id` and `Time` are `nat`. A new id is any id not already in the table; the lemma
  `AboveAll` shows that one always exists.
- Each write takes a server time no earlier than the clock.
- `InitialVersion`, the version of a freshly inserted row, is an abstract constant.
  The column default is 0, but the ORM's version counter fills the column on insert.
- When a patch changes a stored value, the ORM writes the row. `optlock` then rises
  by exactly one and `updated_at` is refreshed.
- When a patch changes nothing, the ORM may skip the UPDATE. `UpdateNote` therefore
  allows either outcome and does not claim that an empty patch bumps the version.
- Listing ties in `updated_at` may come back in any order. `ListNotes` promises only
  the order `ORDER BY updated_at DESC` guarantees.

## Model

| member | source | states |
|---|---|---|
| `NoteModel.Inserted` | app/models/note_model.py:13-20 | an inserted row carries the given id, title and content, the initial version, and `created_at == updated_at == now`; it satisfies every column constraint |
| `NoteModel.Flushed` | app/models/note_model.py:14-24 | an UPDATE raises `optlock` by exactly 1 and sets `updated_at` to the new time; id, title, content and `created_at` are untouched; the row stays well formed |
| `NoteSchema.ValidateCreate` | app/schemas/note_schema.py:11-13 | a create body is accepted iff the title is supplied, non-null and at most 255 characters and the content key is supplied (null allowed); an accepted DTO holds exactly those values; a null title is refused with a `NullNotAllowed(Title)` complaint |
| `NoteSchema.ValidateUpdate` | app/schemas/note_schema.py:16-18 | an update body is refused only for a string title over 255 characters; an accepted DTO keeps which fields were supplied and their values, so defaults are never marked as set |
| `NoteSchema.Dump` | app/service/note_service.py:64 | the dump has a key exactly for each field the caller supplied, holding the supplied value (string or null) |
| `NoteSchema.SummaryExposes` | app/schemas/note_schema.py:21-24 | two rows have equal summaries iff they agree on id, title and `updated_at`; content, `created_at` and `optlock` are never exposed |
| `NoteSchema.DetailExposes` | app/schemas/note_schema.py:27-32 | two rows have equal full views iff they differ at most in `optlock` |
| `NoteSchema.Summary` | app/schemas/note_schema.py:21-24 | `NoteSummaryDTO.model_validate` of a row (app/service/note_service.py:23): id, title and `updatedAt` from `updated_at`; what it hides is stated by `SummaryExposes` |
| `NoteSchema.Detail` | app/schemas/note_schema.py:27-32 | the `NoteDTO` view of a row: id, title, content, `createdAt` and `updatedAt`; that it hides only `optlock` is stated by `DetailExposes` |
| `NoteService.SetAttr` | app/service/note_service.py:66 | one `setattr(note, k, v)` changes only the attribute `k` names and keeps every other column; its composition is stated by `SetAttrExtends` |
| `NoteService.Patched` | app/service/note_service.py:65-66 | the row after the whole assignment loop touches only title and content, keeping id, `optlock` and both timestamps; how it follows the payload is stated by `PatchFollowsPayload` |
| `NoteService.SetAttrExtends` | app/service/note_service.py:65-66 | one `setattr` of a not-yet-assigned key extends the patch applied so far by that key, whatever the iteration order |
| `NoteService.PatchFollowsPayload` | app/service/note_service.py:64-66 | after the update loop, a supplied title or content takes the supplied value, an omitted one keeps the old value, and id and `created_at` are kept |
| `NoteService.NullVersusOmittedContent` | app/schemas/note_schema.py:18 | an explicit null content clears the content; an omitted content key leaves it unchanged |
| `NoteService.PatchIdempotent` | app/service/note_service.py:65-66 | applying the same payload twice equals applying it once, and the second application changes nothing |
| `NoteService.PatchKeepsWellFormed` | app/schemas/note_schema.py:17 | a payload the update schema accepts, with no explicit null title, keeps the row within the column constraints |
| `NoteService.RecencyPos` | app/service/note_service.py:22 | the insertion position in a recency-sorted listing comes after every strictly later entry and before the first entry no later than the new one |
| `NoteService.InsertKeepsListing` | app/service/note_service.py:22-23 | inserting a new row's summary at its recency position extends a sorted, duplicate-free listing of some rows by exactly that row |
| `NoteService.DistinctIdsCount` | app/models/note_model.py:13 | a listing with pairwise distinct ids has as many ids as entries |
| `NoteService.ListingCount` | app/service/note_service.py:22-23 | a listing holds exactly as many summaries as there are stored notes |
| `NoteService.AboveAll` | app/models/note_model.py:13 | above every stored id there is a bound, so an unused id always exists for a new row |
| `NoteService.NoteStore.ListNotes` | app/service/note_service.py:16-23 | the result lists every stored note exactly once as its summary, with no duplicates or omissions, sorted by `updated_at` non-increasing |
| `NoteService.NoteStore.GetNoteById` | app/service/note_service.py:25-38 | the result is the stored row, whose id matches, iff the id is present; otherwise NotFound |
| `NoteService.NoteStore.CreateNote` | app/service/note_service.py:40-51 | adds exactly one row under an id not previously present, holding the payload's title and content, the initial version and one fresh server time for both timestamps; every other row is unchanged and the returned note is the stored row |
| `NoteService.NoteStore.CreateFromBody` | app/api/routes/note_router.py:35-42 | a body the create schema refuses, such as a null title, returns the complaints and stores nothing; an accepted body is created as by `CreateNote` |
| `NoteService.NoteStore.UpdateNote` | app/service/note_service.py:53-73 | on a missing id it returns NotFound and changes nothing; otherwise only that row changes. The row gets the supplied keys and keeps the rest; if the patch changes a value, `optlock` rises by 1 and `updated_at` is refreshed; otherwise the row may also stay as it was |
| `NoteService.NoteStore.DeleteNote` | app/service/note_service.py:75-89 | removes exactly the row under the id and leaves the others untouched, after which `GetNoteById` of that id is NotFound; on a missing id it returns NotFound and changes nothing |

`NoteService.CreateUpdateDeleteScenario` walks through the create, title update and
delete sequence of the repository's router tests, using only the store's contracts.
It creates "Note 2" at the initial version and changes its title, and proves that
the content is kept and the version has risen by one. It then deletes the note and
proves that both a second delete and a get report NotFound. Before the delete it
proves that the listing holds exactly one entry. Finally it proves that a create body
with a null title is refused and stores nothing.

## Left out

- Asynchronous sessions, `commit`/`refresh` and the connection pool (app/core/db.py): the table is a sequential in-memory map, one call per step.
- Concurrency and optimistic-lock conflicts: the `version_id_col` check would raise a stale-data error under concurrent writes, but no code surfaces it, so the sequential model has no Conflict outcome.
- Datastore failures (connection loss, constraint violations at the database) are not modelled; apart from validation complaints, the only failure outcome is NotFound.
- `NoteService.NoteStore.UpdateNote`, `NoteService.SetAttr`, `NoteService.Patched`, `NoteService.SetAttrExtends`, `NoteService.PatchFollowsPayload`, `NoteService.PatchIdempotent`, `NoteService.PatchKeepsWellFormed`: require that the payload holds no explicit null title, because the `Note` type has no null title. Python's `setattr` would accept `None`, and the error would only come at commit. The update schema admits `title: None`, which would write NULL into a NOT NULL column; the code does not handle the resulting database error.
- `NoteModel.Flushed`: `optlock` is an unbounded `nat`; the 32-bit `Integer` column's overflow after 2^31 - 1 updates is not modelled.
- `NoteService.NoteStore.UpdateNote`: whether the ORM writes a row that the patch leaves unchanged is not visible in the code, so the model allows both outcomes.
- `NoteModel.InitialVersion`: left abstract, because the ORM's version counter, not the column default of 0, decides the inserted value.
- UUID generation (`uuid4`) and `now()`: these are external. Ids are naturals, and a new one is chosen nondeterministically among the unused ones. Times are naturals handed out by a monotone clock.
- Rows inserted with an explicit id (as the test fixtures seed them) are not modelled; the create payload has no id.
- JSON decoding: a body is reduced to its `title` and `content` keys, each a string or null; values of other JSON types and extra keys are not modelled.
- Title length counts Unicode scalar values, as pydantic and PostgreSQL count characters; a Python `str` holding lone surrogates has no Dafny counterpart.
- HTTP routing and status codes (`404`, `201`, `204`, `422`), the ping route, application setup, settings, logging and migrations are framework glue and are not part of this model; NotFound and validation complaints are abstract outcomes.
- app/dto/note_schema.py duplicates the create constraints and is not imported by the service, so it is not part of this model.
