/**
 * The request and response shapes of app/schemas/note_schema.py: validation of
 * the create and update bodies, the sparse dump of an update, and the two
 * read projections of a row.
 */
module NoteSchema {
  import opened Wrappers
  import opened NoteModel

  /** One key of a decoded JSON body: left out, or supplied (with a string or `null`). */
  datatype Field<+T> = Unset | Set(value: T)

  /** A decoded request body, reduced to the two keys the schemas read. */
  datatype Body = Body(title: Field<Option<string>>, content: Field<Option<string>>)

  /** The schema fields, which are also the `Note` attributes an update assigns. */
  datatype Key = Title | Content

  /** One validation complaint; the body is refused when there is at least one. */
  datatype Problem = Missing(key: Key) | NullNotAllowed(key: Key) | TooLong(key: Key)

  /** `NoteCreateDTO`: a required, non-null, bounded title and a required but nullable content. */
  datatype NoteCreateDTO = NoteCreateDTO(title: string, content: Option<string>)

  /**
   * `NoteUpdateDTO`: a `Body` that `ValidateUpdate` accepted. Both fields are
   * optional with default `None`; each keeps whether the caller supplied it, as
   * pydantic's set of explicitly set fields does.
   */
  datatype NoteUpdateDTO = NoteUpdateDTO(title: Field<Option<string>>, content: Field<Option<string>>)

  /** `NoteSummaryDTO`: the listing view. */
  datatype NoteSummaryDTO = NoteSummaryDTO(id: Id, title: string, updatedAt: Time)

  /** `NoteDTO`: the full view. */
  datatype NoteDTO = NoteDTO(id: Id, title: string, content: Option<string>, createdAt: Time, updatedAt: Time)

  predicate ValidCreate(d: NoteCreateDTO) {
    ValidTitle(d.title)
  }

  /** A title the caller supplied as a string respects the length bound; `null` or absence is accepted. */
  predicate ValidUpdate(d: NoteUpdateDTO) {
    d.title.Set? && d.title.value.Some? ==> ValidTitle(d.title.value.value)
  }

  /** The complaints about `title` on create: `Field(..., max_length=255)` of type `str`. */
  function CreateTitleProblems(f: Field<Option<string>>): seq<Problem> {
    match f
    case Unset => [Missing(Title)]
    case Set(None) => [NullNotAllowed(Title)]
    case Set(Some(t)) => if ValidTitle(t) then [] else [TooLong(Title)]
  }

  /** The complaints about `content` on create: `str | None` with no default, so the key is required. */
  function CreateContentProblems(f: Field<Option<string>>): seq<Problem> {
    if f.Unset? then [Missing(Content)] else []
  }

  /** Validation of a create body: every complaint about either field, or the DTO. */
  function ValidateCreate(b: Body): (r: Result<NoteCreateDTO, seq<Problem>>)
    ensures r.Ok? <==> b.title.Set? && b.title.value.Some? && ValidTitle(b.title.value.value) && b.content.Set?
    ensures r.Ok? ==> ValidCreate(r.value)
    ensures r.Ok? ==> b.title == Set(Some(r.value.title)) && b.content == Set(r.value.content)
    ensures r.Err? ==> |r.error| > 0
    ensures r.Err? ==> (b.title == Set(None) <==> NullNotAllowed(Title) in r.error)
  {
    var problems := CreateTitleProblems(b.title) + CreateContentProblems(b.content);
    if problems == [] then Ok(NoteCreateDTO(b.title.value.value, b.content.value))
    else Err(problems)
  }

  /** Validation of an update body: only a too-long string title is refused; set-ness is carried over. */
  function ValidateUpdate(b: Body): (r: Result<NoteUpdateDTO, seq<Problem>>)
    ensures r.Ok? <==> !(b.title.Set? && b.title.value.Some? && !ValidTitle(b.title.value.value))
    ensures r.Ok? ==> ValidUpdate(r.value)
    ensures r.Ok? ==> r.value.title == b.title && r.value.content == b.content
    ensures r.Err? ==> r.error == [TooLong(Title)]
  {
    match b.title
    case Set(Some(t)) =>
      if ValidTitle(t) then Ok(NoteUpdateDTO(b.title, b.content)) else Err([TooLong(Title)])
    case _ => Ok(NoteUpdateDTO(b.title, b.content))
  }

  /** `model_dump(exclude_unset=True)`: one entry per field the caller supplied, defaults left out. */
  function Dump(d: NoteUpdateDTO): (m: map<Key, Option<string>>)
    ensures Title in m <==> d.title.Set?
    ensures Content in m <==> d.content.Set?
    ensures Title in m ==> m[Title] == d.title.value
    ensures Content in m ==> m[Content] == d.content.value
  {
    var withTitle: map<Key, Option<string>> := if d.title.Set? then map[Title := d.title.value] else map[];
    if d.content.Set? then withTitle[Content := d.content.value] else withTitle
  }

  /** The listing projection of a row: `updatedAt` is read from `updated_at`, and nothing else is exposed. */
  function Summary(n: Note): (r: NoteSummaryDTO)
    ensures r.id == n.id && r.title == n.title && r.updatedAt == n.updatedAt
  {
    NoteSummaryDTO(n.id, n.title, n.updatedAt)
  }

  /** The full projection of a row: the timestamps are read from `created_at` and `updated_at`; `optlock` is not exposed. */
  function Detail(n: Note): (r: NoteDTO)
    ensures r.id == n.id && r.title == n.title && r.content == n.content
    ensures r.createdAt == n.createdAt && r.updatedAt == n.updatedAt
  {
    NoteDTO(n.id, n.title, n.content, n.createdAt, n.updatedAt)
  }

  /** Two rows have the same summary exactly when they agree on id, title and `updated_at`. */
  lemma SummaryExposes(a: Note, b: Note)
    ensures Summary(a) == Summary(b) <==> a.id == b.id && a.title == b.title && a.updatedAt == b.updatedAt
  {
  }

  /** Two rows have the same full view exactly when they differ at most in `optlock`. */
  lemma DetailExposes(a: Note, b: Note)
    ensures Detail(a) == Detail(b) <==> a == b.(optlock := a.optlock)
  {
  }
}
