/**
 * The Note CRUD service of app/service/note_service.py over an in-memory
 * `notes` table: listing by recency, lookup, insert, sparse update and delete.
 */
module NoteService {
  import opened Wrappers
  import opened NoteModel
  import opened NoteSchema

  /** The service's one failure outcome: no row has the requested id. */
  datatype Error = NotFound

  // ---------------------------------------------------------------------------
  // Partial update, as a specification of the assignment loop

  /** An update dump assigns no `null` title (the column is NOT NULL). */
  predicate NoNullTitle(data: map<Key, Option<string>>) {
    Title in data ==> data[Title].Some?
  }

  /** One `setattr(note, k, v)`. */
  function SetAttr(n: Note, k: Key, v: Option<string>): (m: Note)
    requires k == Title ==> v.Some?
    ensures m.(title := n.title, content := n.content) == n
    ensures k == Title ==> m.content == n.content
    ensures k == Content ==> m.title == n.title
  {
    match k
    case Title => n.(title := v.value)
    case Content => n.(content := v)
  }

  /** The part of a dump whose keys lie in `keys`. */
  function Restrict(data: map<Key, Option<string>>, keys: set<Key>): map<Key, Option<string>> {
    map k | k in data && k in keys :: data[k]
  }

  /** The row once every key of the dump is assigned; every other attribute is kept. */
  function Patched(n: Note, data: map<Key, Option<string>>): (m: Note)
    requires NoNullTitle(data)
    ensures m.(title := n.title, content := n.content) == n
  {
    n.(title := if Title in data then data[Title].value else n.title,
       content := if Content in data then data[Content] else n.content)
  }

  /** Whether the dump changes a stored value, so that the ORM has something to write. */
  predicate Changes(n: Note, data: map<Key, Option<string>>)
    requires NoNullTitle(data)
  {
    Patched(n, data) != n
  }

  /** Assigning one more key of the dump extends the patch by that key, in any order. */
  lemma SetAttrExtends(n: Note, data: map<Key, Option<string>>, done: set<Key>, k: Key)
    requires NoNullTitle(data) && k in data && k !in done
    ensures SetAttr(Patched(n, Restrict(data, done)), k, data[k]) == Patched(n, Restrict(data, done + {k}))
  {
  }

  /** An update assigns only supplied keys: an omitted field keeps its value, a supplied one takes it. */
  lemma PatchFollowsPayload(n: Note, d: NoteUpdateDTO)
    requires NoNullTitle(Dump(d))
    ensures Patched(n, Dump(d)).title == (if d.title.Set? then d.title.value.value else n.title)
    ensures Patched(n, Dump(d)).content == (match d.content case Unset => n.content case Set(v) => v)
    ensures Patched(n, Dump(d)).id == n.id && Patched(n, Dump(d)).createdAt == n.createdAt
  {
  }

  /** An explicit `null` content clears the content; a missing content key leaves it as it was. */
  lemma NullVersusOmittedContent(n: Note, title: Field<Option<string>>)
    requires title.Set? ==> title.value.Some?
    ensures Patched(n, Dump(NoteUpdateDTO(title, Set(None)))).content == None
    ensures Patched(n, Dump(NoteUpdateDTO(title, Unset))).content == n.content
  {
  }

  /** Applying the same patch twice is applying it once. */
  lemma PatchIdempotent(n: Note, data: map<Key, Option<string>>)
    requires NoNullTitle(data)
    ensures Patched(Patched(n, data), data) == Patched(n, data)
    ensures !Changes(Patched(n, data), data)
  {
  }

  /** A payload the schema accepts keeps the row well formed. */
  lemma PatchKeepsWellFormed(n: Note, d: NoteUpdateDTO)
    requires WellFormed(n) && ValidUpdate(d) && NoNullTitle(Dump(d))
    ensures WellFormed(Patched(n, Dump(d)))
  {
  }

  // ---------------------------------------------------------------------------
  // Listing order

  /** Non-increasing `updated_at`: the `order_by(Note.updated_at.desc())` order. */
  predicate SortedByRecency(s: seq<NoteSummaryDTO>) {
    forall i, j :: 0 <= i < j < |s| ==> s[j].updatedAt <= s[i].updatedAt
  }

  predicate DistinctIds(s: seq<NoteSummaryDTO>) {
    forall i, j :: 0 <= i < j < |s| ==> s[i].id != s[j].id
  }

  function IdsOf(s: seq<NoteSummaryDTO>): set<Id> {
    set i | 0 <= i < |s| :: s[i].id
  }

  /** `s` lists the rows of `notes` under `keys` exactly once each, as summaries, most recently updated first. */
  predicate ListsRows(notes: map<Id, Note>, keys: set<Id>, s: seq<NoteSummaryDTO>) {
    && SortedByRecency(s)
    && DistinctIds(s)
    && IdsOf(s) == keys
    && forall i :: 0 <= i < |s| ==> s[i].id in notes && s[i] == Summary(notes[s[i].id])
  }

  /** `s` lists every row of `notes` exactly once, as its summary, most recently updated first. */
  predicate IsListing(notes: map<Id, Note>, s: seq<NoteSummaryDTO>) {
    ListsRows(notes, notes.Keys, s)
  }

  /** Where an entry updated at `t` goes in a listing sorted by recency: after every later entry. */
  function RecencyPos(s: seq<NoteSummaryDTO>, t: Time): (k: nat)
    ensures k <= |s|
    ensures forall i :: 0 <= i < k ==> t < s[i].updatedAt
    ensures k < |s| ==> s[k].updatedAt <= t
  {
    if s == [] || s[0].updatedAt <= t then 0 else 1 + RecencyPos(s[1..], t)
  }

  /** Distinct ids make the id set as large as the listing. */
  lemma {:induction false} DistinctIdsCount(s: seq<NoteSummaryDTO>)
    requires DistinctIds(s)
    ensures |IdsOf(s)| == |s|
  {
    if s != [] {
      DistinctIdsCount(s[1..]);
      assert IdsOf(s) == {s[0].id} + IdsOf(s[1..]) by {
        forall id | id in IdsOf(s) ensures id in {s[0].id} + IdsOf(s[1..]) {
          var i :| 0 <= i < |s| && s[i].id == id;
          if i > 0 { assert s[1..][i - 1].id == id; }
        }
        forall id | id in IdsOf(s[1..]) ensures id in IdsOf(s) {
          var i :| 0 <= i < |s[1..]| && s[1..][i].id == id;
          assert s[i + 1].id == id;
        }
      }
      assert s[0].id !in IdsOf(s[1..]) by {
        forall i | 0 <= i < |s[1..]| ensures s[1..][i].id != s[0].id {
          assert s[1..][i] == s[i + 1];
        }
      }
    }
  }

  /** A listing holds exactly one summary per stored note. */
  lemma ListingCount(notes: map<Id, Note>, s: seq<NoteSummaryDTO>)
    requires IsListing(notes, s)
    ensures |s| == |notes|
  {
    DistinctIdsCount(s);
  }

  /** The entries of `s` with `x` inserted at position `k`. */
  lemma InsertIndex(s: seq<NoteSummaryDTO>, k: nat, x: NoteSummaryDTO)
    requires k <= |s|
    ensures |s[..k] + [x] + s[k..]| == |s| + 1
    ensures forall i :: 0 <= i < k ==> (s[..k] + [x] + s[k..])[i] == s[i]
    ensures (s[..k] + [x] + s[k..])[k] == x
    ensures forall i :: k < i <= |s| ==> (s[..k] + [x] + s[k..])[i] == s[i - 1]
  {
  }

  /** Insertion at the recency position keeps a listing sorted. */
  lemma InsertSorted(s: seq<NoteSummaryDTO>, x: NoteSummaryDTO)
    requires SortedByRecency(s)
    ensures var k := RecencyPos(s, x.updatedAt); SortedByRecency(s[..k] + [x] + s[k..])
  {
    var k := RecencyPos(s, x.updatedAt);
    InsertIndex(s, k, x);
  }

  /** Insertion adds exactly the new entry's id. */
  lemma InsertIds(s: seq<NoteSummaryDTO>, k: nat, x: NoteSummaryDTO)
    requires k <= |s|
    ensures IdsOf(s[..k] + [x] + s[k..]) == IdsOf(s) + {x.id}
  {
    var s' := s[..k] + [x] + s[k..];
    InsertIndex(s, k, x);
    forall j | j in IdsOf(s') ensures j in IdsOf(s) + {x.id} {
      var i :| 0 <= i < |s'| && s'[i].id == j;
      if i < k { assert s[i].id == j; } else if i > k { assert s[i - 1].id == j; }
    }
    forall j | j in IdsOf(s) ensures j in IdsOf(s') {
      var i :| 0 <= i < |s| && s[i].id == j;
      if i < k { assert s'[i].id == j; } else { assert s'[i + 1].id == j; }
    }
    assert s'[k].id == x.id;
  }

  /** Insertion of an entry with a new id keeps the ids distinct. */
  lemma InsertDistinct(s: seq<NoteSummaryDTO>, k: nat, x: NoteSummaryDTO)
    requires k <= |s| && DistinctIds(s) && x.id !in IdsOf(s)
    ensures DistinctIds(s[..k] + [x] + s[k..])
  {
    var s' := s[..k] + [x] + s[k..];
    InsertIndex(s, k, x);
    forall i, j | 0 <= i < j < |s'| ensures s'[i].id != s'[j].id {
      if i == k {
        assert s[j - 1].id in IdsOf(s);
      } else if j == k {
        assert s[i].id in IdsOf(s);
      }
    }
  }

  /** Inserting one more row's summary at its recency position extends a partial listing by that row. */
  lemma InsertKeepsListing(notes: map<Id, Note>, keys: set<Id>, s: seq<NoteSummaryDTO>, id: Id, k: nat)
    requires ListsRows(notes, keys, s) && id in notes && id !in keys && notes[id].id == id
    requires k == RecencyPos(s, notes[id].updatedAt)
    ensures ListsRows(notes, keys + {id}, s[..k] + [Summary(notes[id])] + s[k..])
  {
    var x := Summary(notes[id]);
    InsertIndex(s, k, x);
    InsertSorted(s, x);
    InsertIds(s, k, x);
    InsertDistinct(s, k, x);
  }

  /** A number above every stored id, so that an unused id exists. */
  lemma {:induction false} AboveAll(used: set<Id>) returns (b: Id)
    ensures forall id :: id in used ==> id < b
    decreases used
  {
    if used == {} {
      b := 0;
    } else {
      var x :| x in used;
      var c := AboveAll(used - {x});
      b := if x < c then c else x + 1;
      forall id | id in used ensures id < b {
        if id != x { assert id in used - {x}; }
      }
    }
  }

  // ---------------------------------------------------------------------------
  // The store

  /** The `notes` table and the server clock; each mutating request is one sequential step. */
  class NoteStore {
    /** The rows, keyed by primary key: at most one row per id. */
    var notes: map<Id, Note>
    /** The latest server time handed out; `now()` never goes below it. */
    var clock: Time

    /** Every row sits under its own id, is well formed, and was last written no later than the clock. */
    ghost predicate Valid()
      reads this
    {
      forall id :: id in notes ==> notes[id].id == id && WellFormed(notes[id]) && notes[id].updatedAt <= clock
    }

    constructor ()
      ensures Valid() && notes == map[] && clock == 0
    {
      notes := map[];
      clock := 0;
    }

    /** `list_notes`: one summary per row, most recently updated first (ties in any order). */
    method ListNotes() returns (r: seq<NoteSummaryDTO>)
      requires Valid()
      ensures IsListing(notes, r)
    {
      r := [];
      var todo := notes.Keys;
      while todo != {}
        invariant todo <= notes.Keys
        invariant ListsRows(notes, notes.Keys - todo, r)
        decreases todo
      {
        var id :| id in todo;
        var x := Summary(notes[id]);
        var k := RecencyPos(r, x.updatedAt);
        InsertKeepsListing(notes, notes.Keys - todo, r, id, k);
        assert notes.Keys - todo + {id} == notes.Keys - (todo - {id});
        r := r[..k] + [x] + r[k..];
        todo := todo - {id};
      }
    }

    /** `get_note_by_id`: the row under `id`, or NotFound when there is none. */
    function GetNoteById(id: Id): (r: Result<Note, Error>)
      requires Valid()
      reads this
      ensures r.Ok? <==> id in notes
      ensures r.Ok? ==> r.value == notes[id] && r.value.id == id && WellFormed(r.value)
      ensures r.Err? ==> r.error == NotFound
    {
      if id in notes then Ok(notes[id]) else Err(NotFound)
    }

    /** `create_note`: insert one row with the payload's fields under an unused id, at a fresh server time. */
    method CreateNote(payload: NoteCreateDTO) returns (n: Note)
      requires Valid() && ValidCreate(payload)
      modifies this
      ensures Valid()
      ensures n.id !in old(notes) && notes == old(notes)[n.id := n]
      ensures n == Inserted(n.id, payload.title, payload.content, clock)
      ensures old(clock) <= clock
    {
      var bound := AboveAll(notes.Keys);
      assert bound !in notes;
      var id: Id :| id !in notes;
      var now: Time :| clock <= now;
      clock := now;
      n := Inserted(id, payload.title, payload.content, now);
      notes := notes[id := n];
    }

    /**
     * A create request as the web layer runs it: the body is validated first,
     * and a body the schema refuses never reaches `create_note`, so no row is stored.
     */
    method CreateFromBody(b: Body) returns (r: Result<Note, seq<Problem>>)
      requires Valid()
      modifies this
      ensures Valid()
      ensures r.Ok? <==> ValidateCreate(b).Ok?
      ensures r.Err? ==> r.error == ValidateCreate(b).error && notes == old(notes) && clock == old(clock)
      ensures r.Ok? ==> r.value.id !in old(notes) && notes == old(notes)[r.value.id := r.value]
      ensures r.Ok? ==> r.value == Inserted(r.value.id, ValidateCreate(b).value.title, ValidateCreate(b).value.content, clock)
      ensures r.Ok? ==> old(clock) <= clock
    {
      var v := ValidateCreate(b);
      if v.Err? {
        return Err(v.error);
      }
      var n := CreateNote(v.value);
      r := Ok(n);
    }

    /**
     * `update_note`: assign each supplied key of the payload to the row and, when
     * the ORM writes the row, bump its version and refresh `updated_at`. A row the
     * patch does not change may or may not be written.
     */
    method UpdateNote(id: Id, payload: NoteUpdateDTO) returns (r: Result<Note, Error>)
      requires Valid() && ValidUpdate(payload) && NoNullTitle(Dump(payload))
      modifies this
      ensures Valid()
      ensures r.Ok? <==> id in old(notes)
      ensures r.Err? ==> r.error == NotFound && notes == old(notes) && clock == old(clock)
      ensures r.Ok? ==> notes == old(notes)[id := r.value]
      ensures r.Ok? ==> old(clock) <= clock
      ensures r.Ok? ==>
        var p := Patched(old(notes[id]), Dump(payload));
        || r.value == Flushed(p, clock)
        || (r.value == p && !Changes(old(notes[id]), Dump(payload)) && clock == old(clock))
    {
      if id !in notes {
        return Err(NotFound);
      }
      var before := notes[id];
      var data := Dump(payload);
      var note := before;
      var todo := data.Keys;
      while todo != {}
        invariant todo <= data.Keys
        invariant note == Patched(before, Restrict(data, data.Keys - todo))
        invariant notes == old(notes) && clock == old(clock)
        decreases todo
      {
        var k :| k in todo;
        SetAttrExtends(before, data, data.Keys - todo, k);
        assert data.Keys - todo + {k} == data.Keys - (todo - {k});
        note := SetAttr(note, k, data[k]);
        todo := todo - {k};
      }
      assert Restrict(data, data.Keys) == data;
      PatchKeepsWellFormed(before, payload);
      var flush: bool :| note != before ==> flush;
      if flush {
        var now: Time :| clock <= now;
        clock := now;
        note := Flushed(note, now);
      }
      notes := notes[id := note];
      r := Ok(note);
    }

    /** `delete_note`: remove the row under `id`, or report NotFound and change nothing. */
    method DeleteNote(id: Id) returns (r: Result<(), Error>)
      requires Valid()
      modifies this
      ensures Valid()
      ensures r.Ok? <==> id in old(notes)
      ensures r.Err? ==> r.error == NotFound
      ensures notes == old(notes) - {id} && clock == old(clock)
      ensures GetNoteById(id) == Err(NotFound)
    {
      if id !in notes {
        return Err(NotFound);
      }
      notes := notes - {id};
      r := Ok(());
    }
  }

  /**
   * The create, title update and delete sequence the service is exercised with:
   * the version starts at its initial value and rises by one on the title change,
   * the content is kept, and the deleted note is no longer found.
   */
  method CreateUpdateDeleteScenario()
  {
    var store := new NoteStore();
    var created := store.CreateNote(NoteCreateDTO("Note 2", Some("Content 2")));
    assert created.optlock == InitialVersion;
    var updated := store.UpdateNote(created.id, NoteUpdateDTO(Set(Some("Test updated title")), Unset));
    assert updated.Ok?;
    assert Changes(created, Dump(NoteUpdateDTO(Set(Some("Test updated title")), Unset)));
    assert updated.value.id == created.id;
    assert updated.value.title == "Test updated title";
    assert updated.value.content == Some("Content 2");
    assert updated.value.optlock == InitialVersion + 1;
    var listing := store.ListNotes();
    ListingCount(store.notes, listing);
    assert |listing| == 1;
    var deleted := store.DeleteNote(created.id);
    assert deleted.Ok?;
    assert store.GetNoteById(created.id) == Err(NotFound);
    var again := store.DeleteNote(created.id);
    assert again == Err(NotFound);
    var rejected := store.CreateFromBody(Body(Set(None), Set(Some("Test note description"))));
    assert rejected.Err? && store.notes == map[];
  }
}
