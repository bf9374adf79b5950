/**
 * The `notes` table row, after app/models/note_model.py: a primary-key id,
 * the `optlock` version column, a bounded non-null title, nullable content
 * and two server-assigned timestamps.
 */
module NoteModel {
  import opened Wrappers

  /** The primary key. It stands for the row's UUID; unbounded, so an unused one always exists. */
  type Id = nat

  /** A server timestamp (`now()`); a larger value is later. */
  type Time = nat

  /** `String(255)`: the longest title the column holds. */
  const MaxTitleLength: nat := 255

  /**
   * The version a freshly inserted row holds. The column default is 0, but the
   * ORM's version counter fills the column on insert, so the model leaves the
   * value abstract.
   */
  const InitialVersion: nat

  /** One row. `title` is a plain string: the column is NOT NULL. */
  datatype Note = Note(
    id: Id,
    optlock: nat,
    title: string,
    content: Option<string>,
    createdAt: Time,
    updatedAt: Time)

  predicate ValidTitle(t: string) {
    |t| <= MaxTitleLength
  }

  /** What the column constraints and the timestamp defaults guarantee of every stored row. */
  predicate WellFormed(n: Note) {
    && ValidTitle(n.title)
    && n.createdAt <= n.updatedAt
    && InitialVersion <= n.optlock
  }

  /**
   * The row an INSERT stores: the version counter at its start and both
   * timestamps set to the same server time.
   */
  function Inserted(id: Id, title: string, content: Option<string>, now: Time): (n: Note)
    requires ValidTitle(title)
    ensures WellFormed(n)
    ensures n.id == id && n.title == title && n.content == content
    ensures n.optlock == InitialVersion && n.createdAt == now && n.updatedAt == now
  {
    Note(id, InitialVersion, title, content, now, now)
  }

  /**
   * The row an UPDATE writes: `version_id_col` raises `optlock` by one and
   * `onupdate=func.now()` refreshes `updated_at`; nothing else is touched.
   */
  function Flushed(n: Note, now: Time): (m: Note)
    requires WellFormed(n) && n.updatedAt <= now
    ensures WellFormed(m)
    ensures m.optlock == n.optlock + 1 && m.updatedAt == now
    ensures m.id == n.id && m.title == n.title && m.content == n.content && m.createdAt == n.createdAt
  {
    n.(optlock := n.optlock + 1, updatedAt := now)
  }
}
