/**
 * Session creation (backend/post_training.php): trim the title, refuse an
 * empty or already used title, otherwise insert a row with the current time
 * and all counters at 0.
 */
module PostTraining {
  import opened Common
  import opened Text
  import opened Schema

  datatype Reply = TitleRequired | DuplicateTitle | InsertFailed | Created

  function Status(r: Reply): int
  {
    match r
    case TitleRequired => 400
    case DuplicateTitle => 409
    case InsertFailed => 500
    case Created => 200
  }

  function Message(r: Reply): string
  {
    match r
    case TitleRequired => "Title is required"
    case DuplicateTitle => "Training mood with this title already exists"
    case InsertFailed => "Failed to insert training mood"
    case Created => "Training mood created successfully"
  }

  /** A new row as the schema's defaults make it: no votes yet. */
  function Fresh(id: int, title: string, now: int): Session
  {
    Session(id, title, now, 0, 0, 0)
  }

  /** Some row is titled exactly `t` (`SELECT id ... WHERE title = ?` finds a row). */
  predicate HasTitle(ss: seq<Session>, t: string)
  {
    exists i :: 0 <= i < |ss| && ss[i].title == t
  }

  /** The duplicate probe agrees with the first-match search the mood endpoint uses. */
  lemma HasTitleIffFound(ss: seq<Session>, t: string)
    ensures HasTitle(ss, t) <==> FindTitle(ss, t).Some?
  {
    if HasTitle(ss, t) {
      var i :| 0 <= i < |ss| && ss[i].title == t;
      assert FindTitle(ss, t).Some?;
    }
  }

  /**
   * The handler. `title` is the request's `title` field, `now` the value of
   * NOW(), and `insertOk` whether the INSERT statement succeeded.
   */
  function Create(db: Db, title: Option<string>, now: int, insertOk: bool): (out: (Db, Reply))
    ensures var t := Trim(if title.Some? then title.value else "");
            out.1 == Created <==> t != "" && !HasTitle(db.sessions, t) && insertOk
    ensures out.1 != Created ==> out.0 == db
    ensures out.0.ledgers == db.ledgers
    ensures out.1 == Created ==>
              && |out.0.sessions| == |db.sessions| + 1
              && out.0.sessions[..|db.sessions|] == db.sessions
              && out.0.nextId == db.nextId + 1
  {
    var t := Trim(if title.Some? then title.value else "");
    if t == "" then (db, TitleRequired)
    else if HasTitle(db.sessions, t) then (db, DuplicateTitle)
    else if !insertOk then (db, InsertFailed)
    else (db.(sessions := db.sessions + [Fresh(db.nextId, t, now)], nextId := db.nextId + 1), Created)
  }

  /** An absent title, or one made of blanks only, is refused with 400 and nothing is inserted. */
  lemma BlankTitleRejected(db: Db, title: Option<string>, now: int, insertOk: bool)
    requires title.Some? ==> forall i :: 0 <= i < |title.value| ==> IsBlank(title.value[i])
    ensures Create(db, title, now, insertOk) == (db, TitleRequired)
    ensures Status(TitleRequired) == 400
  {
    if title.Some? {
      TrimEmptyIff(title.value);
    }
  }

  /** A title that already exists (after trimming) is refused with 409 and the table is unchanged. */
  lemma DuplicateRejected(db: Db, title: string, now: int, insertOk: bool, i: nat)
    requires i < |db.sessions| && db.sessions[i].title == Trim(title) && Trim(title) != ""
    ensures Create(db, Some(title), now, insertOk) == (db, DuplicateTitle)
    ensures Status(DuplicateTitle) == 409
  {
  }

  /** A failed INSERT of a new, non-blank title is answered 500 and leaves the table as it was. */
  lemma InsertFailureChangesNothing(db: Db, title: string, now: int)
    requires Trim(title) != "" && !HasTitle(db.sessions, Trim(title))
    ensures Create(db, Some(title), now, false) == (db, InsertFailed)
    ensures Status(InsertFailed) == 500 && Message(InsertFailed) == "Failed to insert training mood"
  {
  }

  /**
   * A successful creation appends exactly one row, with the trimmed title, the
   * current time, the next id and zero counters; existing rows, the ledgers
   * and their order are untouched.
   */
  lemma CreatedRow(db: Db, title: string, now: int)
    requires Consistent(db)
    requires Trim(title) != "" && forall i :: 0 <= i < |db.sessions| ==> db.sessions[i].title != Trim(title)
    ensures var (db', r) := Create(db, Some(title), now, true);
            && r == Created && Message(r) == "Training mood created successfully"
            && |db'.sessions| == |db.sessions| + 1
            && db'.sessions[..|db.sessions|] == db.sessions
            && db'.sessions[|db.sessions|] == Session(db.nextId, Trim(title), now, 0, 0, 0)
            && (forall i :: 0 <= i < |db.sessions| ==> db.sessions[i].id < db.nextId)
            && db'.ledgers == db.ledgers
  {
    assert !HasTitle(db.sessions, Trim(title));
  }

  /** Creating a session keeps the database consistent (the new id has no ledger yet). */
  lemma CreatePreservesConsistency(db: Db, title: Option<string>, now: int, insertOk: bool)
    requires Consistent(db)
    ensures Consistent(Create(db, title, now, insertOk).0)
  {
    var raw := if title.Some? then title.value else "";
    var t := Trim(raw);
    if t != "" && !HasTitle(db.sessions, t) && insertOk {
      TrimIdempotent(raw);
      AppendFreshConsistent(db, t, now);
    }
  }

  /** Appending a fresh row with a new trimmed title at the next id keeps consistency. */
  lemma AppendFreshConsistent(db: Db, t: string, now: int)
    requires Consistent(db) && t != "" && Trim(t) == t && !HasTitle(db.sessions, t)
    ensures Consistent(Db(db.sessions + [Fresh(db.nextId, t, now)], db.ledgers, db.nextId + 1))
  {
    var ss := db.sessions + [Fresh(db.nextId, t, now)];
    AppendRowsOk(db, t, now);
    AppendIdsAscending(db, t, now);
    AppendTitlesUnique(db.sessions, t, now, db.nextId);
    assert LedgersOk(db.ledgers, db.nextId + 1);
  }

  /** Every row, old and new, is sound against the bumped counter. */
  lemma AppendRowsOk(db: Db, t: string, now: int)
    requires Consistent(db) && t != "" && Trim(t) == t
    ensures var ss := db.sessions + [Fresh(db.nextId, t, now)];
            forall i :: 0 <= i < |ss| ==> RowOk(ss[i], db.ledgers, db.nextId + 1)
  {
    var ss := db.sessions + [Fresh(db.nextId, t, now)];
    var n := |db.sessions|;
    assert db.nextId !in db.ledgers;
    assert LedgerOf(db.ledgers, db.nextId) == [];
    forall i | 0 <= i < |ss| ensures RowOk(ss[i], db.ledgers, db.nextId + 1) {
      if i < n {
        assert ss[i] == db.sessions[i];
        assert RowOk(db.sessions[i], db.ledgers, db.nextId);
      }
    }
  }

  /** The new id is above every existing one. */
  lemma AppendIdsAscending(db: Db, t: string, now: int)
    requires Consistent(db)
    ensures IdsAscending(db.sessions + [Fresh(db.nextId, t, now)])
  {
    var ss := db.sessions + [Fresh(db.nextId, t, now)];
    var n := |db.sessions|;
    forall i, j | 0 <= i < j < n + 1 ensures ss[i].id < ss[j].id {
      assert RowOk(db.sessions[i], db.ledgers, db.nextId);
      if j < n {
        assert db.sessions[i].id < db.sessions[j].id;
      }
    }
  }

  /** A title not yet present keeps titles unique. */
  lemma AppendTitlesUnique(sessions: seq<Session>, t: string, now: int, id: int)
    requires TitlesUnique(sessions) && !HasTitle(sessions, t)
    ensures TitlesUnique(sessions + [Fresh(id, t, now)])
  {
    var ss := sessions + [Fresh(id, t, now)];
    var n := |sessions|;
    forall i, j | 0 <= i < j < n + 1 ensures ss[i].title != ss[j].title {
      if j < n {
        assert sessions[i].title != sessions[j].title;
      } else {
        assert sessions[i].title != t;
      }
    }
  }

  /** Creating the same title twice: the second attempt is a conflict and leaves the first row as it was. */
  lemma CreateTwice(db: Db, title: string, now1: int, now2: int, ok: bool)
    requires Create(db, Some(title), now1, true).1 == Created
    ensures var db1 := Create(db, Some(title), now1, true).0;
            Create(db1, Some(title), now2, ok) == (db1, DuplicateTitle)
  {
    var db1 := Create(db, Some(title), now1, true).0;
    assert db1.sessions[|db.sessions|].title == Trim(title);
  }
}
