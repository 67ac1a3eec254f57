/**
 * Session deletion (backend/delete_section.php): only DELETE is accepted; a
 * missing or zero id, an unknown id and a failed statement are reported with
 * success=false; otherwise the row is removed. The session's ledger is not
 * touched and stays behind, orphaned.
 */
module DeleteSection {
  import opened Common
  import opened Schema

  datatype Reply = Preflight | MethodNotAllowed | IdRequired | SessionNotFound | DeleteFailed | Deleted

  function Status(r: Reply): int
  {
    if r == MethodNotAllowed then 405 else 200
  }

  /** The `success` field of the answer (a preflight answers with no body). */
  predicate Success(r: Reply)
  {
    r == Deleted
  }

  function Message(r: Reply): string
  {
    match r
    case Preflight => ""
    case MethodNotAllowed => "Method not allowed."
    case IdRequired => "Session ID is required."
    case SessionNotFound => "Session not found."
    case DeleteFailed => "Failed to delete session."
    case Deleted => "Session deleted successfully."
  }

  /**
   * The handler. `verb` is the HTTP method, `id` the request's `id` after
   * PHP's (int) cast (None when absent), and `deleteOk` whether the DELETE
   * statement succeeded.
   */
  function Delete(db: Db, verb: string, id: Option<int>, deleteOk: bool): (out: (Db, Reply))
    ensures !Success(out.1) ==> out.0 == db
    ensures out.0.ledgers == db.ledgers && out.0.nextId == db.nextId
    ensures Success(out.1) ==> id.Some? && id.value != 0 && deleteOk && HasId(db.sessions, id.value)
  {
    if verb == "OPTIONS" then (db, Preflight)
    else if verb != "DELETE" then (db, MethodNotAllowed)
    else if id.None? || id.value == 0 then (db, IdRequired)
    else if !HasId(db.sessions, id.value) then (db, SessionNotFound)
    else if !deleteOk then (db, DeleteFailed)
    else (db.(sessions := RemoveId(db.sessions, id.value)), Deleted)
  }

  /** Every method but DELETE (and the OPTIONS preflight) is refused with 405 and success=false. */
  lemma OtherMethodsRefused(db: Db, verb: string, id: Option<int>, deleteOk: bool)
    requires verb != "DELETE" && verb != "OPTIONS"
    ensures var (db', r) := Delete(db, verb, id, deleteOk);
            db' == db && Status(r) == 405 && !Success(r) && Message(r) == "Method not allowed."
  {
  }

  /** A missing or zero id deletes nothing. */
  lemma IdRequiredChangesNothing(db: Db, id: Option<int>, deleteOk: bool)
    requires id.None? || id.value == 0
    ensures Delete(db, "DELETE", id, deleteOk) == (db, IdRequired)
    ensures !Success(IdRequired) && Message(IdRequired) == "Session ID is required."
  {
  }

  /** An id no row carries is reported as not found and the table is unchanged. */
  lemma UnknownIdChangesNothing(db: Db, id: int, deleteOk: bool)
    requires id != 0 && forall i :: 0 <= i < |db.sessions| ==> db.sessions[i].id != id
    ensures Delete(db, "DELETE", Some(id), deleteOk) == (db, SessionNotFound)
    ensures !Success(SessionNotFound) && Message(SessionNotFound) == "Session not found."
  {
  }

  /** A failed DELETE of an existing id is answered success=false and the table is unchanged. */
  lemma DeleteFailureChangesNothing(db: Db, id: int)
    requires id != 0 && HasId(db.sessions, id)
    ensures Delete(db, "DELETE", Some(id), false) == (db, DeleteFailed)
    ensures Status(DeleteFailed) == 200 && !Success(DeleteFailed) && Message(DeleteFailed) == "Failed to delete session."
  {
  }

  /**
   * Deleting the id of row `k` removes exactly that row, keeps the others in
   * order, and leaves every ledger in place (the deleted session's included).
   */
  lemma DeletesExactlyThatRow(db: Db, k: nat)
    requires Consistent(db) && k < |db.sessions|
    ensures var (db', r) := Delete(db, "DELETE", Some(db.sessions[k].id), true);
            && r == Deleted && Success(r)
            && db'.sessions == db.sessions[..k] + db.sessions[k + 1..]
            && db'.ledgers == db.ledgers && db'.nextId == db.nextId
  {
    RemoveAt(db.sessions, k);
  }

  /** Deleting keeps the database consistent, whatever the request. */
  lemma DeletePreservesConsistency(db: Db, verb: string, id: Option<int>, deleteOk: bool)
    requires Consistent(db)
    ensures Consistent(Delete(db, verb, id, deleteOk).0)
  {
    if verb == "DELETE" && id.Some? && id.value != 0 && HasId(db.sessions, id.value) && deleteOk {
      var k :| 0 <= k < |db.sessions| && db.sessions[k].id == id.value;
      RemovedIdConsistent(db, k);
    }
  }

  /** Deleting the id of row `k` keeps the database consistent. */
  lemma RemovedIdConsistent(db: Db, k: nat)
    requires Consistent(db) && k < |db.sessions|
    ensures Consistent(db.(sessions := RemoveId(db.sessions, db.sessions[k].id)))
  {
    RemoveAt(db.sessions, k);
    RemoveRowConsistent(db, k);
  }

  /** Deleting the same id twice: the first call succeeds, the second finds nothing. */
  lemma DeleteTwice(db: Db, id: int, deleteOk: bool)
    requires Delete(db, "DELETE", Some(id), true).1 == Deleted
    ensures var db1 := Delete(db, "DELETE", Some(id), true).0;
            Delete(db1, "DELETE", Some(id), deleteOk) == (db1, SessionNotFound)
  {
    var db1 := Delete(db, "DELETE", Some(id), true).0;
    assert forall i :: 0 <= i < |db1.sessions| ==> db1.sessions[i] in db1.sessions;
  }
}
