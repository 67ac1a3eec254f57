/**
 * The two tables the handlers work on: `training_mood` (one row per training
 * session) and `trainer_interactions` (one ledger per session id, created on
 * the first submission), together with the table's AUTO_INCREMENT counter.
 */
module Schema {
  import opened Common
  import opened Moods
  import opened Ledgers
  import opened Text

  /** A `training_mood` row: id, title, time_stamp and the three mood counters. */
  datatype Session = Session(id: int, title: string, timeStamp: int, happy: int, sad: int, neutral: int)

  /**
   * The whole database. `sessions` is kept in ascending id order (the order of
   * insertion), `ledgers` maps a session id to its ledger, and `nextId` is the
   * id the next inserted session receives.
   */
  datatype Db = Db(sessions: seq<Session>, ledgers: map<int, Ledger>, nextId: int)

  /** An empty database; AUTO_INCREMENT starts at 1. */
  const Empty := Db([], map[], 1)

  /** The `<mood>_count` column of a row. */
  function Count(s: Session, m: Mood): int
  {
    match m
    case Happy => s.happy
    case Sad => s.sad
    case Neutral => s.neutral
  }

  /** `UPDATE ... SET <m>_count = <m>_count + delta` on one row. */
  function Bumped(s: Session, m: Mood, delta: int): (r: Session)
    ensures Count(r, m) == Count(s, m) + delta
    ensures forall o :: o != m ==> Count(r, o) == Count(s, o)
    ensures r.id == s.id && r.title == s.title && r.timeStamp == s.timeStamp
  {
    match m
    case Happy => s.(happy := s.happy + delta)
    case Sad => s.(sad := s.sad + delta)
    case Neutral => s.(neutral := s.neutral + delta)
  }

  /** The ledger of session `id`; a session nobody has voted on yet has none, which reads as empty. */
  function LedgerOf(lg: map<int, Ledger>, id: int): Ledger
  {
    if id in lg then lg[id] else []
  }

  /** The index of the first row titled exactly `title` (`SELECT ... WHERE title = ... LIMIT 1`). */
  function FindTitle(ss: seq<Session>, title: string): (r: Option<nat>)
    ensures r.None? <==> forall i :: 0 <= i < |ss| ==> ss[i].title != title
    ensures r.Some? ==> r.value < |ss| && ss[r.value].title == title
    ensures r.Some? ==> forall i :: 0 <= i < r.value ==> ss[i].title != title
  {
    if ss == [] then None
    else if ss[0].title == title then Some(0)
    else match FindTitle(ss[1..], title)
      case None => None
      case Some(k) => Some(k + 1)
  }

  /** Some row has id `id` (`SELECT id ... WHERE id = ... LIMIT 1` returns a row). */
  predicate HasId(ss: seq<Session>, id: int)
  {
    exists i :: 0 <= i < |ss| && ss[i].id == id
  }

  /** The id probe and the removal agree: a row carries the id exactly when removing that id changes the table. */
  lemma HasIdIffRemoves(ss: seq<Session>, id: int)
    ensures HasId(ss, id) <==> RemoveId(ss, id) != ss
  {
    if HasId(ss, id) {
      var i :| 0 <= i < |ss| && ss[i].id == id;
      assert ss[i] in ss && ss[i] !in RemoveId(ss, id);
    } else {
      RemoveAbsent(ss, id);
    }
  }

  /** Removes every row with id `id` (`DELETE FROM training_mood WHERE id = ...`). */
  function RemoveId(ss: seq<Session>, id: int): (r: seq<Session>)
    ensures |r| <= |ss|
    ensures forall s :: s in r <==> s in ss && s.id != id
  {
    if ss == [] then []
    else if ss[0].id == id then RemoveId(ss[1..], id)
    else [ss[0]] + RemoveId(ss[1..], id)
  }

  /** Row ids increase strictly along the table. */
  ghost predicate IdsAscending(ss: seq<Session>)
  {
    forall i, j :: 0 <= i < j < |ss| ==> ss[i].id < ss[j].id
  }

  /** The counters of `s` are the tallies of ledger `l`. */
  ghost predicate Reconciled(s: Session, l: Ledger)
  {
    s.happy == Tally(l, Happy) && s.sad == Tally(l, Sad) && s.neutral == Tally(l, Neutral)
  }

  /** Titles differ from row to row. */
  ghost predicate TitlesUnique(ss: seq<Session>)
  {
    forall i, j :: 0 <= i < j < |ss| ==> ss[i].title != ss[j].title
  }

  /** Every ledger belongs to an id already handed out and is well formed (orphans included). */
  ghost predicate LedgersOk(lg: map<int, Ledger>, nextId: int)
  {
    forall k :: k in lg ==> k < nextId && WellFormed(lg[k])
  }

  /**
   * One row is sound: its id is positive and below the AUTO_INCREMENT counter,
   * its title is trimmed and non-empty, and its counters are the tallies of its ledger.
   */
  ghost predicate RowOk(s: Session, lg: map<int, Ledger>, nextId: int)
  {
    0 < s.id < nextId && s.title != "" && Trim(s.title) == s.title
    && Reconciled(s, LedgerOf(lg, s.id))
  }

  /**
   * The invariant the handlers keep. Because ids stay below the AUTO_INCREMENT
   * counter, a deleted id is never handed out again and an orphaned ledger
   * never attaches to a new session.
   */
  ghost predicate Consistent(db: Db)
  {
    && db.nextId > 0
    && IdsAscending(db.sessions)
    && TitlesUnique(db.sessions)
    && LedgersOk(db.ledgers, db.nextId)
    && forall i :: 0 <= i < |db.sessions| ==> RowOk(db.sessions[i], db.ledgers, db.nextId)
  }

  /** Removing row `k` keeps the database consistent. */
  lemma RemoveRowConsistent(db: Db, k: nat)
    requires Consistent(db) && k < |db.sessions|
    ensures Consistent(db.(sessions := db.sessions[..k] + db.sessions[k + 1..]))
  {
    var ss := db.sessions;
    var ss' := ss[..k] + ss[k + 1..];
    forall i | 0 <= i < |ss'| ensures ss'[i] == ss[Old(i, k)] {
      if i < k {
        assert ss'[i] == ss[..k][i];
      } else {
        assert ss'[i] == ss[k + 1..][i - k];
      }
    }
    assert IdsAscending(ss') by {
      forall i, j | 0 <= i < j < |ss'| ensures ss'[i].id < ss'[j].id {
        assert Old(i, k) < Old(j, k);
      }
    }
    assert TitlesUnique(ss') by {
      forall i, j | 0 <= i < j < |ss'| ensures ss'[i].title != ss'[j].title {
        assert Old(i, k) < Old(j, k);
      }
    }
    forall i | 0 <= i < |ss'| ensures RowOk(ss'[i], db.ledgers, db.nextId) {
      assert RowOk(ss[Old(i, k)], db.ledgers, db.nextId);
    }
  }

  /** Where row `i` of a table with row `k` removed was before the removal. */
  function Old(i: nat, k: nat): nat
  {
    if i < k then i else i + 1
  }

  /** The empty database is consistent. */
  lemma EmptyConsistent()
    ensures Consistent(Empty)
  {
  }

  /**
   * In a consistent database the three counters of a session add up to the
   * number of distinct identities that voted on it.
   */
  lemma CountersMatchVoters(db: Db, i: nat)
    requires Consistent(db) && i < |db.sessions|
    ensures var s := db.sessions[i];
            s.happy + s.sad + s.neutral == |Users(LedgerOf(db.ledgers, s.id))|
  {
    var l := LedgerOf(db.ledgers, db.sessions[i].id);
    assert RowOk(db.sessions[i], db.ledgers, db.nextId);
    assert WellFormed(l) by {
      if db.sessions[i].id !in db.ledgers {
        assert l == [];
      }
    }
    TallyTotal(l);
    DistinctVoters(l);
  }

  /** With ascending ids, deleting the id of row `k` removes exactly that row. */
  lemma {:induction false} RemoveAt(ss: seq<Session>, k: nat)
    requires IdsAscending(ss) && k < |ss|
    ensures RemoveId(ss, ss[k].id) == ss[..k] + ss[k + 1..]
  {
    var rest := ss[1..];
    var id := ss[k].id;
    AscendingTail(ss);
    if k == 0 {
      assert forall i :: 0 <= i < |rest| ==> rest[i].id != id by {
        forall i | 0 <= i < |rest| ensures rest[i].id != id {
          assert rest[i] == ss[i + 1];
        }
      }
      RemoveAbsent(rest, id);
      assert RemoveId(ss, id) == rest;
    } else {
      assert RemoveId(ss, id) == [ss[0]] + RemoveId(rest, id) by {
        assert ss[0].id < id;
      }
      assert rest[k - 1] == ss[k];
      RemoveAt(rest, k - 1);
      SpliceShift(ss, k);
    }
  }

  /** Cutting row `k` out of `ss` is keeping its head and cutting row `k - 1` out of its tail. */
  lemma SpliceShift<T>(ss: seq<T>, k: nat)
    requires 0 < k < |ss|
    ensures [ss[0]] + (ss[1..][..k - 1] + ss[1..][k..]) == ss[..k] + ss[k + 1..]
  {
    assert ss[..k] == [ss[0]] + ss[1..][..k - 1];
    assert ss[k + 1..] == ss[1..][k..];
  }

  /** Dropping the first row keeps ids ascending. */
  lemma AscendingTail(ss: seq<Session>)
    requires IdsAscending(ss) && ss != []
    ensures IdsAscending(ss[1..])
  {
    var rest := ss[1..];
    forall i, j | 0 <= i < j < |rest| ensures rest[i].id < rest[j].id {
      assert rest[i] == ss[i + 1] && rest[j] == ss[j + 1];
    }
  }

  /** Removing an id no row carries changes nothing. */
  lemma {:induction false} RemoveAbsent(ss: seq<Session>, id: int)
    requires forall i :: 0 <= i < |ss| ==> ss[i].id != id
    ensures RemoveId(ss, id) == ss
  {
    if ss != [] {
      RemoveAbsent(ss[1..], id);
    }
  }
}
