/**
 * Mood submission (backend/post_mood.php): validate the request, resolve the
 * title to the first matching session, then either record a first vote,
 * change an earlier vote, or leave everything as it is, keeping the session's
 * counters equal to the tallies of its ledger.
 */
module PostMood {
  import opened Common
  import opened Moods
  import opened Ledgers
  import opened Text
  import opened Schema

  datatype Reply =
    | MissingField
    | InvalidMood
    | SectionNotFound
    | Submitted
    | Unchanged
    | Updated(from: Mood, to: Mood)

  /** The HTTP status the handler answers with. */
  function Status(r: Reply): int
  {
    match r
    case MissingField => 400
    case InvalidMood => 400
    case SectionNotFound => 404
    case _ => 200
  }

  /** The text of the `error` (failures) or `message` (successes) field of the answer. */
  function Message(r: Reply): string
  {
    match r
    case MissingField => "Missing user, mood, or title"
    case InvalidMood => "Invalid mood"
    case SectionNotFound => "Training section not found"
    case Submitted => "Mood submitted"
    case Unchanged => "No change — same mood"
    case Updated(from, to) => "Mood updated from " + Name(from) + " to " + Name(to)
  }

  predicate IsError(r: Reply)
  {
    r.MissingField? || r.InvalidMood? || r.SectionNotFound?
  }

  /** The handler as a whole: the database after the request and the reply. */
  function Submit(db: Db, user: Option<string>, mood: Option<string>, title: Option<string>): (out: (Db, Reply))
    ensures IsError(out.1) ==> out.0 == db
    ensures out.0.nextId == db.nextId && |out.0.sessions| == |db.sessions|
    ensures forall j :: 0 <= j < |db.sessions| ==>
              out.0.sessions[j].id == db.sessions[j].id && out.0.sessions[j].title == db.sessions[j].title
  {
    if Missing(user) || Missing(mood) || Missing(title) then (db, MissingField)
    else match Parse(mood.value)
      case None => (db, InvalidMood)
      case Some(m) =>
        match FindTitle(db.sessions, title.value)
        case None => (db, SectionNotFound)
        case Some(i) => Reconcile(db, i, user.value, m)
  }

  /**
   * The ledger search and counter update for session row `i`: the first entry
   * naming `u` has its mood overwritten; a first-time voter is appended; the
   * counters follow; the ledger is written back (inserted when it did not exist).
   */
  function Reconcile(db: Db, i: nat, u: string, m: Mood): (out: (Db, Reply))
    requires i < |db.sessions|
    ensures !IsError(out.1)
    ensures out.0.nextId == db.nextId && |out.0.sessions| == |db.sessions|
    ensures forall j :: 0 <= j < |db.sessions| && j != i ==> out.0.sessions[j] == db.sessions[j]
    ensures out.0.sessions[i].id == db.sessions[i].id && out.0.sessions[i].title == db.sessions[i].title
    ensures out.0.sessions[i].timeStamp == db.sessions[i].timeStamp
    ensures out.0.ledgers.Keys == db.ledgers.Keys + {db.sessions[i].id}
    ensures forall id :: id != db.sessions[i].id ==> LedgerOf(out.0.ledgers, id) == LedgerOf(db.ledgers, id)
  {
    var s := db.sessions[i];
    var l := LedgerOf(db.ledgers, s.id);
    match FindUser(l, u)
    case None =>
      (Db(db.sessions[i := Bumped(s, m, 1)], db.ledgers[s.id := l + [Entry(u, m)]], db.nextId), Submitted)
    case Some(k) =>
      var prev := l[k].mood;
      var l' := l[k := l[k].(mood := m)];
      if prev == m then (db.(ledgers := db.ledgers[s.id := l']), Unchanged)
      else (Db(db.sessions[i := Bumped(Bumped(s, prev, -1), m, 1)], db.ledgers[s.id := l'], db.nextId),
            Updated(prev, m))
  }

  /** Row `i` is the first row titled `t`. */
  ghost predicate FirstTitled(db: Db, t: string, i: nat)
  {
    i < |db.sessions| && db.sessions[i].title == t
    && forall j :: 0 <= j < i ==> db.sessions[j].title != t
  }

  /** A request lacking user, mood or title is refused with 400 and changes nothing. */
  lemma MissingRejected(db: Db, user: Option<string>, mood: Option<string>, title: Option<string>)
    requires Missing(user) || Missing(mood) || Missing(title)
    ensures Submit(db, user, mood, title) == (db, MissingField)
    ensures Status(MissingField) == 400 && Message(MissingField) == "Missing user, mood, or title"
  {
  }

  /**
   * A mood other than the three spellings is refused with 400 whatever the
   * database holds: the reply does not depend on any table.
   */
  lemma InvalidMoodRejected(db: Db, user: string, mood: string, title: string)
    requires user != "" && mood != "" && title != ""
    requires mood != "happy" && mood != "sad" && mood != "neutral"
    ensures Submit(db, Some(user), Some(mood), Some(title)) == (db, InvalidMood)
    ensures Status(InvalidMood) == 400 && Message(InvalidMood) == "Invalid mood"
  {
  }

  /** A title no row carries is answered 404 and changes nothing. */
  lemma UnknownTitleRejected(db: Db, user: string, m: Mood, title: string)
    requires user != "" && title != ""
    requires forall i :: 0 <= i < |db.sessions| ==> db.sessions[i].title != title
    ensures Submit(db, Some(user), Some(Name(m)), Some(title)) == (db, SectionNotFound)
    ensures Status(SectionNotFound) == 404 && Message(SectionNotFound) == "Training section not found"
  {
  }

  /**
   * Only the first row carrying the title is touched: every other row, every
   * other session's ledger and the id counter are left as they were.
   */
  lemma OnlyFirstTitledTouched(db: Db, user: string, m: Mood, title: string, i: nat)
    requires user != "" && title != "" && FirstTitled(db, title, i)
    ensures var db' := Submit(db, Some(user), Some(Name(m)), Some(title)).0;
            && |db'.sessions| == |db.sessions| && db'.nextId == db.nextId
            && (forall j :: 0 <= j < |db.sessions| && j != i ==> db'.sessions[j] == db.sessions[j])
            && (forall id :: id != db.sessions[i].id ==> LedgerOf(db'.ledgers, id) == LedgerOf(db.ledgers, id))
            && db'.sessions[i].id == db.sessions[i].id && db'.sessions[i].title == title
            && db'.sessions[i].timeStamp == db.sessions[i].timeStamp
  {
    ParseName(m);
  }

  /**
   * A first-time voter is appended at the end of the ledger, the chosen mood's
   * counter rises by one, the other two stay, and the reply is "Mood submitted".
   */
  lemma FirstSubmission(db: Db, user: string, m: Mood, title: string, i: nat)
    requires user != "" && title != "" && FirstTitled(db, title, i)
    requires var l := LedgerOf(db.ledgers, db.sessions[i].id);
             forall k :: 0 <= k < |l| ==> l[k].user != user
    ensures var (db', r) := Submit(db, Some(user), Some(Name(m)), Some(title));
            var s, s' := db.sessions[i], db'.sessions[i];
            && r == Submitted && Status(r) == 200 && Message(r) == "Mood submitted"
            && Count(s', m) == Count(s, m) + 1
            && (forall o :: o != m ==> Count(s', o) == Count(s, o))
            && LedgerOf(db'.ledgers, s.id) == LedgerOf(db.ledgers, s.id) + [Entry(user, m)]
  {
    ParseName(m);
  }

  /**
   * A voter who changes their mood has only their first entry rewritten; the
   * old mood's counter drops by one, the new one rises by one, the third stays,
   * and the reply names both moods.
   */
  lemma MoodChanged(db: Db, user: string, m: Mood, title: string, i: nat, k: nat)
    requires user != "" && title != "" && FirstTitled(db, title, i)
    requires var l := LedgerOf(db.ledgers, db.sessions[i].id);
             k < |l| && l[k].user == user && l[k].mood != m
             && forall j :: 0 <= j < k ==> l[j].user != user
    ensures var (db', r) := Submit(db, Some(user), Some(Name(m)), Some(title));
            var s, s' := db.sessions[i], db'.sessions[i];
            var l, l' := LedgerOf(db.ledgers, s.id), LedgerOf(db'.ledgers, s.id);
            var prev := l[k].mood;
            && r == Updated(prev, m) && Status(r) == 200
            && Message(r) == "Mood updated from " + Name(prev) + " to " + Name(m)
            && Count(s', prev) == Count(s, prev) - 1
            && Count(s', m) == Count(s, m) + 1
            && (forall o :: o != m && o != prev ==> Count(s', o) == Count(s, o))
            && |l'| == |l| && l'[k] == Entry(user, m)
            && (forall j :: 0 <= j < |l| && j != k ==> l'[j] == l[j])
  {
    ParseName(m);
  }

  /** Resubmitting the mood already recorded changes no table and says so. */
  lemma SameMood(db: Db, user: string, m: Mood, title: string, i: nat)
    requires user != "" && title != "" && FirstTitled(db, title, i)
    requires MoodOf(LedgerOf(db.ledgers, db.sessions[i].id), user) == Some(m)
    ensures Submit(db, Some(user), Some(Name(m)), Some(title)) == (db, Unchanged)
    ensures Message(Unchanged) == "No change — same mood"
  {
    ParseName(m);
    var s := db.sessions[i];
    var l := LedgerOf(db.ledgers, s.id);
    var k := FindUser(l, user).value;
    assert l[k := l[k].(mood := m)] == l;
    assert db.ledgers[s.id := l] == db.ledgers;
  }

  /**
   * The ledger row is created lazily: a successful submission makes the
   * session's ledger exist (holding just the new vote if it did not exist
   * before) and creates no other ledger.
   */
  lemma LedgerCreatedLazily(db: Db, user: string, m: Mood, title: string, i: nat)
    requires user != "" && title != "" && FirstTitled(db, title, i)
    ensures var db' := Submit(db, Some(user), Some(Name(m)), Some(title)).0;
            var id := db.sessions[i].id;
            && db'.ledgers.Keys == db.ledgers.Keys + {id}
            && (id !in db.ledgers ==> db'.ledgers[id] == [Entry(user, m)])
  {
    ParseName(m);
  }

  /** Submitting the same vote a second time is answered "No change" and changes nothing. */
  lemma ResubmitIsNoOp(db: Db, user: string, m: Mood, title: string)
    requires !IsError(Submit(db, Some(user), Some(Name(m)), Some(title)).1)
    ensures var db1 := Submit(db, Some(user), Some(Name(m)), Some(title)).0;
            Submit(db1, Some(user), Some(Name(m)), Some(title)) == (db1, Unchanged)
  {
    ParseName(m);
    var i := FindTitle(db.sessions, title).value;
    var db1 := Submit(db, Some(user), Some(Name(m)), Some(title)).0;
    assert FirstTitled(db1, title, i);
    var l1 := LedgerOf(db1.ledgers, db.sessions[i].id);
    var l := LedgerOf(db.ledgers, db.sessions[i].id);
    match FindUser(l, user) {
      case None =>
        assert l1 == l + [Entry(user, m)] && l1[|l|] == Entry(user, m);
        assert FindUser(l1, user) == Some(|l|);
      case Some(k) =>
        assert l1 == l[k := l[k].(mood := m)] && l1[k] == Entry(user, m);
        assert FindUser(l1, user) == Some(k);
    }
    SameMood(db1, user, m, title, i);
  }

  /**
   * A submission keeps the database consistent: each counter still equals
   * the number of ledger entries with that mood, identities stay unique.
   */
  lemma SubmitPreservesConsistency(db: Db, user: Option<string>, mood: Option<string>, title: Option<string>)
    requires Consistent(db)
    ensures Consistent(Submit(db, user, mood, title).0)
  {
    if !Missing(user) && !Missing(mood) && !Missing(title) && Parse(mood.value).Some? {
      var m := Parse(mood.value).value;
      var t := title.value;
      var u := user.value;
      if FindTitle(db.sessions, t).Some? {
        var i := FindTitle(db.sessions, t).value;
        ReconcilePreservesConsistency(db, i, u, m);
      }
    }
  }

  lemma ReconcilePreservesConsistency(db: Db, i: nat, u: string, m: Mood)
    requires Consistent(db) && i < |db.sessions| && u != ""
    ensures Consistent(Reconcile(db, i, u, m).0)
  {
    var s := db.sessions[i];
    var l := LedgerOf(db.ledgers, s.id);
    assert WellFormed(l) by {
      if s.id !in db.ledgers {
        assert l == [];
      }
    }
    assert Reconciled(s, l);
    match FindUser(l, u) {
      case None =>
        var e := Entry(u, m);
        var s' := Bumped(s, m, 1);
        AppendWellFormed(l, e);
        TallyAppend(l, e, Happy);
        TallyAppend(l, e, Sad);
        TallyAppend(l, e, Neutral);
        assert Reconciled(s', l + [e]) by {
          assert Count(s', Happy) == Tally(l + [e], Happy);
          assert Count(s', Sad) == Tally(l + [e], Sad);
          assert Count(s', Neutral) == Tally(l + [e], Neutral);
        }
        SessionUpdateConsistent(db, i, s', l + [e]);
      case Some(k) =>
        var prev := l[k].mood;
        var l' := l[k := l[k].(mood := m)];
        var s' := if prev == m then s else Bumped(Bumped(s, prev, -1), m, 1);
        UpdateWellFormed(l, k, m);
        TallyUpdate(l, k, l[k].(mood := m), Happy);
        TallyUpdate(l, k, l[k].(mood := m), Sad);
        TallyUpdate(l, k, l[k].(mood := m), Neutral);
        assert Reconciled(s', l') by {
          assert Count(s', Happy) == Tally(l', Happy);
          assert Count(s', Sad) == Tally(l', Sad);
          assert Count(s', Neutral) == Tally(l', Neutral);
        }
        SessionUpdateConsistent(db, i, s', l');
        assert prev == m ==> db.sessions[i := s'] == db.sessions;
    }
  }

  /** Replacing row `i` by a reconciled row with the same key fields, and its ledger, keeps consistency. */
  lemma SessionUpdateConsistent(db: Db, i: nat, s': Session, l': Ledger)
    requires Consistent(db) && i < |db.sessions|
    requires s'.id == db.sessions[i].id && s'.title == db.sessions[i].title
    requires WellFormed(l') && Reconciled(s', l')
    ensures Consistent(Db(db.sessions[i := s'], db.ledgers[s'.id := l'], db.nextId))
  {
    var db' := Db(db.sessions[i := s'], db.ledgers[s'.id := l'], db.nextId);
    var ss, ss' := db.sessions, db'.sessions;
    forall j | 0 <= j < |ss'| ensures RowOk(ss'[j], db'.ledgers, db'.nextId) {
      if j == i {
        assert RowOk(ss[i], db.ledgers, db.nextId);
      } else {
        OtherRowUnaffected(db, i, j, l');
      }
    }
    assert IdsAscending(ss') by {
      forall a, b | 0 <= a < b < |ss'| ensures ss'[a].id < ss'[b].id {
        assert ss[a].id < ss[b].id;
      }
    }
    assert TitlesUnique(ss') by {
      forall a, b | 0 <= a < b < |ss'| ensures ss'[a].title != ss'[b].title {
        assert ss[a].title != ss[b].title;
      }
    }
  }

  /** A row other than `i` keeps its soundness when row `i`'s ledger is replaced. */
  lemma OtherRowUnaffected(db: Db, i: nat, j: nat, l': Ledger)
    requires Consistent(db) && i < |db.sessions| && j < |db.sessions| && i != j
    ensures RowOk(db.sessions[j], db.ledgers[db.sessions[i].id := l'], db.nextId)
  {
    var ss := db.sessions;
    assert ss[j].id != ss[i].id by {
      if j < i { assert ss[j].id < ss[i].id; } else { assert ss[i].id < ss[j].id; }
    }
    assert RowOk(ss[j], db.ledgers, db.nextId);
    assert LedgerOf(db.ledgers[ss[i].id := l'], ss[j].id) == LedgerOf(db.ledgers, ss[j].id);
  }
}
