/**
 * The per-viewer listing (backend/get_training_mood.php): one row per session,
 * newest id first, with the counters copied from the session and whether, and
 * how, the requesting identity voted.
 */
module TrainingMoods {
  import opened Common
  import opened Moods
  import opened Ledgers
  import opened Text
  import opened Schema
  import PostMood
  import PostTraining

  /** One element of the JSON array the handler answers with. */
  datatype Row = Row(
    id: int, trainingTitle: string,
    happy: int, sad: int, neutral: int,
    hasInteracted: bool, userMood: Option<Mood>)

  /** The identity the SQL query searches for; an absent `user` parameter is interpolated as ''. */
  function SearchKey(user: Option<string>): string
  {
    if user.Some? then user.value else ""
  }

  /**
   * The row shown for session `s`. `hasInteracted` comes from the SQL search
   * for the identity in the session's ledger; `userMood` from the loop over
   * the ledger that compares each entry's user with the request's `user`.
   */
  function View(s: Session, lg: map<int, Ledger>, user: Option<string>): (r: Row)
    ensures r.id == s.id && r.trainingTitle == s.title
    ensures r.happy == s.happy && r.sad == s.sad && r.neutral == s.neutral
    ensures var l := LedgerOf(lg, s.id);
            r.hasInteracted <==> exists j :: 0 <= j < |l| && l[j].user == SearchKey(user)
    ensures var l := LedgerOf(lg, s.id);
            r.userMood.Some? <==> user.Some? && exists j :: 0 <= j < |l| && l[j].user == user.value
    ensures var l := LedgerOf(lg, s.id);
            r.userMood.Some? ==>
              exists j :: 0 <= j < |l| && l[j] == Entry(user.value, r.userMood.value)
                       && forall q :: 0 <= q < j ==> l[q].user != user.value
  {
    var l := LedgerOf(lg, s.id);
    var has := FindUser(l, SearchKey(user)).Some?;
    var mood := if has && user.Some? then MoodOf(l, user.value) else None;
    assert mood.Some? ==> var k := FindUser(l, user.value).value; l[k] == Entry(user.value, mood.value);
    Row(s.id, s.title, s.happy, s.sad, s.neutral, has, mood)
  }

  /** The whole answer: row `k` shows the `k`-th session counting from the highest id down. */
  function Listing(ss: seq<Session>, lg: map<int, Ledger>, user: Option<string>): (rows: seq<Row>)
    ensures |rows| == |ss|
    ensures forall k :: 0 <= k < |ss| ==> rows[k] == View(ss[|ss| - 1 - k], lg, user)
  {
    if ss == [] then [] else [View(ss[|ss| - 1], lg, user)] + Listing(ss[..|ss| - 1], lg, user)
  }

  /** In a consistent database the listing is ordered by id, descending. */
  lemma NewestFirst(db: Db, user: Option<string>)
    requires Consistent(db)
    ensures var rows := Listing(db.sessions, db.ledgers, user);
            forall a, b :: 0 <= a < b < |rows| ==> rows[a].id > rows[b].id
  {
    var rows := Listing(db.sessions, db.ledgers, user);
    var n := |db.sessions|;
    forall a, b | 0 <= a < b < |rows| ensures rows[a].id > rows[b].id {
      assert db.sessions[n - 1 - b].id < db.sessions[n - 1 - a].id;
    }
  }

  /**
   * In a consistent database the two viewer fields agree: a viewer has
   * interacted exactly when a mood is shown for them, and a request without
   * `user` has interacted with nothing.
   */
  lemma ViewFieldsAgree(db: Db, i: nat, user: Option<string>)
    requires Consistent(db) && i < |db.sessions|
    ensures var r := View(db.sessions[i], db.ledgers, user);
            r.hasInteracted <==> r.userMood.Some?
  {
    var s := db.sessions[i];
    var l := LedgerOf(db.ledgers, s.id);
    if user.None? {
      if s.id in db.ledgers {
        assert WellFormed(db.ledgers[s.id]);
      }
      assert forall j :: 0 <= j < |l| ==> l[j].user != "";
    }
  }

  /**
   * After a successful submission by `user` for `title`, the listing shows the
   * submitter as having interacted with that session, with the mood just sent.
   */
  lemma SubmitterSeesOwnMood(db: Db, user: string, m: Mood, title: string, i: nat)
    requires user != "" && title != "" && PostMood.FirstTitled(db, title, i)
    ensures var db' := PostMood.Submit(db, Some(user), Some(Name(m)), Some(title)).0;
            var r := View(db'.sessions[i], db'.ledgers, Some(user));
            r.hasInteracted && r.userMood == Some(m)
  {
    ParseName(m);
    var db' := PostMood.Submit(db, Some(user), Some(Name(m)), Some(title)).0;
    var l := LedgerOf(db.ledgers, db.sessions[i].id);
    var l' := LedgerOf(db'.ledgers, db.sessions[i].id);
    match FindUser(l, user) {
      case None =>
        assert l' == l + [Entry(user, m)] && l'[|l|] == Entry(user, m);
        assert FindUser(l', user) == Some(|l|);
      case Some(k) =>
        assert l' == l[k := l[k].(mood := m)] && l'[k] == Entry(user, m);
        assert FindUser(l', user) == Some(k);
    }
  }

  /**
   * A freshly created session is listed first, with all counters at 0, not
   * interacted with and no mood, ahead of the listing as it was before. The
   * coach dashboard's local insert agrees with this in the counters,
   * has_interacted, user_mood and list position only: it shows the untrimmed
   * title it sent and reads an id the creation reply does not carry.
   */
  lemma CreatedSessionListedFirst(db: Db, title: string, now: int, user: Option<string>)
    requires Consistent(db)
    requires PostTraining.Create(db, Some(title), now, true).1 == PostTraining.Created
    ensures var db' := PostTraining.Create(db, Some(title), now, true).0;
            Listing(db'.sessions, db'.ledgers, user)
            == [Row(db.nextId, Trim(title), 0, 0, 0, false, None)] + Listing(db.sessions, db.ledgers, user)
  {
    var db' := PostTraining.Create(db, Some(title), now, true).0;
    assert db.nextId !in db.ledgers;
    assert db'.sessions[..|db.sessions|] == db.sessions;
  }
}
