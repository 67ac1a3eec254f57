/**
 * The backend as one object: the two tables and the AUTO_INCREMENT counter as
 * fields, and each request handler as a method that updates them in place.
 * Each method is proved to do what the handler's function in its own module
 * describes, and to keep the database consistent.
 */
module Store {
  import opened Common
  import opened Moods
  import opened Ledgers
  import opened Text
  import opened Schema
  import PostMood
  import PostTraining
  import DeleteSection
  import TrainingMoods

  class Store {
    /** `training_mood`, in ascending id order. */
    var sessions: seq<Session>
    /** `trainer_interactions`: session id to its ledger. */
    var ledgers: map<int, Ledger>
    /** The id the next inserted session receives. */
    var nextId: int

    function State(): Db
      reads this
    {
      Db(sessions, ledgers, nextId)
    }

    ghost predicate Valid()
      reads this
    {
      Consistent(State())
    }

    /** Empty tables. */
    constructor ()
      ensures Valid() && State() == Empty
    {
      sessions, ledgers, nextId := [], map[], 1;
      EmptyConsistent();
    }

    /** POST post_mood.php with body `{user, mood, title}`. */
    method SubmitMood(user: Option<string>, mood: Option<string>, title: Option<string>)
      returns (reply: PostMood.Reply)
      requires Valid()
      modifies this
      ensures Valid()
      ensures (State(), reply) == PostMood.Submit(old(State()), user, mood, title)
    {
      if Missing(user) || Missing(mood) || Missing(title) {
        return PostMood.MissingField;
      }
      var parsed := Parse(mood.value);
      if parsed.None? {
        return PostMood.InvalidMood;
      }
      var m, u := parsed.value, user.value;
      var found := FindTitle(sessions, title.value);
      if found.None? {
        return PostMood.SectionNotFound;
      }
      var idx := found.value;
      var tid := sessions[idx].id;

      // Load the ledger, if any, and overwrite the first entry naming the user.
      var users: Ledger := [];
      var previous: Option<Mood> := None;
      if tid in ledgers {
        users, previous := OverwriteFirst(ledgers[tid], u, m);
      }
      assert LedgerOf(ledgers, tid) == old(LedgerOf(ledgers, sessions[idx].id));

      // Adjust the counters; a first-time voter is appended to the ledger.
      if previous.Some? && previous.value != m {
        sessions := sessions[idx := Bumped(Bumped(sessions[idx], previous.value, -1), m, 1)];
      } else if previous.None? {
        users := users + [Entry(u, m)];
        sessions := sessions[idx := Bumped(sessions[idx], m, 1)];
      }

      // Write the ledger back: UPDATE when it existed, INSERT otherwise.
      ledgers := ledgers[tid := users];

      reply := if previous.None? then PostMood.Submitted
               else if previous.value == m then PostMood.Unchanged
               else PostMood.Updated(previous.value, m);
      assert (State(), reply) == PostMood.Reconcile(old(State()), idx, u, m);
      PostMood.SubmitPreservesConsistency(old(State()), user, mood, title);
    }

    /**
     * The `foreach ($usersArray as &$entry)` loop: the first entry naming `u`
     * gets mood `m` and its earlier mood is reported; with no such entry the
     * ledger comes back as it was.
     */
    static method OverwriteFirst(entries: Ledger, u: string, m: Mood)
      returns (updated: Ledger, previous: Option<Mood>)
      ensures previous.None? <==> FindUser(entries, u).None?
      ensures previous.None? ==> updated == entries
      ensures previous.Some? ==> var k := FindUser(entries, u).value;
                                 previous == Some(entries[k].mood) && updated == entries[k := Entry(u, m)]
    {
      updated, previous := entries, None;
      var i := 0;
      while i < |updated|
        invariant 0 <= i <= |updated|
        invariant updated == entries && previous.None?
        invariant forall j :: 0 <= j < i ==> updated[j].user != u
      {
        if updated[i].user == u {
          previous := Some(updated[i].mood);
          updated := updated[i := updated[i].(mood := m)];
          return;
        }
        i := i + 1;
      }
    }

    /** POST post_training.php with body `{title}`; `now` is NOW(), `insertOk` the INSERT's outcome. */
    method CreateTraining(title: Option<string>, now: int, insertOk: bool)
      returns (reply: PostTraining.Reply)
      requires Valid()
      modifies this
      ensures Valid()
      ensures (State(), reply) == PostTraining.Create(old(State()), title, now, insertOk)
    {
      var t := Trim(if title.Some? then title.value else "");
      if t == "" {
        return PostTraining.TitleRequired;
      }
      if PostTraining.HasTitle(sessions, t) {
        return PostTraining.DuplicateTitle;
      }
      if !insertOk {
        return PostTraining.InsertFailed;
      }
      sessions := sessions + [PostTraining.Fresh(nextId, t, now)];
      nextId := nextId + 1;
      reply := PostTraining.Created;
      PostTraining.CreatePreservesConsistency(old(State()), title, now, insertOk);
    }

    /** delete_section.php with HTTP method `verb` and body `{id}`; `deleteOk` is the DELETE's outcome. */
    method DeleteSession(verb: string, id: Option<int>, deleteOk: bool)
      returns (reply: DeleteSection.Reply)
      requires Valid()
      modifies this
      ensures Valid()
      ensures (State(), reply) == DeleteSection.Delete(old(State()), verb, id, deleteOk)
    {
      if verb == "OPTIONS" {
        return DeleteSection.Preflight;
      }
      if verb != "DELETE" {
        return DeleteSection.MethodNotAllowed;
      }
      if id.None? || id.value == 0 {
        return DeleteSection.IdRequired;
      }
      if !HasId(sessions, id.value) {
        return DeleteSection.SessionNotFound;
      }
      if !deleteOk {
        return DeleteSection.DeleteFailed;
      }
      sessions := RemoveId(sessions, id.value);
      reply := DeleteSection.Deleted;
      DeleteSection.DeletePreservesConsistency(old(State()), verb, id, deleteOk);
    }

    /** GET get_training_mood.php?user=...: reads the tables and changes nothing. */
    method ListTrainingMoods(user: Option<string>) returns (rows: seq<TrainingMoods.Row>)
      ensures rows == TrainingMoods.Listing(sessions, ledgers, user)
    {
      var n := |sessions|;
      rows := [];
      var k := 0;
      while k < n
        invariant 0 <= k <= n
        invariant |rows| == k
        invariant forall j :: 0 <= j < k ==> rows[j] == TrainingMoods.View(sessions[n - 1 - j], ledgers, user)
      {
        var row := RowFor(sessions[n - 1 - k], ledgers, user);
        rows := rows + [row];
        k := k + 1;
      }
    }

    /** The body of the listing's `while` loop: the array element for one session row. */
    static method RowFor(s: Session, lg: map<int, Ledger>, user: Option<string>) returns (row: TrainingMoods.Row)
      ensures row == TrainingMoods.View(s, lg, user)
    {
      var hasInteracted := s.id in lg && FindUser(lg[s.id], TrainingMoods.SearchKey(user)).Some?;
      var userMood: Option<Mood> := None;
      if hasInteracted {
        userMood := FirstMood(lg[s.id], user);
      }
      row := TrainingMoods.Row(s.id, s.title, s.happy, s.sad, s.neutral, hasInteracted, userMood);
    }

    /**
     * The `foreach ($usersArray as $entry)` loop of the listing: the mood of the
     * first entry whose user is identical to the request's `user`, or none.
     */
    static method FirstMood(entries: Ledger, user: Option<string>) returns (mood: Option<Mood>)
      ensures mood == if user.Some? then MoodOf(entries, user.value) else None
    {
      mood := None;
      var j := 0;
      while j < |entries|
        invariant 0 <= j <= |entries|
        invariant mood.None?
        invariant forall q :: 0 <= q < j ==> Some(entries[q].user) != user
      {
        if Some(entries[j].user) == user {
          mood := Some(entries[j].mood);
          return;
        }
        j := j + 1;
      }
    }
  }
}
