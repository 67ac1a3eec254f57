/**
 * The per-session interaction ledger: the ordered list of `{user, mood}` pairs
 * that post_mood.php keeps as a JSON array in `trainer_interactions.users`.
 */
module Ledgers {
  import opened Common
  import opened Moods

  datatype Entry = Entry(user: string, mood: Mood)

  type Ledger = seq<Entry>

  /** How many entries of `l` currently carry mood `m`. */
  function Tally(l: Ledger, m: Mood): (n: nat)
    ensures n <= |l|
  {
    if l == [] then 0 else (if l[0].mood == m then 1 else 0) + Tally(l[1..], m)
  }

  /** The index of the first entry whose user is exactly `u`, or None when there is none. */
  function FindUser(l: Ledger, u: string): (r: Option<nat>)
    ensures r.None? <==> forall i :: 0 <= i < |l| ==> l[i].user != u
    ensures r.Some? ==> r.value < |l| && l[r.value].user == u
    ensures r.Some? ==> forall i :: 0 <= i < r.value ==> l[i].user != u
  {
    if l == [] then None
    else if l[0].user == u then Some(0)
    else match FindUser(l[1..], u)
      case None => None
      case Some(k) => Some(k + 1)
  }

  /** The mood recorded for `u`, taken from the first entry that names `u`. */
  function MoodOf(l: Ledger, u: string): (r: Option<Mood>)
    ensures r.None? <==> forall i :: 0 <= i < |l| ==> l[i].user != u
    ensures r.Some? ==> exists i :: 0 <= i < |l| && l[i] == Entry(u, r.value)
  {
    match FindUser(l, u)
    case None => None
    case Some(k) => Some(l[k].mood)
  }

  /** No identity appears twice. */
  ghost predicate UsersUnique(l: Ledger)
  {
    forall i, j :: 0 <= i < j < |l| ==> l[i].user != l[j].user
  }

  /** What post_mood.php can ever have written: distinct, non-empty identities. */
  ghost predicate WellFormed(l: Ledger)
  {
    UsersUnique(l) && forall i :: 0 <= i < |l| ==> l[i].user != ""
  }

  /** The identities that have voted. */
  function Users(l: Ledger): (r: set<string>)
    ensures forall u :: u in r <==> exists i :: 0 <= i < |l| && l[i].user == u
  {
    if l == [] then {} else {l[0].user} + Users(l[1..])
  }

  /** Appending an entry adds one to its mood's tally and nothing to the others. */
  lemma {:induction false} TallyAppend(l: Ledger, e: Entry, m: Mood)
    ensures Tally(l + [e], m) == Tally(l, m) + (if e.mood == m then 1 else 0)
  {
    if l != [] {
      assert (l + [e])[1..] == l[1..] + [e];
      TallyAppend(l[1..], e, m);
    }
  }

  /** Overwriting entry `k` moves one vote from its old mood to the new entry's mood. */
  lemma {:induction false} TallyUpdate(l: Ledger, k: nat, e: Entry, m: Mood)
    requires k < |l|
    ensures Tally(l[k := e], m)
         == Tally(l, m) - (if l[k].mood == m then 1 else 0) + (if e.mood == m then 1 else 0)
  {
    if k > 0 {
      assert l[k := e][1..] == l[1..][k - 1 := e];
      TallyUpdate(l[1..], k - 1, e, m);
    } else {
      assert l[k := e][1..] == l[1..];
    }
  }

  /** Every entry carries exactly one of the three moods. */
  lemma {:induction false} TallyTotal(l: Ledger)
    ensures Tally(l, Happy) + Tally(l, Sad) + Tally(l, Neutral) == |l|
  {
    if l != [] {
      TallyTotal(l[1..]);
    }
  }

  /** With unique identities, the ledger has exactly one entry per distinct voter. */
  lemma {:induction false} DistinctVoters(l: Ledger)
    requires UsersUnique(l)
    ensures |Users(l)| == |l|
  {
    if l != [] {
      var rest := l[1..];
      assert UsersUnique(rest) by {
        forall i, j | 0 <= i < j < |rest| ensures rest[i].user != rest[j].user {
          assert rest[i] == l[i + 1] && rest[j] == l[j + 1];
        }
      }
      DistinctVoters(rest);
      forall i | 0 <= i < |rest| ensures rest[i].user != l[0].user {
        assert rest[i] == l[i + 1];
      }
      assert l[0].user !in Users(rest);
    }
  }

  /** A first-time voter's entry keeps the identities unique and non-empty. */
  lemma AppendWellFormed(l: Ledger, e: Entry)
    requires WellFormed(l) && e.user != "" && FindUser(l, e.user).None?
    ensures WellFormed(l + [e])
  {
  }

  /** Changing an entry's mood keeps the ledger well formed. */
  lemma UpdateWellFormed(l: Ledger, k: nat, m: Mood)
    requires WellFormed(l) && k < |l|
    ensures WellFormed(l[k := l[k].(mood := m)])
  {
  }
}
