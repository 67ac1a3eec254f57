/** The three moods a team member can report, and their wire spelling. */
module Moods {
  import opened Common

  datatype Mood = Happy | Sad | Neutral

  /** The spelling used in requests, in the ledger and in the `<mood>_count` column names. */
  function Name(m: Mood): (r: string)
    ensures r == "happy" || r == "sad" || r == "neutral"
  {
    match m
    case Happy => "happy"
    case Sad => "sad"
    case Neutral => "neutral"
  }

  /** Accepts exactly the three spellings; anything else is an invalid mood. */
  function Parse(s: string): (r: Option<Mood>)
    ensures r.Some? <==> (s == "happy" || s == "sad" || s == "neutral")
    ensures r.Some? ==> Name(r.value) == s
  {
    if s == "happy" then Some(Happy)
    else if s == "sad" then Some(Sad)
    else if s == "neutral" then Some(Neutral)
    else None
  }

  /** Parsing the spelling of a mood gives that mood back. */
  lemma ParseName(m: Mood)
    ensures Parse(Name(m)) == Some(m)
  {
  }
}
