/**
 * The most recent session (backend/get_latest_training.php): the row with the
 * latest time_stamp, or 404 when the table is empty.
 */
module LatestTraining {
  import opened Common
  import opened Schema

  /** `Found` carries exactly the selected columns: id, title, time_stamp and the three counters. */
  datatype Reply = Found(row: Session) | NoTraining

  function Status(r: Reply): int
  {
    if r.Found? then 200 else 404
  }

  function Message(r: Reply): string
  {
    if r.Found? then "" else "No training mood found"
  }

  /**
   * A row whose time_stamp no other row exceeds (`ORDER BY time_stamp DESC
   * LIMIT 1`); among rows with equal time stamps the earliest is taken.
   */
  function Latest(ss: seq<Session>): (r: Option<Session>)
    ensures r.None? <==> ss == []
    ensures r.Some? ==> r.value in ss && forall s :: s in ss ==> s.timeStamp <= r.value.timeStamp
  {
    if ss == [] then None
    else match Latest(ss[1..])
      case None => Some(ss[0])
      case Some(b) => if b.timeStamp > ss[0].timeStamp then Some(b) else Some(ss[0])
  }

  /** The handler: 404 for an empty table, otherwise a row with the latest time stamp. */
  function GetLatest(db: Db): (r: Reply)
    ensures r.NoTraining? <==> db.sessions == []
    ensures r.NoTraining? ==> Status(r) == 404 && Message(r) == "No training mood found"
    ensures r.Found? ==> r.row in db.sessions
    ensures r.Found? ==> forall s :: s in db.sessions ==> s.timeStamp <= r.row.timeStamp
  {
    match Latest(db.sessions)
    case None => NoTraining
    case Some(s) => Found(s)
  }
}
