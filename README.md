# TeamPulse backend, modelled in Dafny

TeamPulse is a small mood survey: a coach creates training sessions, team
members send "happy", "sad" or "neutral" for a session, and the dashboard
shows the three counters and whether the current visitor has voted. The
backend is a handful of PHP request handlers over two MySQL tables:

- `training_mood`: one row per session (id, title, time_stamp, happy_count,
  sad_count, neutral_count);
- `trainer_interactions`: per session, a JSON list of `{user, mood}` pairs
  (the ledger), created on the first vote.

This project models both tables as Dafny data (`Schema.Db`: the session rows
in ascending id order, a map from session id to ledger, and the
AUTO_INCREMENT counter). The three handlers that write and the listing
handler are each modelled twice over:

- as a pure function of the database in the handler's own module
  (`PostMood.Submit`, `PostTraining.Create`, `DeleteSection.Delete`,
  `TrainingMoods.Listing`), about which the lemmas are stated;
- as a method of the class `Store.Store`, whose fields are the two tables and
  the counter. The method updates them in place the way the PHP code does
  (the by-reference `foreach` over the ledger, the counter UPDATEs, the
  UPDATE-or-INSERT of the ledger row) or, for the listing, builds the rows
  in a loop as the PHP `while` does. It is proved to produce exactly the
  state and reply the function describes, keeping the class invariant.

The latest-session handler (`get_latest_training.php`) is one query whose
result is returned directly: no loop and no update. It is therefore
modelled only as the function `LatestTraining.GetLatest`.

The class invariant `Schema.Consistent` is the cross-table property the mood
handler maintains: every session's three counters equal the number of
entries of its ledger with each mood, identities are unique in a ledger,
ids are positive, ascending and below the AUTO_INCREMENT counter, and
titles are trimmed, non-empty and unique. All handlers preserve it.

The day/night theme switch of the frontend (`getDayOrNight.ts`) is modelled
as a function of the hour.

A delete of an unknown id is answered with status 200 and `success=false`,
not 404, and deleting a session leaves its ledger in the interaction table,
orphaned. Orphans are harmless in the model because ids
are never handed out twice, so no later session can inherit one.

Inputs that come from outside the handlers are parameters: the request
fields (`Option<string>`, None for an absent field), the HTTP method of the
delete request, NOW() as an integer time stamp, the outcome of the INSERT
and DELETE statements whose failure the code reports, and the hour of the
clock.

## Model

| member | source | states |
|---|---|---|
| `Store.Store.SubmitMood` | backend/post_mood.php:14-112 | the new tables and the reply are those `PostMood.Submit` gives for the old tables, and the invariant is kept |
| `Store.Store.OverwriteFirst` | backend/post_mood.php:54-67 | the first ledger entry naming the user gets the new mood and its old mood is reported; with no such entry the ledger is unchanged and no previous mood is reported |
| `PostMood.Submit` | backend/post_mood.php:14-112 | an error reply leaves the database unchanged; every submission keeps the id counter and the number, ids and titles of the rows |
| `PostMood.Reconcile` | backend/post_mood.php:46-106 | reconciling a vote on row i never errs, changes no other row and no other session's ledger, keeps row i's id, title and time stamp, and makes the session's own ledger exist while creating no other |
| `PostMood.MissingRejected` | backend/post_mood.php:19-23 | an absent or empty user, mood or title gives 400 "Missing user, mood, or title" and no change |
| `PostMood.InvalidMoodRejected` | backend/post_mood.php:25-29 | a mood other than the three spellings gives 400 "Invalid mood" and no change, whatever the tables hold |
| `Moods.Parse` | backend/post_mood.php:25 | exactly "happy", "sad" and "neutral" are accepted, and each parses to the mood spelled that way |
| `PostMood.UnknownTitleRejected` | backend/post_mood.php:36-41 | a title no row carries gives 404 "Training section not found" and no change |
| `Schema.FindTitle` | backend/post_mood.php:36-43 | finds the first row with exactly that title, or reports that none has it |
| `PostMood.OnlyFirstTitledTouched` | backend/post_mood.php:42-92 | only the first row with the title is updated; other rows, other ledgers, the id counter and the row's id, title and time stamp stay |
| `Ledgers.FindUser` | backend/post_mood.php:59-65 | the index of the first entry whose user is identical to the submitter, or none when no entry names them |
| `PostMood.FirstSubmission` | backend/post_mood.php:79-111 | a first-time voter is appended at the end of the ledger, their mood's counter rises by 1, the other two stay, reply "Mood submitted" |
| `PostMood.MoodChanged` | backend/post_mood.php:59-78 | a changed vote rewrites only the voter's first entry, the old mood's counter falls by 1, the new one rises by 1, the third stays, reply "Mood updated from X to Y" |
| `PostMood.SameMood` | backend/post_mood.php:71-110 | resubmitting the recorded mood leaves both tables as they were, reply "No change — same mood" |
| `PostMood.LedgerCreatedLazily` | backend/post_mood.php:95-106 | a successful vote makes the session's ledger exist (holding only that vote if it was absent) and creates no other ledger |
| `PostMood.ResubmitIsNoOp` | backend/post_mood.php:59-112 | sending the same successful vote twice: the second is answered "No change" and changes nothing |
| `PostMood.SubmitPreservesConsistency` | backend/post_mood.php:59-106 | every submission keeps counters equal to ledger tallies and identities unique |
| `Schema.Bumped` | backend/post_mood.php:73-86 | a counter UPDATE changes that one counter by the given amount and nothing else in the row |
| `Ledgers.TallyAppend` | backend/post_mood.php:81 | appending an entry adds one to its mood's tally only |
| `Ledgers.TallyUpdate` | backend/post_mood.php:62 | overwriting an entry's mood moves one vote from the old mood's tally to the new one's |
| `Ledgers.TallyTotal` | backend/post_mood.php:70-87 | the three tallies of a ledger add up to its length |
| `Ledgers.DistinctVoters` | backend/post_mood.php:59-87 | with unique identities the ledger has one entry per distinct voter |
| `Schema.CountersMatchVoters` | backend/post_mood.php:70-92 | in a consistent database a session's three counters sum to the number of distinct identities that voted on it |
| `Text.Trim` | backend/post_training.php:16 | the result is a slice `s[a..b]` of the input with only blanks (space, tab, LF, CR, NUL, vertical tab) outside it, and it has no blank at either end |
| `Text.Missing` | backend/post_mood.php:19 | PHP's `!$x` for a request field: the field is absent or the empty string |
| `Text.Leading` | backend/post_training.php:16 | the count of blanks the string starts with: all of them blank, and the character after them not |
| `Text.Trailing` | backend/post_training.php:16 | the count of blanks the string ends with: all of them blank, and the character before them not |
| `Text.TrimEmptyIff` | backend/post_training.php:16-19 | a title trims to nothing exactly when it is made of blanks only |
| `Text.TrimIdempotent` | backend/post_training.php:16 | trimming a trimmed title changes nothing |
| `PostTraining.BlankTitleRejected` | backend/post_training.php:15-23 | an absent or all-blank title gives 400 "Title is required" and nothing is inserted |
| `PostTraining.DuplicateRejected` | backend/post_training.php:25-36 | a title that, once trimmed, equals an existing row's title gives 409 and no change |
| `PostTraining.InsertFailureChangesNothing` | backend/post_training.php:38-49 | a failed INSERT of a non-blank title that no row carries is answered 500 "Failed to insert training mood" and leaves both tables as they were |
| `PostTraining.HasTitle` | backend/post_training.php:26-32 | the duplicate probe: some row carries exactly the trimmed title |
| `PostTraining.HasTitleIffFound` | backend/post_training.php:26-32 | the duplicate probe finds a row exactly when the first-match title search of the mood handler does |
| `PostTraining.Create` | backend/post_training.php:15-49 | a row is created exactly when the trimmed title is non-blank and new and the INSERT succeeds; then one row is appended after the unchanged existing rows and the counter rises by 1 (`PostTraining.CreatedRow` gives the new row's fields); every other outcome leaves the database unchanged; the ledgers never change |
| `PostTraining.CreatedRow` | backend/post_training.php:38-45 | success appends exactly one row (trimmed title, NOW(), a new id above all others, counters 0), keeps the existing rows and the ledgers, reply "Training mood created successfully" |
| `PostTraining.CreatePreservesConsistency` | backend/post_training.php:38-45 | creating a session keeps the invariant |
| `PostTraining.CreateTwice` | backend/post_training.php:25-45 | creating the same title a second time is a conflict that leaves the first row as it was |
| `Store.Store.CreateTraining` | backend/post_training.php:15-49 | the new tables and the reply are those `PostTraining.Create` gives for the old tables, and the invariant is kept |
| `TrainingMoods.CreatedSessionListedFirst` | frontend/src/components/CoachDashboard.tsx:90-100 | after a creation the listing is the new session (counters 0, not interacted, no mood) followed by the earlier listing. This agrees with the dashboard's local insert in the counters, has_interacted, user_mood and list position only: the dashboard shows the untrimmed title it sent and reads an id from the reply (lines 91-92), which post_training.php:45 does not send |
| `DeleteSection.OtherMethodsRefused` | backend/delete_section.php:15-19 | any method but DELETE or the OPTIONS preflight gives 405, success=false, "Method not allowed." and no change |
| `DeleteSection.IdRequiredChangesNothing` | backend/delete_section.php:23-29 | an absent or zero id gives success=false "Session ID is required." and no change |
| `DeleteSection.UnknownIdChangesNothing` | backend/delete_section.php:31-37 | an id no row carries gives success=false "Session not found." and no change |
| `DeleteSection.Delete` | backend/delete_section.php:15-45 | an unsuccessful request leaves the database unchanged; a successful one had a non-zero id that some row carries and a DELETE that succeeded (`DeleteSection.DeletesExactlyThatRow` gives the resulting table); the ledgers and the id counter never change |
| `Schema.HasId` | backend/delete_section.php:31-34 | the existence probe: some row carries the id |
| `Schema.HasIdIffRemoves` | backend/delete_section.php:31-39 | a row carries the id exactly when deleting that id changes the table |
| `DeleteSection.DeleteFailureChangesNothing` | backend/delete_section.php:39-45 | a failed DELETE of a non-zero id that some row carries is answered status 200, success=false, "Failed to delete session." and leaves the table as it was |
| `Schema.RemoveId` | backend/delete_section.php:39 | the DELETE keeps exactly the rows whose id differs from the given one |
| `Schema.RemoveAt` | backend/delete_section.php:39 | with ascending ids, deleting a row's id removes exactly that row and keeps the others in order |
| `DeleteSection.DeletesExactlyThatRow` | backend/delete_section.php:39-45 | deleting an existing id removes that row only, succeeds, and leaves every ledger (its own included) in place |
| `DeleteSection.DeletePreservesConsistency` | backend/delete_section.php:15-45 | every delete request keeps the invariant for the surviving sessions |
| `DeleteSection.DeleteTwice` | backend/delete_section.php:31-45 | on any database, deleting the same id twice succeeds once and then reports "Session not found." |
| `Store.Store.DeleteSession` | backend/delete_section.php:9-45 | the new tables and the reply are those `DeleteSection.Delete` gives for the old tables, and the invariant is kept |
| `TrainingMoods.View` | backend/get_training_mood.php:14-50 | a row copies id, title and counters from the session; has_interacted holds exactly when the ledger names the requester; user_mood is the mood of the first entry naming the requester, and none when there is no such entry |
| `TrainingMoods.SearchKey` | backend/get_training_mood.php:20 | the JSON_SEARCH key: the requester's identity, and the empty string when the `user` query parameter is absent |
| `Store.Store.RowFor` | backend/get_training_mood.php:14-50 | the row built for one session is its `TrainingMoods.View` for the requester |
| `TrainingMoods.Listing` | backend/get_training_mood.php:8-51 | one row per session, row k showing the k-th session counting down from the highest id |
| `Store.Store.ListTrainingMoods` | backend/get_training_mood.php:6-53 | the listing built row by row is `TrainingMoods.Listing` of the tables, which are not modified |
| `Store.Store.FirstMood` | backend/get_training_mood.php:33-39 | the mood of the first entry identical to the requester, none for an absent requester or no match |
| `TrainingMoods.NewestFirst` | backend/get_training_mood.php:8 | in a consistent database the listing's ids strictly decrease |
| `TrainingMoods.ViewFieldsAgree` | backend/get_training_mood.php:17-39 | in a consistent database has_interacted holds exactly when a user_mood is shown |
| `TrainingMoods.SubmitterSeesOwnMood` | backend/get_training_mood.php:25-39 | after a successful vote the voter's row shows has_interacted and the mood just sent |
| `LatestTraining.Latest` | backend/get_latest_training.php:5-8 | none exactly for an empty table; otherwise a row of the table whose time stamp no row exceeds |
| `LatestTraining.GetLatest` | backend/get_latest_training.php:5-18 | an empty table gives 404 "No training mood found"; otherwise the reply carries a row of the table with the latest time stamp |
| `DayOrNight.DayOrNight` | frontend/src/utils/getDayOrNight.ts:1-3 | the result is "day" or "night", and "day" exactly for hours 6 to 17 |
| `DayOrNight.Boundaries` | frontend/src/utils/getDayOrNight.ts:3 | 5 and 18 are night, 6 and 17 are day |
| `DayOrNight.NightHours` | frontend/src/utils/getDayOrNight.ts:3 | every hour of 0–5 and 18–23 is night |

## Left out

- The CORS headers of every handler, and the OPTIONS preflight of post_mood.php and post_training.php (the read handlers have none): HTTP plumbing. The preflight of delete_section.php is modelled, since it comes before the method check.
- backend/db.php: the connection and its failure answer.
- Failures of the SELECT queries are not modelled. Where the code checks them, a failed SELECT is answered like an empty result: 404 in post_mood.php (line 37) and get_latest_training.php (line 12), "Session not found." in delete_section.php (line 34), has_interacted false in get_training_mood.php (line 28). The model covers these through the empty result.
- Failures of post_mood.php's interaction SELECT, counter UPDATE and ledger UPDATE or INSERT (lines 46-106): the code does not check them. The statement failures the code does report are parameters: post_training.php's INSERT and delete_section.php's DELETE.
- JSON decoding of the request and of the stored ledger, SQL escaping, and the unescaped interpolation of `user` into get_training_mood.php's query. Request fields are strings or absent, and ledgers are Dafny sequences.
- PHP truthiness beyond null and "": the string "0" counts as missing in PHP but not here. Non-string JSON values are not modelled.
- delete_section.php's `(int)` cast: the model takes the id after the cast.
- MySQL comparison rules: titles are compared by exact string equality, not by the table's collation, which may ignore case and trailing spaces. JSON_SEARCH's `%` and `_` wildcards are not modelled: membership is exact equality, as in the PHP loop.
- Row order: rows are kept in ascending id order. post_mood.php's `LIMIT 1` without ORDER BY is taken to return the lowest-id match.
- LatestTraining.Latest: when several rows share the latest time stamp, the database may return any of them. The model takes the earliest, and its contract promises only some row with the latest time stamp.
- AUTO_INCREMENT never reuses an id in the model. A server that reset the counter to the highest remaining id + 1 could hand a deleted session's id to a new session, which would then inherit the orphaned ledger. That case is not modelled.
- The initial value of the counters comes from the database schema, which is not part of this model. It is taken to be 0, as the dashboard assumes.
- Concurrency: each handler runs as one atomic step. The check-then-insert race in post_training.php and the separate UPDATE statements of post_mood.php are not modelled.
- NOW() and `new Date().getHours()` are parameters, and time stamps are integers.
- All React components: rendering, routing, polling, toasts, animations and FingerprintJS. Their only use here is the dashboard's assumption about a new session.
