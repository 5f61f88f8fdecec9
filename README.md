# CAPP QC monitor: anomaly checker and alert bookkeeping

The QC monitor polls a data server for live football games. Each poll returns
a game's mapped play entries: scores, clock, quarter, down code, field
position and the server's own QC annotation. The monitor runs its own
anomaly checker over the entries. It turns the checker's issues into alerts.
Along the way it downgrades issues the server already fixed, drops repeated
alerts by key, and raises a "stalled play count" alert. A historical run does
the same for finished games and keeps tallies of what it found.

The model has three modules.

- `QcTypes` holds the data: entries, down codes, issue types, severities and
  issue messages. Messages are rendered as the exact strings the checker
  writes, because alert keys are built from them.
- `AnomalyChecker` holds the four checks: stuck clock, score jumps, missing
  extra point and missing field position. Each loop of the checker is a
  method that appends to the caller's issue list. Each method is proved equal
  to a specification function over a prefix of the entries. The promised
  properties are lemmas about those functions: which issue appears at which
  index, exact counts, indices in bounds, and independence from the server's
  annotations. The checker keeps no state, and a Dafny function gives the
  same result for the same input, so two runs over one list agree.
- `QcMonitor` holds the rest:
  - the auto-fix downgrade;
  - alert keys, and de-duplication as a fold over pending alerts against
    the seen-key set, with a reference definition "the first alert with a
    key not seen before";
  - the stalled-count rule and the historical tallies;
  - a `Monitor` class with the fields those decisions update: play counts,
    entries per game, seen keys and the alert list, newest first.

  Each per-game poll and each historical game step is a method. It is proved
  to leave exactly the state that de-duplicating the poll's pending alerts
  gives. A ghost `log` of emitted alerts carries the invariant `Valid()`: no
  key has gone out twice since the last clear, and the seen keys are exactly
  the keys that went out.

Alerts reach the list through `root.after(0, ...)` callbacks in the source.
The model adds them at once, in the order the callbacks are scheduled.

`_check_missing_ep` (qc_monitor.py:101-115) does not suppress the flag for
a kickoff that opens a new quarter, and neither does the model. In
`_check_missing_ep` the guards `i < len(entries)` and `i > 0` always hold
inside the loop; the model keeps them as written.

## Model

| member | source | states |
|---|---|---|
| QcTypes.ParseDown | qc_monitor.py:68 | the `str(down)` text is kept exactly, as a row's `DownCode`; a code outside "1".."4", KO, EP, 2PT is `Other` |
| QcTypes.DownClassesByCode | qc_monitor.py:68 | on a row's down, kickoff, special teams (KO/EP/2PT, line 68), conversion (EP/2PT, line 109) and scrimmage ("1".."4", line 121) are each membership of the code text in that set |
| QcTypes.ParseDownClasses | qc_monitor.py:107-121 | a parsed code is a kickoff, special-teams, conversion or scrimmage down iff its text is in the set the checker compares it with |
| QcTypes.Take | qc_monitor.py:592-593 | `s[:n]`: length min(\|s\|, n) and a prefix of s |
| QcTypes.Message.Text | qc_monitor.py:74-125 | renders the six issue messages as the f-strings at lines 74, 90, 94, 98, 114 and 125 write them; the numbers in them can be read back (see the two lemmas below) |
| QcTypes.NatToDecimal | qc_monitor.py:74-125 | Python's `str()` of a non-negative int inside those f-strings; stated by `NatToDecimalRoundTrip` |
| QcTypes.NatToDecimalRoundTrip | qc_monitor.py:74-125 | the text is non-empty, all digits, has no leading zero unless it is "0", and reads back as the number |
| QcTypes.NatToDecimalInjective | qc_monitor.py:537 | different numbers give different texts, so alert keys built from them differ |
| QcTypes.SignedDecimal | qc_monitor.py:90 | the `{delta:+d}` rendering; stated by `SignedDecimalParts` |
| QcTypes.SignedDecimalParts | qc_monitor.py:90 | the text starts with '+' iff the number is ≥ 0 and with '-' iff it is negative, followed by the decimal text of the magnitude |
| QcTypes.NoConversionRowTextPlay | qc_monitor.py:114 | two missing-EP messages with the same scorer and the same text have the same play number |
| QcTypes.ZeroFieldPositionsTextCount | qc_monitor.py:125 | two missing-field-position messages with the same text have the same count |
| AnomalyChecker.ContinuesRun | qc_monitor.py:66-68 | defines when entry i continues the previous entry's clock run (same clock and quarter, down not KO/EP/2PT); stated through `StreakReachesThreshold` |
| AnomalyChecker.Streak | qc_monitor.py:62-78 | the streak counter after entry i is between 1 and i+1 |
| AnomalyChecker.StreakInRun | qc_monitor.py:62-78 | inside a run of repeated clocks that starts at s, the counter at entry k is k - s + 1 |
| AnomalyChecker.StuckClockAt | qc_monitor.py:69-76 | defines the issue entry i adds: a WARNING stuck_clock when the streak equals 4; stated by `StuckClockReportedAt` |
| AnomalyChecker.StuckClockIssues | qc_monitor.py:61-78 | defines the stuck-clock issues of entries 1..n-1 in order; stated by `StuckClockIssuesShape`, `StuckClockReportedAt`, `RunReportedOnce`, and implemented by `CheckStuckClock` |
| AnomalyChecker.StuckClockIssuesShape | qc_monitor.py:61-78 | every stuck-clock issue is a WARNING at an index ≥ 3 where the streak equals the threshold 4 |
| AnomalyChecker.CheckStuckClock | qc_monitor.py:61-78 | the loop with its streak counter appends exactly the stuck-clock specification's issues to the caller's list |
| AnomalyChecker.StreakReachesThreshold | qc_monitor.py:66-72 | the streak is 4 at i iff entries i-2, i-1, i repeat clock and quarter with no KO/EP/2PT down, and the run starts at i-3 |
| AnomalyChecker.StuckClockReportedAt | qc_monitor.py:66-78 | an issue is at index i iff the streak reaches 4 there, and then it is exactly that warning with the clock, "4+" and the quarter |
| AnomalyChecker.RunReportedOnce | qc_monitor.py:62-78 | a run of repeated clocks shorter than 4 gives no issue; a run of 4 or more gives exactly one, at its fourth entry |
| AnomalyChecker.HomeDelta | qc_monitor.py:82 | defines the home score change from entry i-1 to i; used by `DeltaIssues` and stated through `ScoreJumpsReportedAt` |
| AnomalyChecker.AwayDelta | qc_monitor.py:83 | defines the away score change from entry i-1 to i; used by `DeltaIssues` and stated through `ScoreJumpsReportedAt` |
| AnomalyChecker.DeltaIssues | qc_monitor.py:85-99 | a team's delta gives no issue iff it is in {0,1,2,3,6,7,8}; -7/-8 give INFO bundled_score_artifact, other negatives ERROR score_regression, other positives WARNING invalid_score_jump, all at index i |
| AnomalyChecker.DeltaIssuesExact | qc_monitor.py:87-99 | each branch's issue exactly: the team, the signed delta, the drop or the jump, the 1-based play number i+1, and index i |
| AnomalyChecker.ScoreJumpsAt | qc_monitor.py:81-99 | at most two issues per index, all at that index with score types |
| AnomalyChecker.ScoreJumpsAtOrder | qc_monitor.py:82-99 | one issue per team whose delta is not a valid increment: the home verdict first, the away verdict last |
| AnomalyChecker.ScoreJumpIssues | qc_monitor.py:80-99 | defines the score-jump issues of entries 1..n-1 in order; stated by `ScoreJumpIssuesShape`, `ScoreJumpsReportedAt`, and implemented by `CheckScoreJumps` |
| AnomalyChecker.ScoreJumpIssuesShape | qc_monitor.py:80-99 | every score-jump issue is at an index in [1, n) and has its type's severity |
| AnomalyChecker.CheckScoreJumps | qc_monitor.py:80-99 | the loop appends exactly the score-jump specification's issues to the caller's list |
| AnomalyChecker.ScoreJumpsReportedAt | qc_monitor.py:81-99 | the issues at index i are exactly the home then the away verdict on entry i's deltas; none at index 0 |
| AnomalyChecker.TouchdownWithoutConversion | qc_monitor.py:103-109 | defines a +6 delta for either team with no EP/2PT at entry i or i+1; stated through `MissingEpAtMeaning` |
| AnomalyChecker.MissingEpAt | qc_monitor.py:103-115 | defines the issue entry i adds; stated by `MissingEpAtMeaning` |
| AnomalyChecker.MissingEpAtMeaning | qc_monitor.py:102-115 | at most one issue per i; present iff a team's delta is 6 and neither entry i nor i+1 is EP/2PT; a WARNING at i-1 if entry i is KO else at i; names home when the home delta is 6, else away |
| AnomalyChecker.MissingEpIssues | qc_monitor.py:101-115 | defines the missing-EP issues of entries 1..n-1 in order; stated by `MissingEpIssuesShape`, `MissingEpReportedAt`, and implemented by `CheckMissingEp` |
| AnomalyChecker.MissingEpIssuesShape | qc_monitor.py:101-115 | every missing-EP issue is a WARNING at an index in [0, n) |
| AnomalyChecker.CheckMissingEp | qc_monitor.py:101-115 | the loop appends exactly the missing-EP specification's issues to the caller's list |
| AnomalyChecker.MissingEpReportedAt | qc_monitor.py:108-115 | the issues at index j: one for a touchdown found at j unless j is a kickoff, then one for a touchdown found at a kickoff at j+1 |
| AnomalyChecker.IsZeroFpScrimmage | qc_monitor.py:120-121 | defines a row with field position 0 and a down in "1".."4"; stated through `ZeroFpCountIsCardinality` |
| AnomalyChecker.ZeroFpCount | qc_monitor.py:118-122 | defines the count of such rows; stated by `ZeroFpCountIsCardinality` |
| AnomalyChecker.ZeroFpCountIsCardinality | qc_monitor.py:118-122 | the count is the number of entries with a down in 1..4 and field position 0 |
| AnomalyChecker.ZeroFieldPositionIssues | qc_monitor.py:117-126 | at most one issue; present iff that count exceeds 3; INFO missing_fp at index 0 with the count in its message; the count's meaning is stated by `ZeroFpCountIsCardinality` |
| AnomalyChecker.SeverityOf | qc_monitor.py:71-124 | defines the severity each issue type is reported with; stated by `CheckedIssuesShape` |
| AnomalyChecker.CheckedIssues | qc_monitor.py:51-59 | defines the checker's result: nothing for empty entries, else the four checks' issues in order; stated by `CheckedIssuesShape`, `CheckIgnoresAnnotations`, and implemented by `Check` |
| AnomalyChecker.CheckedIssuesShape | qc_monitor.py:51-126 | every reported index lies in [0, len(entries)) and every issue has its type's severity |
| AnomalyChecker.Check | qc_monitor.py:51-59 | the result is stuck-clock, then score-jump, then missing-EP, then zero-FP issues; empty entries give no issues; every index is in range |
| AnomalyChecker.CheckIgnoresAnnotations | qc_monitor.py:51-126 | two entry lists that differ only in `qc_issue` get identical issues |
| QcMonitor.AutoFixSuffix | qc_monitor.py:535 | the auto-fix suffix (line 535 live, line 784 historical) is non-empty, so a downgraded message differs from the original |
| QcMonitor.ServerQc | qc_monitor.py:521 | the server annotation is available iff the play index is a valid index; its effect on the downgrade is stated by `DisplayedChangesIff` |
| AnomalyChecker.IsScoreType | qc_monitor.py:527-529 | defines the score-related types that are never downgraded; stated through `DisplayedChangesIff` |
| QcMonitor.AutoFixed | qc_monitor.py:529-532 | defines the downgrade condition (also lines 778-781); stated by `DisplayedChangesIff` and `AutoFixedCheckedIssue` |
| QcMonitor.Displayed | qc_monitor.py:533-536 | defines the shown severity and message (also lines 782-785); stated by `DisplayedChangesIff` and `DisplayedAlarmIff` |
| QcMonitor.DisplayedChangesIff | qc_monitor.py:526-534 | an issue is shown differently iff it is not a score type, is ERROR/WARNING, and its row exists with an empty `qc_issue`; it is then INFO with the suffix appended |
| QcMonitor.DisplayedAlarmIff | qc_monitor.py:529-534 | a shown severity is ERROR/WARNING iff the checker's was and the issue was not auto-fixed |
| QcMonitor.AutoFixedCheckedIssue | qc_monitor.py:526-531 | on the checker's output, an issue is auto-fixed iff it is a stuck clock on a row whose `qc_issue` is empty |
| QcMonitor.IssueKey | qc_monitor.py:537 | defines the key `gid:type:msg` (also line 798); stated through `IssuePendingIndex` |
| QcMonitor.PendingOf | qc_monitor.py:533-537 | defines one issue's pending alert: its key with the shown severity and message; stated by `IssuePendingIndex` |
| QcMonitor.IssuePending | qc_monitor.py:519-537 | defines the issues' pending alerts in order; stated by `IssuePendingIndex` |
| QcMonitor.IssuePendingIndex | qc_monitor.py:518-535 | one pending alert per issue, in order, keyed `gid:type:msg` with the shown severity and message |
| QcMonitor.Dedup | qc_monitor.py:538-540 | defines de-duplication as a fold over pending alerts against the seen keys; stated by `DedupEmitsFirstNew`, `DedupEmitsEachNewKeyOnce`, `DedupConcat`, `DedupRepeatSilent` |
| QcMonitor.DedupEmitsFirstNew | qc_monitor.py:537-540 | de-duplication emits exactly the alerts that are first with a key not seen before, in their order |
| QcMonitor.DedupEmitsEachNewKeyOnce | qc_monitor.py:537-540 | emitted keys are distinct and new and cover every new key; afterwards the seen set is the old one plus every key asked for |
| QcMonitor.DedupConcat | qc_monitor.py:537-540 | two batches in a row act as their concatenation |
| QcMonitor.DedupRepeatSilent | qc_monitor.py:537-540 | asking again for the same alerts without a clear emits nothing |
| QcMonitor.NewestFirstIndex | qc_monitor.py:597 | the alert list holds the emitted alerts in reverse order, newest first |
| QcMonitor.StalledKey | qc_monitor.py:512 | defines the key `gid:stalled:N`; stated through `StalledPending` |
| QcMonitor.StalledPending | qc_monitor.py:511-516 | a stalled alert is asked for iff the previous count is positive and equals the current one, keyed `gid:stalled:N` with the INFO message; stated at poll level by `RecordPlayCount`, `StalledOncePerCount` and `RepollRaisesOnlyStalled` |
| QcMonitor.PreviousCount | qc_monitor.py:508 | defines the stored play count, -1 when none; stated through `RecordPlayCount` |
| QcMonitor.PollPending | qc_monitor.py:507-540 | defines a poll's pending alerts: the stalled one, then the issues'; stated by `StalledOncePerCount`, `RepollRaisesOnlyStalled`, and implemented by `PollGame` |
| QcMonitor.StalledOncePerCount | qc_monitor.py:508-516 | polling at an unchanged positive count asks for the stalled key, and after the poll it is seen |
| QcMonitor.RepollRaisesOnlyStalled | qc_monitor.py:507-540 | repeating a poll's issue batch after the stalled alert raises only the stalled alert, and only if its key is new |
| QcMonitor.Unfixed | qc_monitor.py:787 | defines an ERROR/WARNING issue that was not downgraded; stated through `TallyIssuesGames` and `TallyIssuesFlagged` |
| QcMonitor.TallyIssue | qc_monitor.py:786-797 | defines one issue's effect on the tallies; stated by `CountIssue` |
| QcMonitor.TallyIssues | qc_monitor.py:766-797 | defines the tallies after a game's issues; stated by `TallyIssuesCounts`, `TallyIssuesGames`, `TallyIssuesFlagged` |
| QcMonitor.TallyIssuesCounts | qc_monitor.py:797 | every issue adds one to issues_found, whether or not it is downgraded; total_plays is untouched |
| QcMonitor.TallyIssuesGames | qc_monitor.py:787-796 | a game joins "with issues" (or the score, clock or EP set) iff one of its issues is a non-downgraded ERROR/WARNING (of that category) |
| QcMonitor.TallyIssuesFlagged | qc_monitor.py:787-790 | the flagged plays gain (gid, index) for each non-downgraded alarm with an index ≥ 0 |
| QcMonitor.CountIssue | qc_monitor.py:787-797 | the field-by-field counting of one issue in the historical loop yields exactly the tally step `TallyIssue` |
| QcMonitor.HistoricalGameWithIssues | qc_monitor.py:776-788 | on the checker's output, a game counts as with issues iff some alarm is not a stuck clock on a row with empty `qc_issue` |
| QcMonitor.HistoricalCheckedGameWithIssues | qc_monitor.py:765-797 | the same for the issues the checker reports on the game's entries |
| QcMonitor.GameLabel | qc_monitor.py:592-594 | defines the alert label, away then home, each cut to 12 characters; stated through `Take` |
| QcMonitor.OkAlert | qc_monitor.py:803-805 | defines the OK alert with the play count; stated through `ReportHistoricalIssues` |
| QcMonitor.Monitor.constructor | qc_monitor.py:140-144 | the monitor starts with empty play counts, entries, seen keys and alerts |
| QcMonitor.Monitor.AddAlert | qc_monitor.py:590-597 | an alert is inserted at the front of the list and nothing else changes |
| QcMonitor.Monitor.EmitOnce | qc_monitor.py:537-540 | the alert goes out iff its key was not seen; its key is seen afterwards; keys stay distinct |
| QcMonitor.Monitor.EmitIssue | qc_monitor.py:518-540 | one issue goes through downgrade, keying and de-duplication |
| QcMonitor.Monitor.RecordPlayCount | qc_monitor.py:507-516 | stores the new count and raises exactly the stalled alert the previous count (-1 if none) calls for |
| QcMonitor.Monitor.EmitIssues | qc_monitor.py:518-540 | the live loop leaves exactly the state that de-duplicating the issues' pending alerts gives |
| QcMonitor.Monitor.PollGame | qc_monitor.py:505-540 | stores entries and count; seen keys, alerts and log become the de-duplication of stalled-then-issue alerts; `Valid()` is kept |
| QcMonitor.Monitor.TallyAndEmit | qc_monitor.py:765-801 | the historical loop's tally equals `TallyIssues`, and its alerts are the de-duplication of the issues' historical alerts |
| QcMonitor.Monitor.ReportHistoricalIssues | qc_monitor.py:765-805 | tallies and raises the issues; with no issues it adds the OK alert without de-duplication |
| QcMonitor.Monitor.CheckHistoricalGame | qc_monitor.py:759-805 | stores the entries, adds the play count to total_plays, tallies and raises the checker's issues, and leaves play counts unchanged |
| QcMonitor.Monitor.ClearAlerts | qc_monitor.py:937-939 | the alert list and the seen keys are emptied, so every key may go out again |

## Left out

- User interface (tkinter and customtkinter widgets, tree rows, badges, colours, the play log view): presentation only.
- Threads, `root.after` scheduling, `time.sleep` polling and `winsound` beeps: concurrency and OS side effects. Alerts are added at once, in scheduling order.
- HTTP requests to the server and the outer poll loop that fetches the game list, with its `_monitored` and `_selected_id` filters: network I/O. `PollGame` and `CheckHistoricalGame` model the per-game body once the entries are fetched.
- The "Failed to fetch plays" error alert (qc_monitor.py:545-547, and 807-809 in a historical run). It is added, without de-duplication, when anything in the per-game `try` block throws: the network call, and also the checker itself (line 519 or 765) on a score it cannot subtract. The state the block updated before the throw stays updated: entries, play count, stalled key and, in a historical run, `total_plays` (line 760). The model has no exceptions, so this path is not modelled.
- Null or non-numeric scores: only the score subtractions (lines 82-83 and 103-104) raise on an ill-typed field, a `TypeError` that ends in the error alert above. `Entry` has integer scores, so such rows are outside the model.
- Null or ill-typed values of the other fields cannot be written in `Entry`; the source handles them without raising. A null or string field position fails the `== 0` test at line 120 and is not counted. A null clock or quarter is compared with `==` at lines 66-67 like any other value (two nulls are equal). A null down needs no special case: `str()` at lines 68, 107-108 and 121 makes it the text "None", which is `Other("None")`. A null `qc_issue` gives `server_qc = None` at lines 521 and 770. The test `server_qc is not None` (lines 531 and 780) then keeps the issue from being downgraded, whereas `AutoFixed` treats only an out-of-range index as having no annotation.
- The historical run's outer loop over games, its progress text and the percentages in `_finish_historical_qc`: I/O and floating-point display formatting.
- Alert timestamps (`datetime.now()`): clock input with no effect on keys or de-duplication.
- espn_fetcher.py, main.py and game_viewer.py are not part of this model: feed plumbing, route wiring and UI filters. The server's normalisation pipeline is not part of this model either.
- Missing dictionary fields: with `.get` a missing field would default (score 0, clock or field position `None`). The model assumes every entry has every field. A field position of `None` is therefore not modelled.
- Alert keys are modelled as the exact strings, but the model does not prove that different issues get different keys. De-duplication is proved on keys as they are.
