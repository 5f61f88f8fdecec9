/** The QC monitor's decisions around the checker's output: downgrading
    issues the server pipeline already fixed, keying and de-duplicating
    alerts, the stalled play-count alert, the tallies of a historical run,
    and the monitor state those decisions update. */
module QcMonitor {
  import opened QcTypes
  import opened AnomalyChecker

  datatype Option<T> = None | Some(value: T)

  /** The two places that turn checker issues into alerts; they word the
      auto-fix suffix differently. */
  datatype PollContext = LivePoll | HistoricalRun

  function AutoFixSuffix(ctx: PollContext): (s: string)
    ensures |s| > 0
  {
    match ctx
    case LivePoll => "  [auto-fixed by pipeline — no red row in CAPP]"
    case HistoricalRun => "  [auto-fixed — no red row in CAPP]"
  }

  /** A game as the server's game list describes it. */
  datatype Game = Game(gameId: string, homeTeam: string, awayTeam: string)

  /** The label an alert shows: both team names cut to 12 characters. */
  function GameLabel(g: Game): string {
    Take(g.awayTeam, 12) + " / " + Take(g.homeTeam, 12)
  }

  datatype Alert = Alert(gameId: string, game: string, severity: Severity, message: string)

  /** An alert waiting for de-duplication under its key. */
  datatype Pending = Pending(key: string, alert: Alert)

  // ---------------------------------------------------------------------
  // Auto-fix downgrade
  // ---------------------------------------------------------------------

  /** The server's annotation of the row an issue points at; None when the
      index lies outside the entries. */
  function ServerQc(entries: seq<Entry>, pidx: int): (r: Option<string>)
    ensures r.Some? <==> 0 <= pidx < |entries|
  {
    if 0 <= pidx < |entries| then Some(entries[pidx].qcIssue) else None
  }

  predicate IsAlarm(s: Severity) {
    s == Error || s == Warning
  }

  /** A clock or field-position alarm on a row the server reports clean.
      Score issues are never taken as fixed. */
  predicate AutoFixed(issue: Issue, entries: seq<Entry>) {
    !IsScoreType(issue.kind) && ServerQc(entries, issue.playIndex) == Some("") && IsAlarm(issue.severity)
  }

  /** Severity and message an issue is shown with. */
  datatype Display = Display(severity: Severity, message: string)

  function Displayed(issue: Issue, entries: seq<Entry>, ctx: PollContext): Display {
    if AutoFixed(issue, entries) then Display(Info, issue.message.Text() + AutoFixSuffix(ctx))
    else Display(issue.severity, issue.message.Text())
  }

  /** An issue is shown other than as the checker reported it exactly when it
      is a non-score alarm on an existing row with an empty server
      annotation; it is then shown as information with the suffix. */
  lemma DisplayedChangesIff(issue: Issue, entries: seq<Entry>, ctx: PollContext)
    ensures var d := Displayed(issue, entries, ctx);
      (d != Display(issue.severity, issue.message.Text())) <==>
        (!IsScoreType(issue.kind) && IsAlarm(issue.severity)
         && 0 <= issue.playIndex < |entries| && entries[issue.playIndex].qcIssue == "")
    ensures var d := Displayed(issue, entries, ctx);
      d != Display(issue.severity, issue.message.Text()) ==>
        d.severity == Info && d.message == issue.message.Text() + AutoFixSuffix(ctx)
  {
    var t := issue.message.Text();
    var s := AutoFixSuffix(ctx);
    assert |t + s| > |t|;
  }

  /** A shown alarm is exactly a checker alarm that was not downgraded. */
  lemma DisplayedAlarmIff(issue: Issue, entries: seq<Entry>, ctx: PollContext)
    ensures IsAlarm(Displayed(issue, entries, ctx).severity) <==>
      IsAlarm(issue.severity) && !AutoFixed(issue, entries)
  {
  }

  /** On the checker's own output, an issue is auto-fixed exactly when it is
      a stuck clock on a row the server left unannotated: every index is in
      range, and the other non-score type is never an alarm. */
  lemma AutoFixedCheckedIssue(entries: seq<Entry>, home: string, away: string)
    ensures forall x :: x in CheckedIssues(entries, home, away) ==>
      0 <= x.playIndex < |entries|
      && (AutoFixed(x, entries) <==> x.kind == StuckClock && entries[x.playIndex].qcIssue == "")
  {
    CheckedIssuesShape(entries, home, away);
  }

  // ---------------------------------------------------------------------
  // Alert keys and de-duplication
  // ---------------------------------------------------------------------

  /** Key of an issue alert: game, issue type and shown message. */
  function IssueKey(gid: string, kind: IssueType, msg: string): string {
    gid + ":" + kind.Name() + ":" + msg
  }

  /** Key of the stalled alert for a game standing at `count` plays. */
  function StalledKey(gid: string, count: nat): string {
    gid + ":stalled:" + NatToDecimal(count)
  }

  function PendingOf(g: Game, issue: Issue, entries: seq<Entry>, ctx: PollContext): Pending {
    var d := Displayed(issue, entries, ctx);
    Pending(IssueKey(g.gameId, issue.kind, d.message), Alert(g.gameId, GameLabel(g), d.severity, d.message))
  }

  /** The alerts the checker's issues ask for, in issue order. */
  function IssuePending(g: Game, issues: seq<Issue>, entries: seq<Entry>, ctx: PollContext): seq<Pending>
    decreases |issues|
  {
    if issues == [] then []
    else IssuePending(g, issues[..|issues| - 1], entries, ctx) + [PendingOf(g, issues[|issues| - 1], entries, ctx)]
  }

  lemma PendingSnocIndex(g: Game, issues: seq<Issue>, r': seq<Pending>, entries: seq<Entry>, ctx: PollContext)
    requires issues != []
    requires |r'| == |issues| - 1
    requires forall k :: 0 <= k < |issues| - 1 ==> r'[k] == PendingOf(g, issues[k], entries, ctx)
    ensures var r := r' + [PendingOf(g, issues[|issues| - 1], entries, ctx)];
      |r| == |issues| && forall k :: 0 <= k < |issues| ==> r[k] == PendingOf(g, issues[k], entries, ctx)
  {
    var r := r' + [PendingOf(g, issues[|issues| - 1], entries, ctx)];
    forall k | 0 <= k < |issues|
      ensures r[k] == PendingOf(g, issues[k], entries, ctx)
    {
      if k < |r'| {
        assert r[k] == r'[k];
      }
    }
  }

  /** One pending alert per issue, in issue order. */
  lemma {:induction false} IssuePendingIndex(g: Game, issues: seq<Issue>, entries: seq<Entry>, ctx: PollContext)
    ensures var r := IssuePending(g, issues, entries, ctx);
      |r| == |issues| && forall k :: 0 <= k < |issues| ==> r[k] == PendingOf(g, issues[k], entries, ctx)
    decreases |issues|
  {
    if issues != [] {
      var prefix := issues[..|issues| - 1];
      IssuePendingIndex(g, prefix, entries, ctx);
      PendingSnocIndex(g, issues, IssuePending(g, prefix, entries, ctx), entries, ctx);
    }
  }

  /** The set of keys of a sequence of pending alerts. */
  function KeysOf(ps: seq<Pending>): set<string> {
    set p | p in ps :: p.key
  }

  ghost predicate DistinctKeys(ps: seq<Pending>) {
    forall i, j :: 0 <= i < j < |ps| ==> ps[i].key != ps[j].key
  }

  datatype DedupResult = DedupResult(seen: set<string>, emitted: seq<Pending>)

  /** Emitting pending alerts in order against a set of seen keys: an alert
      goes out when its key is new, and its key is then seen. */
  function Dedup(seen: set<string>, ps: seq<Pending>): DedupResult
    decreases |ps|
  {
    if ps == [] then DedupResult(seen, [])
    else
      var r := Dedup(seen, ps[..|ps| - 1]);
      var p := ps[|ps| - 1];
      if p.key in r.seen then r else DedupResult(r.seen + {p.key}, r.emitted + [p])
  }

  /** The alert at position i is the first one with its key and that key was
      not seen before. */
  ghost predicate FirstNew(seen: set<string>, ps: seq<Pending>, i: nat)
    requires i < |ps|
  {
    ps[i].key !in seen && forall j :: 0 <= j < i ==> ps[j].key != ps[i].key
  }

  /** Reference definition: the pending alerts that are first with a new key. */
  ghost function FirstNewAlerts(seen: set<string>, ps: seq<Pending>, n: nat): seq<Pending>
    requires n <= |ps|
  {
    if n == 0 then []
    else FirstNewAlerts(seen, ps, n - 1) + (if FirstNew(seen, ps, n - 1) then [ps[n - 1]] else [])
  }

  lemma {:induction false} DedupSeen(seen: set<string>, ps: seq<Pending>)
    ensures Dedup(seen, ps).seen == seen + KeysOf(ps)
    decreases |ps|
  {
    if ps != [] {
      var prefix := ps[..|ps| - 1];
      DedupSeen(seen, prefix);
      assert ps == prefix + [ps[|ps| - 1]];
      assert KeysOf(ps) == KeysOf(prefix) + {ps[|ps| - 1].key};
    }
  }

  lemma FirstNewInPrefix(seen: set<string>, ps: seq<Pending>, n: nat, i: nat)
    requires i < n <= |ps|
    ensures FirstNew(seen, ps[..n], i) == FirstNew(seen, ps, i)
  {
  }

  lemma {:induction false} FirstNewAlertsPrefix(seen: set<string>, ps: seq<Pending>, n: nat, m: nat)
    requires m <= n <= |ps|
    ensures FirstNewAlerts(seen, ps[..n], m) == FirstNewAlerts(seen, ps, m)
    decreases m
  {
    if m > 0 {
      FirstNewAlertsPrefix(seen, ps, n, m - 1);
      FirstNewInPrefix(seen, ps, n, m - 1);
    }
  }

  /** A key is in `seen + KeysOf(prefix)` exactly when the next alert is
      not the first with a new key. */
  lemma LastFirstNew(seen: set<string>, ps: seq<Pending>)
    requires ps != []
    ensures var prefix := ps[..|ps| - 1];
      FirstNew(seen, ps, |ps| - 1) <==> ps[|ps| - 1].key !in seen + KeysOf(prefix)
  {
    var prefix := ps[..|ps| - 1];
    var p := ps[|ps| - 1];
    if p.key in KeysOf(prefix) {
      var q :| q in prefix && q.key == p.key;
      var j :| 0 <= j < |prefix| && prefix[j] == q;
      assert ps[j].key == p.key;
    }
  }

  /** De-duplication emits exactly the alerts that are first with a key not
      seen before, in their order. */
  lemma {:induction false} DedupEmitsFirstNew(seen: set<string>, ps: seq<Pending>)
    ensures Dedup(seen, ps).emitted == FirstNewAlerts(seen, ps, |ps|)
    decreases |ps|
  {
    if ps != [] {
      var n := |ps| - 1;
      var prefix := ps[..n];
      DedupEmitsFirstNew(seen, prefix);
      FirstNewAlertsPrefix(seen, ps, n, n);
      DedupSeen(seen, prefix);
      LastFirstNew(seen, ps);
    }
  }

  lemma KeysOfSnoc(ps: seq<Pending>, p: Pending)
    ensures KeysOf(ps + [p]) == KeysOf(ps) + {p.key}
  {
    assert forall q :: q in ps + [p] <==> q in ps || q == p;
  }

  lemma DistinctKeysSnoc(ps: seq<Pending>, p: Pending)
    requires DistinctKeys(ps) && forall q :: q in ps ==> q.key != p.key
    ensures DistinctKeys(ps + [p])
  {
    var r := ps + [p];
    forall i, j | 0 <= i < j < |r|
      ensures r[i].key != r[j].key
    {
      if j == |ps| {
        assert r[i] == ps[i];
        assert ps[i] in ps;
      } else {
        assert r[i] == ps[i] && r[j] == ps[j];
      }
    }
  }

  /** The first-new alerts are alerts of the prefix whose key was not seen. */
  lemma {:induction false} FirstNewAlertsFrom(seen: set<string>, ps: seq<Pending>, n: nat)
    requires n <= |ps|
    ensures forall q :: q in FirstNewAlerts(seen, ps, n) ==> q in ps[..n] && q.key !in seen
    decreases n
  {
    if n > 0 {
      FirstNewAlertsFrom(seen, ps, n - 1);
      assert ps[..n] == ps[..n - 1] + [ps[n - 1]];
    }
  }

  lemma {:induction false} FirstNewAlertsKeySet(seen: set<string>, ps: seq<Pending>, n: nat)
    requires n <= |ps|
    ensures KeysOf(FirstNewAlerts(seen, ps, n)) == KeysOf(ps[..n]) - seen
    decreases n
  {
    if n > 0 {
      FirstNewAlertsKeySet(seen, ps, n - 1);
      var prev := FirstNewAlerts(seen, ps, n - 1);
      var p := ps[n - 1];
      assert ps[..n] == ps[..n - 1] + [p];
      KeysOfSnoc(ps[..n - 1], p);
      if FirstNew(seen, ps, n - 1) {
        KeysOfSnoc(prev, p);
      } else {
        assert FirstNewAlerts(seen, ps, n) == prev;
        if p.key !in seen {
          var j :| 0 <= j < n - 1 && ps[j].key == p.key;
          assert ps[..n - 1][j] == ps[j];
          assert p.key in KeysOf(ps[..n - 1]);
        }
      }
    }
  }

  lemma {:induction false} FirstNewAlertsDistinct(seen: set<string>, ps: seq<Pending>, n: nat)
    requires n <= |ps|
    ensures DistinctKeys(FirstNewAlerts(seen, ps, n))
    decreases n
  {
    if n > 0 {
      FirstNewAlertsDistinct(seen, ps, n - 1);
      var prev := FirstNewAlerts(seen, ps, n - 1);
      if FirstNew(seen, ps, n - 1) {
        FirstNewAlertsFrom(seen, ps, n - 1);
        forall q | q in prev
          ensures q.key != ps[n - 1].key
        {
          var j :| 0 <= j < n - 1 && ps[..n - 1][j] == q;
          assert ps[j] == q;
        }
        DistinctKeysSnoc(prev, ps[n - 1]);
      }
    }
  }

  lemma FirstNewAlertsKeys(seen: set<string>, ps: seq<Pending>, n: nat)
    requires n <= |ps|
    ensures var r := FirstNewAlerts(seen, ps, n);
      DistinctKeys(r)
      && (forall q :: q in r ==> q in ps[..n] && q.key !in seen)
      && KeysOf(r) == KeysOf(ps[..n]) - seen
  {
    FirstNewAlertsDistinct(seen, ps, n);
    FirstNewAlertsFrom(seen, ps, n);
    FirstNewAlertsKeySet(seen, ps, n);
  }

  /** Every new key leads to exactly one alert and no seen key to any: the
      emitted keys are distinct, new, and cover the new keys, and afterwards
      every key asked for is seen. */
  lemma DedupEmitsEachNewKeyOnce(seen: set<string>, ps: seq<Pending>)
    ensures var r := Dedup(seen, ps);
      DistinctKeys(r.emitted)
      && (forall q :: q in r.emitted ==> q in ps && q.key !in seen)
      && KeysOf(r.emitted) == KeysOf(ps) - seen
      && r.seen == seen + KeysOf(ps)
  {
    DedupEmitsFirstNew(seen, ps);
    FirstNewAlertsKeys(seen, ps, |ps|);
    assert ps[..|ps|] == ps;
    DedupSeen(seen, ps);
  }

  /** Two batches in a row act as one batch: the second runs against the
      keys the first left seen. */
  lemma {:induction false} DedupConcat(seen: set<string>, ps: seq<Pending>, qs: seq<Pending>)
    ensures var r1 := Dedup(seen, ps);
      var r2 := Dedup(r1.seen, qs);
      Dedup(seen, ps + qs) == DedupResult(r2.seen, r1.emitted + r2.emitted)
    decreases |qs|
  {
    if qs == [] {
      assert ps + qs == ps;
    } else {
      var q' := qs[..|qs| - 1];
      DedupConcat(seen, ps, q');
      assert (ps + qs)[..|ps + qs| - 1] == ps + q';
    }
  }

  /** Once every key of a batch is seen, the batch emits nothing. */
  lemma {:induction false} DedupAllSeen(seen: set<string>, ps: seq<Pending>)
    requires KeysOf(ps) <= seen
    ensures Dedup(seen, ps) == DedupResult(seen, [])
    decreases |ps|
  {
    if ps != [] {
      var prefix := ps[..|ps| - 1];
      assert KeysOf(prefix) <= KeysOf(ps);
      DedupAllSeen(seen, prefix);
      assert ps[|ps| - 1] in ps;
    }
  }

  /** Asking again for the same alerts, without a clear in between, emits
      nothing the second time. */
  lemma DedupRepeatSilent(seen: set<string>, ps: seq<Pending>)
    ensures var r := Dedup(seen, ps);
      Dedup(r.seen, ps) == DedupResult(r.seen, [])
  {
    DedupSeen(seen, ps);
    DedupAllSeen(Dedup(seen, ps).seen, ps);
  }

  /** The alert list holds the newest alert first. */
  function NewestFirst(ps: seq<Pending>): seq<Alert>
    decreases |ps|
  {
    if ps == [] then [] else [ps[|ps| - 1].alert] + NewestFirst(ps[..|ps| - 1])
  }

  /** The alerts of a batch, newest first: the last emitted comes first. */
  lemma {:induction false} NewestFirstIndex(ps: seq<Pending>)
    ensures var r := NewestFirst(ps);
      |r| == |ps| && forall k :: 0 <= k < |ps| ==> r[k] == ps[|ps| - 1 - k].alert
    decreases |ps|
  {
    if ps != [] {
      NewestFirstIndex(ps[..|ps| - 1]);
    }
  }

  // ---------------------------------------------------------------------
  // Stalled play count
  // ---------------------------------------------------------------------

  /** The stalled alert a poll asks for: only when the previous poll saw a
      positive play count equal to the current one (a game never polled
      before counts as -1). */
  function StalledPending(g: Game, prev: int, curr: nat): (r: seq<Pending>)
    ensures r != [] <==> 0 < prev && prev == curr
    ensures r != [] ==> r == [Pending(StalledKey(g.gameId, curr),
      Alert(g.gameId, GameLabel(g), Info, "Play count unchanged at " + NatToDecimal(curr) + " plays since last poll"))]
  {
    if 0 < prev && prev == curr then
      [Pending(StalledKey(g.gameId, curr),
        Alert(g.gameId, GameLabel(g), Info, "Play count unchanged at " + NatToDecimal(curr) + " plays since last poll"))]
    else []
  }

  /** The play count a game had at its last poll, -1 if never polled. */
  function PreviousCount(playCounts: map<string, int>, gid: string): int {
    if gid in playCounts then playCounts[gid] else -1
  }

  /** Everything one poll of a game asks to alert, in order. */
  function PollPending(g: Game, prev: int, entries: seq<Entry>, home: string, away: string): seq<Pending> {
    StalledPending(g, prev, |entries|) + IssuePending(g, CheckedIssues(entries, home, away), entries, LivePoll)
  }

  /** A game whose play count stays positive and unchanged leads to one
      stalled alert: the second poll asks for it, and later polls at the
      same count ask for it under the same key, which is then seen. */
  lemma StalledOncePerCount(g: Game, seen: set<string>, entries: seq<Entry>, home: string, away: string)
    requires entries != []
    ensures var ps := PollPending(g, |entries|, entries, home, away);
      StalledKey(g.gameId, |entries|) in KeysOf(ps)
      && StalledKey(g.gameId, |entries|) in Dedup(seen, ps).seen
  {
    var ps := PollPending(g, |entries|, entries, home, away);
    assert ps[0].key == StalledKey(g.gameId, |entries|);
    assert ps[0] in ps;
    DedupSeen(seen, ps);
  }

  /** Polling a game again with the same entries asks for the same issue
      alerts after the stalled one (a poll asks for `StalledPending` followed
      by a fixed batch `ps`, as `PollPending` says), so it raises nothing but
      the stalled alert, and that only if its key is new. */
  lemma RepollRaisesOnlyStalled(g: Game, seen: set<string>, prev: int, n: nat, ps: seq<Pending>)
    ensures var r1 := Dedup(seen, StalledPending(g, prev, n) + ps);
      var st := StalledPending(g, n, n);
      Dedup(r1.seen, st + ps).emitted == if st != [] && st[0].key !in r1.seen then st else []
  {
    var ps1 := StalledPending(g, prev, n) + ps;
    var r1 := Dedup(seen, ps1);
    var st := StalledPending(g, n, n);
    assert KeysOf(ps) <= r1.seen by {
      DedupSeen(seen, ps1);
      forall q | q in ps
        ensures q.key in r1.seen
      {
        assert q in ps1;
      }
    }
    var rs := Dedup(r1.seen, st);
    assert r1.seen <= rs.seen by {
      DedupSeen(r1.seen, st);
    }
    assert Dedup(rs.seen, ps) == DedupResult(rs.seen, []) by {
      DedupAllSeen(rs.seen, ps);
    }
    DedupConcat(r1.seen, st, ps);
    if st != [] {
      DedupSnoc(r1.seen, [], st[0]);
      assert [] + [st[0]] == st;
    }
  }

  // ---------------------------------------------------------------------
  // Historical run tallies
  // ---------------------------------------------------------------------

  datatype Tally = Tally(
    issuesFound: nat,
    totalPlays: nat,
    gamesWithIssues: set<string>,
    gamesWithScore: set<string>,
    gamesWithClock: set<string>,
    gamesWithEp: set<string>,
    flaggedPlays: set<(string, int)>)

  /** An issue that counts against its game: an alarm that was not
      downgraded. */
  predicate Unfixed(issue: Issue, entries: seq<Entry>) {
    IsAlarm(issue.severity) && !AutoFixed(issue, entries)
  }

  predicate IsScoreValueType(kind: IssueType) {
    kind == ScoreRegression || kind == InvalidScoreJump
  }

  function TallyIssue(t: Tally, gid: string, issue: Issue, entries: seq<Entry>): Tally {
    var t1 :=
      if Unfixed(issue, entries) then
        t.(gamesWithIssues := t.gamesWithIssues + {gid},
           flaggedPlays := if issue.playIndex >= 0 then t.flaggedPlays + {(gid, issue.playIndex)} else t.flaggedPlays,
           gamesWithScore := if IsScoreValueType(issue.kind) then t.gamesWithScore + {gid} else t.gamesWithScore,
           gamesWithClock := if issue.kind == StuckClock then t.gamesWithClock + {gid} else t.gamesWithClock,
           gamesWithEp := if issue.kind == MissingEp then t.gamesWithEp + {gid} else t.gamesWithEp)
      else t;
    t1.(issuesFound := t1.issuesFound + 1)
  }

  function TallyIssues(t: Tally, gid: string, issues: seq<Issue>, entries: seq<Entry>): Tally
    decreases |issues|
  {
    if issues == [] then t
    else TallyIssue(TallyIssues(t, gid, issues[..|issues| - 1], entries), gid, issues[|issues| - 1], entries)
  }

  /** The game's id as a singleton when `b` holds, otherwise nothing. */
  function GainIf(gid: string, b: bool): set<string> {
    if b then {gid} else {}
  }

  lemma TallyIssuesSnoc(t: Tally, gid: string, issues: seq<Issue>, entries: seq<Entry>, i: nat)
    requires i < |issues|
    ensures TallyIssues(t, gid, issues[..i + 1], entries) ==
      TallyIssue(TallyIssues(t, gid, issues[..i], entries), gid, issues[i], entries)
  {
    assert issues[..i + 1][..i] == issues[..i];
  }

  /** The historical run's counting of one issue, field by field: the issue
      always counts; a non-downgraded alarm also marks its game, its row and
      the category of its type. */
  method CountIssue(t: Tally, gid: string, issue: Issue, entries: seq<Entry>) returns (t': Tally)
    ensures t' == TallyIssue(t, gid, issue, entries)
  {
    t' := t;
    var fixed := AutoFixed(issue, entries);
    if IsAlarm(issue.severity) && !fixed {
      t' := t'.(gamesWithIssues := t'.gamesWithIssues + {gid});
      if issue.playIndex >= 0 {
        t' := t'.(flaggedPlays := t'.flaggedPlays + {(gid, issue.playIndex)});
      }
      if IsScoreValueType(issue.kind) {
        t' := t'.(gamesWithScore := t'.gamesWithScore + {gid});
      } else if issue.kind == StuckClock {
        t' := t'.(gamesWithClock := t'.gamesWithClock + {gid});
      } else if issue.kind == MissingEp {
        t' := t'.(gamesWithEp := t'.gamesWithEp + {gid});
      }
    }
    t' := t'.(issuesFound := t'.issuesFound + 1);
  }

  /** Every issue is counted once; the play total is untouched. */
  lemma {:induction false} TallyIssuesCounts(t: Tally, gid: string, issues: seq<Issue>, entries: seq<Entry>)
    ensures var r := TallyIssues(t, gid, issues, entries);
      r.issuesFound == t.issuesFound + |issues| && r.totalPlays == t.totalPlays
    decreases |issues|
  {
    if issues != [] {
      TallyIssuesCounts(t, gid, issues[..|issues| - 1], entries);
    }
  }

  /** An issue of the category `cat` selects: any unfixed issue for
      "with issues", and the score, clock and EP categories by type. */
  datatype Category = AnyIssue | ScoreCategory | ClockCategory | EpCategory

  predicate InCategory(cat: Category, kind: IssueType) {
    match cat
    case AnyIssue => true
    case ScoreCategory => IsScoreValueType(kind)
    case ClockCategory => kind == StuckClock
    case EpCategory => kind == MissingEp
  }

  function GamesIn(t: Tally, cat: Category): set<string> {
    match cat
    case AnyIssue => t.gamesWithIssues
    case ScoreCategory => t.gamesWithScore
    case ClockCategory => t.gamesWithClock
    case EpCategory => t.gamesWithEp
  }

  /** A game joins a category's set exactly when an unfixed issue of that
      category exists; no other game joins. */
  lemma {:induction false} TallyIssuesGames(t: Tally, gid: string, issues: seq<Issue>, entries: seq<Entry>, cat: Category)
    ensures GamesIn(TallyIssues(t, gid, issues, entries), cat) ==
      GamesIn(t, cat) + GainIf(gid, exists x :: x in issues && Unfixed(x, entries) && InCategory(cat, x.kind))
    decreases |issues|
  {
    if issues != [] {
      var prefix := issues[..|issues| - 1];
      var last := issues[|issues| - 1];
      TallyIssuesGames(t, gid, prefix, entries, cat);
      assert issues == prefix + [last];
      assert forall x :: x in issues <==> x in prefix || x == last;
    }
  }

  /** The flagged plays gain the row of each unfixed issue with an index. */
  lemma {:induction false} TallyIssuesFlagged(t: Tally, gid: string, issues: seq<Issue>, entries: seq<Entry>)
    ensures TallyIssues(t, gid, issues, entries).flaggedPlays == t.flaggedPlays
      + (set x | x in issues && Unfixed(x, entries) && x.playIndex >= 0 :: (gid, x.playIndex))
    decreases |issues|
  {
    if issues != [] {
      var prefix := issues[..|issues| - 1];
      var last := issues[|issues| - 1];
      TallyIssuesFlagged(t, gid, prefix, entries);
      assert issues == prefix + [last];
      assert forall x :: x in issues <==> x in prefix || x == last;
    }
  }

  /** A game checked in a historical run (its issues shaped as the checker
      reports them) counts as "with issues" exactly when some issue is an
      alarm that is not a stuck clock on a row the server left unannotated. */
  lemma HistoricalGameWithIssues(t: Tally, gid: string, issues: seq<Issue>, entries: seq<Entry>)
    requires gid !in t.gamesWithIssues && Shaped(issues, |entries|)
    ensures gid in TallyIssues(t, gid, issues, entries).gamesWithIssues <==>
      exists x :: x in issues && IsAlarm(x.severity)
        && 0 <= x.playIndex < |entries| && !(x.kind == StuckClock && entries[x.playIndex].qcIssue == "")
  {
    TallyIssuesGames(t, gid, issues, entries, AnyIssue);
  }

  /** The same, for the issues the checker reports on the game's entries. */
  lemma HistoricalCheckedGameWithIssues(t: Tally, gid: string, entries: seq<Entry>, home: string, away: string)
    requires gid !in t.gamesWithIssues
    ensures var issues := CheckedIssues(entries, home, away);
      gid in TallyIssues(t, gid, issues, entries).gamesWithIssues <==>
        exists x :: x in issues && IsAlarm(x.severity)
          && 0 <= x.playIndex < |entries| && !(x.kind == StuckClock && entries[x.playIndex].qcIssue == "")
  {
    var issues := CheckedIssues(entries, home, away);
    CheckedIssuesShape(entries, home, away);
    HistoricalGameWithIssues(t, gid, issues, entries);
  }

  /** The alert a historical run raises for a game with no issues; it is
      not de-duplicated. */
  function OkAlert(g: Game, plays: nat): Alert {
    Alert(g.gameId, GameLabel(g), Ok, "No issues found — " + NatToDecimal(plays) + " plays checked")
  }

  /** Adding one pending alert to a batch that was already de-duplicated. */
  lemma DedupSnoc(seen: set<string>, ps: seq<Pending>, p: Pending)
    ensures var r := Dedup(seen, ps);
      Dedup(seen, ps + [p]) ==
        if p.key in r.seen then r else DedupResult(r.seen + {p.key}, r.emitted + [p])
  {
    assert (ps + [p])[..|ps + [p]| - 1] == ps;
  }

  lemma NewestFirstSnoc(ps: seq<Pending>, p: Pending)
    ensures NewestFirst(ps + [p]) == [p.alert] + NewestFirst(ps)
  {
    assert (ps + [p])[..|ps + [p]| - 1] == ps;
  }

  lemma IssuePendingSnoc(g: Game, issues: seq<Issue>, entries: seq<Entry>, ctx: PollContext, i: nat)
    requires i < |issues|
    ensures IssuePending(g, issues[..i + 1], entries, ctx) ==
      IssuePending(g, issues[..i], entries, ctx) + [PendingOf(g, issues[i], entries, ctx)]
  {
    assert issues[..i + 1][..i] == issues[..i];
  }

  /** Starting from (seen0, alerts0, log0), exactly the batch `ps` has gone
      through de-duplication, leaving (seen, alerts, log). */
  ghost predicate EmittedState(seen0: set<string>, alerts0: seq<Alert>, log0: seq<Pending>, ps: seq<Pending>,
                               seen: set<string>, alerts: seq<Alert>, log: seq<Pending>)
  {
    var r := Dedup(seen0, ps);
    seen == r.seen && alerts == NewestFirst(r.emitted) + alerts0 && log == log0 + r.emitted
  }

  /** One de-duplication step, on the state it leaves. */
  lemma EmittedFromSnoc(r: DedupResult, r': DedupResult, p: Pending, alerts0: seq<Alert>, log0: seq<Pending>,
                        seen: set<string>, alerts: seq<Alert>, log: seq<Pending>)
    requires seen == r.seen && alerts == NewestFirst(r.emitted) + alerts0 && log == log0 + r.emitted
    requires r' == if p.key in r.seen then r else DedupResult(r.seen + {p.key}, r.emitted + [p])
    ensures var emitted := p.key !in seen;
      seen + {p.key} == r'.seen
      && (if emitted then [p.alert] else []) + alerts == NewestFirst(r'.emitted) + alerts0
      && log + (if emitted then [p] else []) == log0 + r'.emitted
  {
    if p.key !in seen {
      NewestFirstSnoc(r.emitted, p);
      assert [p.alert] + alerts == ([p.alert] + NewestFirst(r.emitted)) + alerts0;
      assert log + [p] == log0 + (r.emitted + [p]);
    } else {
      assert seen + {p.key} == seen;
      assert [] + alerts == alerts && log + [] == log;
    }
  }

  /** Emitting one more alert once per key extends the batch by that alert. */
  lemma EmittedStateSnoc(seen0: set<string>, alerts0: seq<Alert>, log0: seq<Pending>, ps: seq<Pending>,
                         seen: set<string>, alerts: seq<Alert>, log: seq<Pending>, p: Pending)
    requires EmittedState(seen0, alerts0, log0, ps, seen, alerts, log)
    ensures var emitted := p.key !in seen;
      EmittedState(seen0, alerts0, log0, ps + [p], seen + {p.key},
        (if emitted then [p.alert] else []) + alerts, log + (if emitted then [p] else []))
  {
    var r, r' := Dedup(seen0, ps), Dedup(seen0, ps + [p]);
    DedupSnoc(seen0, ps, p);
    EmittedFromSnoc(r, r', p, alerts0, log0, seen, alerts, log);
  }

  lemma {:induction false} NewestFirstConcat(ps: seq<Pending>, qs: seq<Pending>)
    ensures NewestFirst(ps + qs) == NewestFirst(qs) + NewestFirst(ps)
    decreases |qs|
  {
    if qs == [] {
      assert ps + qs == ps;
    } else {
      var q', last := qs[..|qs| - 1], qs[|qs| - 1];
      var older, newer, a := NewestFirst(ps), NewestFirst(q'), last.alert;
      assert NewestFirst(ps + q') == newer + older by {
        NewestFirstConcat(ps, q');
      }
      assert NewestFirst(ps + qs) == [a] + NewestFirst(ps + q') by {
        assert ps + qs == (ps + q') + [last];
        NewestFirstSnoc(ps + q', last);
      }
      assert NewestFirst(qs) == [a] + newer by {
        assert qs == q' + [last];
        NewestFirstSnoc(q', last);
      }
      assert [a] + (newer + older) == ([a] + newer) + older;
    }
  }

  /** Two batches de-duplicated one after the other act as their
      concatenation. */
  lemma EmittedStateConcat(seen0: set<string>, alerts0: seq<Alert>, log0: seq<Pending>, ps: seq<Pending>,
                           seen1: set<string>, alerts1: seq<Alert>, log1: seq<Pending>, qs: seq<Pending>,
                           seen2: set<string>, alerts2: seq<Alert>, log2: seq<Pending>)
    requires EmittedState(seen0, alerts0, log0, ps, seen1, alerts1, log1)
    requires EmittedState(seen1, alerts1, log1, qs, seen2, alerts2, log2)
    ensures EmittedState(seen0, alerts0, log0, ps + qs, seen2, alerts2, log2)
  {
    var r1 := Dedup(seen0, ps);
    var r2 := Dedup(seen1, qs);
    var e1, e2 := r1.emitted, r2.emitted;
    assert Dedup(seen0, ps + qs) == DedupResult(seen2, e1 + e2) by {
      DedupConcat(seen0, ps, qs);
    }
    var n1, n2 := NewestFirst(e1), NewestFirst(e2);
    assert NewestFirst(e1 + e2) == n2 + n1 by {
      NewestFirstConcat(e1, e2);
    }
    assert alerts2 == (n2 + n1) + alerts0 by {
      assert alerts2 == n2 + (n1 + alerts0);
    }
    assert log2 == log0 + (e1 + e2) by {
      assert log2 == (log0 + e1) + e2;
    }
  }

  // ---------------------------------------------------------------------
  // The monitor's state
  // ---------------------------------------------------------------------

  /** The parts of the monitor's state that its decisions update: last play
      count and entries per game, the seen alert keys, and the alert list
      (newest first). `log` records, for the proof only, the de-duplicated
      alerts emitted since the last clear. */
  class Monitor {
    var playCounts: map<string, int>
    var gameEntries: map<string, seq<Entry>>
    var seenKeys: set<string>
    var alerts: seq<Alert>
    ghost var log: seq<Pending>

    /** No key has gone out twice since the last clear, and the seen keys
        are exactly the keys that went out. */
    ghost predicate Valid()
      reads this
    {
      DistinctKeys(log) && seenKeys == KeysOf(log)
    }

    constructor ()
      ensures Valid()
      ensures playCounts == map[] && gameEntries == map[] && seenKeys == {} && alerts == [] && log == []
    {
      playCounts := map[];
      gameEntries := map[];
      seenKeys := {};
      alerts := [];
      log := [];
    }

    /** A new alert goes to the front of the list. */
    method AddAlert(a: Alert)
      modifies this
      ensures alerts == [a] + old(alerts)
      ensures seenKeys == old(seenKeys) && log == old(log)
      ensures playCounts == old(playCounts) && gameEntries == old(gameEntries)
    {
      alerts := [a] + alerts;
    }

    /** Emits an alert unless its key was seen; the key is seen afterwards. */
    method EmitOnce(p: Pending) returns (emitted: bool)
      requires Valid()
      modifies this
      ensures Valid()
      ensures emitted <==> p.key !in old(seenKeys)
      ensures seenKeys == old(seenKeys) + {p.key}
      ensures alerts == (if emitted then [p.alert] else []) + old(alerts)
      ensures log == old(log) + (if emitted then [p] else [])
      ensures playCounts == old(playCounts) && gameEntries == old(gameEntries)
    {
      emitted := p.key !in seenKeys;
      if emitted {
        forall q | q in log
          ensures q.key != p.key
        {
        }
        seenKeys := seenKeys + {p.key};
        log := log + [p];
        assert KeysOf(log) == KeysOf(old(log)) + {p.key};
        AddAlert(p.alert);
      }
    }

    /** Since the state (seen0, alerts0, log0), exactly the batch `ps` has
        gone through de-duplication. */
    ghost predicate Emitted(seen0: set<string>, alerts0: seq<Alert>, log0: seq<Pending>, ps: seq<Pending>)
      reads this
    {
      EmittedState(seen0, alerts0, log0, ps, seenKeys, alerts, log)
    }

    /** Raises one checker issue as an alert, shown as `Displayed` words it
        and keyed by game, type and shown message, unless the key was seen. */
    method EmitIssue(g: Game, issue: Issue, entries: seq<Entry>, ctx: PollContext,
                     ghost seen0: set<string>, ghost alerts0: seq<Alert>, ghost log0: seq<Pending>, ghost done: seq<Pending>)
      requires Valid() && Emitted(seen0, alerts0, log0, done)
      modifies this
      ensures Valid() && Emitted(seen0, alerts0, log0, done + [PendingOf(g, issue, entries, ctx)])
      ensures playCounts == old(playCounts) && gameEntries == old(gameEntries)
    {
      var p := PendingOf(g, issue, entries, ctx);
      EmittedStateSnoc(seen0, alerts0, log0, done, seenKeys, alerts, log, p);
      var _ := EmitOnce(p);
    }

    /** Stores a game's play count and raises the stalled alert when the
        count is positive and unchanged since the last poll. */
    method RecordPlayCount(g: Game, curr: nat)
      requires Valid()
      modifies this
      ensures Valid()
      ensures playCounts == old(playCounts)[g.gameId := curr] && gameEntries == old(gameEntries)
      ensures Emitted(old(seenKeys), old(alerts), old(log), StalledPending(g, PreviousCount(old(playCounts), g.gameId), curr))
    {
      var gid := g.gameId;
      var prev := if gid in playCounts then playCounts[gid] else -1;
      playCounts := playCounts[gid := curr];
      assert [] + alerts == alerts && log + [] == log;
      assert EmittedState(seenKeys, alerts, log, [], seenKeys, alerts, log);
      if 0 < prev && prev == curr {
        var p := Pending(StalledKey(gid, curr),
          Alert(gid, GameLabel(g), Info, "Play count unchanged at " + NatToDecimal(curr) + " plays since last poll"));
        EmittedStateSnoc(seenKeys, alerts, log, [], seenKeys, alerts, log, p);
        assert [] + [p] == StalledPending(g, prev, curr);
        var _ := EmitOnce(p);
      }
    }

    /** Raises the checker's issues as alerts, in order, each once per key,
        as `EmitIssue` words and keys them. */
    method EmitIssues(g: Game, issues: seq<Issue>, entries: seq<Entry>, ctx: PollContext)
      requires Valid()
      modifies this
      ensures Valid()
      ensures Emitted(old(seenKeys), old(alerts), old(log), IssuePending(g, issues, entries, ctx))
      ensures playCounts == old(playCounts) && gameEntries == old(gameEntries)
    {
      var i := 0;
      assert [] + alerts == alerts && log + [] == log;
      while i < |issues|
        invariant 0 <= i <= |issues|
        invariant Valid()
        invariant playCounts == old(playCounts) && gameEntries == old(gameEntries)
        invariant Emitted(old(seenKeys), old(alerts), old(log), IssuePending(g, issues[..i], entries, ctx))
      {
        ghost var sofar := IssuePending(g, issues[..i], entries, ctx);
        EmitIssue(g, issues[i], entries, ctx, old(seenKeys), old(alerts), old(log), sofar);
        IssuePendingSnoc(g, issues, entries, ctx, i);
        assert IssuePending(g, issues[..i + 1], entries, ctx) == sofar + [PendingOf(g, issues[i], entries, ctx)];
        i := i + 1;
      }
      assert issues[..|issues|] == issues;
    }

    /** The historical run's per-issue loop: tallies each issue and raises
        it as an alert with the historical wording, each once per key. */
    method TallyAndEmit(g: Game, issues: seq<Issue>, entries: seq<Entry>, t: Tally) returns (t': Tally)
      requires Valid()
      modifies this
      ensures Valid()
      ensures t' == TallyIssues(t, g.gameId, issues, entries)
      ensures Emitted(old(seenKeys), old(alerts), old(log), IssuePending(g, issues, entries, HistoricalRun))
      ensures playCounts == old(playCounts) && gameEntries == old(gameEntries)
    {
      var gid := g.gameId;
      t' := t;
      var i := 0;
      assert [] + alerts == alerts && log + [] == log;
      while i < |issues|
        invariant 0 <= i <= |issues|
        invariant Valid()
        invariant playCounts == old(playCounts) && gameEntries == old(gameEntries)
        invariant t' == TallyIssues(t, gid, issues[..i], entries)
        invariant Emitted(old(seenKeys), old(alerts), old(log), IssuePending(g, issues[..i], entries, HistoricalRun))
      {
        var issue := issues[i];
        t' := CountIssue(t', gid, issue, entries);
        TallyIssuesSnoc(t, gid, issues, entries, i);

        ghost var sofar := IssuePending(g, issues[..i], entries, HistoricalRun);
        EmitIssue(g, issue, entries, HistoricalRun, old(seenKeys), old(alerts), old(log), sofar);
        IssuePendingSnoc(g, issues, entries, HistoricalRun, i);
        assert IssuePending(g, issues[..i + 1], entries, HistoricalRun) == sofar + [PendingOf(g, issue, entries, HistoricalRun)];
        i := i + 1;
      }
      assert issues[..|issues|] == issues;
    }

    /** One poll of a monitored live game whose entries were fetched: stores
        the entries and the play count, raises the stalled alert, and raises
        the checker's issues as alerts, each key at most once. */
    method PollGame(g: Game, entries: seq<Entry>, home: string, away: string)
      requires Valid()
      modifies this
      ensures Valid()
      ensures gameEntries == old(gameEntries)[g.gameId := entries]
      ensures playCounts == old(playCounts)[g.gameId := |entries|]
      ensures var r := Dedup(old(seenKeys), PollPending(g, PreviousCount(old(playCounts), g.gameId), entries, home, away));
        seenKeys == r.seen && alerts == NewestFirst(r.emitted) + old(alerts) && log == old(log) + r.emitted
    {
      var gid := g.gameId;
      gameEntries := gameEntries[gid := entries];

      var curr := |entries|;
      RecordPlayCount(g, curr);
      ghost var stalled := StalledPending(g, PreviousCount(old(playCounts), gid), curr);

      ghost var seen1, alerts1, log1 := seenKeys, alerts, log;
      var issues := Check(entries, home, away);
      EmitIssues(g, issues, entries, LivePoll);
      EmittedStateConcat(old(seenKeys), old(alerts), old(log), stalled, seen1, alerts1, log1,
        IssuePending(g, issues, entries, LivePoll), seenKeys, alerts, log);
    }

    /** Since the state (seen0, alerts0, log0), a historical run has raised
        the alerts of `issues`, once per key, or the OK alert when there are
        none. */
    ghost predicate ReportedHistorical(seen0: set<string>, alerts0: seq<Alert>, log0: seq<Pending>,
                                       g: Game, issues: seq<Issue>, entries: seq<Entry>)
      reads this
    {
      var r := Dedup(seen0, IssuePending(g, issues, entries, HistoricalRun));
      seenKeys == r.seen && log == log0 + r.emitted
      && alerts == (if issues == [] then [OkAlert(g, |entries|)] else NewestFirst(r.emitted)) + alerts0
    }

    /** Tallies and raises a historical game's issues, then the OK alert
        when the checker found nothing. */
    method ReportHistoricalIssues(g: Game, issues: seq<Issue>, entries: seq<Entry>, t: Tally) returns (t': Tally)
      requires Valid()
      modifies this
      ensures Valid()
      ensures t' == TallyIssues(t, g.gameId, issues, entries)
      ensures ReportedHistorical(old(seenKeys), old(alerts), old(log), g, issues, entries)
      ensures playCounts == old(playCounts) && gameEntries == old(gameEntries)
    {
      t' := TallyAndEmit(g, issues, entries, t);
      if issues == [] {
        assert alerts == old(alerts);
        AddAlert(OkAlert(g, |entries|));
      }
    }

    /** One game of a historical run whose entries were fetched: stores the
        entries, tallies every issue, raises the issues as alerts with the
        historical wording, each key at most once, and raises the OK alert
        when the checker finds nothing. */
    method CheckHistoricalGame(g: Game, entries: seq<Entry>, home: string, away: string, t: Tally)
      returns (t': Tally, ghost issues: seq<Issue>)
      requires Valid()
      modifies this
      ensures Valid()
      ensures issues == CheckedIssues(entries, home, away)
      ensures t' == TallyIssues(t.(totalPlays := t.totalPlays + |entries|), g.gameId, issues, entries)
      ensures gameEntries == old(gameEntries)[g.gameId := entries]
      ensures playCounts == old(playCounts)
      ensures ReportedHistorical(old(seenKeys), old(alerts), old(log), g, issues, entries)
    {
      var gid := g.gameId;
      gameEntries := gameEntries[gid := entries];
      t' := t.(totalPlays := t.totalPlays + |entries|);

      var found := Check(entries, home, away);
      t' := ReportHistoricalIssues(g, found, entries, t');
      issues := found;
    }

    /** Empties the alert list and forgets every seen key, so any alert may
        go out again. */
    method ClearAlerts()
      modifies this
      ensures Valid()
      ensures alerts == [] && seenKeys == {} && log == []
      ensures playCounts == old(playCounts) && gameEntries == old(gameEntries)
    {
      alerts := [];
      seenKeys := {};
      log := [];
    }
  }
}
