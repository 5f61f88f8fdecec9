/** The anomaly-detection engine: four independent checks over an ordered
    list of mapped play entries. Each loop of the checker is a method that
    appends to the caller's issue list and is proved equal to a
    specification function over a prefix of the entries; the properties the
    checks promise are lemmas about those functions. */
module AnomalyChecker {
  import opened QcTypes

  /** The severity every issue of a given type is reported with. */
  function SeverityOf(kind: IssueType): Severity {
    match kind
    case StuckClock => Warning
    case BundledScoreArtifact => Info
    case ScoreRegression => Error
    case InvalidScoreJump => Warning
    case MissingEp => Warning
    case MissingFp => Info
  }

  /** The issue types that concern the scoreboard. */
  predicate IsScoreType(kind: IssueType) {
    kind == ScoreRegression || kind == InvalidScoreJump || kind == MissingEp || kind == BundledScoreArtifact
  }

  // ---------------------------------------------------------------------
  // Stuck clock
  // ---------------------------------------------------------------------

  /** Entry i repeats the clock and quarter of entry i-1 and is not a
      kickoff or conversion row. */
  predicate ContinuesRun(entries: seq<Entry>, i: nat)
    requires 1 <= i < |entries|
  {
    entries[i].clock == entries[i - 1].clock
    && entries[i].quarter == entries[i - 1].quarter
    && !IsSpecialTeamsDown(entries[i].down)
  }

  /** The value of the checker's streak counter after it has looked at
      entry i: the length of the run of repeated clocks ending at i. */
  function Streak(entries: seq<Entry>, i: nat): (r: nat)
    requires i < |entries|
    ensures 1 <= r <= i + 1
  {
    if i == 0 then 1
    else if ContinuesRun(entries, i) then Streak(entries, i - 1) + 1
    else 1
  }

  function StuckClockIssue(e: Entry, i: nat): Issue {
    Issue(Warning, StuckClock, ClockStuck(e.clock, StuckThreshold, e.quarter), i)
  }

  /** The issue reported while looking at entry i. */
  function StuckClockAt(entries: seq<Entry>, i: nat): seq<Issue>
    requires 1 <= i < |entries|
  {
    if Streak(entries, i) == StuckThreshold then [StuckClockIssue(entries[i], i)] else []
  }

  /** The stuck-clock issues reported after looking at entries 1..n-1. */
  function StuckClockIssues(entries: seq<Entry>, n: nat): (r: seq<Issue>)
    requires n <= |entries|
  {
    if n <= 1 then [] else StuckClockIssues(entries, n - 1) + StuckClockAt(entries, n - 1)
  }

  /** Every stuck-clock issue is a warning at an index whose streak reached
      the threshold (so at index 3 or later). */
  lemma {:induction false} StuckClockIssuesShape(entries: seq<Entry>, n: nat)
    requires n <= |entries|
    ensures forall x :: x in StuckClockIssues(entries, n) ==>
      x.kind == StuckClock && x.severity == Warning
      && 3 <= x.playIndex < n && Streak(entries, x.playIndex) == StuckThreshold
    decreases n
  {
    if n > 1 {
      StuckClockIssuesShape(entries, n - 1);
    }
  }

  method CheckStuckClock(entries: seq<Entry>, acc: seq<Issue>) returns (issues: seq<Issue>)
    ensures issues == acc + StuckClockIssues(entries, |entries|)
  {
    issues := acc;
    var streak := 1;
    var i := 1;
    while i < |entries|
      invariant 1 <= i
      invariant entries != [] ==>
        i <= |entries| && streak == Streak(entries, i - 1)
        && issues == acc + StuckClockIssues(entries, i)
      invariant entries == [] ==> issues == acc
    {
      var c, p := entries[i], entries[i - 1];
      if c.clock == p.clock && c.quarter == p.quarter && !IsSpecialTeamsDown(c.down) {
        streak := streak + 1;
        if streak == StuckThreshold {
          issues := issues + [StuckClockIssue(c, i)];
        }
      } else {
        streak := 1;
      }
      i := i + 1;
    }
  }

  /** The streak reaches the threshold at i exactly when entries i-2, i-1
      and i each continue the run and the run starts at i-3. */
  lemma StreakReachesThreshold(entries: seq<Entry>, i: nat)
    requires i < |entries|
    ensures Streak(entries, i) == StuckThreshold <==>
      3 <= i && ContinuesRun(entries, i) && ContinuesRun(entries, i - 1) && ContinuesRun(entries, i - 2)
      && (i == 3 || !ContinuesRun(entries, i - 3))
  {
    if 3 <= i && ContinuesRun(entries, i) && ContinuesRun(entries, i - 1) && ContinuesRun(entries, i - 2) {
      assert Streak(entries, i) == Streak(entries, i - 3) + 3;
    } else if 2 <= i && ContinuesRun(entries, i) && ContinuesRun(entries, i - 1) {
      assert Streak(entries, i) == Streak(entries, i - 2) + 2;
    }
  }

  /** A stuck-clock issue is reported at index i exactly when the streak
      reaches the threshold there. */
  lemma {:induction false} StuckClockReportedAt(entries: seq<Entry>, n: nat, i: nat)
    requires n <= |entries| && i < |entries|
    ensures IssuesIn(StuckClockIssues(entries, n), i, i) ==
      if 1 <= i < n && Streak(entries, i) == StuckThreshold then [StuckClockIssue(entries[i], i)] else []
    decreases n
  {
    if n > 1 {
      StuckClockReportedAt(entries, n - 1, i);
      IssuesInSnocAt(StuckClockIssues(entries, n - 1), StuckClockAt(entries, n - 1), i, n - 1);
    }
  }

  /** Entries s..e form (the beginning of) one run of repeated clocks that
      starts at s. */
  ghost predicate StuckRun(entries: seq<Entry>, s: nat, e: nat) {
    s <= e < |entries|
    && (s == 0 || !ContinuesRun(entries, s))
    && forall k :: s < k <= e ==> ContinuesRun(entries, k)
  }

  /** Inside a run that starts at s, the counter at entry k is k - s + 1. */
  lemma {:induction false} StreakInRun(entries: seq<Entry>, s: nat, e: nat, k: nat)
    requires StuckRun(entries, s, e) && s <= k <= e
    ensures Streak(entries, k) == k - s + 1
    decreases k
  {
    if k > s {
      StreakInRun(entries, s, e, k - 1);
    }
  }

  /** Within a run starting at s, entry m is reported exactly when it is the
      run's fourth entry. */
  lemma RunStepReported(entries: seq<Entry>, s: nat, e: nat, m: nat)
    requires StuckRun(entries, s, e) && 1 <= m < |entries|
    ensures IssuesIn(StuckClockAt(entries, m), s, e) ==
      if m == s + 3 && m <= e then [StuckClockIssue(entries[s + 3], s + 3)] else []
  {
    var at := StuckClockAt(entries, m);
    IssuesInUniform(at, m, s, e);
    if s <= m <= e {
      StreakInRun(entries, s, e, m);
    }
  }

  /** Appending the issues of entry m to those of entries before m, when x
      is the only issue a run reports. */
  lemma RunCombine(prev: seq<Issue>, at: seq<Issue>, s: nat, e: nat, m: nat, x: Issue)
    requires IssuesIn(prev, s, e) == if s + 3 <= e && s + 3 < m then [x] else []
    requires IssuesIn(at, s, e) == if m == s + 3 && m <= e then [x] else []
    ensures IssuesIn(prev + at, s, e) == if s + 3 <= e && s + 3 < m + 1 then [x] else []
  {
    IssuesInConcat(prev, at, s, e);
  }

  lemma {:induction false} RunReportedInPrefix(entries: seq<Entry>, s: nat, e: nat, n: nat)
    requires StuckRun(entries, s, e) && n <= |entries|
    ensures IssuesIn(StuckClockIssues(entries, n), s, e) ==
      if s + 3 <= e && s + 3 < n then [StuckClockIssue(entries[s + 3], s + 3)] else []
    decreases n
  {
    if n > 1 {
      var m := n - 1;
      var prev, at := StuckClockIssues(entries, m), StuckClockAt(entries, m);
      assert StuckClockIssues(entries, n) == prev + at;
      RunReportedInPrefix(entries, s, e, m);
      RunStepReported(entries, s, e, m);
      if s + 3 <= e {
        RunCombine(prev, at, s, e, m, StuckClockIssue(entries[s + 3], s + 3));
      } else {
        IssuesInConcat(prev, at, s, e);
      }
    } else {
      assert IssuesIn(StuckClockIssues(entries, n), s, e) == [];
    }
  }

  /** A run of repeated clocks shorter than the threshold is not reported;
      a longer one is reported exactly once, at its fourth entry. */
  lemma RunReportedOnce(entries: seq<Entry>, s: nat, e: nat)
    requires StuckRun(entries, s, e)
    ensures IssuesIn(StuckClockIssues(entries, |entries|), s, e) ==
      if e - s + 1 >= StuckThreshold then [StuckClockIssue(entries[s + 3], s + 3)] else []
  {
    RunReportedInPrefix(entries, s, e, |entries|);
  }

  // ---------------------------------------------------------------------
  // Score jumps
  // ---------------------------------------------------------------------

  function HomeDelta(entries: seq<Entry>, i: nat): int
    requires 1 <= i < |entries|
  {
    entries[i].homeScore - entries[i - 1].homeScore
  }

  function AwayDelta(entries: seq<Entry>, i: nat): int
    requires 1 <= i < |entries|
  {
    entries[i].awayScore - entries[i - 1].awayScore
  }

  /** The issue reported for one team's score change `delta` at entry i. */
  function DeltaIssues(delta: int, team: string, i: nat): (r: seq<Issue>)
    ensures r == [] <==> delta in ValidIncrements
    ensures delta in BundledLagArtifacts ==>
      |r| == 1 && r[0].severity == Info && r[0].kind == BundledScoreArtifact
    ensures delta < 0 && delta !in BundledLagArtifacts ==>
      |r| == 1 && r[0].severity == Error && r[0].kind == ScoreRegression
    ensures delta > 0 && delta !in ValidIncrements ==>
      |r| == 1 && r[0].severity == Warning && r[0].kind == InvalidScoreJump
    ensures forall x :: x in r ==>
      x.playIndex == i && IsScoreType(x.kind) && x.kind != MissingEp
      && x.severity == SeverityOf(x.kind)
  {
    if delta == 0 then []
    else if delta in BundledLagArtifacts then
      [Issue(Info, BundledScoreArtifact, BundledArtifact(team, delta, i + 1), i)]
    else if delta < 0 then
      [Issue(Error, ScoreRegression, ScoreDecreased(team, -delta, i + 1), i)]
    else if delta !in ValidIncrements then
      [Issue(Warning, InvalidScoreJump, ScoreJumped(team, delta, i + 1), i)]
    else []
  }

  /** The issues reported at entry i: home first, then away. */
  function ScoreJumpsAt(entries: seq<Entry>, home: string, away: string, i: nat): (r: seq<Issue>)
    requires 1 <= i < |entries|
    ensures |r| <= 2
    ensures forall x :: x in r ==>
      x.playIndex == i && IsScoreType(x.kind) && x.kind != MissingEp
      && x.severity == SeverityOf(x.kind)
  {
    DeltaIssues(HomeDelta(entries, i), home, i) + DeltaIssues(AwayDelta(entries, i), away, i)
  }

  /** The issue a score change gives names the team, the size of the change
      and the 1-based play number, as the message keys need them. */
  lemma DeltaIssuesExact(delta: int, team: string, i: nat)
    ensures delta in BundledLagArtifacts ==>
      DeltaIssues(delta, team, i) == [Issue(Info, BundledScoreArtifact, BundledArtifact(team, delta, i + 1), i)]
    ensures delta < 0 && delta !in BundledLagArtifacts ==>
      DeltaIssues(delta, team, i) == [Issue(Error, ScoreRegression, ScoreDecreased(team, -delta, i + 1), i)]
    ensures delta > 0 && delta !in ValidIncrements ==>
      DeltaIssues(delta, team, i) == [Issue(Warning, InvalidScoreJump, ScoreJumped(team, delta, i + 1), i)]
  {
  }

  /** At entry i the home verdict comes first and the away verdict last, one
      issue for each team whose change is not a valid increment. */
  lemma ScoreJumpsAtOrder(entries: seq<Entry>, home: string, away: string, i: nat)
    requires 1 <= i < |entries|
    ensures var r := ScoreJumpsAt(entries, home, away, i);
      && |r| == (if HomeDelta(entries, i) in ValidIncrements then 0 else 1)
                + (if AwayDelta(entries, i) in ValidIncrements then 0 else 1)
      && (HomeDelta(entries, i) !in ValidIncrements ==> r[..1] == DeltaIssues(HomeDelta(entries, i), home, i))
      && (AwayDelta(entries, i) !in ValidIncrements ==> r[|r| - 1..] == DeltaIssues(AwayDelta(entries, i), away, i))
  {
  }

  /** The score-jump issues reported after looking at entries 1..n-1. */
  function ScoreJumpIssues(entries: seq<Entry>, home: string, away: string, n: nat): (r: seq<Issue>)
    requires n <= |entries|
  {
    if n <= 1 then [] else ScoreJumpIssues(entries, home, away, n - 1) + ScoreJumpsAt(entries, home, away, n - 1)
  }

  /** Every score-jump issue has a score type other than missing_ep, the
      severity of its type, and an index in [1, n). */
  lemma {:induction false} ScoreJumpIssuesShape(entries: seq<Entry>, home: string, away: string, n: nat)
    requires n <= |entries|
    ensures forall x :: x in ScoreJumpIssues(entries, home, away, n) ==>
      1 <= x.playIndex < n && IsScoreType(x.kind) && x.kind != MissingEp
      && x.severity == SeverityOf(x.kind)
    decreases n
  {
    if n > 1 {
      ScoreJumpIssuesShape(entries, home, away, n - 1);
    }
  }

  method CheckScoreJumps(entries: seq<Entry>, home: string, away: string, acc: seq<Issue>)
    returns (issues: seq<Issue>)
    ensures issues == acc + ScoreJumpIssues(entries, home, away, |entries|)
  {
    issues := acc;
    var i := 1;
    while i < |entries|
      invariant 1 <= i
      invariant entries != [] ==> i <= |entries| && issues == acc + ScoreJumpIssues(entries, home, away, i)
      invariant entries == [] ==> issues == acc
    {
      var hd := entries[i].homeScore - entries[i - 1].homeScore;
      var ad := entries[i].awayScore - entries[i - 1].awayScore;
      issues := issues + DeltaIssues(hd, home, i);
      issues := issues + DeltaIssues(ad, away, i);
      ScoreJumpStep(entries, home, away, acc, i);
      i := i + 1;
    }
  }

  lemma ScoreJumpStep(entries: seq<Entry>, home: string, away: string, acc: seq<Issue>, i: nat)
    requires 1 <= i < |entries|
    ensures acc + ScoreJumpIssues(entries, home, away, i + 1) ==
      acc + ScoreJumpIssues(entries, home, away, i)
      + DeltaIssues(HomeDelta(entries, i), home, i) + DeltaIssues(AwayDelta(entries, i), away, i)
  {
    var prev := ScoreJumpIssues(entries, home, away, i);
    var h := DeltaIssues(HomeDelta(entries, i), home, i);
    var a := DeltaIssues(AwayDelta(entries, i), away, i);
    assert ScoreJumpIssues(entries, home, away, i + 1) == prev + (h + a);
    assert acc + (prev + (h + a)) == acc + prev + h + a;
  }

  /** The issues at index i are exactly the home and the away verdicts on
      that entry's score changes (none at index 0). */
  lemma {:induction false} ScoreJumpsReportedAt(entries: seq<Entry>, home: string, away: string, n: nat, i: nat)
    requires n <= |entries|
    ensures IssuesIn(ScoreJumpIssues(entries, home, away, n), i, i) ==
      if 1 <= i < n then ScoreJumpsAt(entries, home, away, i) else []
    decreases n
  {
    if n > 1 {
      ScoreJumpsReportedAt(entries, home, away, n - 1, i);
      IssuesInSnocAt(ScoreJumpIssues(entries, home, away, n - 1), ScoreJumpsAt(entries, home, away, n - 1), i, n - 1);
    }
  }

  // ---------------------------------------------------------------------
  // Missing extra point
  // ---------------------------------------------------------------------

  /** A six-point jump for either team at entry i with no conversion row at
      i or i+1. */
  predicate TouchdownWithoutConversion(entries: seq<Entry>, i: nat)
    requires 1 <= i < |entries|
  {
    (HomeDelta(entries, i) == 6 || AwayDelta(entries, i) == 6)
    && !IsConversionDown(entries[i].down)
    && (i + 1 < |entries| ==> !IsConversionDown(entries[i + 1].down))
  }

  /** The issue reported while looking at entry i. */
  function MissingEpAt(entries: seq<Entry>, home: string, away: string, i: nat): seq<Issue>
    requires 1 <= i < |entries|
  {
    var hd := HomeDelta(entries, i);
    var ad := AwayDelta(entries, i);
    if hd == 6 || ad == 6 then
      var scorer := if hd == 6 then home else away;
      // Both guards below always hold for 1 <= i < |entries|; they are kept
      // as the checker writes them.
      var n1 := if i < |entries| then entries[i].down else Other("");
      var n2 := if i + 1 < |entries| then entries[i + 1].down else Other("");
      if !IsConversionDown(n1) && !IsConversionDown(n2) then
        var flagIndex := if n1 == Kickoff && i > 0 then i - 1 else i;
        [Issue(Warning, MissingEp, NoConversionRow(scorer, flagIndex + 1), flagIndex)]
      else []
    else []
  }

  /** At most one issue per entry: reported exactly for a six-point jump with
      no conversion row at i or i+1; a warning at i, or at i-1 when entry i
      is the kickoff; naming the home team when its delta is the six. */
  lemma MissingEpAtMeaning(entries: seq<Entry>, home: string, away: string, i: nat)
    requires 1 <= i < |entries|
    ensures var r := MissingEpAt(entries, home, away, i);
      |r| <= 1
      && (r != [] <==> TouchdownWithoutConversion(entries, i))
      && (r != [] ==>
        r[0].kind == MissingEp && r[0].severity == Warning
        && r[0].playIndex == (if entries[i].down == Kickoff then i - 1 else i)
        && r[0].message == NoConversionRow(if HomeDelta(entries, i) == 6 then home else away, r[0].playIndex + 1))
  {
  }

  /** The missing-EP issues reported after looking at entries 1..n-1. */
  function MissingEpIssues(entries: seq<Entry>, home: string, away: string, n: nat): (r: seq<Issue>)
    requires n <= |entries|
  {
    if n <= 1 then [] else MissingEpIssues(entries, home, away, n - 1) + MissingEpAt(entries, home, away, n - 1)
  }

  /** Every missing-EP issue is a warning at an index in [0, n). */
  lemma {:induction false} MissingEpIssuesShape(entries: seq<Entry>, home: string, away: string, n: nat)
    requires n <= |entries|
    ensures forall x :: x in MissingEpIssues(entries, home, away, n) ==>
      x.kind == MissingEp && x.severity == Warning && 0 <= x.playIndex < n
    decreases n
  {
    if n > 1 {
      MissingEpIssuesShape(entries, home, away, n - 1);
      MissingEpAtMeaning(entries, home, away, n - 1);
    }
  }

  method CheckMissingEp(entries: seq<Entry>, home: string, away: string, acc: seq<Issue>)
    returns (issues: seq<Issue>)
    ensures issues == acc + MissingEpIssues(entries, home, away, |entries|)
  {
    issues := acc;
    var i := 1;
    while i < |entries|
      invariant 1 <= i
      invariant entries != [] ==> i <= |entries| && issues == acc + MissingEpIssues(entries, home, away, i)
      invariant entries == [] ==> issues == acc
    {
      var found := [];
      var hd := entries[i].homeScore - entries[i - 1].homeScore;
      var ad := entries[i].awayScore - entries[i - 1].awayScore;
      if hd == 6 || ad == 6 {
        var scorer := if hd == 6 then home else away;
        var n1 := if i < |entries| then entries[i].down else Other("");
        var n2 := if i + 1 < |entries| then entries[i + 1].down else Other("");
        if !IsConversionDown(n1) && !IsConversionDown(n2) {
          var flagIndex := if n1 == Kickoff && i > 0 then i - 1 else i;
          found := [Issue(Warning, MissingEp, NoConversionRow(scorer, flagIndex + 1), flagIndex)];
        }
      }
      assert found == MissingEpAt(entries, home, away, i);
      MissingEpStep(entries, home, away, acc, i);
      issues := issues + found;
      i := i + 1;
    }
  }

  lemma MissingEpStep(entries: seq<Entry>, home: string, away: string, acc: seq<Issue>, i: nat)
    requires 1 <= i < |entries|
    ensures acc + MissingEpIssues(entries, home, away, i + 1) ==
      acc + MissingEpIssues(entries, home, away, i) + MissingEpAt(entries, home, away, i)
  {
  }

  /** The issue for a touchdown found at entry j, when it stays at j. */
  function MissingEpKeptAt(entries: seq<Entry>, home: string, away: string, n: nat, j: nat): seq<Issue>
    requires n <= |entries|
  {
    if 1 <= j < n && entries[j].down != Kickoff then MissingEpAt(entries, home, away, j) else []
  }

  /** The issue for a touchdown found at a kickoff at entry j+1, which moves
      back to j. */
  function MissingEpMovedTo(entries: seq<Entry>, home: string, away: string, n: nat, j: nat): seq<Issue>
    requires n <= |entries|
  {
    if j + 1 < n && entries[j + 1].down == Kickoff then MissingEpAt(entries, home, away, j + 1) else []
  }

  /** The issue found at entry m lands at index j exactly when m is j and
      not a kickoff, or m is a kickoff at j+1. */
  lemma MissingEpAtLands(entries: seq<Entry>, home: string, away: string, m: nat, j: nat)
    requires 1 <= m < |entries|
    ensures IssuesIn(MissingEpAt(entries, home, away, m), j, j) ==
      if (m == j && entries[m].down != Kickoff) || (m == j + 1 && entries[m].down == Kickoff)
      then MissingEpAt(entries, home, away, m) else []
  {
    var at := MissingEpAt(entries, home, away, m);
    var p := if entries[m].down == Kickoff then m - 1 else m;
    MissingEpAtMeaning(entries, home, away, m);
    assert forall x :: x in at ==> x.playIndex == p;
    IssuesInUniform(at, p, j, j);
  }

  lemma KeptMovedStep(entries: seq<Entry>, home: string, away: string, n: nat, j: nat)
    requires 1 < n <= |entries|
    ensures var m := n - 1;
      MissingEpKeptAt(entries, home, away, n, j) + MissingEpMovedTo(entries, home, away, n, j) ==
      MissingEpKeptAt(entries, home, away, m, j) + MissingEpMovedTo(entries, home, away, m, j)
      + (if (m == j && entries[m].down != Kickoff) || (m == j + 1 && entries[m].down == Kickoff)
         then MissingEpAt(entries, home, away, m) else [])
  {
  }

  /** The missing-EP issues at index j: the one for a touchdown found at j
      itself (unless j is a kickoff, whose flag moves back to j-1), then the
      one for a touchdown found at a kickoff at j+1. */
  lemma {:induction false} MissingEpReportedAt(entries: seq<Entry>, home: string, away: string, n: nat, j: nat)
    requires n <= |entries|
    ensures IssuesIn(MissingEpIssues(entries, home, away, n), j, j) ==
      MissingEpKeptAt(entries, home, away, n, j) + MissingEpMovedTo(entries, home, away, n, j)
    decreases n
  {
    if n > 1 {
      var m := n - 1;
      var prev, at := MissingEpIssues(entries, home, away, m), MissingEpAt(entries, home, away, m);
      assert MissingEpIssues(entries, home, away, n) == prev + at;
      MissingEpReportedAt(entries, home, away, m, j);
      IssuesInConcat(prev, at, j, j);
      MissingEpAtLands(entries, home, away, m, j);
      KeptMovedStep(entries, home, away, n, j);
    }
  }

  // ---------------------------------------------------------------------
  // Missing field position
  // ---------------------------------------------------------------------

  predicate IsZeroFpScrimmage(e: Entry) {
    e.fieldPosition == 0 && IsScrimmageDown(e.down)
  }

  /** The number of scrimmage entries whose field position is 0. */
  function ZeroFpCount(entries: seq<Entry>): nat {
    if entries == [] then 0
    else ZeroFpCount(entries[..|entries| - 1]) + (if IsZeroFpScrimmage(entries[|entries| - 1]) then 1 else 0)
  }

  /** The indices of scrimmage entries whose field position is 0. */
  ghost function ZeroFpRows(entries: seq<Entry>): set<int> {
    set i | 0 <= i < |entries| && IsZeroFpScrimmage(entries[i])
  }

  lemma ZeroFpRowsSnoc(entries: seq<Entry>)
    requires entries != []
    ensures var n := |entries|;
      ZeroFpRows(entries) ==
        ZeroFpRows(entries[..n - 1]) + (if IsZeroFpScrimmage(entries[n - 1]) then {n - 1} else {})
      && n - 1 !in ZeroFpRows(entries[..n - 1])
  {
    var n := |entries|;
    var prefix := entries[..n - 1];
    forall i | 0 <= i < n - 1
      ensures prefix[i] == entries[i]
    {
    }
  }

  /** The count is the number of distinct indices of such entries. */
  lemma {:induction false} ZeroFpCountIsCardinality(entries: seq<Entry>)
    ensures ZeroFpCount(entries) == |set i | 0 <= i < |entries| && IsZeroFpScrimmage(entries[i])|
    decreases |entries|
  {
    if entries != [] {
      var n := |entries|;
      var prefix := entries[..n - 1];
      ZeroFpCountIsCardinality(prefix);
      assert ZeroFpCount(prefix) == |ZeroFpRows(prefix)|;
      ZeroFpRowsSnoc(entries);
      assert ZeroFpCount(entries) == |ZeroFpRows(entries)|;
    }
  }

  /** At most one issue: reported at index 0 exactly when more than three
      scrimmage entries lack a field position. */
  function ZeroFieldPositionIssues(entries: seq<Entry>): (r: seq<Issue>)
    ensures |r| <= 1
    ensures r != [] <==> ZeroFpCount(entries) > 3
    ensures forall x :: x in r ==>
      x.severity == Info && x.kind == MissingFp && x.playIndex == 0
      && x.message == ZeroFieldPositions(ZeroFpCount(entries))
  {
    var count := ZeroFpCount(entries);
    if count > 3 then
      [Issue(Info, MissingFp, ZeroFieldPositions(count), 0)]
    else []
  }

  // ---------------------------------------------------------------------
  // All checks
  // ---------------------------------------------------------------------

  /** The issues the checker reports for `entries`. */
  function CheckedIssues(entries: seq<Entry>, home: string, away: string): seq<Issue>
  {
    if entries == [] then []
    else
      StuckClockIssues(entries, |entries|)
      + ScoreJumpIssues(entries, home, away, |entries|)
      + MissingEpIssues(entries, home, away, |entries|)
      + ZeroFieldPositionIssues(entries)
  }

  /** Every issue points at a row of the n entries and has its type's
      severity. */
  ghost predicate Shaped(issues: seq<Issue>, n: nat) {
    forall x :: x in issues ==> 0 <= x.playIndex < n && x.severity == SeverityOf(x.kind)
  }

  lemma ShapedConcat(a: seq<Issue>, b: seq<Issue>, n: nat)
    requires Shaped(a, n) && Shaped(b, n)
    ensures Shaped(a + b, n)
  {
  }

  /** Every reported index is an index of `entries`, and every issue carries
      the severity of its type. */
  lemma CheckedIssuesShape(entries: seq<Entry>, home: string, away: string)
    ensures forall x :: x in CheckedIssues(entries, home, away) ==>
      0 <= x.playIndex < |entries| && x.severity == SeverityOf(x.kind)
  {
    if entries != [] {
      var n := |entries|;
      var stuck := StuckClockIssues(entries, n);
      var jumps := ScoreJumpIssues(entries, home, away, n);
      var missingEp := MissingEpIssues(entries, home, away, n);
      var zeroFp := ZeroFieldPositionIssues(entries);
      assert Shaped(stuck, n) by {
        StuckClockIssuesShape(entries, n);
      }
      assert Shaped(jumps, n) by {
        ScoreJumpIssuesShape(entries, home, away, n);
      }
      assert Shaped(missingEp, n) by {
        MissingEpIssuesShape(entries, home, away, n);
      }
      assert Shaped(zeroFp, n);
      ShapedConcat(stuck, jumps, n);
      ShapedConcat(stuck + jumps, missingEp, n);
      ShapedConcat(stuck + jumps + missingEp, zeroFp, n);
      assert CheckedIssues(entries, home, away) == stuck + jumps + missingEp + zeroFp;
    }
  }

  method Check(entries: seq<Entry>, home: string, away: string) returns (issues: seq<Issue>)
    ensures issues == CheckedIssues(entries, home, away)
    ensures entries == [] ==> issues == []
    ensures forall x :: x in issues ==> 0 <= x.playIndex < |entries|
  {
    issues := [];
    if entries == [] {
      return;
    }
    ghost var stuck := StuckClockIssues(entries, |entries|);
    ghost var jumps := ScoreJumpIssues(entries, home, away, |entries|);
    ghost var missingEp := MissingEpIssues(entries, home, away, |entries|);
    issues := CheckStuckClock(entries, issues);
    assert issues == stuck;
    issues := CheckScoreJumps(entries, home, away, issues);
    assert issues == stuck + jumps;
    issues := CheckMissingEp(entries, home, away, issues);
    assert issues == stuck + jumps + missingEp;
    issues := issues + ZeroFieldPositionIssues(entries);
    CheckedIssuesShape(entries, home, away);
  }

  // ---------------------------------------------------------------------
  // The server's own annotation does not influence the checker
  // ---------------------------------------------------------------------

  /** Two entry lists that differ at most in the server's QC annotations. */
  ghost predicate SameFacts(a: seq<Entry>, b: seq<Entry>) {
    |a| == |b| && forall i :: 0 <= i < |a| ==> a[i].(qcIssue := "") == b[i].(qcIssue := "")
  }

  lemma {:induction false} StreakSameFacts(a: seq<Entry>, b: seq<Entry>, i: nat)
    requires SameFacts(a, b) && i < |a|
    ensures Streak(a, i) == Streak(b, i)
    decreases i
  {
    if i > 0 {
      assert a[i].(qcIssue := "") == b[i].(qcIssue := "");
      assert a[i - 1].(qcIssue := "") == b[i - 1].(qcIssue := "");
      StreakSameFacts(a, b, i - 1);
    }
  }

  lemma {:induction false} StuckClockSameFacts(a: seq<Entry>, b: seq<Entry>, n: nat)
    requires SameFacts(a, b) && n <= |a|
    ensures StuckClockIssues(a, n) == StuckClockIssues(b, n)
    decreases n
  {
    if n > 1 {
      var i := n - 1;
      StuckClockSameFacts(a, b, i);
      StreakSameFacts(a, b, i);
      assert a[i].(qcIssue := "") == b[i].(qcIssue := "");
      assert StuckClockAt(a, i) == StuckClockAt(b, i);
    }
  }

  lemma ScoreJumpsAtSameFacts(a: seq<Entry>, b: seq<Entry>, home: string, away: string, i: nat)
    requires SameFacts(a, b) && 1 <= i < |a|
    ensures ScoreJumpsAt(a, home, away, i) == ScoreJumpsAt(b, home, away, i)
  {
    assert a[i].(qcIssue := "") == b[i].(qcIssue := "");
    assert a[i - 1].(qcIssue := "") == b[i - 1].(qcIssue := "");
    assert HomeDelta(a, i) == HomeDelta(b, i) && AwayDelta(a, i) == AwayDelta(b, i);
  }

  lemma {:induction false} ScoreJumpsSameFacts(a: seq<Entry>, b: seq<Entry>, home: string, away: string, n: nat)
    requires SameFacts(a, b) && n <= |a|
    ensures ScoreJumpIssues(a, home, away, n) == ScoreJumpIssues(b, home, away, n)
    decreases n
  {
    if n > 1 {
      var i := n - 1;
      ScoreJumpsSameFacts(a, b, home, away, i);
      ScoreJumpsAtSameFacts(a, b, home, away, i);
    }
  }

  lemma MissingEpAtSameFacts(a: seq<Entry>, b: seq<Entry>, home: string, away: string, i: nat)
    requires SameFacts(a, b) && 1 <= i < |a|
    ensures MissingEpAt(a, home, away, i) == MissingEpAt(b, home, away, i)
  {
    assert a[i].(qcIssue := "") == b[i].(qcIssue := "");
    assert a[i - 1].(qcIssue := "") == b[i - 1].(qcIssue := "");
    assert HomeDelta(a, i) == HomeDelta(b, i) && AwayDelta(a, i) == AwayDelta(b, i);
    if i + 1 < |a| {
      assert a[i + 1].(qcIssue := "") == b[i + 1].(qcIssue := "");
    }
  }

  lemma {:induction false} MissingEpSameFacts(a: seq<Entry>, b: seq<Entry>, home: string, away: string, n: nat)
    requires SameFacts(a, b) && n <= |a|
    ensures MissingEpIssues(a, home, away, n) == MissingEpIssues(b, home, away, n)
    decreases n
  {
    if n > 1 {
      var i := n - 1;
      MissingEpSameFacts(a, b, home, away, i);
      MissingEpAtSameFacts(a, b, home, away, i);
    }
  }

  lemma {:induction false} ZeroFpCountSameFacts(a: seq<Entry>, b: seq<Entry>)
    requires SameFacts(a, b)
    ensures ZeroFpCount(a) == ZeroFpCount(b)
    decreases |a|
  {
    if a != [] {
      var n := |a|;
      assert SameFacts(a[..n - 1], b[..n - 1]);
      ZeroFpCountSameFacts(a[..n - 1], b[..n - 1]);
      assert a[n - 1].(qcIssue := "") == b[n - 1].(qcIssue := "");
    }
  }

  /** The checker reads no QC annotation, so rewriting the annotations (as
      the server does when it flags rows) leaves its verdict unchanged. */
  lemma CheckIgnoresAnnotations(a: seq<Entry>, b: seq<Entry>, home: string, away: string)
    requires SameFacts(a, b)
    ensures CheckedIssues(a, home, away) == CheckedIssues(b, home, away)
  {
    StuckClockSameFacts(a, b, |a|);
    ScoreJumpsSameFacts(a, b, home, away, |a|);
    MissingEpSameFacts(a, b, home, away, |a|);
    ZeroFpCountSameFacts(a, b);
  }
}
