/** Data model shared by the anomaly checker and the QC monitor: the mapped
    play entries the data server returns, the issues the checker reports, and
    the decimal rendering the checker's messages use. */
module QcTypes {

  /** A row's down code. The server writes it as text ("1".."4", "KO",
      "EP", "2PT"); any other text, including an absent code, is `Other`. */
  datatype Down = First | Second | Third | Fourth | Kickoff | ExtraPoint | TwoPoint | Other(text: string)
  {
    /** The down code as text. */
    function Code(): string {
      match this
      case First => "1"
      case Second => "2"
      case Third => "3"
      case Fourth => "4"
      case Kickoff => "KO"
      case ExtraPoint => "EP"
      case TwoPoint => "2PT"
      case Other(text) => text
    }
  }

  /** The down codes the checker gives a meaning to. */
  const KnownDownCodes: set<string> := {"1", "2", "3", "4", "KO", "EP", "2PT"}

  /** A down as a row can carry it: `Other` holds only text that is not a
      known code, so each code text has exactly one representation and a
      down's class is decided by its text alone (see `DownClassesByCode`). */
  type DownCode = d: Down | !d.Other? || d.text !in KnownDownCodes witness First

  /** Reads a down code; no text is lost. */
  function ParseDown(code: string): (d: DownCode)
    ensures d.Code() == code
    ensures d.Other? <==> code !in KnownDownCodes
  {
    if code == "1" then First
    else if code == "2" then Second
    else if code == "3" then Third
    else if code == "4" then Fourth
    else if code == "KO" then Kickoff
    else if code == "EP" then ExtraPoint
    else if code == "2PT" then TwoPoint
    else Other(code)
  }

  /** One mapped play entry as the monitor receives it. Every field that the
      checker or the monitor reads is present, and `qcIssue` is the server's
      own annotation ("" when the server considers the row clean). */
  datatype Entry = Entry(
    homeScore: int,
    awayScore: int,
    clock: string,
    quarter: string,
    down: DownCode,
    fieldPosition: int,
    qcIssue: string)

  datatype Severity = Info | Warning | Error | Ok

  datatype IssueType =
    | StuckClock
    | BundledScoreArtifact
    | ScoreRegression
    | InvalidScoreJump
    | MissingEp
    | MissingFp
  {
    /** The issue's type as the text that goes into alert keys. */
    function Name(): string {
      match this
      case StuckClock => "stuck_clock"
      case BundledScoreArtifact => "bundled_score_artifact"
      case ScoreRegression => "score_regression"
      case InvalidScoreJump => "invalid_score_jump"
      case MissingEp => "missing_ep"
      case MissingFp => "missing_fp"
    }
  }

  /** What an issue's message says; `Text()` renders it exactly as the
      checker words it. Play numbers are 1-based, as in the messages. */
  datatype Message =
    | ClockStuck(clock: string, streak: nat, quarter: string)
    | BundledArtifact(team: string, delta: int, play: nat)
    | ScoreDecreased(team: string, drop: nat, play: nat)
    | ScoreJumped(team: string, jump: nat, play: nat)
    | NoConversionRow(scorer: string, play: nat)
    | ZeroFieldPositions(count: nat)
  {
    function Text(): string {
      match this
      case ClockStuck(clock, streak, quarter) =>
        "Clock stuck at " + clock + " for " + NatToDecimal(streak) + "+ plays in Q" + quarter
      case BundledArtifact(team, delta, play) =>
        team + " bundled-score lag artifact (" + SignedDecimal(delta) + ") at play #" + NatToDecimal(play)
      case ScoreDecreased(team, drop, play) =>
        team + " score decreased by " + NatToDecimal(drop) + " at play #" + NatToDecimal(play)
      case ScoreJumped(team, jump, play) =>
        team + " score jumped by " + NatToDecimal(jump) + " at play #" + NatToDecimal(play) + " (unexpected value)"
      case NoConversionRow(scorer, play) =>
        "TD by " + scorer + " at play #" + NatToDecimal(play) + " — no EP or 2PT row follows"
      case ZeroFieldPositions(count) =>
        NatToDecimal(count) + " scrimmage plays have field_position=0 (missing data)"
    }
  }

  lemma PrefixCancel(p: string, x: string, y: string)
    requires p + x == p + y
    ensures x == y
  {
    assert x == (p + x)[|p|..];
    assert y == (p + y)[|p|..];
  }

  lemma SuffixCancel(x: string, y: string, q: string)
    requires x + q == y + q
    ensures x == y
  {
    assert x == (x + q)[..|x|];
    assert |x| == |y|;
    assert y == (y + q)[..|y|];
  }

  /** A missing-EP message for a given scorer tells its play number. */
  lemma NoConversionRowTextPlay(scorer: string, a: nat, b: nat)
    requires NoConversionRow(scorer, a).Text() == NoConversionRow(scorer, b).Text()
    ensures a == b
  {
    var p, q := "TD by " + scorer + " at play #", " — no EP or 2PT row follows";
    var da, db := NatToDecimal(a), NatToDecimal(b);
    assert NoConversionRow(scorer, a).Text() == p + da + q;
    assert NoConversionRow(scorer, b).Text() == p + db + q;
    assert p + da + q == p + (da + q);
    assert p + db + q == p + (db + q);
    PrefixCancel(p, NatToDecimal(a) + q, NatToDecimal(b) + q);
    SuffixCancel(NatToDecimal(a), NatToDecimal(b), q);
    NatToDecimalInjective(a, b);
  }

  /** A missing-field-position message tells its count. */
  lemma ZeroFieldPositionsTextCount(a: nat, b: nat)
    requires ZeroFieldPositions(a).Text() == ZeroFieldPositions(b).Text()
    ensures a == b
  {
    SuffixCancel(NatToDecimal(a), NatToDecimal(b), " scrimmage plays have field_position=0 (missing data)");
    NatToDecimalInjective(a, b);
  }

  datatype Issue = Issue(severity: Severity, kind: IssueType, message: Message, playIndex: int)

  /** Score increments the checker accepts without comment. */
  const ValidIncrements: set<int> := {0, 1, 2, 3, 6, 7, 8}

  /** Negative deltas that mirror a touchdown and its conversion bundled into
      one score update by the feed; reported as information only. */
  const BundledLagArtifacts: set<int> := {-7, -8}

  /** Length of an unchanged-clock run at which a stuck clock is reported. */
  const StuckThreshold: nat := 4

  /** Kickoff and conversion rows, which may legitimately share the previous
      row's clock. */
  predicate IsSpecialTeamsDown(down: Down) {
    down.Kickoff? || down.ExtraPoint? || down.TwoPoint?
  }

  /** Conversion rows. */
  predicate IsConversionDown(down: Down) {
    down.ExtraPoint? || down.TwoPoint?
  }

  /** Ordinary scrimmage downs. */
  predicate IsScrimmageDown(down: Down) {
    down.First? || down.Second? || down.Third? || down.Fourth?
  }

  /** On a row's down, each class above is membership of the code text in the
      set of texts the checker compares it with. */
  lemma DownClassesByCode(d: DownCode)
    ensures (d == Kickoff) <==> d.Code() == "KO"
    ensures IsSpecialTeamsDown(d) <==> d.Code() in {"KO", "EP", "2PT"}
    ensures IsConversionDown(d) <==> d.Code() in {"EP", "2PT"}
    ensures IsScrimmageDown(d) <==> d.Code() in {"1", "2", "3", "4"}
  {
  }

  /** The class of a parsed code is the class of its text. */
  lemma ParseDownClasses(code: string)
    ensures (ParseDown(code) == Kickoff) <==> code == "KO"
    ensures IsSpecialTeamsDown(ParseDown(code)) <==> code in {"KO", "EP", "2PT"}
    ensures IsConversionDown(ParseDown(code)) <==> code in {"EP", "2PT"}
    ensures IsScrimmageDown(ParseDown(code)) <==> code in {"1", "2", "3", "4"}
  {
    DownClassesByCode(ParseDown(code));
  }

  /** The issues of `issues` whose play index lies in [lo, hi], in order. */
  function IssuesIn(issues: seq<Issue>, lo: int, hi: int): (r: seq<Issue>)
    ensures |r| <= |issues|
    ensures forall x :: x in r ==> lo <= x.playIndex <= hi
  {
    if issues == [] then []
    else
      var last := issues[|issues| - 1];
      IssuesIn(issues[..|issues| - 1], lo, hi) + (if lo <= last.playIndex <= hi then [last] else [])
  }

  lemma {:induction false} IssuesInConcat(a: seq<Issue>, b: seq<Issue>, lo: int, hi: int)
    ensures IssuesIn(a + b, lo, hi) == IssuesIn(a, lo, hi) + IssuesIn(b, lo, hi)
    decreases |b|
  {
    if b == [] {
      assert a + b == a;
    } else {
      var b' := b[..|b| - 1];
      assert (a + b)[..|a + b| - 1] == a + b';
      IssuesInConcat(a, b', lo, hi);
    }
  }

  /** When every issue sits at play index p, the range [lo, hi] keeps all of
      them or none. */
  lemma {:induction false} IssuesInUniform(issues: seq<Issue>, p: int, lo: int, hi: int)
    requires forall x :: x in issues ==> x.playIndex == p
    ensures IssuesIn(issues, lo, hi) == if lo <= p <= hi then issues else []
    decreases |issues|
  {
    if issues != [] {
      var prefix := issues[..|issues| - 1];
      IssuesInUniform(prefix, p, lo, hi);
      if lo <= p <= hi {
        assert prefix + [issues[|issues| - 1]] == issues;
      }
    }
  }

  /** Appending issues that all sit at index p adds them to the issues at i
      exactly when i is p. */
  lemma IssuesInSnocAt(prev: seq<Issue>, at: seq<Issue>, i: int, p: int)
    requires forall x :: x in at ==> x.playIndex == p
    ensures IssuesIn(prev + at, i, i) == IssuesIn(prev, i, i) + (if i == p then at else [])
  {
    IssuesInConcat(prev, at, i, i);
    IssuesInUniform(at, p, i, i);
  }

  /** When every issue lies below lo, the range [lo, hi] keeps none. */
  lemma {:induction false} IssuesInBelow(issues: seq<Issue>, lo: int, hi: int)
    requires forall x :: x in issues ==> x.playIndex < lo
    ensures IssuesIn(issues, lo, hi) == []
    decreases |issues|
  {
    if issues != [] {
      IssuesInBelow(issues[..|issues| - 1], lo, hi);
    }
  }

  /** Decimal text of a natural number, as Python's str() writes it. */
  function NatToDecimal(n: nat): string
    decreases n
  {
    if n < 10 then [DigitChar(n)] else NatToDecimal(n / 10) + [DigitChar(n % 10)]
  }

  function DigitChar(d: nat): char
    requires d < 10
  {
    (('0' as int) + d) as char
  }

  /** The value of a string of decimal digits. */
  function DecimalValue(s: string): nat
    requires forall k :: 0 <= k < |s| ==> '0' <= s[k] <= '9'
  {
    if s == [] then 0 else DecimalValue(s[..|s| - 1]) * 10 + (s[|s| - 1] as int - '0' as int)
  }

  /** The decimal text of n is a non-empty string of digits with no leading
      zero, and reading it back gives n. */
  lemma {:induction false} NatToDecimalRoundTrip(n: nat)
    ensures var r := NatToDecimal(n);
      && |r| >= 1
      && (forall k :: 0 <= k < |r| ==> '0' <= r[k] <= '9')
      && (r[0] == '0' ==> r == "0")
      && DecimalValue(r) == n
    decreases n
  {
    if n >= 10 {
      var prefix := NatToDecimal(n / 10);
      NatToDecimalRoundTrip(n / 10);
      var r := NatToDecimal(n);
      assert r == prefix + [DigitChar(n % 10)];
      assert r[..|r| - 1] == prefix;
    }
  }

  /** Different numbers have different decimal texts. */
  lemma NatToDecimalInjective(a: nat, b: nat)
    ensures NatToDecimal(a) == NatToDecimal(b) ==> a == b
  {
    NatToDecimalRoundTrip(a);
    NatToDecimalRoundTrip(b);
  }

  /** Decimal text with an explicit sign, as the format spec "+d" writes it. */
  function SignedDecimal(n: int): string
  {
    if n >= 0 then "+" + NatToDecimal(n) else "-" + NatToDecimal(-n)
  }

  /** A signed text starts with its sign, '+' for zero and above, and the
      rest is the decimal text of the magnitude. */
  lemma SignedDecimalParts(n: int)
    ensures var r := SignedDecimal(n);
      |r| >= 2 && (r[0] == '+' <==> n >= 0) && (r[0] == '-' <==> n < 0)
      && r[1..] == NatToDecimal(if n >= 0 then n else -n)
  {
    NatToDecimalRoundTrip(if n >= 0 then n else -n);
  }

  /** The first n characters of s (s[:n] in Python for n >= 0). */
  function Take(s: string, n: nat): (r: string)
    ensures |r| == if |s| <= n then |s| else n
    ensures r <= s
  {
    if |s| <= n then s else s[..n]
  }
}
