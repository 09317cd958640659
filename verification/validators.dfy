/**
 * The constraint checks applied to schedules. Every check returns a verdict:
 * a flag that holds exactly when the list of violations is empty, and the
 * violations found, in the order the check meets them.
 */
module Validators {
  import opened Wrappers
  import opened Schedule

  datatype Violation =
    | EmptySchedule
    | InvalidTeamId(round: nat, slot: nat, id: int)
    | RepeatedTeam(round: nat, team: int)
    | PlaysItself(round: nat, slot: nat, team: int)
    | TooManyAways(team: int, count: nat, start: Option<nat>, limit: int)
    | Repeater(round: nat, home: int, away: int)
    | Imbalance(team: int, homeGames: nat, awayGames: nat, diff: nat)

  datatype Verdict = Verdict(ok: bool, reasons: seq<Violation>)

  // ----- Structure: ids and repeated teams -----

  /** An id a schedule of n teams may hold: the bye or a team in [0, n). */
  predicate ValidId(id: int, n: int) {
    id == Bye || 0 <= id < n
  }

  predicate RoundIdsValid(rnd: Round, n: int) {
    forall i :: 0 <= i < |rnd| ==> ValidId(rnd[i].home, n) && ValidId(rnd[i].away, n)
  }

  /** The structural conditions: some round exists, and every round holds valid ids and no repeated team. */
  predicate WellFormed(s: Sched, n: int) {
    |s| > 0 && forall r :: 0 <= r < |s| ==> RoundIdsValid(s[r], n) && NoRepeatedTeam(s[r])
  }

  /** Real team t fills two slots of the round: both sides of one match, or slots of two matches. */
  predicate Repeated(rnd: Round, t: int) {
    t != Bye && (
      (exists i :: 0 <= i < |rnd| && rnd[i].home == t && rnd[i].away == t) ||
      (exists i, j :: 0 <= i < j < |rnd| && Plays(rnd[i], t) && Plays(rnd[j], t)))
  }

  /** What a reported violation of the structural check asserts about the schedule. */
  predicate StructureJustified(s: Sched, n: int, v: Violation) {
    match v
    case EmptySchedule => s == []
    case InvalidTeamId(r, i, id) => r < |s| && i < |s[r]| && Plays(s[r][i], id) && !ValidId(id, n)
    case RepeatedTeam(r, t) => r < |s| && Repeated(s[r], t)
    case PlaysItself(r, i, t) => r < |s| && i < |s[r]| && SelfPlay(s[r][i]) && s[r][i].home == t
    case _ => false
  }

  /** Appending a match keeps a round free of repeated teams exactly when the match clashes with nothing before it. */
  lemma SnocNoRepeat(pre: Round, m: Match)
    ensures NoRepeatedTeam(pre + [m]) <==>
      NoRepeatedTeam(pre) && !SelfPlay(m) && forall j :: 0 <= j < |pre| ==> TeamSet(pre[j]) !! TeamSet(m)
  {
    var x := pre + [m];
    assert forall j :: 0 <= j < |pre| ==> x[j] == pre[j];
    assert x[|pre|] == m;
    if NoRepeatedTeam(pre) && !SelfPlay(m) && forall j :: 0 <= j < |pre| ==> TeamSet(pre[j]) !! TeamSet(m) {
      forall j, k | 0 <= j < k < |x|
        ensures TeamSet(x[j]) !! TeamSet(x[k])
      {
        if k == |pre| {
          assert TeamSet(pre[j]) !! TeamSet(m);
        }
      }
    }
  }

  /**
   * The checks made on match i of round r, given the real teams seen in the
   * round so far; returns what it reports and the extended set of seen teams.
   */
  method ScanMatch(s: Sched, n: int, r: nat, i: nat, seen: set<int>) returns (found: seq<Violation>, seen': set<int>)
    requires r < |s| && i < |s[r]|
    requires forall t :: t in seen <==> t != Bye && exists j :: 0 <= j < i && Plays(s[r][j], t)
    ensures forall t :: t in seen' <==> t != Bye && exists j :: 0 <= j <= i && Plays(s[r][j], t)
    ensures found == [] <==>
      ValidId(s[r][i].home, n) && ValidId(s[r][i].away, n) && !SelfPlay(s[r][i]) &&
      forall j :: 0 <= j < i ==> TeamSet(s[r][j]) !! TeamSet(s[r][i])
    ensures forall x :: x in found ==> StructureJustified(s, n, x)
  {
    var rnd := s[r];
    var m := rnd[i];
    assert (forall j :: 0 <= j < i ==> TeamSet(rnd[j]) !! TeamSet(m)) <==>
      (m.home == Bye || m.home !in seen) && (m.away == Bye || m.away !in seen) by {
      if (m.home == Bye || m.home !in seen) && (m.away == Bye || m.away !in seen) {
        forall j | 0 <= j < i
          ensures TeamSet(rnd[j]) !! TeamSet(m)
        {
          assert forall t :: t in TeamSet(rnd[j]) ==> Plays(rnd[j], t) && t != Bye;
        }
      }
      if m.home != Bye && m.home in seen {
        var j :| 0 <= j < i && Plays(rnd[j], m.home);
        assert m.home in TeamSet(rnd[j]) * TeamSet(m);
      }
      if m.away != Bye && m.away in seen {
        var j :| 0 <= j < i && Plays(rnd[j], m.away);
        assert m.away in TeamSet(rnd[j]) * TeamSet(m);
      }
    }
    found := [];
    seen' := seen;
    if m.home != Bye && (m.home < 0 || m.home >= n) {
      found := found + [InvalidTeamId(r, i, m.home)];
    }
    if m.away != Bye && (m.away < 0 || m.away >= n) {
      found := found + [InvalidTeamId(r, i, m.away)];
    }
    if m.home != Bye {
      if m.home in seen' {
        found := found + [RepeatedTeam(r, m.home)];
      }
      seen' := seen' + {m.home};
    }
    if m.away != Bye {
      if m.away in seen' {
        found := found + [RepeatedTeam(r, m.away)];
      }
      seen' := seen' + {m.away};
    }
    if m.home == m.away && m.home != Bye {
      found := found + [PlaysItself(r, i, m.home)];
    }
  }

  /**
   * Match by match through round r, with the set of real teams seen so far:
   * the round yields no finding exactly when its ids are valid and no team
   * repeats.
   */
  method ScanRound(s: Sched, n: int, r: nat) returns (found: seq<Violation>)
    requires r < |s|
    ensures found == [] <==> RoundIdsValid(s[r], n) && NoRepeatedTeam(s[r])
    ensures forall x :: x in found ==> StructureJustified(s, n, x)
  {
    var rnd := s[r];
    var seen: set<int> := {};
    found := [];
    for i := 0 to |rnd|
      invariant forall t :: t in seen <==> t != Bye && exists j :: 0 <= j < i && Plays(rnd[j], t)
      invariant found == [] <==> RoundIdsValid(rnd[..i], n) && NoRepeatedTeam(rnd[..i])
      invariant forall x :: x in found ==> StructureJustified(s, n, x)
    {
      var more;
      more, seen := ScanMatch(s, n, r, i, seen);
      found := found + more;
      assert rnd[..i + 1] == rnd[..i] + [rnd[i]];
      SnocNoRepeat(rnd[..i], rnd[i]);
    }
    assert rnd[..|rnd|] == rnd;
  }

  /**
   * Round by round, match by match, with the set of real teams seen so far
   * in the round: invalid ids, a team seen twice and a team playing itself
   * are reported. The check passes exactly on well-formed schedules.
   */
  method ValidateSchedule(s: Sched, n: int) returns (v: Verdict)
    ensures v.ok <==> v.reasons == []
    ensures v.ok <==> WellFormed(s, n)
    ensures s == [] ==> v.reasons == [EmptySchedule]
    ensures forall x :: x in v.reasons ==> StructureJustified(s, n, x)
  {
    if |s| == 0 {
      return Verdict(false, [EmptySchedule]);
    }
    var reasons: seq<Violation> := [];
    for r := 0 to |s|
      invariant reasons == [] <==> forall q :: 0 <= q < r ==> RoundIdsValid(s[q], n) && NoRepeatedTeam(s[q])
      invariant forall x :: x in reasons ==> StructureJustified(s, n, x)
    {
      var found := ScanRound(s, n, r);
      reasons := reasons + found;
    }
    return Verdict(reasons == [], reasons);
  }

  // ----- Consecutive away games -----

  /** Match i is the first match of the round listing team t. */
  predicate FirstToPlay(rnd: Round, t: int, i: int)
    requires 0 <= i < |rnd|
  {
    Plays(rnd[i], t) && forall j :: 0 <= j < i ==> !Plays(rnd[j], t)
  }

  /** Team t plays away in the round: the first match listing t has t as the visitor. */
  function IsAway(rnd: Round, t: int): (b: bool)
    ensures b <==> exists i :: 0 <= i < |rnd| && FirstToPlay(rnd, t, i) && rnd[i].away == t
  {
    if |rnd| == 0 then false
    else if rnd[0].away == t then (assert FirstToPlay(rnd, t, 0); true)
    else if rnd[0].home == t then false
    else
      var b := IsAway(rnd[1..], t);
      assert forall i :: 1 <= i < |rnd| ==> (FirstToPlay(rnd, t, i) <==> FirstToPlay(rnd[1..], t, i - 1));
      b
  }

  /** The largest id of the matches, or -1 when none is larger. */
  function MaxId(ms: seq<Match>): (top: int)
    ensures top >= -1
    ensures forall i :: 0 <= i < |ms| ==> ms[i].home <= top && ms[i].away <= top
    ensures top >= 0 ==> exists i :: 0 <= i < |ms| && Plays(ms[i], top)
  {
    if |ms| == 0 then -1
    else
      var m := ms[|ms| - 1];
      var top := MaxId(ms[..|ms| - 1]);
      var top' := if m.home > top then m.home else top;
      if m.away > top' then m.away else top'
  }

  /** The number of teams the away check assumes: one more than the largest id, or 0. */
  function TeamCount(s: Sched): nat {
    MaxId(Flatten(s)) + 1
  }

  /** Team t plays away in each of the len rounds from round a on. */
  predicate AwayRun(s: Sched, t: int, a: int, len: int)
    requires 0 <= a && a + len <= |s|
  {
    forall r :: a <= r < a + len ==> IsAway(s[r], t)
  }

  /** Team t plays away in the k + 1 rounds from round a on: one more than the limit k allows. */
  predicate Exceeds(s: Sched, t: int, a: int, k: int)
    requires 0 <= a && a + k + 1 <= |s|
  {
    AwayRun(s, t, a, k + 1)
  }

  /** Team t never plays more than k consecutive rounds away. */
  predicate NoLongAwayRun(s: Sched, t: int, k: int) {
    forall a :: 0 <= a && a + k + 1 <= |s| ==> !Exceeds(s, t, a, k)
  }

  /** What a reported streak asserts, for a non-negative limit: k + 1 away games in a row from the given start. */
  predicate AwayJustified(s: Sched, k: int, v: Violation) {
    v.TooManyAways? && v.count == k + 1 && v.limit == k && 0 <= v.team < TeamCount(s) &&
    v.start.Some? && v.start.value + k + 1 <= |s| && Exceeds(s, v.team, v.start.value, k)
  }

  /**
   * With a streak of count away rounds ending before round ri, preceded by a
   * home game, a bye or the start, and no overlong run so far, round ri
   * completes an overlong run exactly when it is away and the streak is full.
   */
  lemma StreakStep(s: Sched, t: int, k: nat, ri: nat, count: nat)
    requires ri < |s| && count <= k && count <= ri
    requires AwayRun(s, t, ri - count, count)
    requires ri - count == 0 || !IsAway(s[ri - count - 1], t)
    requires forall a :: 0 <= a && a + k + 1 <= ri ==> !Exceeds(s, t, a, k)
    ensures (forall a :: 0 <= a && a + k + 1 <= ri + 1 ==> !Exceeds(s, t, a, k)) <==>
            !(IsAway(s[ri], t) && count == k)
  {
    if IsAway(s[ri], t) && count == k {
      assert Exceeds(s, t, ri - k, k);
    }
    if ri - k >= 0 && Exceeds(s, t, ri - k, k) {
      assert IsAway(s[ri], t);
      if count < k {
        assert false;
      }
    }
  }

  /**
   * The length of the away streak of team t that ends with round i: the
   * longest run of away rounds up to and including round i.
   */
  function Streak(s: Sched, t: int, i: nat): (len: nat)
    requires i < |s|
    ensures len <= i + 1
  {
    if !IsAway(s[i], t) then 0 else if i == 0 then 1 else Streak(s, t, i - 1) + 1
  }

  /** The streak is a maximal away run: away in each of its rounds, preceded by the start or a round not away. */
  lemma {:induction false} StreakIsMaximalRun(s: Sched, t: int, i: nat)
    requires i < |s|
    ensures AwayRun(s, t, i + 1 - Streak(s, t, i), Streak(s, t, i))
    ensures Streak(s, t, i) <= i ==> !IsAway(s[i - Streak(s, t, i)], t)
  {
    if IsAway(s[i], t) && i > 0 {
      StreakIsMaximalRun(s, t, i - 1);
    }
  }

  /** The remainder of x divided by m, by repeated subtraction. */
  function Rem(x: nat, m: nat): (r: nat)
    requires m > 0
    ensures r < m
    decreases x
  {
    if x < m then x else Rem(x - m, m)
  }

  /** Rem is the remainder of Euclidean division. */
  lemma {:induction false} RemIsMod(x: nat, m: nat)
    requires m > 0
    ensures Rem(x, m) == x % m
    decreases x
  {
    if x >= m {
      RemIsMod(x - m, m);
      ModShift(x - m, m);
    }
  }

  /** A product of a positive factor and m is at least m. */
  lemma MulAtLeast(a: nat, m: nat)
    requires a >= 1 && m > 0
    ensures a * m >= m
  {
  }

  /** Quotient and remainder are unique. */
  lemma ModUnique(x: int, m: int, q: int, r: int)
    requires m > 0 && 0 <= r < m && x == q * m + r
    ensures x % m == r
  {
    var q2, r2 := x / m, x % m;
    assert x == q2 * m + r2;
    assert (q - q2) * m == r2 - r;
    assert (q2 - q) * m == r - r2;
    if q - q2 > 0 {
      MulAtLeast(q - q2, m);
      assert false;
    }
    if q2 - q > 0 {
      MulAtLeast(q2 - q, m);
      assert false;
    }
  }

  lemma ModShift(y: nat, m: nat)
    requires m > 0
    ensures (y + m) % m == y % m
  {
    assert y == (y / m) * m + y % m;
    ModUnique(y + m, m, y / m + 1, y % m);
  }

  /** Adding one advances the remainder by one, wrapping to 0. */
  lemma {:induction false} RemSucc(x: nat, m: nat)
    requires m > 0
    ensures Rem(x + 1, m) == if Rem(x, m) == m - 1 then 0 else Rem(x, m) + 1
    decreases x
  {
    if x >= m {
      RemSucc(x - m, m);
    }
  }

  /**
   * The report due for team t at round i. With a non-negative limit k,
   * every completed block of k + 1 away rounds within a streak is reported
   * once, with the block's first round as its start; with a negative limit
   * every round is reported, as a one-round streak or, when t is not away,
   * an empty one.
   */
  function ReportAt(s: Sched, t: int, k: int, i: nat): Option<Violation>
    requires i < |s|
  {
    if k >= 0 then
      var len := Streak(s, t, i);
      if len > 0 && Rem(len, k + 1) == 0 then
        Some(TooManyAways(t, k + 1, Some(i - k), k))
      else None
    else if IsAway(s[i], t) then Some(TooManyAways(t, 1, Some(i), k))
    else Some(TooManyAways(t, 0, None, k))
  }

  /** The reports due for team t over rounds 0 to i - 1, in round order. */
  function AwayReports(s: Sched, t: int, k: int, i: nat): seq<Violation>
    requires i <= |s|
  {
    if i == 0 then []
    else
      var due := ReportAt(s, t, k, i - 1);
      AwayReports(s, t, k, i - 1) + (if due.Some? then [due.value] else [])
  }

  /** The reports due for every team below m, team by team. */
  function TeamsAwayReports(s: Sched, k: int, m: nat): seq<Violation> {
    if m == 0 then [] else TeamsAwayReports(s, k, m - 1) + AwayReports(s, m - 1, k, |s|)
  }

  /**
   * The scan's counter before round ri: the streak ending at round ri - 1
   * modulo k + 1. Round ri advances it, or clears it when t is not away.
   */
  lemma CounterStep(s: Sched, t: int, k: nat, ri: nat, count: nat)
    requires ri < |s| && count == if ri == 0 then 0 else Rem(Streak(s, t, ri - 1), k + 1)
    ensures IsAway(s[ri], t) ==> Rem(Streak(s, t, ri), k + 1) == if count == k then 0 else count + 1
    ensures !IsAway(s[ri], t) ==> Streak(s, t, ri) == 0
  {
    if IsAway(s[ri], t) {
      if ri == 0 {
        RemSucc(0, k + 1);
      } else {
        RemSucc(Streak(s, t, ri - 1), k + 1);
      }
    }
  }

  /** A run of len away rounds ending with round i makes the streak at least len long. */
  lemma {:induction false} StreakAtLeast(s: Sched, t: int, i: nat, len: nat)
    requires i < |s| && len <= i + 1 && AwayRun(s, t, i + 1 - len, len)
    ensures Streak(s, t, i) >= len
    decreases len
  {
    if len > 0 {
      assert IsAway(s[i], t);
      if len > 1 {
        StreakAtLeast(s, t, i - 1, len - 1);
      }
    }
  }

  /** A positive multiple of m is at least m. */
  lemma RemZeroAtLeast(x: nat, m: nat)
    requires m > 0 && x > 0 && Rem(x, m) == 0
    ensures x >= m
  {
  }

  /** A report due at round i, for a non-negative limit, is backed by k + 1 away rounds ending with round i. */
  lemma ReportJustified(s: Sched, t: int, k: nat, i: nat)
    requires i < |s| && 0 <= t < TeamCount(s) && ReportAt(s, t, k, i).Some?
    ensures AwayJustified(s, k, ReportAt(s, t, k, i).value)
  {
    var len := Streak(s, t, i);
    RemZeroAtLeast(len, k + 1);
    StreakIsMaximalRun(s, t, i);
    assert Exceeds(s, t, i - k, k);
  }

  /** Every report due for a non-negative limit is justified. */
  lemma {:induction false} AwayReportsJustified(s: Sched, t: int, k: nat, i: nat)
    requires i <= |s| && 0 <= t < TeamCount(s)
    ensures forall x :: x in AwayReports(s, t, k, i) ==> AwayJustified(s, k, x)
    decreases i
  {
    if i > 0 {
      AwayReportsJustified(s, t, k, i - 1);
      if ReportAt(s, t, k, i - 1).Some? {
        ReportJustified(s, t, k, i - 1);
      }
    }
  }

  /** A streak longer than k ends an overlong run. */
  lemma LongStreakExceeds(s: Sched, t: int, k: nat, j: nat)
    requires j < |s| && Streak(s, t, j) > k
    ensures j >= k && Exceeds(s, t, j - k, k)
  {
    StreakIsMaximalRun(s, t, j);
  }

  /** While no overlong run ends before round j, the streak at round j is at most k + 1 long. */
  lemma StreakBounded(s: Sched, t: int, k: nat, j: nat)
    requires j < |s|
    requires forall a :: 0 <= a && a + k + 1 <= j ==> !Exceeds(s, t, a, k)
    ensures Streak(s, t, j) <= k + 1
  {
    if j > 0 && Streak(s, t, j - 1) > k {
      LongStreakExceeds(s, t, k, j - 1);
      assert false;
    }
  }

  /** With the streak at most k + 1 long, a report is due at round j exactly when an overlong run ends there. */
  lemma ReportIffRun(s: Sched, t: int, k: nat, j: nat)
    requires j < |s| && Streak(s, t, j) <= k + 1
    ensures ReportAt(s, t, k, j).Some? <==> j >= k && Exceeds(s, t, j - k, k)
  {
    var len := Streak(s, t, j);
    if j >= k && Exceeds(s, t, j - k, k) {
      StreakAtLeast(s, t, j, k + 1);
      assert Rem(k + 1, k + 1) == Rem(0, k + 1) == 0;
    }
    if ReportAt(s, t, k, j).Some? {
      RemZeroAtLeast(len, k + 1);
      StreakIsMaximalRun(s, t, j);
      assert Exceeds(s, t, j - k, k);
    }
  }

  /**
   * For a non-negative limit, no report is due over the first i rounds
   * exactly when no overlong run fits in them.
   */
  lemma {:induction false} NoReportsNoRun(s: Sched, t: int, k: nat, i: nat)
    requires i <= |s|
    ensures AwayReports(s, t, k, i) == [] <==> forall a :: 0 <= a && a + k + 1 <= i ==> !Exceeds(s, t, a, k)
    decreases i
  {
    if i > 0 {
      var j := i - 1;
      NoReportsNoRun(s, t, k, j);
      if AwayReports(s, t, k, j) == [] {
        StreakBounded(s, t, k, j);
        ReportIffRun(s, t, k, j);
        if ReportAt(s, t, k, j).None? {
          assert AwayReports(s, t, k, i) == [];
          assert forall a :: 0 <= a && a + k + 1 <= i ==> !Exceeds(s, t, a, k) by {
            forall a | 0 <= a && a + k + 1 <= i
              ensures !Exceeds(s, t, a, k)
            {
              if a + k + 1 == i {
                assert a == j - k;
              }
            }
          }
        }
      } else {
        assert |AwayReports(s, t, k, i)| >= |AwayReports(s, t, k, j)|;
      }
    }
  }

  /** With a negative limit, every round is reported. */
  lemma {:induction false} NegativeLimitReportsAll(s: Sched, t: int, k: int, i: nat)
    requires k < 0 && i <= |s|
    ensures |AwayReports(s, t, k, i)| == i
    decreases i
  {
    if i > 0 {
      NegativeLimitReportsAll(s, t, k, i - 1);
    }
  }

  /**
   * One team's scan: a streak counter that restarts after a home game or a
   * bye, and after every report.
   */
  method ScanAways(s: Sched, t: int, k: int) returns (found: seq<Violation>)
    requires |s| > 0 && 0 <= t < TeamCount(s)
    ensures found == [] <==> NoLongAwayRun(s, t, k)
    ensures k >= 0 ==> forall x :: x in found ==> AwayJustified(s, k, x)
    ensures found == AwayReports(s, t, k, |s|)
  {
    var count: nat := 0;
    var start: Option<nat> := None;
    found := [];
    for ri := 0 to |s|
      invariant count <= ri
      invariant count >= 1 ==> start == Some(ri - count)
      invariant found == AwayReports(s, t, k, ri)
      invariant k >= 0 ==> count == if ri == 0 then 0 else Rem(Streak(s, t, ri - 1), k + 1)
      invariant k < 0 ==> count == 0
    {
      if k >= 0 {
        CounterStep(s, t, k, ri, count);
      }
      var away := IsAway(s[ri], t);
      if away {
        count := count + 1;
        if count == 1 {
          start := Some(ri);
        }
      } else {
        count := 0;
        start := None;
      }
      if count > k {
        found := found + [TooManyAways(t, count, start, k)];
        count := 0;
      }
    }
    if k >= 0 {
      NoReportsNoRun(s, t, k, |s|);
      AwayReportsJustified(s, t, k, |s|);
    } else {
      NegativeLimitReportsAll(s, t, k, |s|);
      assert Exceeds(s, t, 0, k);
    }
  }

  /**
   * For every team id below the team count, the streak scan; the check
   * passes exactly when no team plays more than k consecutive rounds away.
   */
  method CheckMaxConsecutiveAways(s: Sched, k: int) returns (v: Verdict)
    ensures v.ok <==> v.reasons == []
    ensures v.ok <==> forall t :: 0 <= t < TeamCount(s) ==> NoLongAwayRun(s, t, k)
    ensures k >= 0 ==> forall x :: x in v.reasons ==> AwayJustified(s, k, x)
    ensures v.reasons == TeamsAwayReports(s, k, TeamCount(s))
  {
    if |s| == 0 {
      return Verdict(true, []);
    }
    var nt := TeamCount(s);
    if nt == 0 {
      return Verdict(true, []);
    }
    var reasons: seq<Violation> := [];
    for t := 0 to nt
      invariant reasons == [] <==> forall u :: 0 <= u < t ==> NoLongAwayRun(s, u, k)
      invariant k >= 0 ==> forall x :: x in reasons ==> AwayJustified(s, k, x)
      invariant reasons == TeamsAwayReports(s, k, t)
    {
      var found := ScanAways(s, t, k);
      assert TeamsAwayReports(s, k, t + 1) == TeamsAwayReports(s, k, t) + found;
      reasons := reasons + found;
    }
    return Verdict(reasons == [], reasons);
  }

  /** Within a maximal away run from round a, the streak at round a + j is j + 1 long. */
  lemma {:induction false} StreakInRun(s: Sched, t: int, a: nat, len: nat, j: nat)
    requires a + len <= |s| && j < len
    requires AwayRun(s, t, a, len) && (a == 0 || !IsAway(s[a - 1], t))
    ensures Streak(s, t, a + j) == j + 1
    decreases j
  {
    assert IsAway(s[a + j], t);
    if j > 0 {
      StreakInRun(s, t, a, len, j - 1);
    }
  }

  /** Among 1 .. 2m, exactly m and 2m are multiples of m. */
  lemma TwoBlockRem(x: nat, m: nat)
    requires m > 0 && 1 <= x <= 2 * m
    ensures Rem(x, m) == 0 <==> x == m || x == 2 * m
  {
    if x >= m {
      assert Rem(x, m) == Rem(x - m, m);
      if x - m >= m {
        assert Rem(x - m, m) == Rem(0, m);
      }
    }
  }

  /** Within a maximal run of 2(k + 1) away rounds from round a, reports fall due at its (k + 1)-th and last round. */
  lemma RunReportAt(s: Sched, t: int, k: nat, a: nat, j: nat)
    requires a + 2 * (k + 1) <= |s| && 1 <= j <= 2 * (k + 1)
    requires AwayRun(s, t, a, 2 * (k + 1)) && (a == 0 || !IsAway(s[a - 1], t))
    ensures ReportAt(s, t, k, a + j - 1) ==
      if j == k + 1 || j == 2 * (k + 1) then Some(TooManyAways(t, k + 1, Some(a + j - 1 - k), k)) else None
  {
    StreakInRun(s, t, a, 2 * (k + 1), j - 1);
    TwoBlockRem(j, k + 1);
  }

  /** Rounds at which no report is due add nothing to the list. */
  lemma {:induction false} NoneDueBetween(s: Sched, t: int, k: int, e1: nat, e2: nat)
    requires e1 <= e2 <= |s|
    requires forall x :: e1 <= x < e2 ==> ReportAt(s, t, k, x).None?
    ensures AwayReports(s, t, k, e2) == AwayReports(s, t, k, e1)
    decreases e2
  {
    if e2 > e1 {
      NoneDueBetween(s, t, k, e1, e2 - 1);
    }
  }

  /**
   * Within a maximal run of 2(k + 1) away rounds from round a, block b
   * (0 or 1) of k + 1 rounds, from round c = a + b(k + 1), adds exactly one
   * report, starting at c.
   */
  lemma BlockReport(s: Sched, t: int, k: nat, a: nat, c: nat)
    requires a + 2 * (k + 1) <= |s| && (c == a || c == a + k + 1)
    requires AwayRun(s, t, a, 2 * (k + 1)) && (a == 0 || !IsAway(s[a - 1], t))
    ensures AwayReports(s, t, k, c + k + 1) == AwayReports(s, t, k, c) + [TooManyAways(t, k + 1, Some(c), k)]
  {
    forall x | c <= x < c + k
      ensures ReportAt(s, t, k, x).None?
    {
      RunReportAt(s, t, k, a, x - a + 1);
    }
    NoneDueBetween(s, t, k, c, c + k);
    RunReportAt(s, t, k, a, c - a + k + 1);
  }

  /**
   * The counter restarts after every report: a run of exactly 2(k + 1)
   * away rounds from round a yields two reports of k + 1 games each, one
   * starting at a and one at a + k + 1, and nothing else.
   */
  lemma DoubleRunTwoReports(s: Sched, t: int, k: nat, a: nat)
    requires a + 2 * (k + 1) <= |s|
    requires AwayRun(s, t, a, 2 * (k + 1)) && (a == 0 || !IsAway(s[a - 1], t))
    ensures AwayReports(s, t, k, a + k + 1) == AwayReports(s, t, k, a) + [TooManyAways(t, k + 1, Some(a), k)]
    ensures AwayReports(s, t, k, a + 2 * (k + 1)) ==
      AwayReports(s, t, k, a + k + 1) + [TooManyAways(t, k + 1, Some(a + k + 1), k)]
  {
    BlockReport(s, t, k, a, a);
    BlockReport(s, t, k, a, a + k + 1);
  }

  // ----- Immediate reversals -----

  /** Both sides of the match are real teams. */
  predicate Real(m: Match) {
    m.home != Bye && m.away != Bye
  }

  /** Real match i of round r is played with home and away exchanged as match j of the next round. */
  predicate ReversedNext(s: Sched, r: int, i: int, j: int)
    requires 0 <= r && r + 1 < |s| && 0 <= i < |s[r]| && 0 <= j < |s[r + 1]|
  {
    Real(s[r][i]) && s[r + 1][j] == Flip(s[r][i])
  }

  /** No match is followed in the next round by its reversal. */
  predicate NoRepeaters(s: Sched) {
    forall r, i, j :: 0 <= r && r + 1 < |s| && 0 <= i < |s[r]| && 0 <= j < |s[r + 1]| ==> !ReversedNext(s, r, i, j)
  }

  /** What a reported reversal asserts: the named match in its round and the reversed one in the next. */
  predicate RepeaterJustified(s: Sched, v: Violation) {
    v.Repeater? && v.round + 1 < |s| && Real(Match(v.home, v.away)) &&
    Match(v.home, v.away) in s[v.round] && Match(v.away, v.home) in s[v.round + 1]
  }

  /**
   * For each pair of consecutive rounds, the set of real matches of the
   * first; every real match of the second whose reversal is in that set is
   * reported.
   */
  method CheckRepeaters(s: Sched) returns (v: Verdict)
    ensures v.ok <==> v.reasons == []
    ensures v.ok <==> NoRepeaters(s)
    ensures forall x :: x in v.reasons ==> RepeaterJustified(s, x)
  {
    if |s| < 2 {
      return Verdict(true, []);
    }
    var reasons: seq<Violation> := [];
    for r := 0 to |s| - 1
      invariant reasons == [] <==>
        forall q, i, j :: 0 <= q < r && 0 <= i < |s[q]| && 0 <= j < |s[q + 1]| ==> !ReversedNext(s, q, i, j)
      invariant forall x :: x in reasons ==> RepeaterJustified(s, x)
    {
      var cur, next := s[r], s[r + 1];
      var pairs: set<Match> := {};
      for i := 0 to |cur|
        invariant forall m :: m in pairs <==> exists i' :: 0 <= i' < i && Real(cur[i']) && cur[i'] == m
      {
        if cur[i].home != Bye && cur[i].away != Bye {
          pairs := pairs + {cur[i]};
        }
      }
      for j := 0 to |next|
        invariant reasons == [] <==>
          (forall q, i, j' :: 0 <= q < r && 0 <= i < |s[q]| && 0 <= j' < |s[q + 1]| ==> !ReversedNext(s, q, i, j')) &&
          (forall i, j' :: 0 <= i < |cur| && 0 <= j' < j ==> !ReversedNext(s, r, i, j'))
        invariant forall x :: x in reasons ==> RepeaterJustified(s, x)
      {
        var m := next[j];
        if m.home != Bye && m.away != Bye && Match(m.away, m.home) in pairs {
          var i' :| 0 <= i' < |cur| && Real(cur[i']) && cur[i'] == Match(m.away, m.home);
          assert ReversedNext(s, r, i', j);
          reasons := reasons + [Repeater(r, m.away, m.home)];
        }
      }
    }
    return Verdict(reasons == [], reasons);
  }

  // ----- Home and away balance -----

  /** The number of the matches hosted by team t. */
  function HomeGames(ms: seq<Match>, t: int): nat {
    if |ms| == 0 then 0
    else HomeGames(ms[..|ms| - 1], t) + (if ms[|ms| - 1].home == t then 1 else 0)
  }

  /** The number of the matches in which team t visits. */
  function AwayGames(ms: seq<Match>, t: int): nat {
    if |ms| == 0 then 0
    else AwayGames(ms[..|ms| - 1], t) + (if ms[|ms| - 1].away == t then 1 else 0)
  }

  function Abs(x: int): nat {
    if x < 0 then -x else x
  }

  /** Every team 0..n-1 hosts within one game as often as it visits. */
  predicate Balanced(s: Sched, n: int) {
    forall t :: 0 <= t < n ==> Abs(HomeGames(Flatten(s), t) - AwayGames(Flatten(s), t)) <= 1
  }

  /** What a reported imbalance asserts: the counts of a team and a difference above one. */
  predicate BalanceJustified(s: Sched, n: int, v: Violation) {
    v.Imbalance? && 0 <= v.team < n && v.homeGames == HomeGames(Flatten(s), v.team) &&
    v.awayGames == AwayGames(Flatten(s), v.team) && v.diff == Abs(v.homeGames - v.awayGames) && v.diff > 1
  }

  /** Every id is a team id or the bye. */
  predicate NoIdBelowBye(s: Sched) {
    forall r, i :: 0 <= r < |s| && 0 <= i < |s[r]| ==> s[r][i].home >= Bye && s[r][i].away >= Bye
  }

  lemma FlattenSnoc(s: Sched, r: nat)
    requires r < |s|
    ensures Flatten(s[..r + 1]) == Flatten(s[..r]) + s[r]
  {
    FlattenSplit(s[..r + 1], r);
    assert s[..r + 1][..r] == s[..r];
    assert s[..r + 1][r + 1..] == [];
  }

  /** Adds the matches of one round to the per-team home and away counts. */
  method CountRound(prefix: seq<Match>, rnd: Round, n: int, home: seq<nat>, away: seq<nat>) returns (home': seq<nat>, away': seq<nat>)
    requires |home| == |away| == (if n < 0 then 0 else n)
    requires forall i :: 0 <= i < |rnd| ==> rnd[i].home >= Bye && rnd[i].away >= Bye
    requires forall t :: 0 <= t < |home| ==> home[t] == HomeGames(prefix, t) && away[t] == AwayGames(prefix, t)
    ensures |home'| == |away'| == |home|
    ensures forall t :: 0 <= t < |home| ==> home'[t] == HomeGames(prefix + rnd, t) && away'[t] == AwayGames(prefix + rnd, t)
  {
    home', away' := home, away;
    assert prefix + rnd[..0] == prefix;
    for i := 0 to |rnd|
      invariant |home'| == |away'| == |home|
      invariant forall t :: 0 <= t < |home| ==>
        home'[t] == HomeGames(prefix + rnd[..i], t) && away'[t] == AwayGames(prefix + rnd[..i], t)
    {
      var m := rnd[i];
      assert (prefix + rnd[..i + 1])[..|prefix + rnd[..i + 1]| - 1] == prefix + rnd[..i];
      if m.home != Bye && m.home < n {
        home' := home'[m.home := home'[m.home] + 1];
      }
      if m.away != Bye && m.away < n {
        away' := away'[m.away := away'[m.away] + 1];
      }
    }
    assert rnd[..|rnd|] == rnd;
  }

  /**
   * Home and away counts per team over all matches, then one report per
   * team whose counts differ by more than one.
   */
  method CheckHomeAwayBalance(s: Sched, n: int) returns (v: Verdict)
    requires NoIdBelowBye(s)
    ensures v.ok <==> v.reasons == []
    ensures v.ok <==> Balanced(s, n)
    ensures forall x :: x in v.reasons ==> BalanceJustified(s, n, x)
  {
    if |s| == 0 {
      return Verdict(true, []);
    }
    var size := if n < 0 then 0 else n;
    var home := seq(size, _ => 0);
    var away := seq(size, _ => 0);
    for r := 0 to |s|
      invariant |home| == size && |away| == size
      invariant forall t :: 0 <= t < size ==> home[t] == HomeGames(Flatten(s[..r]), t) && away[t] == AwayGames(Flatten(s[..r]), t)
    {
      FlattenSnoc(s, r);
      home, away := CountRound(Flatten(s[..r]), s[r], n, home, away);
    }
    assert s[..|s|] == s;
    var reasons: seq<Violation> := [];
    for t := 0 to size
      invariant reasons == [] <==> forall u :: 0 <= u < t ==> Abs(HomeGames(Flatten(s), u) - AwayGames(Flatten(s), u)) <= 1
      invariant forall x :: x in reasons ==> BalanceJustified(s, n, x)
    {
      var diff := Abs(home[t] as int - away[t]);
      if diff > 1 {
        reasons := reasons + [Imbalance(t, home[t], away[t], diff)];
      }
    }
    return Verdict(reasons == [], reasons);
  }

  // ----- Counting is blind to the order of matches -----

  lemma {:induction false} CountsAppend(a: seq<Match>, b: seq<Match>, t: int)
    ensures HomeGames(a + b, t) == HomeGames(a, t) + HomeGames(b, t)
    ensures AwayGames(a + b, t) == AwayGames(a, t) + AwayGames(b, t)
    decreases |b|
  {
    if |b| > 0 {
      assert (a + b)[..|a + b| - 1] == a + b[..|b| - 1];
      CountsAppend(a, b[..|b| - 1], t);
    } else {
      assert a + b == a;
    }
  }

  /** Counting with one match taken out. */
  lemma CountsRemove(b: seq<Match>, k: nat, t: int)
    requires k < |b|
    ensures HomeGames(b, t) == HomeGames(b[..k] + b[k + 1..], t) + (if b[k].home == t then 1 else 0)
    ensures AwayGames(b, t) == AwayGames(b[..k] + b[k + 1..], t) + (if b[k].away == t then 1 else 0)
  {
    var x := b[k];
    assert b == b[..k] + [x] + b[k + 1..];
    CountsAppend(b[..k], [x], t);
    CountsAppend(b[..k] + [x], b[k + 1..], t);
    CountsAppend(b[..k], b[k + 1..], t);
    assert [x][..0] == [];
  }

  lemma BagRemove(b: seq<Match>, k: nat)
    requires k < |b|
    ensures multiset(b[..k] + b[k + 1..]) == multiset(b) - multiset{b[k]}
  {
    assert b == b[..k] + [b[k]] + b[k + 1..];
  }

  lemma {:induction false} CountsPermutation(a: seq<Match>, b: seq<Match>, t: int)
    requires multiset(a) == multiset(b)
    ensures HomeGames(a, t) == HomeGames(b, t) && AwayGames(a, t) == AwayGames(b, t)
    decreases |a|
  {
    if |a| > 0 {
      var x := a[|a| - 1];
      var a' := a[..|a| - 1];
      assert a == a' + [x];
      assert multiset(a') == multiset(a) - multiset{x};
      assert x in multiset(b);
      var k :| 0 <= k < |b| && b[k] == x;
      var b' := b[..k] + b[k + 1..];
      BagRemove(b, k);
      CountsPermutation(a', b', t);
      CountsRemove(b, k, t);
    }
  }

  lemma MappedIdentity(x: seq<Match>)
    ensures Mapped(x, Identity) == x
  {
  }

  /** Schedules with the same matches, however arranged into rounds, are balanced alike. */
  lemma BalanceDependsOnMatches(a: Sched, b: Sched, n: int)
    requires MatchBag(a) == MatchBag(b)
    ensures Balanced(a, n) <==> Balanced(b, n)
  {
    MappedIdentity(Flatten(a));
    MappedIdentity(Flatten(b));
    forall t | 0 <= t < n
      ensures HomeGames(Flatten(a), t) == HomeGames(Flatten(b), t) && AwayGames(Flatten(a), t) == AwayGames(Flatten(b), t)
    {
      CountsPermutation(Flatten(a), Flatten(b), t);
    }
  }

  // ----- All constraints -----

  /** The constraints every optimizer may require of an accepted schedule; the away limit is 3. */
  predicate AllConstraints(s: Sched, n: int) {
    && WellFormed(s, n)
    && (forall t :: 0 <= t < TeamCount(s) ==> NoLongAwayRun(s, t, 3))
    && NoRepeaters(s)
    && Balanced(s, n)
  }

  /**
   * The four checks in order, stopping at the first that fails and
   * returning its reasons.
   */
  method ValidateAll(s: Sched, n: int) returns (v: Verdict)
    ensures v.ok <==> v.reasons == []
    ensures v.ok <==> AllConstraints(s, n)
    ensures !WellFormed(s, n) ==> forall x :: x in v.reasons ==> StructureJustified(s, n, x)
    ensures forall x :: x in v.reasons ==>
      StructureJustified(s, n, x) || AwayJustified(s, 3, x) || RepeaterJustified(s, x) || BalanceJustified(s, n, x)
  {
    var v1 := ValidateSchedule(s, n);
    if !v1.ok {
      return Verdict(false, v1.reasons);
    }
    var v2 := CheckMaxConsecutiveAways(s, 3);
    if !v2.ok {
      return Verdict(false, v2.reasons);
    }
    var v3 := CheckRepeaters(s);
    if !v3.ok {
      return Verdict(false, v3.reasons);
    }
    var v4 := CheckHomeAwayBalance(s, n);
    if !v4.ok {
      return Verdict(false, v4.reasons);
    }
    return Verdict(true, []);
  }
}
