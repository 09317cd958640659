/**
 * The circle-method (Berger table) construction of a single round robin.
 *
 * The working list holds the ids 0..n-1, padded with one bye when n is odd,
 * so it has an even width m. Round r pairs position i with position m-1-i for
 * i < m/2, skipping the pair that holds the bye, and orients each pair by the
 * parity of r. Between rounds the first id stays put, the last id moves to the
 * second position and the rest shift right by one.
 */
module RoundRobin {
  import opened Schedule

  /** Width of the working list: n padded to an even number with one bye. */
  function Width(n: nat): nat {
    if n % 2 == 0 then n else n + 1
  }

  /** Number of rounds the construction produces: one less than the width. */
  function Span(n: nat): int {
    Width(n) - 1
  }

  function InitialIds(n: nat): (ids: seq<int>)
    ensures |ids| == Width(n)
  {
    seq(n, i requires 0 <= i < n => i) + (if n % 2 == 1 then [Bye] else [])
  }

  /** One rotation step: keep the first id, move the last to the second position. */
  function Rotate(ids: seq<int>): (out: seq<int>)
    requires |ids| >= 2
    ensures |out| == |ids|
  {
    [ids[0]] + [ids[|ids| - 1]] + ids[1..|ids| - 1]
  }

  /** Home/away assignment by round parity. */
  function Orient(a: int, b: int, r: nat): Match {
    if r % 2 == 0 then Match(a, b) else Match(b, a)
  }

  /** The matches of round r drawn from pairs i, i+1, ..., |ids|/2 - 1 of the working list. */
  function RoundPairs(ids: seq<int>, r: nat, i: nat): Round
    requires i <= |ids| / 2
    decreases |ids| / 2 - i
  {
    if i == |ids| / 2 then []
    else
      var a := ids[i];
      var b := ids[|ids| - 1 - i];
      if a == Bye || b == Bye then RoundPairs(ids, r, i + 1)
      else [Orient(a, b, r)] + RoundPairs(ids, r, i + 1)
  }

  /** Rounds r, r+1, ..., total-1, starting from the working list of round r. */
  function RoundsFrom(ids: seq<int>, r: nat, total: nat): Sched
    requires |ids| >= 2
    decreases total - r
  {
    if r >= total then [] else [RoundPairs(ids, r, 0)] + RoundsFrom(Rotate(ids), r + 1, total)
  }

  /** The single round robin over teams 0..n-1 (empty when there are no teams). */
  function RoundRobinPairs(n: nat): Sched {
    var ids := InitialIds(n);
    if |ids| < 2 then [] else RoundsFrom(ids, 0, |ids| - 1)
  }

  // ----- Closed form of the rotation -----

  function RotateN(ids: seq<int>, j: nat): (out: seq<int>)
    requires |ids| >= 2
    ensures |out| == |ids|
    decreases j
  {
    if j == 0 then ids else RotateN(Rotate(ids), j - 1)
  }

  /** The working list of round r. */
  function IdsAt(n: nat, r: nat): (ids: seq<int>)
    requires n >= 1
    ensures |ids| == Width(n)
  {
    RotateN(InitialIds(n), r)
  }

  /** Cyclic reduction of an offset in (-k, k) to [0, k). */
  function Wrap(y: int, k: int): int {
    if y < 0 then y + k else y
  }

  /** The id carrying label v in 1..Span(n); label n stands for the bye. */
  function Label(n: nat, v: int): int {
    if v == n then Bye else v
  }

  /** Closed form of position p of the working list of round r. */
  function Occupant(n: nat, r: nat, p: nat): int {
    if p == 0 then 0 else Label(n, 1 + Wrap(p - 1 - r, Span(n)))
  }

  lemma {:induction false} RotateNStep(ids: seq<int>, j: nat)
    requires |ids| >= 2
    ensures RotateN(ids, j + 1) == Rotate(RotateN(ids, j))
    decreases j
  {
    if j > 0 {
      RotateNStep(Rotate(ids), j - 1);
    }
  }

  lemma {:induction false} IdsAtClosedForm(n: nat, r: nat)
    requires n >= 1 && r < Span(n)
    ensures forall p :: 0 <= p < Width(n) ==> IdsAt(n, r)[p] == Occupant(n, r, p)
  {
    var k := Span(n);
    if r == 0 {
      assert IdsAt(n, 0) == InitialIds(n);
    } else {
      IdsAtClosedForm(n, r - 1);
      RotateNStep(InitialIds(n), r - 1);
      var prev := IdsAt(n, r - 1);
      assert IdsAt(n, r) == Rotate(prev);
      forall p | 0 <= p < Width(n)
        ensures IdsAt(n, r)[p] == Occupant(n, r, p)
      {
        if p == 1 {
          assert Rotate(prev)[1] == prev[Width(n) - 1];
        } else if p >= 2 {
          assert Rotate(prev)[p] == prev[p - 1];
        }
      }
    }
  }

  /** One position of the closed form. */
  lemma OccupantAt(n: nat, r: nat, p: nat)
    requires n >= 1 && r < Span(n) && p < Width(n)
    ensures IdsAt(n, r)[p] == Occupant(n, r, p)
  {
    IdsAtClosedForm(n, r);
  }

  /** No id occurs twice in a list. */
  predicate Distinct(ids: seq<int>) {
    forall p, q :: 0 <= p < q < |ids| ==> ids[p] != ids[q]
  }

  lemma IdsAtDistinct(n: nat, r: nat)
    requires n >= 1 && r < Span(n)
    ensures Distinct(IdsAt(n, r))
    ensures IdsAt(n, r)[0] == 0
    ensures forall p :: 0 <= p < Width(n) ==> IdsAt(n, r)[p] == Bye || 0 <= IdsAt(n, r)[p] < n
  {
    IdsAtClosedForm(n, r);
  }

  lemma {:induction false} RoundsFromShape(ids: seq<int>, r: nat, total: nat)
    requires |ids| >= 2 && r <= total
    ensures |RoundsFrom(ids, r, total)| == total - r
    ensures forall j :: 0 <= j < total - r ==> RoundsFrom(ids, r, total)[j] == RoundPairs(RotateN(ids, j), r + j, 0)
    decreases total - r
  {
    if r < total {
      RoundsFromShape(Rotate(ids), r + 1, total);
      forall j | 0 < j < total - r
        ensures RoundsFrom(ids, r, total)[j] == RoundPairs(RotateN(ids, j), r + j, 0)
      {
        assert RoundsFrom(ids, r, total)[j] == RoundsFrom(Rotate(ids), r + 1, total)[j - 1];
      }
    }
  }

  /** The schedule has Span(n) rounds, and round r is read off the working list of round r. */
  lemma RoundsAreRotations(n: nat)
    requires n >= 1
    ensures |RoundRobinPairs(n)| == Span(n)
    ensures forall r :: 0 <= r < Span(n) ==> RoundRobinPairs(n)[r] == RoundPairs(IdsAt(n, r), r, 0)
  {
    RoundsFromShape(InitialIds(n), 0, Span(n));
  }

  // ----- Contents of one round -----

  /** The round holds exactly the oriented non-bye pairs of the working list. */
  lemma {:induction false} RoundPairsMembers(ids: seq<int>, r: nat, i: nat)
    requires i <= |ids| / 2
    ensures forall m :: m in RoundPairs(ids, r, i) <==>
      exists p :: i <= p < |ids| / 2 && ids[p] != Bye && ids[|ids| - 1 - p] != Bye && m == Orient(ids[p], ids[|ids| - 1 - p], r)
    decreases |ids| / 2 - i
  {
    if i < |ids| / 2 {
      RoundPairsMembers(ids, r, i + 1);
    }
  }

  /** Every team of the matches from pair i on sits in the middle segment of the list. */
  lemma {:induction false} RoundPairsNoRepeat(ids: seq<int>, r: nat, i: nat)
    requires i <= |ids| / 2 && |ids| % 2 == 0
    requires Distinct(ids)
    ensures NoRepeatedTeam(RoundPairs(ids, r, i))
    ensures forall j, t :: 0 <= j < |RoundPairs(ids, r, i)| && t in TeamSet(RoundPairs(ids, r, i)[j]) ==> t in ids[i..|ids| - i]
    decreases |ids| / 2 - i
  {
    if i < |ids| / 2 {
      RoundPairsNoRepeat(ids, r, i + 1);
      var a := ids[i];
      var b := ids[|ids| - 1 - i];
      var rest := RoundPairs(ids, r, i + 1);
      var mid := ids[i + 1..|ids| - 1 - i];
      assert ids[i + 1..|ids| - (i + 1)] == mid;
      assert a !in mid;
      assert b !in mid;
      var seg := ids[i..|ids| - i];
      assert seg[0] == a && seg[|seg| - 1] == b;
      forall t | t in mid
        ensures t in seg
      {
        var q :| 0 <= q < |mid| && mid[q] == t;
        assert seg[q + 1] == t;
      }
      if a != Bye && b != Bye {
        var x := Orient(a, b, r);
        assert TeamSet(x) == {a, b};
        forall j | 0 <= j < |rest|
          ensures TeamSet(x) !! TeamSet(rest[j])
        {
          forall t | t in TeamSet(rest[j])
            ensures t != a && t != b
          {
            assert t in mid;
          }
        }
        assert a != b;
        ConsNoRepeat(x, rest);
        var s := RoundPairs(ids, r, i);
        assert s == [x] + rest;
        forall j, t | 0 <= j < |s| && t in TeamSet(s[j])
          ensures t in seg
        {
          if j == 0 {
          } else {
            assert s[j] == rest[j - 1];
          }
        }
      }
    }
  }

  /** Number of pairs from pair i on that hold the bye. */
  function ByePairs(ids: seq<int>, i: nat): nat
    requires i <= |ids| / 2
    decreases |ids| / 2 - i
  {
    if i == |ids| / 2 then 0
    else (if ids[i] == Bye || ids[|ids| - 1 - i] == Bye then 1 else 0) + ByePairs(ids, i + 1)
  }

  lemma {:induction false} RoundPairsLength(ids: seq<int>, r: nat, i: nat)
    requires i <= |ids| / 2
    ensures |RoundPairs(ids, r, i)| == |ids| / 2 - i - ByePairs(ids, i)
    decreases |ids| / 2 - i
  {
    if i < |ids| / 2 {
      RoundPairsLength(ids, r, i + 1);
    }
  }

  lemma {:induction false} ByePairsNone(ids: seq<int>, i: nat)
    requires i <= |ids| / 2
    requires Bye !in ids
    ensures ByePairs(ids, i) == 0
    decreases |ids| / 2 - i
  {
    if i < |ids| / 2 {
      ByePairsNone(ids, i + 1);
    }
  }

  lemma {:induction false} ByePairsOne(ids: seq<int>, i: nat, q: nat)
    requires i <= |ids| / 2 && |ids| % 2 == 0
    requires q < |ids| && ids[q] == Bye
    requires forall p :: 0 <= p < |ids| && p != q ==> ids[p] != Bye
    ensures ByePairs(ids, i) == if i <= q && i <= |ids| - 1 - q then 1 else 0
    decreases |ids| / 2 - i
  {
    if i < |ids| / 2 {
      ByePairsOne(ids, i + 1, q);
    }
  }

  // ----- Properties of the generated schedule -----

  /** n-1 rounds for even n, n rounds for odd n, none for no teams. */
  lemma RoundCount(n: nat)
    ensures n == 0 ==> RoundRobinPairs(n) == []
    ensures n >= 1 ==> |RoundRobinPairs(n)| == if n % 2 == 0 then n - 1 else n
  {
    if n >= 1 {
      RoundsAreRotations(n);
    }
  }

  /** Position of the bye in the working list of round r (odd n only). */
  function ByePosition(n: nat, r: nat): nat
    requires n >= 1 && n % 2 == 1 && r < Span(n)
  {
    if r == 0 then Span(n) else r
  }

  /** Every round has floor(n/2) matches: with odd n exactly one pair holds the bye. */
  lemma RoundSizes(n: nat)
    ensures forall r :: 0 <= r < |RoundRobinPairs(n)| ==> |RoundRobinPairs(n)[r]| == n / 2
  {
    if n >= 1 {
      RoundsAreRotations(n);
      forall r | 0 <= r < Span(n)
        ensures |RoundRobinPairs(n)[r]| == n / 2
      {
        var ids := IdsAt(n, r);
        IdsAtClosedForm(n, r);
        RoundPairsLength(ids, r, 0);
        if n % 2 == 0 {
          ByePairsNone(ids, 0);
        } else {
          var q := ByePosition(n, r);
          assert ids[q] == Bye;
          ByePairsOne(ids, 0, q);
        }
      }
    }
  }

  /** No team occurs twice in any round of the generated schedule. */
  lemma RoundsHaveNoRepeatedTeam(n: nat)
    ensures AllRoundsDistinct(RoundRobinPairs(n))
  {
    if n >= 1 {
      RoundsAreRotations(n);
      forall r | 0 <= r < Span(n)
        ensures NoRepeatedTeam(RoundRobinPairs(n)[r])
      {
        RoundNoRepeat(n, r);
      }
    }
  }

  lemma RoundNoRepeat(n: nat, r: nat)
    requires n >= 1 && r < Span(n)
    ensures NoRepeatedTeam(RoundPairs(IdsAt(n, r), r, 0))
  {
    IdsAtDistinct(n, r);
    assert Width(n) % 2 == 0;
    RoundPairsNoRepeat(IdsAt(n, r), r, 0);
  }

  /** Only real teams 0..n-1 are emitted: the bye never appears in a match. */
  lemma NoByeEmitted(n: nat)
    ensures IdsWithin(RoundRobinPairs(n), n)
  {
    if n >= 1 {
      RoundsAreRotations(n);
      var s: Sched := RoundRobinPairs(n);
      forall r: int, i: int | 0 <= r < |s| && 0 <= i < |s[r]|
        ensures 0 <= s[r][i].home < n && 0 <= s[r][i].away < n
      {
        var ids := IdsAt(n, r);
        IdsAtDistinct(n, r);
        RoundPairsMembers(ids, r, 0);
        assert s[r][i] in RoundPairs(ids, r, 0);
      }
    }
  }

  /** A match of round r that involves team 0 has it at home if r is even and away if r is odd. */
  predicate FixedTeamSide(m: Match, r: nat) {
    (m.home == 0 || m.away == 0) ==> if r % 2 == 0 then m.home == 0 else m.away == 0
  }

  /** Team 0 never moves: it is home in every even round and away in every odd round in which it plays. */
  lemma FixedTeamAlternates(n: nat)
    ensures forall r: nat, i :: r < |RoundRobinPairs(n)| && 0 <= i < |RoundRobinPairs(n)[r]| ==>
      FixedTeamSide(RoundRobinPairs(n)[r][i], r)
  {
    if n >= 1 {
      RoundsAreRotations(n);
      var s: Sched := RoundRobinPairs(n);
      forall r: nat, i: int | r < |s| && 0 <= i < |s[r]|
        ensures FixedTeamSide(s[r][i], r)
      {
        var ids := IdsAt(n, r);
        IdsAtDistinct(n, r);
        RoundPairsMembers(ids, r, 0);
        assert s[r][i] in RoundPairs(ids, r, 0);
        var p :| 0 <= p < |ids| / 2 && ids[p] != Bye && ids[|ids| - 1 - p] != Bye && s[r][i] == Orient(ids[p], ids[|ids| - 1 - p], r);
        assert ids[|ids| - 1 - p] != 0;
      }
    }
  }

  // ----- Each pair meets exactly once -----

  /**
   * The round in which teams a < b meet, as a congruence written out without
   * remainders: against team 0 the label sum b + r is the span; otherwise
   * a + b + 2r is a multiple of the span.
   */
  predicate Meets(n: nat, a: int, b: int, r: int) {
    var k := Span(n);
    if a == 0 then b + r == k else a + b + 2 * r == k || a + b + 2 * r == 2 * k || a + b + 2 * r == 3 * k
  }

  /** The round in which a < b meet; the span is odd, so halving is always possible. */
  function MeetingRound(n: nat, a: int, b: int): (r: nat)
    requires 0 <= a < b < n
    ensures r < Span(n) && Meets(n, a, b, r)
  {
    var k := Span(n);
    if a == 0 then k - b
    else
      var x := Doubled(k, a + b);
      SpanOdd(n);
      DoubledMeets(k, a + b);
      x / 2
  }

  /** Twice the meeting round of a pair with label sum `sum`: the even one of the candidate offsets. */
  function Doubled(k: int, sum: int): int {
    if sum <= k then (if (k - sum) % 2 == 0 then k - sum else 2 * k - sum)
    else (if (2 * k - sum) % 2 == 0 then 2 * k - sum else 3 * k - sum)
  }

  lemma DoubledMeets(k: int, sum: int)
    requires k % 2 == 1 && 3 <= sum < 2 * k
    ensures var x := Doubled(k, sum);
      0 <= x / 2 < k && 2 * (x / 2) == x && (sum + x == k || sum + x == 2 * k || sum + x == 3 * k)
  {
    var x := Doubled(k, sum);
    if sum <= k {
      if (k - sum) % 2 != 0 {
        OddPlusOdd(k, k - sum);
      }
    } else {
      if (2 * k - sum) % 2 != 0 {
        OddPlusOdd(k, 2 * k - sum);
      }
    }
    Halve(x);
  }

  lemma OddPlusOdd(x: int, y: int)
    requires x % 2 == 1 && y % 2 == 1
    ensures (x + y) % 2 == 0
  {
  }

  lemma Halve(x: int)
    requires x % 2 == 0
    ensures 2 * (x / 2) == x
  {
  }

  lemma SpanOdd(n: nat)
    requires n >= 1
    ensures Span(n) % 2 == 1 && Span(n) >= n - 1
  {
  }

  /** Two teams meet in at most one round. */
  lemma MeetsUnique(n: nat, a: int, b: int, r1: nat, r2: nat)
    requires 0 <= a < b < n && r1 < Span(n) && r2 < Span(n)
    requires Meets(n, a, b, r1) && Meets(n, a, b, r2)
    ensures r1 == r2
  {
    assert Width(n) % 2 == 0;
  }

  /** The two ends of a non-bye pairing of round r meet in round r. */
  lemma OccupantsMeet(n: nat, r: nat, p: nat)
    requires n >= 1 && r < Span(n) && p < Width(n) / 2
    requires Occupant(n, r, p) != Bye && Occupant(n, r, Span(n) - p) != Bye
    ensures var x, y := Occupant(n, r, p), Occupant(n, r, Span(n) - p);
      (x < y && Meets(n, x, y, r)) || (y < x && Meets(n, y, x, r))
  {
    var k := Span(n);
    OccupantAt(n, r, p);
    OccupantAt(n, r, k - p);
    IdsAtDistinct(n, r);
  }

  /** The position at which team a (1 <= a < n) stands in round r. */
  function Seat(n: nat, r: nat, a: int): (p: nat)
    requires n >= 1 && r < Span(n) && 1 <= a < n
    ensures 1 <= p <= Span(n) && Occupant(n, r, p) == a
  {
    if a - 1 + r < Span(n) then a + r else a + r - Span(n)
  }

  /** Teams that meet in round r stand at mirrored positions of its working list. */
  lemma MeetsSeated(n: nat, r: nat, a: int, b: int) returns (p: nat)
    requires n >= 1 && r < Span(n) && 0 <= a < b < n && Meets(n, a, b, r)
    ensures p < Width(n) / 2
    ensures {Occupant(n, r, p), Occupant(n, r, Span(n) - p)} == {a, b}
  {
    var k := Span(n);
    if a == 0 {
      p := 0;
    } else {
      var pa, pb := Seat(n, r, a), Seat(n, r, b);
      assert pa + pb == k;
      p := if pa < pb then pa else pb;
    }
  }

  /** Every match of round r joins the two non-bye ends of a mirrored pair of positions. */
  lemma PairedAt(n: nat, r: nat, j: nat) returns (p: nat)
    requires n >= 1 && r < Span(n) && j < |RoundPairs(IdsAt(n, r), r, 0)|
    ensures p < Width(n) / 2
    ensures Occupant(n, r, p) != Bye && Occupant(n, r, Span(n) - p) != Bye
    ensures RoundPairs(IdsAt(n, r), r, 0)[j] == Orient(Occupant(n, r, p), Occupant(n, r, Span(n) - p), r)
  {
    var ids := IdsAt(n, r);
    var rnd := RoundPairs(ids, r, 0);
    RoundPairsMembers(ids, r, 0);
    assert rnd[j] in rnd;
    p :| 0 <= p < |ids| / 2 && ids[p] != Bye && ids[|ids| - 1 - p] != Bye && rnd[j] == Orient(ids[p], ids[|ids| - 1 - p], r);
    assert |ids| - 1 - p == Span(n) - p;
    OccupantAt(n, r, p);
    OccupantAt(n, r, Span(n) - p);
  }

  /** A pairing of round r, read through Key, is a meeting in the sense of Meets. */
  lemma PairedMeets(n: nat, r: nat, a: int, b: int, j: nat)
    requires n >= 1 && r < Span(n) && 0 <= a < b < n
    requires j < |RoundPairs(IdsAt(n, r), r, 0)| && Key(RoundPairs(IdsAt(n, r), r, 0)[j]) == Match(a, b)
    ensures Meets(n, a, b, r)
  {
    var p := PairedAt(n, r, j);
    var x, y := Occupant(n, r, p), Occupant(n, r, Span(n) - p);
    OccupantsMeet(n, r, p);
    assert Key(Orient(x, y, r)) == if x <= y then Match(x, y) else Match(y, x);
  }

  /** Teams that meet in round r are paired in it. */
  lemma MeetsPaired(n: nat, r: nat, a: int, b: int) returns (j: nat)
    requires n >= 1 && r < Span(n) && 0 <= a < b < n && Meets(n, a, b, r)
    ensures j < |RoundPairs(IdsAt(n, r), r, 0)| && Key(RoundPairs(IdsAt(n, r), r, 0)[j]) == Match(a, b)
  {
    var ids := IdsAt(n, r);
    var rnd := RoundPairs(ids, r, 0);
    var p := SeatedPair(n, r, a, b);
    var m := Orient(ids[p], ids[|ids| - 1 - p], r);
    RoundPairsMembers(ids, r, 0);
    assert m in rnd;
    j :| 0 <= j < |rnd| && rnd[j] == m;
  }

  /** Teams that meet in round r are the two non-bye ends of a mirrored pair of its working list. */
  lemma SeatedPair(n: nat, r: nat, a: int, b: int) returns (p: nat)
    requires n >= 1 && r < Span(n) && 0 <= a < b < n && Meets(n, a, b, r)
    ensures p < Width(n) / 2
    ensures IdsAt(n, r)[p] != Bye && IdsAt(n, r)[Width(n) - 1 - p] != Bye
    ensures Key(Orient(IdsAt(n, r)[p], IdsAt(n, r)[Width(n) - 1 - p], r)) == Match(a, b)
  {
    p := MeetsSeated(n, r, a, b);
    OccupantAt(n, r, p);
    OccupantAt(n, r, Span(n) - p);
  }

  /** Each unordered pair of teams 0..n-1 occurs in exactly one match of the whole schedule. */
  lemma EveryPairOnce(n: nat)
    ensures CoversEachPairOnce(RoundRobinPairs(n), n)
  {
    var s := RoundRobinPairs(n);
    forall a, b | 0 <= a < b < n
      ensures PairBag(s)[Match(a, b)] == 1
    {
      RoundsAreRotations(n);
      RoundsHaveNoRepeatedTeam(n);
      var key := Match(a, b);
      var rs := MeetingRound(n, a, b);
      forall r | 0 <= r < |s| && r != rs
        ensures key !in Mapped(s[r], Key)
      {
        if key in Mapped(s[r], Key) {
          var j :| 0 <= j < |s[r]| && Mapped(s[r], Key)[j] == key;
          PairedMeets(n, r, a, b, j);
          MeetsUnique(n, a, b, r, rs);
        }
      }
      var rnd := s[rs];
      var j := MeetsPaired(n, rs, a, b);
      forall i | 0 <= i < |rnd| && i != j
        ensures Mapped(rnd, Key)[i] != key
      {
        assert a in TeamSet(rnd[j]);
      }
      CountUnique(Mapped(rnd, Key), key, j);
      BagSingleRound(s, Key, key, rs);
    }
  }
}
