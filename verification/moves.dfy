/**
 * The neighbourhood moves of the local-search optimizers. Each move takes a
 * schedule and move parameters and returns a new schedule together with a
 * feasibility flag; an infeasible move returns the schedule unchanged. No
 * move ever loses, adds or re-pairs a match: they only reorder rounds, move
 * matches between rounds or exchange home and away.
 */
module Moves {
  import opened Schedule

  datatype MoveResult = MoveResult(schedule: Sched, feasible: bool)

  /** The ids (byes included) listed by the matches whose index is in idx (inside) or not in idx (!inside). */
  function Listed(rnd: Round, idx: set<int>, inside: bool): (ids: set<int>)
    ensures forall t :: t in ids <==> exists j :: 0 <= j < |rnd| && (j in idx) == inside && Plays(rnd[j], t)
  {
    if |rnd| == 0 then {}
    else
      var last := |rnd| - 1;
      Listed(rnd[..last], idx, inside) + (if (last in idx) == inside then {rnd[last].home, rnd[last].away} else {})
  }

  // ----- Exchanging two rounds -----

  /** Exchange rounds r1 and r2; infeasible only when an index is out of range. */
  function SwapRounds(s: Sched, r1: int, r2: int): (res: MoveResult)
    ensures res.feasible <==> 0 <= r1 < |s| && 0 <= r2 < |s|
    ensures !res.feasible ==> res.schedule == s
    ensures res.feasible ==> |res.schedule| == |s| && res.schedule[r1] == s[r2] && res.schedule[r2] == s[r1]
    ensures res.feasible ==> forall r :: 0 <= r < |s| && r != r1 && r != r2 ==> res.schedule[r] == s[r]
  {
    if r1 < 0 || r2 < 0 || r1 >= |s| || r2 >= |s| then MoveResult(s, false)
    else MoveResult(s[r1 := s[r2]][r2 := s[r1]], true)
  }

  /** Exchanging the same two rounds again restores the schedule. */
  lemma SwapRoundsInvolution(s: Sched, r1: int, r2: int)
    ensures SwapRounds(SwapRounds(s, r1, r2).schedule, r1, r2).schedule == s
  {
  }

  /** Reordering rounds keeps every match, and keeps every round free of repeated teams. */
  lemma SwapRoundsKeeps(s: Sched, r1: int, r2: int)
    ensures MatchBag(SwapRounds(s, r1, r2).schedule) == MatchBag(s)
    ensures PairBag(SwapRounds(s, r1, r2).schedule) == PairBag(s)
    ensures AllRoundsDistinct(s) ==> AllRoundsDistinct(SwapRounds(s, r1, r2).schedule)
  {
    if SwapRounds(s, r1, r2).feasible {
      ExchangeRoundsKeepsBag(s, r1, r2, Identity);
      ExchangeRoundsKeepsBag(s, r1, r2, Key);
    }
  }

  lemma ExchangeRoundsKeepsBag(s: Sched, r1: nat, r2: nat, f: Match -> Match)
    requires r1 < |s| && r2 < |s|
    ensures BagBy(s[r1 := s[r2]][r2 := s[r1]], f) == BagBy(s, f)
  {
    var mid := s[r1 := s[r2]];
    var t := mid[r2 := s[r1]];
    BagReplaceRound(s, r1, s[r2], f);
    BagReplaceRound(mid, r2, s[r1], f);
    assert mid[r2] == s[r2];
    forall e
      ensures BagBy(t, f)[e] == BagBy(s, f)[e]
    {
      assert (BagBy(t, f) + multiset(Mapped(s[r2], f)))[e] == (BagBy(s, f) + multiset(Mapped(s[r2], f)))[e];
    }
  }

  // ----- Exchanging two matches between rounds -----

  /**
   * A move of match i1 of round r1 into round r2 in place of match i2 (and
   * back) clashes when a real team of either match is listed by another
   * match of the round it moves into.
   */
  predicate Clashes(s: Sched, r1: nat, i1: nat, r2: nat, i2: nat)
    requires r1 < |s| && i1 < |s[r1]| && r2 < |s| && i2 < |s[r2]|
  {
    TeamSet(s[r1][i1]) * Listed(s[r2], {i2}, false) != {} ||
    TeamSet(s[r2][i2]) * Listed(s[r1], {i1}, false) != {}
  }

  /** Exchange match i1 of round r1 with match i2 of round r2 unless an index is out of range or the teams clash. */
  function SwapMatches(s: Sched, r1: int, i1: int, r2: int, i2: int): (res: MoveResult)
    ensures res.feasible <==>
      0 <= r1 < |s| && 0 <= r2 < |s| && 0 <= i1 < |s[r1]| && 0 <= i2 < |s[r2]| && !Clashes(s, r1, i1, r2, i2)
    ensures !res.feasible ==> res.schedule == s
    ensures res.feasible ==> res.schedule == SwapSlots(s, r1, i1, r2, i2)
  {
    if r1 < 0 || r2 < 0 || r1 >= |s| || r2 >= |s| || i1 < 0 || i2 < 0 || i1 >= |s[r1]| || i2 >= |s[r2]| then
      MoveResult(s, false)
    else if Clashes(s, r1, i1, r2, i2) then MoveResult(s, false)
    else MoveResult(SwapSlots(s, r1, i1, r2, i2), true)
  }

  /** Exchanging matches keeps every match. */
  lemma SwapMatchesKeepsBags(s: Sched, r1: int, i1: int, r2: int, i2: int)
    ensures MatchBag(SwapMatches(s, r1, i1, r2, i2).schedule) == MatchBag(s)
    ensures PairBag(SwapMatches(s, r1, i1, r2, i2).schedule) == PairBag(s)
  {
    if SwapMatches(s, r1, i1, r2, i2).feasible {
      SwapSlotsKeepsMatchBag(s, r1, i1, r2, i2);
    }
  }

  /** The ids listed by the other matches of a round do not depend on what stands at the excluded index. */
  lemma ListedIgnoresSkipped(rnd: Round, i: nat, m: Match)
    requires i < |rnd|
    ensures Listed(rnd[i := m], {i}, false) == Listed(rnd, {i}, false)
  {
    forall t
      ensures t in Listed(rnd[i := m], {i}, false) <==> t in Listed(rnd, {i}, false)
    {
      if t in Listed(rnd, {i}, false) {
        var j :| 0 <= j < |rnd| && (j in {i}) == false && Plays(rnd[j], t);
        assert rnd[i := m][j] == rnd[j];
      }
    }
  }

  /** Putting a non-self-play match whose teams the other matches do not list keeps a round free of repeated teams. */
  lemma ReplaceKeepsNoRepeat(rnd: Round, i: nat, m: Match)
    requires i < |rnd| && NoRepeatedTeam(rnd) && !SelfPlay(m)
    requires TeamSet(m) * Listed(rnd, {i}, false) == {}
    ensures NoRepeatedTeam(rnd[i := m])
  {
    var x := rnd[i := m];
    forall j, k | 0 <= j < k < |x|
      ensures TeamSet(x[j]) !! TeamSet(x[k])
    {
      if j == i || k == i {
        var o := if j == i then k else j;
        forall t | t in TeamSet(rnd[o])
          ensures t in Listed(rnd, {i}, false)
        {
          assert Plays(rnd[o], t);
        }
      }
    }
  }

  /** A match whose real teams another match of the same round does not list holds no real team. */
  lemma ClearOfSiblingIsBye(rnd: Round, i: nat, j: nat)
    requires i < |rnd| && j < |rnd| && i != j
    requires TeamSet(rnd[i]) * Listed(rnd, {j}, false) == {}
    ensures rnd[i] == Match(Bye, Bye)
  {
    var m := rnd[i];
    assert Plays(rnd[i], m.home) && Plays(rnd[i], m.away);
    assert m.home in Listed(rnd, {j}, false) && m.away in Listed(rnd, {j}, false);
    assert m.home !in TeamSet(m) && m.away !in TeamSet(m);
  }

  /** Within a single round the exchange is feasible only when it changes nothing. */
  lemma SwapMatchesSameRound(s: Sched, r: int, i1: int, i2: int)
    requires SwapMatches(s, r, i1, r, i2).feasible
    ensures SwapMatches(s, r, i1, r, i2).schedule == s
  {
    if i1 != i2 {
      var m1, m2 := s[r][i1], s[r][i2];
      ClearOfSiblingIsBye(s[r], i1, i2);
      ClearOfSiblingIsBye(s[r], i2, i1);
      assert s[r][i1 := m2][i2 := m1] == s[r];
    } else {
      assert s[r][i1 := s[r][i1]] == s[r];
    }
  }

  /** In a round without repeated teams, the other matches list none of a match's teams. */
  lemma OwnMatchClearOfOthers(rnd: Round, i: nat)
    requires i < |rnd| && NoRepeatedTeam(rnd)
    ensures TeamSet(rnd[i]) * Listed(rnd, {i}, false) == {}
  {
    forall x | x in TeamSet(rnd[i]) * Listed(rnd, {i}, false)
      ensures false
    {
    }
  }

  /** A feasible exchange of matches keeps every round free of repeated teams. */
  lemma SwapMatchesKeepsDistinct(s: Sched, r1: int, i1: int, r2: int, i2: int)
    requires AllRoundsDistinct(s)
    ensures AllRoundsDistinct(SwapMatches(s, r1, i1, r2, i2).schedule)
  {
    var res := SwapMatches(s, r1, i1, r2, i2);
    if res.feasible {
      if r1 == r2 {
        SwapMatchesSameRound(s, r1, i1, i2);
      } else {
        var m1, m2 := s[r1][i1], s[r2][i2];
        var t := res.schedule;
        assert t[r1] == s[r1][i1 := m2];
        assert t[r2] == s[r2][i2 := m1];
        ReplaceKeepsNoRepeat(s[r1], i1, m2);
        ReplaceKeepsNoRepeat(s[r2], i2, m1);
        assert forall r :: 0 <= r < |t| && r != r1 && r != r2 ==> t[r] == s[r];
      }
    }
  }

  /** On a schedule whose rounds have no repeated team, a feasible exchange can be undone by the same exchange. */
  lemma SwapMatchesInvolution(s: Sched, r1: int, i1: int, r2: int, i2: int)
    requires AllRoundsDistinct(s)
    requires 0 <= r1 < |s| && 0 <= r2 < |s| && 0 <= i1 < |s[r1]| && 0 <= i2 < |s[r2]|
    requires !Clashes(s, r1, i1, r2, i2)
    ensures SwapMatches(SwapMatches(s, r1, i1, r2, i2).schedule, r1, i1, r2, i2) == MoveResult(s, true)
  {
    var t := SwapMatches(s, r1, i1, r2, i2).schedule;
    if r1 == r2 {
      SwapMatchesSameRound(s, r1, i1, i2);
    } else {
      var m1, m2 := s[r1][i1], s[r2][i2];
      assert t[r1] == s[r1][i1 := m2] && t[r2] == s[r2][i2 := m1];
      ListedIgnoresSkipped(s[r1], i1, m2);
      ListedIgnoresSkipped(s[r2], i2, m1);
      OwnMatchClearOfOthers(s[r1], i1);
      OwnMatchClearOfOthers(s[r2], i2);
      assert !Clashes(t, r1, i1, r2, i2);
      var back := SwapSlots(t, r1, i1, r2, i2);
      assert back[r1] == t[r1][i1 := m1] == s[r1];
      assert back[r2] == t[r2][i2 := m2] == s[r2];
      assert back == s;
    }
  }

  // ----- Exchanging home and away -----

  /** Exchange home and away of match i of round r; infeasible only when an index is out of range. */
  function FlipVenue(s: Sched, r: int, i: int): (res: MoveResult)
    ensures res.feasible <==> 0 <= r < |s| && 0 <= i < |s[r]|
    ensures !res.feasible ==> res.schedule == s
    ensures res.feasible ==> |res.schedule| == |s| && res.schedule[r] == s[r][i := Flip(s[r][i])]
    ensures res.feasible ==> forall q :: 0 <= q < |s| && q != r ==> res.schedule[q] == s[q]
  {
    if r < 0 || r >= |s| || i < 0 || i >= |s[r]| then MoveResult(s, false)
    else MoveResult(s[r := s[r][i := Flip(s[r][i])]], true)
  }

  /** Flipping the same match twice restores the schedule. */
  lemma FlipVenueInvolution(s: Sched, r: int, i: int)
    ensures FlipVenue(FlipVenue(s, r, i).schedule, r, i).schedule == s
  {
    if FlipVenue(s, r, i).feasible {
      var t := FlipVenue(s, r, i).schedule;
      assert t[r][i := Flip(t[r][i])] == s[r];
    }
  }

  /**
   * Flipping keeps every pairing (the orientation-free bag), keeps the
   * teams of every match, and so keeps every round free of repeated teams.
   */
  lemma FlipVenueKeeps(s: Sched, r: int, i: int)
    ensures PairBag(FlipVenue(s, r, i).schedule) == PairBag(s)
    ensures AllRoundsDistinct(s) ==> AllRoundsDistinct(FlipVenue(s, r, i).schedule)
  {
    if FlipVenue(s, r, i).feasible {
      var t := FlipVenue(s, r, i).schedule;
      var m := s[r][i];
      BagReplaceSlot(s, r, i, Flip(m), Key);
      assert Key(Flip(m)) == Key(m);
      forall e
        ensures PairBag(t)[e] == PairBag(s)[e]
      {
        assert (PairBag(t) + multiset{Key(m)})[e] == (PairBag(s) + multiset{Key(m)})[e];
      }
      if AllRoundsDistinct(s) {
        assert TeamSet(Flip(m)) == TeamSet(m);
        assert NoRepeatedTeam(t[r]);
      }
    }
  }

  // ----- Exchanging several matches between two rounds -----

  /** The match indices taken from the first round. */
  function Firsts(pairs: seq<(nat, nat)>): set<int> {
    set k | 0 <= k < |pairs| :: pairs[k].0 as int
  }

  /** The match indices taken from the second round. */
  function Seconds(pairs: seq<(nat, nat)>): set<int> {
    set k | 0 <= k < |pairs| :: pairs[k].1 as int
  }

  /** Each listed index is below the length of its round: the only range test made on match indices. */
  predicate PairsInRange(s: Sched, r1: nat, r2: nat, pairs: seq<(nat, nat)>)
    requires r1 < |s| && r2 < |s|
  {
    forall k :: 0 <= k < |pairs| ==> pairs[k].0 < |s[r1]| && pairs[k].1 < |s[r2]|
  }

  /** No index is listed twice on the same side. */
  predicate DistinctSides(pairs: seq<(nat, nat)>) {
    forall k, l :: 0 <= k < l < |pairs| ==> pairs[k].0 != pairs[l].0 && pairs[k].1 != pairs[l].1
  }

  /**
   * A clash: a real team moving out of one round is listed by a match that
   * stays in the other round.
   */
  predicate PairingsClash(s: Sched, r1: nat, r2: nat, pairs: seq<(nat, nat)>)
    requires r1 < |s| && r2 < |s|
  {
    var moved1 := Listed(s[r1], Firsts(pairs), true) - {Bye};
    var moved2 := Listed(s[r2], Seconds(pairs), true) - {Bye};
    var staying1 := Listed(s[r1], Firsts(pairs), false) - {Bye};
    var staying2 := Listed(s[r2], Seconds(pairs), false) - {Bye};
    moved1 * staying2 != {} || moved2 * staying1 != {}
  }

  /** The listed exchanges applied one after another. */
  function ApplySwaps(s: Sched, r1: nat, r2: nat, pairs: seq<(nat, nat)>): (t: Sched)
    requires r1 < |s| && r2 < |s| && PairsInRange(s, r1, r2, pairs)
    ensures |t| == |s| && forall r :: 0 <= r < |s| ==> |t[r]| == |s[r]|
    decreases |pairs|
  {
    if |pairs| == 0 then s
    else ApplySwaps(SwapSlots(s, r1, pairs[0].0, r2, pairs[0].1), r1, r2, pairs[1..])
  }

  /**
   * Exchange the listed matches of rounds r1 and r2 unless a round index is
   * out of range, a match index is too large, or a moving team clashes.
   */
  function SwapPairings(s: Sched, r1: int, r2: int, pairs: seq<(nat, nat)>): (res: MoveResult)
    ensures res.feasible <==>
      0 <= r1 < |s| && 0 <= r2 < |s| && PairsInRange(s, r1, r2, pairs) && !PairingsClash(s, r1, r2, pairs)
    ensures !res.feasible ==> res.schedule == s
    ensures res.feasible ==> res.schedule == ApplySwaps(s, r1, r2, pairs)
  {
    if r1 < 0 || r2 < 0 || r1 >= |s| || r2 >= |s| then MoveResult(s, false)
    else if exists k :: 0 <= k < |pairs| && (pairs[k].0 >= |s[r1]| || pairs[k].1 >= |s[r2]|) then MoveResult(s, false)
    else if PairingsClash(s, r1, r2, pairs) then MoveResult(s, false)
    else MoveResult(ApplySwaps(s, r1, r2, pairs), true)
  }

  lemma {:induction false} ApplySwapsKeepsBags(s: Sched, r1: nat, r2: nat, pairs: seq<(nat, nat)>)
    requires r1 < |s| && r2 < |s| && PairsInRange(s, r1, r2, pairs)
    ensures MatchBag(ApplySwaps(s, r1, r2, pairs)) == MatchBag(s)
    ensures PairBag(ApplySwaps(s, r1, r2, pairs)) == PairBag(s)
    decreases |pairs|
  {
    if |pairs| > 0 {
      var u := SwapSlots(s, r1, pairs[0].0, r2, pairs[0].1);
      SwapSlotsKeepsMatchBag(s, r1, pairs[0].0, r2, pairs[0].1);
      ApplySwapsKeepsBags(u, r1, r2, pairs[1..]);
    }
  }

  /** Exchanging several matches keeps every match. */
  lemma SwapPairingsKeepsBags(s: Sched, r1: int, r2: int, pairs: seq<(nat, nat)>)
    ensures MatchBag(SwapPairings(s, r1, r2, pairs).schedule) == MatchBag(s)
    ensures PairBag(SwapPairings(s, r1, r2, pairs).schedule) == PairBag(s)
  {
    if SwapPairings(s, r1, r2, pairs).feasible {
      ApplySwapsKeepsBags(s, r1, r2, pairs);
    }
  }

  /** A single listed pair is exactly the exchange of two matches. */
  lemma SwapPairingsSingle(s: Sched, r1: int, r2: int, i1: nat, i2: nat)
    ensures SwapPairings(s, r1, r2, [(i1, i2)]) == SwapMatches(s, r1, i1, r2, i2)
  {
    var pairs := [(i1, i2)];
    if 0 <= r1 < |s| && 0 <= r2 < |s| && i1 < |s[r1]| && i2 < |s[r2]| {
      assert pairs[0] == (i1, i2);
      assert i1 as int in Firsts(pairs) && i2 as int in Seconds(pairs);
      assert Firsts(pairs) == {i1} && Seconds(pairs) == {i2};
      var m1, m2 := s[r1][i1], s[r2][i2];
      assert Listed(s[r1], {i1}, true) == {m1.home, m1.away};
      assert Listed(s[r2], {i2}, true) == {m2.home, m2.away};
      assert PairingsClash(s, r1, r2, pairs) == Clashes(s, r1, i1, r2, i2);
      assert ApplySwaps(s, r1, r2, pairs) == ApplySwaps(SwapSlots(s, r1, i1, r2, i2), r1, r2, []);
    } else if 0 <= r1 < |s| && 0 <= r2 < |s| {
      assert pairs[0] == (i1, i2);
      assert !PairsInRange(s, r1, r2, pairs);
    }
  }

  /** With nothing listed the move succeeds and changes nothing. */
  lemma SwapPairingsEmpty(s: Sched, r1: int, r2: int)
    requires 0 <= r1 < |s| && 0 <= r2 < |s|
    ensures SwapPairings(s, r1, r2, []) == MoveResult(s, true)
  {
    assert Firsts([]) == {} && Seconds([]) == {};
    assert Listed(s[r1], {}, true) == {};
    assert Listed(s[r2], {}, true) == {};
  }

  /** With distinct indices on each side, the sequential exchanges have a closed form. */
  lemma {:induction false} ApplySwapsClosedForm(s: Sched, r1: nat, r2: nat, pairs: seq<(nat, nat)>)
    requires r1 < |s| && r2 < |s| && r1 != r2 && PairsInRange(s, r1, r2, pairs) && DistinctSides(pairs)
    ensures var t := ApplySwaps(s, r1, r2, pairs);
      && (forall k :: 0 <= k < |pairs| ==> t[r1][pairs[k].0] == s[r2][pairs[k].1] && t[r2][pairs[k].1] == s[r1][pairs[k].0])
      && (forall j :: 0 <= j < |s[r1]| && j !in Firsts(pairs) ==> t[r1][j] == s[r1][j])
      && (forall j :: 0 <= j < |s[r2]| && j !in Seconds(pairs) ==> t[r2][j] == s[r2][j])
      && (forall r :: 0 <= r < |s| && r != r1 && r != r2 ==> t[r] == s[r])
    decreases |pairs|
  {
    if |pairs| > 0 {
      var a, b := pairs[0].0, pairs[0].1;
      var u := SwapSlots(s, r1, a, r2, b);
      var rest := pairs[1..];
      assert DistinctSides(rest);
      ApplySwapsClosedForm(u, r1, r2, rest);
      var t := ApplySwaps(s, r1, r2, pairs);
      assert t == ApplySwaps(u, r1, r2, rest);
      assert a !in Firsts(rest) && b !in Seconds(rest);
      forall k | 0 <= k < |pairs|
        ensures t[r1][pairs[k].0] == s[r2][pairs[k].1] && t[r2][pairs[k].1] == s[r1][pairs[k].0]
      {
        if k > 0 {
          var p := rest[k - 1];
          assert pairs[k] == p;
          assert p.0 != a && p.1 != b;
          assert u[r2][p.1] == s[r2][p.1] && u[r1][p.0] == s[r1][p.0];
        } else {
          assert t[r1][a] == u[r1][a] && t[r2][b] == u[r2][b];
        }
      }
      forall j | 0 <= j < |s[r1]| && j !in Firsts(pairs)
        ensures t[r1][j] == s[r1][j]
      {
        assert j !in Firsts(rest) && j != a;
      }
      forall j | 0 <= j < |s[r2]| && j !in Seconds(pairs)
        ensures t[r2][j] == s[r2][j]
      {
        assert j !in Seconds(rest) && j != b;
      }
    }
  }

  /**
   * A round assembled from the staying matches of round a and the matches
   * moved in from round b has no repeated team, when a and b have none and
   * no moved-in team is listed by a staying match.
   */
  lemma MergedRoundNoRepeat(a: Round, b: Round, x: Round, pairs: seq<(nat, nat)>)
    requires NoRepeatedTeam(a) && NoRepeatedTeam(b) && |x| == |a| && DistinctSides(pairs)
    requires forall k :: 0 <= k < |pairs| ==> pairs[k].0 < |a| && pairs[k].1 < |b| && x[pairs[k].0] == b[pairs[k].1]
    requires forall j :: 0 <= j < |a| && j !in Firsts(pairs) ==> x[j] == a[j]
    requires (Listed(b, Seconds(pairs), true) - {Bye}) * (Listed(a, Firsts(pairs), false) - {Bye}) == {}
    ensures NoRepeatedTeam(x)
  {
    var movedIn := Listed(b, Seconds(pairs), true) - {Bye};
    var staying := Listed(a, Firsts(pairs), false) - {Bye};
    forall j | 0 <= j < |x|
      ensures !SelfPlay(x[j])
      ensures j in Firsts(pairs) ==> exists k :: 0 <= k < |pairs| && pairs[k].0 == j && TeamSet(x[j]) <= movedIn
      ensures j !in Firsts(pairs) ==> TeamSet(x[j]) <= staying
    {
      if j in Firsts(pairs) {
        var k :| 0 <= k < |pairs| && pairs[k].0 == j;
        var q := pairs[k].1;
        assert q in Seconds(pairs);
        forall t | t in TeamSet(x[j])
          ensures t in movedIn
        {
          assert Plays(b[q], t);
        }
      } else {
        forall t | t in TeamSet(x[j])
          ensures t in staying
        {
          assert Plays(a[j], t);
        }
      }
    }
    forall j, l | 0 <= j < l < |x|
      ensures TeamSet(x[j]) !! TeamSet(x[l])
    {
      if j in Firsts(pairs) && l in Firsts(pairs) {
        var k :| 0 <= k < |pairs| && pairs[k].0 == j;
        var k2 :| 0 <= k2 < |pairs| && pairs[k2].0 == l;
        assert k != k2;
        assert pairs[k].1 != pairs[k2].1;
        assert pairs[k].1 < pairs[k2].1 || pairs[k2].1 < pairs[k].1;
      }
    }
  }

  /** Pairs read the other way round. */
  function Reversed(pairs: seq<(nat, nat)>): (rev: seq<(nat, nat)>)
    ensures |rev| == |pairs|
    ensures forall k :: 0 <= k < |pairs| ==> rev[k] == (pairs[k].1, pairs[k].0)
  {
    seq(|pairs|, k requires 0 <= k < |pairs| => (pairs[k].1, pairs[k].0))
  }

  /**
   * Between two different rounds, a feasible exchange of distinct matches
   * keeps every round free of repeated teams.
   */
  lemma SwapPairingsKeepsDistinct(s: Sched, r1: int, r2: int, pairs: seq<(nat, nat)>)
    requires AllRoundsDistinct(s) && r1 != r2 && DistinctSides(pairs)
    ensures AllRoundsDistinct(SwapPairings(s, r1, r2, pairs).schedule)
  {
    var res := SwapPairings(s, r1, r2, pairs);
    if res.feasible {
      var t := res.schedule;
      ApplySwapsClosedForm(s, r1, r2, pairs);
      MergedRoundNoRepeat(s[r1], s[r2], t[r1], pairs);
      var rev := Reversed(pairs);
      assert Firsts(rev) == Seconds(pairs);
      assert Seconds(rev) == Firsts(pairs);
      MergedRoundNoRepeat(s[r2], s[r1], t[r2], rev);
    }
  }
}
