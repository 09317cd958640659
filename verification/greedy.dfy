/**
 * The greedy tour improver: one scan over pairs of rounds r1 < r2 and over
 * a match of each, taking the first exchange of two matches that lowers the
 * total travel by more than the tolerance.
 *
 * The scan as written admits an exchange as soon as the two matches
 * list no common id, without looking at the other matches of the two
 * rounds; `checked` selects instead the clash test used by the match-swap
 * move, which keeps every round free of repeated teams.
 */
module Greedy {
  import opened Wrappers
  import opened Schedule
  import opened Travel
  import opened Moves

  /** Match i1 of round r1 and match i2 of round r2. */
  datatype Candidate = Candidate(r1: nat, i1: nat, r2: nat, i2: nat)

  /** A candidate the scan visits: r1 < r2 and both matches exist. */
  predicate InRange(s: Sched, c: Candidate) {
    c.r1 < c.r2 < |s| && c.i1 < |s[c.r1]| && c.i2 < |s[c.r2]|
  }

  /** Scan order: by r1, then r2, then i1, then i2. */
  predicate Before(d: Candidate, c: Candidate) {
    d.r1 < c.r1 || (d.r1 == c.r1 && (d.r2 < c.r2 || (d.r2 == c.r2 && (d.i1 < c.i1 || (d.i1 == c.i1 && d.i2 < c.i2)))))
  }

  /** Two different candidates are ordered one way or the other. */
  lemma BeforeTotal(c: Candidate, d: Candidate)
    requires c != d
    ensures Before(c, d) || Before(d, c)
    ensures !(Before(c, d) && Before(d, c))
  {
  }

  /** The two matches list no common id; a bye counts as an id. */
  predicate Disjoint(s: Sched, c: Candidate)
    requires InRange(s, c)
  {
    var m1, m2 := s[c.r1][c.i1], s[c.r2][c.i2];
    {m1.home, m1.away} * {m2.home, m2.away} == {}
  }

  /** The exchange the scan may try: disjoint matches as written, or no clash when checked. */
  predicate Admissible(s: Sched, c: Candidate, checked: bool)
    requires InRange(s, c)
  {
    if checked then !Clashes(s, c.r1, c.i1, c.r2, c.i2) else Disjoint(s, c)
  }

  /** The schedule with the two matches of the candidate exchanged. */
  function Swapped(s: Sched, c: Candidate): Sched
    requires InRange(s, c)
  {
    SwapSlots(s, c.r1, c.i1, c.r2, c.i2)
  }

  /** Exchanging two matches brings in no new id. */
  lemma SwappedWithin(s: Sched, c: Candidate, n: nat)
    requires InRange(s, c) && IdsWithin(s, n)
    ensures IdsWithin(Swapped(s, c), n)
  {
    SwapSlotsKeepsMatchBag(s, c.r1, c.i1, c.r2, c.i2);
    IdsWithinByPairBag(s, Swapped(s, c), n);
  }

  /** The candidate is admissible and lowers the total travel by more than the tolerance. */
  predicate Improves(s: Sched, D: seq<seq<real>>, c: Candidate, checked: bool)
    requires Reaches(D, |D|) && IdsWithin(s, |D|) && InRange(s, c)
  {
    SwappedWithin(s, c, |D|);
    Admissible(s, c, checked) && TotalTravel(Swapped(s, c), D, |D|) + Eps < TotalTravel(s, D, |D|)
  }

  /** c improves and no candidate the scan visits before it does. */
  ghost predicate FirstImproving(s: Sched, D: seq<seq<real>>, c: Candidate, checked: bool)
    requires Reaches(D, |D|) && IdsWithin(s, |D|)
  {
    && InRange(s, c)
    && Improves(s, D, c, checked)
    && forall d :: InRange(s, d) && Before(d, c) ==> !Improves(s, D, d, checked)
  }

  /** At most one candidate is the first improving one. */
  lemma FirstImprovingUnique(s: Sched, D: seq<seq<real>>, c: Candidate, d: Candidate, checked: bool)
    requires Reaches(D, |D|) && IdsWithin(s, |D|)
    requires FirstImproving(s, D, c, checked) && FirstImproving(s, D, d, checked)
    ensures c == d
  {
    if c != d {
      BeforeTotal(c, d);
    }
  }

  /** What the scan returns: the first improving exchange applied, or the schedule unchanged when there is none. */
  ghost predicate PassOutcome(s: Sched, D: seq<seq<real>>, checked: bool, out: Sched, improved: bool)
    requires Reaches(D, |D|) && IdsWithin(s, |D|)
  {
    if improved then exists c :: FirstImproving(s, D, c, checked) && out == Swapped(s, c)
    else out == s && forall c :: InRange(s, c) ==> !Improves(s, D, c, checked)
  }

  /** When some candidate is the first improving one, the scan's result is fixed: that exchange. */
  lemma PassOutcomeDetermined(s: Sched, D: seq<seq<real>>, c: Candidate, checked: bool, out: Sched, improved: bool)
    requires Reaches(D, |D|) && IdsWithin(s, |D|)
    requires FirstImproving(s, D, c, checked)
    requires PassOutcome(s, D, checked, out, improved)
    ensures improved && out == Swapped(s, c)
  {
    if improved {
      var d :| FirstImproving(s, D, d, checked) && out == Swapped(s, d);
      FirstImprovingUnique(s, D, c, d, checked);
    }
  }

  /**
   * The innermost scan: match i1 of round r1 against each match of round
   * r2 in turn, stopping at the first improving exchange.
   */
  method ScanRow(s: Sched, D: seq<seq<real>>, checked: bool, r1: nat, i1: nat, r2: nat, before: real)
    returns (hit: Option<nat>)
    requires Reaches(D, |D|) && IdsWithin(s, |D|)
    requires r1 < r2 < |s| && i1 < |s[r1]| && before == TotalTravel(s, D, |D|)
    ensures hit.None? ==> forall i2 :: 0 <= i2 < |s[r2]| ==> !Improves(s, D, Candidate(r1, i1, r2, i2), checked)
    ensures hit.Some? ==> hit.value < |s[r2]| && Improves(s, D, Candidate(r1, i1, r2, hit.value), checked)
    ensures hit.Some? ==> forall i2 :: 0 <= i2 < hit.value ==> !Improves(s, D, Candidate(r1, i1, r2, i2), checked)
  {
    var n := |D|;
    for i2 := 0 to |s[r2]|
      invariant forall j :: 0 <= j < i2 ==> !Improves(s, D, Candidate(r1, i1, r2, j), checked)
    {
      var c := Candidate(r1, i1, r2, i2);
      if !Admissible(s, c, checked) {
        continue;
      }
      var cand := Swapped(s, c);
      SwappedWithin(s, c, n);
      var _, candTotal := EvaluateTravel(cand, n, D);
      if candTotal + Eps < before {
        return Some(i2);
      }
    }
    return None;
  }

  /**
   * One greedy scan. With checked = false it is the improver as written; the
   * table's size is the number of teams.
   */
  method GreedyPass(s: Sched, D: seq<seq<real>>, checked: bool) returns (out: Sched, improved: bool)
    requires Reaches(D, |D|) && IdsWithin(s, |D|)
    ensures PassOutcome(s, D, checked, out, improved)
    ensures MatchBag(out) == MatchBag(s) && IdsWithin(out, |D|)
    ensures improved ==> TotalTravel(out, D, |D|) + Eps < TotalTravel(s, D, |D|)
    ensures checked && AllRoundsDistinct(s) ==> AllRoundsDistinct(out)
  {
    var n := |D|;
    var _, before := EvaluateTravel(s, n, D);
    out, improved := s, false;
    var chosen := Candidate(0, 0, 0, 0);
    for r1 := 0 to |s|
      invariant !improved && out == s
      invariant forall c :: InRange(s, c) && c.r1 < r1 ==> !Improves(s, D, c, checked)
    {
      for r2 := r1 + 1 to |s|
        invariant !improved && out == s
        invariant forall c :: InRange(s, c) && c.r1 == r1 && c.r2 < r2 ==> !Improves(s, D, c, checked)
      {
        for i1 := 0 to |s[r1]|
          invariant !improved && out == s
          invariant forall c :: InRange(s, c) && c.r1 == r1 && c.r2 == r2 && c.i1 < i1 ==> !Improves(s, D, c, checked)
        {
          var hit := ScanRow(s, D, checked, r1, i1, r2, before);
          if hit.Some? {
            chosen := Candidate(r1, i1, r2, hit.value);
            out, improved := Swapped(s, chosen), true;
            break;
          }
          forall c | InRange(s, c) && c.r1 == r1 && c.r2 == r2 && c.i1 == i1
            ensures !Improves(s, D, c, checked)
          {
            assert c == Candidate(r1, i1, r2, c.i2);
          }
        }
        if improved {
          break;
        }
      }
      if improved {
        break;
      }
    }
    if improved {
      PassChosen(s, D, checked, chosen);
      SwapSlotsKeepsMatchBag(s, chosen.r1, chosen.i1, chosen.r2, chosen.i2);
      SwappedWithin(s, chosen, n);
      if checked && AllRoundsDistinct(s) {
        SwapMatchesKeepsDistinct(s, chosen.r1, chosen.i1, chosen.r2, chosen.i2);
      }
    }
  }

  /** The exchange the scan stops at is the first improving one, given that nothing visited earlier improves. */
  lemma PassChosen(s: Sched, D: seq<seq<real>>, checked: bool, c: Candidate)
    requires Reaches(D, |D|) && IdsWithin(s, |D|) && InRange(s, c) && Improves(s, D, c, checked)
    requires forall d :: InRange(s, d) && d.r1 < c.r1 ==> !Improves(s, D, d, checked)
    requires forall d :: InRange(s, d) && d.r1 == c.r1 && d.r2 < c.r2 ==> !Improves(s, D, d, checked)
    requires forall d :: InRange(s, d) && d.r1 == c.r1 && d.r2 == c.r2 && d.i1 < c.i1 ==> !Improves(s, D, d, checked)
    requires forall i2 :: 0 <= i2 < c.i2 ==> !Improves(s, D, Candidate(c.r1, c.i1, c.r2, i2), checked)
    ensures FirstImproving(s, D, c, checked)
  {
    forall d | InRange(s, d) && Before(d, c)
      ensures !Improves(s, D, d, checked)
    {
      if d.r1 == c.r1 && d.r2 == c.r2 && d.i1 == c.i1 {
        assert d == Candidate(c.r1, c.i1, c.r2, d.i2);
      }
    }
  }

  // ----- The disjointness test lets a team play twice in a round -----

  /** Four stadiums, each 1 apart. */
  function UnitTable(): seq<seq<real>> {
    [[0.0, 1.0, 1.0, 1.0], [1.0, 0.0, 1.0, 1.0], [1.0, 1.0, 0.0, 1.0], [1.0, 1.0, 1.0, 0.0]]
  }

  lemma SumFour(p: seq<real>)
    requires |p| == 4
    ensures Sum(p) == p[0] + p[1] + p[2] + p[3]
  {
    var q1, q2, q3 := p[..1], p[..2], p[..3];
    assert q1[..0] == [] && Sum(q1) == p[0];
    assert q2[..1] == q1 && Sum(q2) == p[0] + p[1];
    assert q3[..2] == q2 && Sum(q3) == p[0] + p[1] + p[2];
  }

  /** Per-team travel before the exchange: 2, 2, 0, 2. */
  lemma ClashTeamTravel(t: nat)
    requires t < 4
    ensures IdsWithin([[Match(0, 1)], [Match(2, 3), Match(1, 0)]], 4)
    ensures TeamTravel([[Match(0, 1)], [Match(2, 3), Match(1, 0)]], UnitTable(), 4, t) == [2.0, 2.0, 0.0, 2.0][t]
  {
    var s, D := [[Match(0, 1)], [Match(2, 3), Match(1, 0)]], UnitTable();
    assert s[1..][1..] == [];
    assert Venue(s[0], t) == [Some(0), Some(0), None, None][t];
    assert Venue(s[1], t) == [Some(1), Some(1), Some(2), Some(2)][t];
  }

  lemma ClashScheduleTravel()
    ensures IdsWithin([[Match(0, 1)], [Match(2, 3), Match(1, 0)]], 4)
    ensures TotalTravel([[Match(0, 1)], [Match(2, 3), Match(1, 0)]], UnitTable(), 4) == 6.0
  {
    ClashTeamTravel(0);
    ClashTeamTravel(1);
    ClashTeamTravel(2);
    ClashTeamTravel(3);
    SumFour(PerTeam([[Match(0, 1)], [Match(2, 3), Match(1, 0)]], UnitTable(), 4));
  }

  /** The schedule after exchanging (0,1) with (2,3): rounds [(2,3)] and [(0,1), (1,0)]. */
  lemma ClashSwapped()
    ensures InRange([[Match(0, 1)], [Match(2, 3), Match(1, 0)]], Candidate(0, 0, 1, 0))
    ensures Swapped([[Match(0, 1)], [Match(2, 3), Match(1, 0)]], Candidate(0, 0, 1, 0)) == [[Match(2, 3)], [Match(0, 1), Match(1, 0)]]
  {
    var s := Swapped([[Match(0, 1)], [Match(2, 3), Match(1, 0)]], Candidate(0, 0, 1, 0));
    assert |s| == 2 && |s[0]| == 1 && |s[1]| == 2;
    assert s[0][0] == Match(2, 3) && s[1][0] == Match(0, 1) && s[1][1] == Match(1, 0);
    assert s[0] == [Match(2, 3)] && s[1] == [Match(0, 1), Match(1, 0)];
  }

  /** Per-team travel after the exchange: 2, 0, 0, 2. */
  lemma SwappedTeamTravel(t: nat)
    requires t < 4
    ensures IdsWithin([[Match(2, 3)], [Match(0, 1), Match(1, 0)]], 4)
    ensures TeamTravel([[Match(2, 3)], [Match(0, 1), Match(1, 0)]], UnitTable(), 4, t) == [2.0, 0.0, 0.0, 2.0][t]
  {
    var s: Sched := [[Match(2, 3)], [Match(0, 1), Match(1, 0)]];
    assert s[1..][1..] == [];
    assert Venue(s[0], t) == [None, None, Some(2), Some(2)][t];
    assert Venue(s[1], t) == [Some(1), Some(1), None, None][t];
  }

  lemma ClashSwapTravel()
    ensures InRange([[Match(0, 1)], [Match(2, 3), Match(1, 0)]], Candidate(0, 0, 1, 0))
    ensures IdsWithin(Swapped([[Match(0, 1)], [Match(2, 3), Match(1, 0)]], Candidate(0, 0, 1, 0)), 4)
    ensures TotalTravel(Swapped([[Match(0, 1)], [Match(2, 3), Match(1, 0)]], Candidate(0, 0, 1, 0)), UnitTable(), 4) == 4.0
  {
    ClashSwapped();
    SwappedTeamTravel(0);
    SwappedTeamTravel(1);
    SwappedTeamTravel(2);
    SwappedTeamTravel(3);
    SumFour(PerTeam([[Match(2, 3)], [Match(0, 1), Match(1, 0)]], UnitTable(), 4));
  }

  /** Rounds [(0,1)] and [(2,3), (1,0)] have no repeated team. */
  lemma ClashScheduleDistinct(s: Sched)
    requires s == [[Match(0, 1)], [Match(2, 3), Match(1, 0)]]
    ensures AllRoundsDistinct(s)
  {
    assert TeamSet(s[1][0]) == {2, 3} && TeamSet(s[1][1]) == {0, 1};
    assert NoRepeatedTeam(s[0]) && NoRepeatedTeam(s[1]);
  }

  /** After the exchange, team 0 plays twice in round 1. */
  lemma ClashSwapRepeats(s: Sched, c: Candidate)
    requires s == [[Match(0, 1)], [Match(2, 3), Match(1, 0)]] && c == Candidate(0, 0, 1, 0)
    ensures InRange(s, c) && !AllRoundsDistinct(Swapped(s, c))
  {
    var x := Swapped(s, c);
    assert x[1][0] == Match(0, 1) && x[1][1] == Match(1, 0);
    assert 0 in TeamSet(x[1][0]) * TeamSet(x[1][1]);
    assert !NoRepeatedTeam(x[1]);
  }

  /** Exchanging the first two matches is the first improving candidate of the unchecked scan. */
  lemma ClashFirstImproving(s: Sched, D: seq<seq<real>>, c: Candidate)
    requires s == [[Match(0, 1)], [Match(2, 3), Match(1, 0)]] && D == UnitTable() && c == Candidate(0, 0, 1, 0)
    ensures IdsWithin(s, |D|) && FirstImproving(s, D, c, false)
  {
    ClashScheduleTravel();
    ClashSwapTravel();
    assert Disjoint(s, c);
    assert Improves(s, D, c, false);
  }

  /**
   * On a schedule whose rounds are free of repeated teams, the unchecked
   * scan takes an exchange after which team 0 plays twice in round 1,
   * whatever result the scan returns within its contract.
   */
  lemma UncheckedPassBreaksRounds(s: Sched, D: seq<seq<real>>, out: Sched, improved: bool)
    requires s == [[Match(0, 1)], [Match(2, 3), Match(1, 0)]] && D == UnitTable() && IdsWithin(s, |D|)
    requires PassOutcome(s, D, false, out, improved)
    ensures AllRoundsDistinct(s)
    ensures improved && !AllRoundsDistinct(out)
  {
    var c := Candidate(0, 0, 1, 0);
    ClashScheduleDistinct(s);
    ClashFirstImproving(s, D, c);
    PassOutcomeDetermined(s, D, c, false, out, improved);
    ClashSwapRepeats(s, c);
  }

  /** The clash-checked scan never takes that exchange: team 1 already plays in round 1. */
  lemma CheckedPassSkipsClash()
    ensures InRange([[Match(0, 1)], [Match(2, 3), Match(1, 0)]], Candidate(0, 0, 1, 0))
    ensures Disjoint([[Match(0, 1)], [Match(2, 3), Match(1, 0)]], Candidate(0, 0, 1, 0))
    ensures !Admissible([[Match(0, 1)], [Match(2, 3), Match(1, 0)]], Candidate(0, 0, 1, 0), true)
  {
    var s := [[Match(0, 1)], [Match(2, 3), Match(1, 0)]];
    assert 1 in Listed(s[1], {0}, false) by {
      assert Plays(s[1][1], 1);
    }
    assert 1 in TeamSet(s[0][0]);
  }
}
