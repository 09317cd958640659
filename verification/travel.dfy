/**
 * Travel of a schedule under the sequential-round model: every team starts at
 * its own stadium, in each round goes to the stadium of the match it plays
 * (its own when at home, the opponent's when away), stays where it is when it
 * does not play, and returns home after the last round.
 */
module Travel {
  import opened Wrappers
  import opened Schedule
  import opened Distance

  /** The tolerance with which travel totals are compared. */
  const Eps: real := 0.000001

  /** The table has a row and a column for every team 0..n-1 (it may be larger). */
  predicate Reaches(D: seq<seq<real>>, n: nat) {
    |D| >= n && forall i :: 0 <= i < n ==> |D[i]| >= n
  }

  /** Match i is the last match of the round listing team t. */
  predicate LastToPlay(rnd: Round, t: int, i: int)
    requires 0 <= i < |rnd|
  {
    Plays(rnd[i], t) && forall j :: i < j < |rnd| ==> !Plays(rnd[j], t)
  }

  /**
   * The stadium at which team t plays in the round: the host of the last
   * match listing t, or None when t does not play.
   */
  function Venue(rnd: Round, t: int): Option<int> {
    if |rnd| == 0 then None
    else if Plays(rnd[|rnd| - 1], t) then Some(rnd[|rnd| - 1].home)
    else Venue(rnd[..|rnd| - 1], t)
  }

  /** Venue is None exactly when no match lists t, and otherwise the host of the last match that does. */
  lemma {:induction false} VenueSpec(rnd: Round, t: int)
    ensures Venue(rnd, t).None? <==> forall i :: 0 <= i < |rnd| ==> !Plays(rnd[i], t)
    ensures Venue(rnd, t).Some? ==>
      exists i :: 0 <= i < |rnd| && LastToPlay(rnd, t, i) && Venue(rnd, t).value == rnd[i].home
    decreases |rnd|
  {
    if |rnd| > 0 {
      var k := |rnd| - 1;
      var pre := rnd[..k];
      if Plays(rnd[k], t) {
        assert LastToPlay(rnd, t, k);
      } else {
        VenueSpec(pre, t);
        assert forall i :: 0 <= i < k ==> pre[i] == rnd[i];
        if Venue(pre, t).Some? {
          var i :| 0 <= i < |pre| && LastToPlay(pre, t, i) && Venue(pre, t).value == pre[i].home;
          assert LastToPlay(rnd, t, i);
        }
      }
    }
  }

  /** The length of one move; staying put costs nothing. */
  function Leg(D: seq<seq<real>>, n: nat, from: int, to: int): real
    requires Reaches(D, n) && 0 <= from < n && 0 <= to < n
  {
    if from == to then 0.0 else D[from][to]
  }

  /** Travel of team t from location loc through the remaining rounds and back home. */
  function Tour(s: Sched, D: seq<seq<real>>, n: nat, t: int, loc: int): real
    requires Reaches(D, n) && IdsWithin(s, n) && 0 <= t < n && 0 <= loc < n
    decreases |s|
  {
    if |s| == 0 then Leg(D, n, loc, t)
    else
      match Venue(s[0], t)
      case None => Tour(s[1..], D, n, t, loc)
      case Some(v) =>
        VenueWithin(s[0], n, t);
        Leg(D, n, loc, v) + Tour(s[1..], D, n, t, v)
  }

  /** Travel of team t over the whole schedule. */
  function TeamTravel(s: Sched, D: seq<seq<real>>, n: nat, t: int): real
    requires Reaches(D, n) && IdsWithin(s, n) && 0 <= t < n
  {
    Tour(s, D, n, t, t)
  }

  function Sum(x: seq<real>): real {
    if |x| == 0 then 0.0 else Sum(x[..|x| - 1]) + x[|x| - 1]
  }

  /** Travel of every team, indexed by team id. */
  function PerTeam(s: Sched, D: seq<seq<real>>, n: nat): (p: seq<real>)
    requires Reaches(D, n) && IdsWithin(s, n)
    ensures |p| == n
  {
    seq(n, t requires 0 <= t < n => TeamTravel(s, D, n, t))
  }

  /** The objective every optimizer minimises. */
  function TotalTravel(s: Sched, D: seq<seq<real>>, n: nat): real
    requires Reaches(D, n) && IdsWithin(s, n)
  {
    Sum(PerTeam(s, D, n))
  }

  lemma IdsWithinSuffix(s: Sched, n: nat, k: nat)
    requires IdsWithin(s, n) && k <= |s|
    ensures IdsWithin(s[k..], n)
  {
    forall r, i | 0 <= r < |s[k..]| && 0 <= i < |s[k..][r]|
      ensures 0 <= s[k..][r][i].home < n && 0 <= s[k..][r][i].away < n
    {
      assert s[k..][r] == s[k + r];
    }
  }

  /** A venue is always the stadium of a real team. */
  lemma VenueWithin(rnd: Round, n: nat, t: int)
    requires forall i :: 0 <= i < |rnd| ==> 0 <= rnd[i].home < n
    ensures Venue(rnd, t).Some? ==> 0 <= Venue(rnd, t).value < n
  {
    VenueSpec(rnd, t);
  }

  /**
   * The table of where every team plays, filled match by match so that a
   * later match listing a team overrides an earlier one.
   */
  method RoundLocations(rnd: Round, n: nat) returns (where: seq<Option<int>>)
    requires forall i :: 0 <= i < |rnd| ==> 0 <= rnd[i].home < n && 0 <= rnd[i].away < n
    ensures |where| == n
    ensures forall t :: 0 <= t < n ==> where[t] == Venue(rnd, t)
  {
    where := seq(n, _ => None);
    for i := 0 to |rnd|
      invariant |where| == n
      invariant forall t :: 0 <= t < n ==> where[t] == Venue(rnd[..i], t)
    {
      var m := rnd[i];
      where := where[m.home := Some(m.home)];
      where := where[m.away := Some(m.home)];
      assert rnd[..i + 1][..i] == rnd[..i];
    }
    assert rnd[..|rnd|] == rnd;
  }

  /** Every team moves from loc[t] to dest[t], adding the leg to its running total. */
  method Advance(D: seq<seq<real>>, n: nat, loc: seq<int>, tot: seq<real>, dest: seq<int>)
    returns (loc2: seq<int>, tot2: seq<real>)
    requires Reaches(D, n) && |loc| == n && |tot| == n && |dest| == n
    requires forall t :: 0 <= t < n ==> 0 <= loc[t] < n && 0 <= dest[t] < n
    ensures |loc2| == n && |tot2| == n
    ensures forall t :: 0 <= t < n ==> loc2[t] == dest[t] && tot2[t] == tot[t] + Leg(D, n, loc[t], dest[t])
  {
    loc2, tot2 := loc, tot;
    for t := 0 to n
      invariant |loc2| == n && |tot2| == n
      invariant forall u :: 0 <= u < t ==> loc2[u] == dest[u] && tot2[u] == tot[u] + Leg(D, n, loc[u], dest[u])
      invariant forall u :: t <= u < n ==> loc2[u] == loc[u] && tot2[u] == tot[u]
    {
      if loc2[t] != dest[t] {
        tot2 := tot2[t := tot2[t] + D[loc2[t]][dest[t]]];
        loc2 := loc2[t := dest[t]];
      }
    }
  }

  /** One round of a tour: move to the round's location, then continue. */
  lemma TourStep(s: Sched, D: seq<seq<real>>, n: nat, t: int, loc: int, dest: int)
    requires Reaches(D, n) && IdsWithin(s, n) && |s| > 0 && 0 <= t < n && 0 <= loc < n
    requires dest == (var v := Venue(s[0], t); if v.Some? then v.value else loc)
    ensures 0 <= dest < n && IdsWithin(s[1..], n)
    ensures Tour(s, D, n, t, loc) == Leg(D, n, loc, dest) + Tour(s[1..], D, n, t, dest)
  {
    VenueWithin(s[0], n, t);
    IdsWithinSuffix(s, n, 1);
  }

  /** Every team goes to where it plays in the first round of `rest`, or stays put. */
  method PlayRound(rest: Sched, D: seq<seq<real>>, n: nat, loc: seq<int>, tot: seq<real>)
    returns (loc2: seq<int>, tot2: seq<real>)
    requires Reaches(D, n) && IdsWithin(rest, n) && |rest| > 0
    requires |loc| == n && |tot| == n && forall t :: 0 <= t < n ==> 0 <= loc[t] < n
    ensures |loc2| == n && |tot2| == n && forall t :: 0 <= t < n ==> 0 <= loc2[t] < n
    ensures IdsWithin(rest[1..], n)
    ensures forall t :: 0 <= t < n ==>
      tot2[t] + Tour(rest[1..], D, n, t, loc2[t]) == tot[t] + Tour(rest, D, n, t, loc[t])
  {
    var rnd := rest[0];
    var where := RoundLocations(rnd, n);
    // teams without a match this round stay where they are
    var roundLoc := seq(n, t requires 0 <= t < n => if where[t].Some? then where[t].value else loc[t]);
    forall t | 0 <= t < n
      ensures 0 <= roundLoc[t] < n
      ensures Tour(rest, D, n, t, loc[t]) == Leg(D, n, loc[t], roundLoc[t]) + Tour(rest[1..], D, n, t, roundLoc[t])
    {
      TourStep(rest, D, n, t, loc[t], roundLoc[t]);
    }
    loc2, tot2 := Advance(D, n, loc, tot, roundLoc);
    IdsWithinSuffix(rest, n, 1);
  }

  /**
   * The per-team and total travel of a schedule, computed round by round as
   * the location pointers move; it agrees with the reference definition.
   */
  method EvaluateTravel(s: Sched, n: nat, D: seq<seq<real>>) returns (perTeam: seq<real>, total: real)
    requires Reaches(D, n) && IdsWithin(s, n)
    ensures perTeam == PerTeam(s, D, n)
    ensures total == TotalTravel(s, D, n)
  {
    var loc := seq(n, t => t);
    var tot := seq(n, _ => 0.0);
    assert s[0..] == s;
    for ri := 0 to |s|
      invariant |loc| == n && |tot| == n
      invariant forall t :: 0 <= t < n ==> 0 <= loc[t] < n
      invariant IdsWithin(s[ri..], n)
      invariant forall t :: 0 <= t < n ==> tot[t] + Tour(s[ri..], D, n, t, loc[t]) == TeamTravel(s, D, n, t)
    {
      loc, tot := PlayRound(s[ri..], D, n, loc, tot);
      assert s[ri..][1..] == s[ri + 1..];
    }
    var home := seq(n, t => t);
    assert s[|s|..] == [];
    loc, tot := Advance(D, n, loc, tot, home);
    assert forall t :: 0 <= t < n ==> tot[t] == TeamTravel(s, D, n, t);
    perTeam := tot;
    total := Sum(tot);
  }

  // ----- Properties of the travel model -----

  /** Team t is listed in no match of the schedule. */
  predicate Idle(s: Sched, t: int) {
    forall r, i :: 0 <= r < |s| && 0 <= i < |s[r]| ==> !Plays(s[r][i], t)
  }

  /** Every match listing team t has t as the host. */
  predicate AlwaysHome(s: Sched, t: int) {
    forall r, i :: 0 <= r < |s| && 0 <= i < |s[r]| && Plays(s[r][i], t) ==> s[r][i].home == t
  }

  /** A team that never plays never leaves home. */
  lemma {:induction false} IdleTeamStaysHome(s: Sched, D: seq<seq<real>>, n: nat, t: int)
    requires Reaches(D, n) && IdsWithin(s, n) && 0 <= t < n
    requires Idle(s, t)
    ensures TeamTravel(s, D, n, t) == 0.0
    decreases |s|
  {
    if |s| > 0 {
      VenueSpec(s[0], t);
      IdsWithinSuffix(s, n, 1);
      IdleTeamStaysHome(s[1..], D, n, t);
    }
  }

  /** A team that only ever plays at home never leaves home. */
  lemma {:induction false} HomeTeamStaysHome(s: Sched, D: seq<seq<real>>, n: nat, t: int)
    requires Reaches(D, n) && IdsWithin(s, n) && 0 <= t < n
    requires AlwaysHome(s, t)
    ensures TeamTravel(s, D, n, t) == 0.0
    decreases |s|
  {
    if |s| > 0 {
      VenueSpec(s[0], t);
      IdsWithinSuffix(s, n, 1);
      assert AlwaysHome(s[1..], t) by {
        forall r, i | 0 <= r < |s[1..]| && 0 <= i < |s[1..][r]| && Plays(s[1..][r][i], t)
          ensures s[1..][r][i].home == t
        {
          assert s[1..][r] == s[r + 1];
        }
      }
      HomeTeamStaysHome(s[1..], D, n, t);
    }
  }

  lemma {:induction false} TourNonNegative(s: Sched, D: seq<seq<real>>, n: nat, t: int, loc: int)
    requires Reaches(D, n) && IdsWithin(s, n) && 0 <= t < n && 0 <= loc < n
    requires NonNegative(D)
    ensures Tour(s, D, n, t, loc) >= 0.0
    decreases |s|
  {
    if |s| > 0 {
      IdsWithinSuffix(s, n, 1);
      match Venue(s[0], t)
      case None =>
        TourNonNegative(s[1..], D, n, t, loc);
      case Some(v) =>
        VenueWithin(s[0], n, t);
        TourNonNegative(s[1..], D, n, t, v);
    }
  }

  lemma {:induction false} SumNonNegative(x: seq<real>)
    requires forall i :: 0 <= i < |x| ==> x[i] >= 0.0
    ensures Sum(x) >= 0.0
  {
    if |x| > 0 {
      SumNonNegative(x[..|x| - 1]);
    }
  }

  /** With non-negative distances no team and no schedule has negative travel. */
  lemma TravelNonNegative(s: Sched, D: seq<seq<real>>, n: nat)
    requires Reaches(D, n) && IdsWithin(s, n) && NonNegative(D)
    ensures forall t :: 0 <= t < n ==> PerTeam(s, D, n)[t] >= 0.0
    ensures TotalTravel(s, D, n) >= 0.0
  {
    forall t | 0 <= t < n
      ensures PerTeam(s, D, n)[t] >= 0.0
    {
      TourNonNegative(s, D, n, t, t);
    }
    SumNonNegative(PerTeam(s, D, n));
  }

  /** Two teams, one match: the visitor goes 100 km out and 100 km back. */
  lemma TwoTeamExample()
    ensures IdsWithin([[Match(0, 1)]], 2)
    ensures PerTeam([[Match(0, 1)]], [[0.0, 100.0], [100.0, 0.0]], 2) == [0.0, 200.0]
    ensures TotalTravel([[Match(0, 1)]], [[0.0, 100.0], [100.0, 0.0]], 2) == 200.0
  {
    var s: Sched := [[Match(0, 1)]];
    var D := [[0.0, 100.0], [100.0, 0.0]];
    assert Venue(s[0], 0) == Some(0);
    assert Venue(s[0], 1) == Some(0);
    assert s[1..] == [];
    assert TeamTravel(s, D, 2, 0) == 0.0;
    assert TeamTravel(s, D, 2, 1) == 200.0;
    var p := PerTeam(s, D, 2);
    assert p == [0.0, 200.0];
    assert p[..1] == [0.0] && p[..1][..0] == [];
    assert Sum(p[..1]) == 0.0;
    assert Sum(p) == 200.0;
    assert TotalTravel(s, D, 2) == Sum(p);
  }
}
