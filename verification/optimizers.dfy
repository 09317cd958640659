/**
 * Local-search optimizers over schedules: hill climbing and simulated
 * annealing. Both repeatedly pick a move kind, draw its parameters, and
 * decide whether to accept the neighbouring schedule.
 *
 * Randomness enters as `draws`: the numbers drawn in iteration i are
 * draws(i). Sampling an index below `len` is modelled as `x % len`, which
 * reaches every index and nothing else; the annealing acceptance test
 * (a uniform number against e^(-delta/T)) is the drawn boolean `coin`.
 */
module Optimizers {
  import opened Wrappers
  import opened Schedule
  import opened Distance
  import opened Travel
  import opened Moves
  import opened Validators

  /** The move primitives an optimizer can be given; any other callable is skipped. */
  datatype MoveKind = SwapRoundsMove | SwapMatchesMove | FlipVenueMove | OtherMove

  /** The random draws of one iteration. */
  datatype Draw = Draw(pick: nat, x1: nat, x2: nat, x3: nat, x4: nat, coin: bool)

  /** A drawn move: skipped before any move was made, or the move's result. */
  datatype Proposal = Skip | Proposed(res: MoveResult)

  /** Runs that raise an exception. */
  datatype OptError =
    | NoMoves             // choosing from an empty move list
    | FlipOnEmptySchedule // drawing a round index from an empty schedule
    | NoIteration         // no iteration ran, so the iteration count is unbound

  /**
   * The run log: the best score, the iteration count, the recorded
   * improvements and the final annealing temperature. Hill climbing logs no
   * temperature; its field is 0.0 there and means nothing.
   */
  datatype Log = Log(bestScore: real, iter: int, improvements: seq<(nat, real)>, temperature: real)

  datatype Outcome = Outcome(best: Sched, bestScore: real, log: Log)

  /** Two distinct indices below len: the first drawn, the second among the others. */
  function SampleTwo(len: nat, x1: nat, x2: nat): (p: (nat, nat))
    requires len >= 2
    ensures p.0 < len && p.1 < len && p.0 != p.1
  {
    var a := x1 % len;
    var y := x2 % (len - 1);
    SkipOver(len, a, y);
    (a, (a + 1 + y) % len)
  }

  /** Stepping 1 + y places on from a, cyclically, never lands back on a. */
  lemma SkipOver(len: nat, a: nat, y: nat)
    requires a < len && y < len - 1
    ensures (a + 1 + y) % len < len && (a + 1 + y) % len != a
  {
    if a + 1 + y < len {
      ModBelow(a + 1 + y, len);
    } else {
      ModWrap(a + 1 + y - len, len);
    }
  }

  lemma ModBelow(x: int, m: int)
    requires 0 <= x < m
    ensures x % m == x
  {
  }

  lemma ModWrap(x: int, m: int)
    requires 0 <= x < m
    ensures (x + m) % m == x
  {
  }

  /** Every ordered pair of distinct indices is drawn by some numbers. */
  lemma SampleTwoReachesAll(len: nat, a: nat, b: nat)
    requires len >= 2 && a < len && b < len && a != b
    ensures exists x1: nat, x2: nat :: SampleTwo(len, x1, x2) == (a, b)
  {
    var x2: nat := if b > a then b - a - 1 else len - 1 - a + b;
    ModBelow(a, len);
    ModBelow(x2, len - 1);
    if b > a {
      ModBelow(b, len);
    } else {
      ModWrap(b, len);
    }
    assert SampleTwo(len, a, x2) == (a, b);
  }

  /** The move of the given kind with drawn parameters, with the parameter draws and skips of each kind. */
  function ProposeMove(s: Sched, kind: MoveKind, d: Draw): (p: Result<Proposal, OptError>)
    ensures p.Err? <==> kind == FlipVenueMove && |s| == 0
    ensures p.Err? ==> p.error == FlipOnEmptySchedule
    ensures p.Ok? && p.value.Proposed? && !p.value.res.feasible ==> kind == SwapMatchesMove
  {
    match kind
    case SwapRoundsMove =>
      if |s| < 2 then Ok(Skip)
      else
        var rr := SampleTwo(|s|, d.x1, d.x2);
        Ok(Proposed(SwapRounds(s, rr.0, rr.1)))
    case SwapMatchesMove =>
      if |s| < 2 then Ok(Skip)
      else
        var rr := SampleTwo(|s|, d.x1, d.x2);
        if |s[rr.0]| == 0 || |s[rr.1]| == 0 then Ok(Skip)
        else Ok(Proposed(SwapMatches(s, rr.0, d.x3 % |s[rr.0]|, rr.1, d.x4 % |s[rr.1]|)))
    case FlipVenueMove =>
      if |s| == 0 then Err(FlipOnEmptySchedule)
      else
        var r := d.x1 % |s|;
        if |s[r]| == 0 then Ok(Skip)
        else Ok(Proposed(FlipVenue(s, r, d.x3 % |s[r]|)))
    case OtherMove => Ok(Skip)
  }

  /** Every proposed schedule keeps the pairings of the current one and its rounds free of repeated teams. */
  lemma ProposalKeeps(s: Sched, kind: MoveKind, d: Draw)
    requires ProposeMove(s, kind, d).Ok? && ProposeMove(s, kind, d).value.Proposed?
    ensures PairBag(ProposeMove(s, kind, d).value.res.schedule) == PairBag(s)
    ensures |ProposeMove(s, kind, d).value.res.schedule| == |s|
    ensures AllRoundsDistinct(s) ==> AllRoundsDistinct(ProposeMove(s, kind, d).value.res.schedule)
  {
    match kind
    case SwapRoundsMove =>
      var rr := SampleTwo(|s|, d.x1, d.x2);
      SwapRoundsKeeps(s, rr.0, rr.1);
    case SwapMatchesMove =>
      var rr := SampleTwo(|s|, d.x1, d.x2);
      SwapMatchesKeepsBags(s, rr.0, d.x3 % |s[rr.0]|, rr.1, d.x4 % |s[rr.1]|);
      if AllRoundsDistinct(s) {
        SwapMatchesKeepsDistinct(s, rr.0, d.x3 % |s[rr.0]|, rr.1, d.x4 % |s[rr.1]|);
      }
    case FlipVenueMove =>
      var r := d.x1 % |s|;
      FlipVenueKeeps(s, r, d.x3 % |s[r]|);
  }

  /** The conditions both optimizers keep for the schedules they hold. */
  predicate Keeps(s0: Sched, s: Sched, n: nat) {
    && |s| == |s0|
    && PairBag(s) == PairBag(s0)
    && IdsWithin(s, n)
    && (AllRoundsDistinct(s0) ==> AllRoundsDistinct(s))
  }

  /** The move kind that draw d picks from a non-empty list. */
  function Picked(moves: seq<MoveKind>, d: Draw): (kind: MoveKind)
    requires |moves| > 0
    ensures kind in moves
  {
    moves[d.pick % |moves|]
  }

  /**
   * The neighbour an iteration evaluates, if any: the schedule of the drawn
   * move, when a move was made, it is feasible and, with validation on, it
   * satisfies every constraint.
   */
  function Neighbour(cur: Sched, n: nat, moves: seq<MoveKind>, validate: bool, d: Draw): (nb: Option<Sched>)
    requires IdsWithin(cur, n) && |moves| > 0
    ensures nb.Some? ==> Keeps(cur, nb.value, n) && (validate ==> AllConstraints(nb.value, n))
  {
    var p := ProposeMove(cur, Picked(moves, d), d);
    if p.Ok? && p.value.Proposed? && p.value.res.feasible then
      ProposalKeeps(cur, Picked(moves, d), d);
      IdsWithinByPairBag(cur, p.value.res.schedule, n);
      if validate && !AllConstraints(p.value.res.schedule, n) then None else Some(p.value.res.schedule)
    else None
  }

  /** What one iteration does before its acceptance test. */
  datatype Trial = Failed(error: OptError) | Skipped | Evaluated(next: Sched, score: real)

  /**
   * Picks a move kind and proposes its move; an infeasible move, or one that
   * breaks a constraint while validation is on, is skipped; otherwise the
   * neighbour is evaluated.
   */
  method TryMove(cur: Sched, n: nat, D: seq<seq<real>>, moves: seq<MoveKind>, validate: bool, d: Draw)
    returns (t: Trial)
    requires Reaches(D, n) && IdsWithin(cur, n) && |moves| > 0
    ensures t.Failed? <==> Picked(moves, d) == FlipVenueMove && |cur| == 0
    ensures t.Failed? ==> t.error == FlipOnEmptySchedule && |cur| == 0 && FlipVenueMove in moves
    ensures t.Evaluated? <==> Neighbour(cur, n, moves, validate, d).Some?
    ensures t.Evaluated? ==> t.next == Neighbour(cur, n, moves, validate, d).value
    ensures t.Evaluated? ==> Keeps(cur, t.next, n) && t.score == TotalTravel(t.next, D, n)
    ensures t.Evaluated? && validate ==> AllConstraints(t.next, n)
  {
    var kind := moves[d.pick % |moves|];
    var p := ProposeMove(cur, kind, d);
    if p.Err? {
      return Failed(p.error);
    }
    if p.value.Skip? || !p.value.res.feasible {
      return Skipped;
    }
    var next := p.value.res.schedule;
    ProposalKeeps(cur, kind, d);
    IdsWithinByPairBag(cur, next, n);
    if validate {
      var verdict := ValidateAll(next, n);
      if !verdict.ok {
        return Skipped;
      }
    }
    var _, score := EvaluateTravel(next, n, D);
    return Evaluated(next, score);
  }

  /** Keeps composes along a run. */
  lemma KeepsTrans(s0: Sched, s1: Sched, s2: Sched, n: nat)
    requires Keeps(s0, s1, n) && Keeps(s1, s2, n)
    ensures Keeps(s0, s2, n)
  {
  }

  /** The state of a search: the current schedule, the best one, and the improvements recorded so far. */
  datatype Search = Search(cur: Sched, curScore: real, best: Sched, bestScore: real, improvements: seq<(nat, real)>)

  /** A schedule the run may hold, with its score, derived from s0 by accepted moves. */
  predicate Held(s0: Sched, x: Sched, score: real, n: nat, D: seq<seq<real>>, validate: bool)
    requires Reaches(D, n)
  {
    && Keeps(s0, x, n)
    && score == TotalTravel(x, D, n)
    && (validate ==> x == s0 || AllConstraints(x, n))
  }

  /**
   * What both searches keep true of their state: the schedules are held,
   * the best schedule is the start until an improvement is recorded and
   * beats the start by more than the tolerance afterwards, and every
   * recorded amount is 0.
   */
  predicate Sound(s0: Sched, n: nat, D: seq<seq<real>>, validate: bool, initScore: real, st: Search)
    requires Reaches(D, n)
  {
    && IdsWithin(s0, n) && initScore == TotalTravel(s0, D, n)
    && Held(s0, st.cur, st.curScore, n, D, validate)
    && Held(s0, st.best, st.bestScore, n, D, validate)
    && (st.improvements == [] ==> st.best == s0)
    && (st.improvements != [] ==> st.bestScore + Eps < initScore)
    && forall k :: 0 <= k < |st.improvements| ==> st.improvements[k].1 == 0.0
  }

  /** What a sound state promises of the best schedule it reports. */
  lemma SoundBest(s0: Sched, n: nat, D: seq<seq<real>>, validate: bool, initScore: real, st: Search)
    requires Reaches(D, n) && Sound(s0, n, D, validate, initScore, st)
    ensures Keeps(s0, st.best, n) && st.bestScore == TotalTravel(st.best, D, n)
    ensures st.best == s0 <==> st.improvements == []
    ensures st.best == s0 || st.bestScore + Eps < TotalTravel(s0, D, n)
    ensures validate ==> st.best == s0 || AllConstraints(st.best, n)
    ensures |st.cur| == |s0|
  {
  }

  /** An evaluated trial from a held schedule is held in turn. */
  lemma HeldStep(s0: Sched, cur: Sched, curScore: real, next: Sched, score: real, n: nat, D: seq<seq<real>>, validate: bool)
    requires Reaches(D, n) && Held(s0, cur, curScore, n, D, validate)
    requires Keeps(cur, next, n) && score == TotalTravel(next, D, n)
    requires validate ==> AllConstraints(next, n)
    ensures Held(s0, next, score, n, D, validate)
  {
    KeepsTrans(s0, cur, next, n);
  }

  /** Every recorded improvement was made before iteration i. */
  predicate RecordedBefore(improvements: seq<(nat, real)>, i: nat) {
    forall k :: 0 <= k < |improvements| ==> improvements[k].0 < i
  }

  /** An iteration i keeps the improvements, or records one at i. */
  lemma RecordedStep(improvements: seq<(nat, real)>, next: seq<(nat, real)>, i: nat)
    requires RecordedBefore(improvements, i)
    requires next == improvements || next == improvements + [(i, 0.0)]
    ensures RecordedBefore(next, i + 1)
  {
  }

  /** Hill climbing takes a neighbour only when it lowers the travel by more than the tolerance. */
  predicate ClimbAccepts(score: real, curScore: real) {
    score < curScore - Eps
  }

  /** The first iteration after the last recorded improvement, or 0 when none is recorded. */
  function QuietFrom(improvements: seq<(nat, real)>): nat {
    if improvements == [] then 0 else improvements[|improvements| - 1].0 + 1
  }

  /** What a trial promises once it is evaluated from the current schedule cur. */
  predicate TrialFrom(cur: Sched, t: Trial, n: nat, D: seq<seq<real>>, validate: bool)
    requires Reaches(D, n)
  {
    t.Evaluated? ==> Keeps(cur, t.next, n) && t.score == TotalTravel(t.next, D, n) && (validate ==> AllConstraints(t.next, n))
  }

  /**
   * One hill-climbing iteration i on the trial TryMove made from the
   * current schedule, with stall rejected moves since the last accepted
   * one: an accepted neighbour becomes the current and the best schedule
   * and resets the count; a rejected one bumps the count; a skipped
   * iteration changes nothing, and a failed one raises its error.
   */
  method ClimbStep(s0: Sched, n: nat, D: seq<seq<real>>, validate: bool, initScore: real,
                   st: Search, stall: nat, trial: Trial, i: nat) returns (r: Result<(Search, nat), OptError>)
    requires Reaches(D, n) && Sound(s0, n, D, validate, initScore, st) && st.best == st.cur
    requires TrialFrom(st.cur, trial, n, D, validate)
    ensures r.Err? <==> trial.Failed?
    ensures r.Err? ==> r.error == trial.error
    ensures r.Ok? ==> Sound(s0, n, D, validate, initScore, r.value.0) && r.value.0.best == r.value.0.cur
    ensures trial.Skipped? ==> r == Ok((st, stall))
    ensures trial.Evaluated? && ClimbAccepts(trial.score, st.curScore) ==>
      r == Ok((Search(trial.next, trial.score, trial.next, trial.score, st.improvements + [(i, 0.0)]), 0))
    ensures trial.Evaluated? && !ClimbAccepts(trial.score, st.curScore) ==> r == Ok((st, stall + 1))
    ensures r.Ok? && r.value.0.cur != st.cur ==> r.value.0.curScore + Eps < st.curScore
  {
    if trial.Failed? {
      return Err(trial.error);
    }
    if trial.Skipped? {
      return Ok((st, stall));
    }
    HeldStep(s0, st.cur, st.curScore, trial.next, trial.score, n, D, validate);
    if trial.score < st.curScore - Eps {
      var next := st.(cur := trial.next, curScore := trial.score);
      if trial.score < st.bestScore - Eps {
        next := next.(best := trial.next, bestScore := trial.score,
                      improvements := st.improvements + [(i, trial.score - trial.score)]);
      }
      return Ok((next, 0));
    }
    return Ok((st, stall + 1));
  }

  /** The state a run starts from: the input schedule with its travel, and no improvement. */
  function Start(s: Sched, score: real): Search {
    Search(s, score, s, score, [])
  }

  /** A move list that holds only the venue flip. */
  predicate OnlyFlips(moves: seq<MoveKind>) {
    |moves| > 0 && forall k :: 0 <= k < |moves| ==> moves[k] == FlipVenueMove
  }

  /**
   * The acceptance test of hill-climbing iteration i applied to a
   * neighbour next of travel score, with stall rejected moves before it:
   * the neighbour is taken, as current and best schedule, exactly when it
   * lowers the travel by more than the tolerance.
   */
  function ClimbOn(st: Search, stall: nat, next: Sched, score: real, i: nat): (Search, nat) {
    if ClimbAccepts(score, st.curScore) then (Search(next, score, next, score, st.improvements + [(i, 0.0)]), 0)
    else (st, stall + 1)
  }

  /**
   * What hill-climbing iteration i with draw d makes of the state st and
   * the count stall of rejections in a row: the drawn neighbour, if any,
   * is taken exactly when it lowers the travel by more than the tolerance.
   */
  function ClimbNext(n: nat, D: seq<seq<real>>, moves: seq<MoveKind>, validate: bool,
                     st: Search, stall: nat, d: Draw, i: nat): (r: Result<(Search, nat), OptError>)
    requires Reaches(D, n) && IdsWithin(st.cur, n) && |moves| > 0
    ensures r.Ok? ==> IdsWithin(r.value.0.cur, n)
  {
    if Picked(moves, d) == FlipVenueMove && |st.cur| == 0 then Err(FlipOnEmptySchedule)
    else
      var nb := Neighbour(st.cur, n, moves, validate, d);
      if nb.None? then Ok((st, stall))
      else Ok(ClimbOn(st, stall, nb.value, TotalTravel(nb.value, D, n), i))
  }

  /**
   * The hill-climbing run from iteration i on: it stops after maxIters
   * iterations, or before iteration i once maxNoImprove moves in a row were
   * rejected, and yields the final state with the iteration count the log
   * reports, which passes i unless i is already the last.
   */
  function ClimbRun(n: nat, D: seq<seq<real>>, moves: seq<MoveKind>, validate: bool, maxIters: nat, maxNoImprove: int,
                    draws: nat -> Draw, st: Search, stall: nat, i: nat): (r: Result<(Search, nat), OptError>)
    requires Reaches(D, n) && IdsWithin(st.cur, n) && i <= maxIters
    ensures r.Ok? ==> i <= r.value.1 <= maxIters && (i < maxIters ==> i < r.value.1)
    decreases maxIters - i
  {
    if i == maxIters then Ok((st, maxIters))
    else if stall >= maxNoImprove then Ok((st, i + 1))
    else if |moves| == 0 then Err(NoMoves)
    else
      match ClimbNext(n, D, moves, validate, st, stall, draws(i), i)
      case Err(e) => Err(e)
      case Ok((next, rejected)) => ClimbRun(n, D, moves, validate, maxIters, maxNoImprove, draws, next, rejected, i + 1)
  }

  /**
   * One hill-climbing iteration i with draw d: a trial from the current
   * schedule, then its acceptance test.
   */
  method ClimbIteration(s0: Sched, n: nat, D: seq<seq<real>>, moves: seq<MoveKind>, validate: bool, initScore: real,
                        st: Search, stall: nat, d: Draw, i: nat) returns (r: Result<(Search, nat), OptError>)
    requires Reaches(D, n) && |moves| > 0 && Sound(s0, n, D, validate, initScore, st) && st.best == st.cur
    ensures r == ClimbNext(n, D, moves, validate, st, stall, d, i)
    ensures r.Ok? ==> Sound(s0, n, D, validate, initScore, r.value.0) && r.value.0.best == r.value.0.cur
  {
    var trial := TryMove(st.cur, n, D, moves, validate, d);
    r := ClimbStep(s0, n, D, validate, initScore, st, stall, trial, i);
    if trial.Evaluated? {
      assert r == Ok(ClimbOn(st, stall, trial.next, trial.score, i));
    }
  }

  /**
   * Hill climbing. A move is taken when it is feasible, passes every
   * constraint (if validation is on) and lowers the travel by more than the
   * tolerance; the run stops after maxIters iterations or once maxNoImprove
   * evaluated moves in a row were rejected. The current schedule is always
   * the best one, so every recorded improvement amount is 0.
   */
  method HillClimb(s: Sched, n: nat, D: seq<seq<real>>, moves: seq<MoveKind>, maxIters: int, maxNoImprove: int,
                   validate: bool, draws: nat -> Draw) returns (out: Result<Outcome, OptError>)
    requires Reaches(D, n) && IdsWithin(s, n)
    ensures out == Err(NoIteration) <==> maxIters <= 0
    ensures maxIters > 0 && moves != [] && (|s| > 0 || FlipVenueMove !in moves) ==> out.Ok?
    ensures maxIters > 0 && maxNoImprove > 0 && moves == [] ==> out == Err(NoMoves)
    ensures maxIters > 0 && maxNoImprove > 0 && OnlyFlips(moves) && |s| == 0 ==> out == Err(FlipOnEmptySchedule)
    ensures maxIters > 0 && maxNoImprove <= 0 ==> out.Ok? && out.value.best == s && out.value.log.iter == 1
    ensures out.Err? ==> (out.error == NoIteration || (out.error == NoMoves && moves == []) ||
                          (out.error == FlipOnEmptySchedule && |s| == 0 && FlipVenueMove in moves))
    ensures out.Ok? ==> var o := out.value;
      && Keeps(s, o.best, n)
      && o.bestScore == TotalTravel(o.best, D, n) == o.log.bestScore
      && (o.best == s <==> o.log.improvements == [])
      && (o.best == s || o.bestScore + Eps < TotalTravel(s, D, n))
      && (validate ==> o.best == s || AllConstraints(o.best, n))
      && 1 <= o.log.iter <= maxIters
      && (forall k :: 0 <= k < |o.log.improvements| ==>
            o.log.improvements[k].0 < o.log.iter && o.log.improvements[k].1 == 0.0)
      && (o.log.iter < maxIters ==> maxNoImprove <= o.log.iter - 1 - QuietFrom(o.log.improvements))
    ensures maxIters > 0 ==> var r := ClimbRun(n, D, moves, validate, maxIters, maxNoImprove, draws, Start(s, TotalTravel(s, D, n)), 0, 0);
      out == if r.Err? then Err(r.error)
             else Ok(Outcome(r.value.0.best, r.value.0.bestScore, Log(r.value.0.bestScore, r.value.1, r.value.0.improvements, 0.0)))
  {
    if maxIters <= 0 {
      return Err(NoIteration);
    }
    var _, initScore := EvaluateTravel(s, n, D);
    var r := ClimbFrom(s, n, D, moves, maxIters, maxNoImprove, validate, draws, initScore, Start(s, initScore), 0, 0);
    ClimbRunFails(n, D, moves, validate, maxIters, maxNoImprove, draws, Start(s, initScore), 0, 0);
    ClimbRunRecorded(n, D, moves, validate, maxIters, maxNoImprove, draws, Start(s, initScore), 0, 0);
    ClimbRunQuiet(n, D, moves, validate, maxIters, maxNoImprove, draws, Start(s, initScore), 0, 0);
    ClimbRunSound(s, n, D, moves, validate, initScore, maxIters, maxNoImprove, draws, Start(s, initScore), 0, 0);
    if r.Err? {
      return Err(r.error);
    }
    var st := r.value.0;
    SoundBest(s, n, D, validate, initScore, st);
    return Ok(Outcome(st.best, st.bestScore, Log(st.bestScore, r.value.1, st.improvements, 0.0)));
  }

  /**
   * The iterations of a hill-climbing run from iteration i on, in state st
   * with stall rejections in a row: the final state and the iteration
   * count for the log.
   */
  method ClimbFrom(s: Sched, n: nat, D: seq<seq<real>>, moves: seq<MoveKind>, maxIters: nat, maxNoImprove: int,
                   validate: bool, draws: nat -> Draw, initScore: real, st: Search, stall: nat, i: nat)
    returns (r: Result<(Search, int), OptError>)
    requires Reaches(D, n) && i <= maxIters && Sound(s, n, D, validate, initScore, st) && st.best == st.cur
    ensures r == ClimbRun(n, D, moves, validate, maxIters, maxNoImprove, draws, st, stall, i)
    decreases maxIters - i
  {
    if i == maxIters {
      return Ok((st, maxIters));
    }
    if stall >= maxNoImprove {
      return Ok((st, i + 1));
    }
    if |moves| == 0 {
      return Err(NoMoves);
    }
    var step := ClimbIteration(s, n, D, moves, validate, initScore, st, stall, draws(i), i);
    ClimbRunStep(n, D, moves, validate, maxIters, maxNoImprove, draws, st, stall, i);
    if step.Err? {
      return Err(step.error);
    }
    r := ClimbFrom(s, n, D, moves, maxIters, maxNoImprove, validate, draws, initScore, step.value.0, step.value.1, i + 1);
  }

  /**
   * One hill-climbing iteration fails only for a flip on an empty schedule;
   * otherwise it keeps the number of rounds, and either keeps the
   * improvements with at most one more rejection, or records one
   * improvement at i and clears the count.
   */
  lemma ClimbNextShape(n: nat, D: seq<seq<real>>, moves: seq<MoveKind>, validate: bool, st: Search, stall: nat, d: Draw, i: nat)
    requires Reaches(D, n) && IdsWithin(st.cur, n) && |moves| > 0
    ensures var r := ClimbNext(n, D, moves, validate, st, stall, d, i);
      && (r.Err? ==> r.error == FlipOnEmptySchedule && |st.cur| == 0 && FlipVenueMove in moves)
      && (r.Ok? ==> |r.value.0.cur| == |st.cur|)
      && (r.Ok? ==> || (r.value.0.improvements == st.improvements && r.value.1 <= stall + 1)
                    || (r.value.0.improvements == st.improvements + [(i, 0.0)] && r.value.1 == 0))
  {
  }

  /**
   * The hill-climbing acceptance test applied to a held neighbour keeps a
   * sound state sound, with the best schedule current.
   */
  lemma ClimbOnSound(s0: Sched, n: nat, D: seq<seq<real>>, validate: bool, initScore: real,
                     st: Search, stall: nat, next: Sched, score: real, i: nat)
    requires Reaches(D, n) && Sound(s0, n, D, validate, initScore, st) && st.best == st.cur
    requires Held(s0, next, score, n, D, validate)
    ensures var (r, _) := ClimbOn(st, stall, next, score, i);
      Sound(s0, n, D, validate, initScore, r) && r.best == r.cur
  {
    if ClimbAccepts(score, st.curScore) {
      var imps := st.improvements + [(i, 0.0)];
      assert forall k :: 0 <= k < |imps| ==> imps[k].1 == 0.0 by {
        forall k | 0 <= k < |imps| ensures imps[k].1 == 0.0 {
          if k < |st.improvements| { assert imps[k] == st.improvements[k]; }
        }
      }
    }
  }

  /** One hill-climbing iteration from a sound state leaves it sound, with the best schedule current. */
  lemma ClimbNextSound(s0: Sched, n: nat, D: seq<seq<real>>, moves: seq<MoveKind>, validate: bool, initScore: real,
                       st: Search, stall: nat, d: Draw, i: nat)
    requires Reaches(D, n) && |moves| > 0 && Sound(s0, n, D, validate, initScore, st) && st.best == st.cur
    ensures var r := ClimbNext(n, D, moves, validate, st, stall, d, i);
      r.Ok? ==> Sound(s0, n, D, validate, initScore, r.value.0) && r.value.0.best == r.value.0.cur
  {
    var nb := Neighbour(st.cur, n, moves, validate, d);
    if nb.Some? {
      HeldStep(s0, st.cur, st.curScore, nb.value, TotalTravel(nb.value, D, n), n, D, validate);
      ClimbOnSound(s0, n, D, validate, initScore, st, stall, nb.value, TotalTravel(nb.value, D, n), i);
    }
  }

  /**
   * An iteration that keeps the improvements with at most one more
   * rejection, or records one at i and clears the count, keeps the count
   * within the iterations since the last improvement.
   */
  lemma QuietStep(improvements: seq<(nat, real)>, next: seq<(nat, real)>, stall: nat, rejected: nat, i: nat)
    requires QuietFrom(improvements) + stall <= i
    requires (next == improvements && rejected <= stall + 1) || (next == improvements + [(i, 0.0)] && rejected == 0)
    ensures QuietFrom(next) + rejected <= i + 1
  {
    if next != improvements {
      assert next[|next| - 1] == (i, 0.0);
    }
  }

  /**
   * A hill-climbing run that neither ends nor stops before iteration i
   * fails with iteration i's error, or goes on from the state it yields.
   */
  lemma ClimbRunStep(n: nat, D: seq<seq<real>>, moves: seq<MoveKind>, validate: bool, maxIters: nat,
                     maxNoImprove: int, draws: nat -> Draw, st: Search, stall: nat, i: nat)
    requires Reaches(D, n) && IdsWithin(st.cur, n) && i < maxIters && stall < maxNoImprove && |moves| > 0
    ensures var step := ClimbNext(n, D, moves, validate, st, stall, draws(i), i);
      && (step.Err? ==> ClimbRun(n, D, moves, validate, maxIters, maxNoImprove, draws, st, stall, i) == Err(step.error))
      && (step.Ok? ==> ClimbRun(n, D, moves, validate, maxIters, maxNoImprove, draws, st, stall, i)
                       == ClimbRun(n, D, moves, validate, maxIters, maxNoImprove, draws, step.value.0, step.value.1, i + 1))
  {
  }

  /** A hill-climbing run fails only for an empty move list or a flip on an empty schedule. */
  lemma {:induction false} ClimbRunFails(n: nat, D: seq<seq<real>>, moves: seq<MoveKind>, validate: bool, maxIters: nat,
                                         maxNoImprove: int, draws: nat -> Draw, st: Search, stall: nat, i: nat)
    requires Reaches(D, n) && IdsWithin(st.cur, n) && i <= maxIters
    ensures var r := ClimbRun(n, D, moves, validate, maxIters, maxNoImprove, draws, st, stall, i);
      r.Err? ==> (r.error == NoMoves && moves == []) ||
                 (r.error == FlipOnEmptySchedule && |st.cur| == 0 && FlipVenueMove in moves)
    decreases maxIters - i
  {
    if i < maxIters && stall < maxNoImprove && |moves| > 0 {
      ClimbNextShape(n, D, moves, validate, st, stall, draws(i), i);
      var step := ClimbNext(n, D, moves, validate, st, stall, draws(i), i);
      ClimbRunStep(n, D, moves, validate, maxIters, maxNoImprove, draws, st, stall, i);
      if step.Ok? {
        ClimbRunFails(n, D, moves, validate, maxIters, maxNoImprove, draws, step.value.0, step.value.1, i + 1);
      }
    }
  }

  /**
   * A successful hill-climbing run from iteration i, with every recorded
   * improvement before i, ends with every improvement recorded before the
   * iteration count it reports.
   */
  lemma {:induction false} ClimbRunRecorded(n: nat, D: seq<seq<real>>, moves: seq<MoveKind>, validate: bool, maxIters: nat,
                                         maxNoImprove: int, draws: nat -> Draw, st: Search, stall: nat, i: nat)
    requires Reaches(D, n) && IdsWithin(st.cur, n) && i <= maxIters && RecordedBefore(st.improvements, i)
    ensures var r := ClimbRun(n, D, moves, validate, maxIters, maxNoImprove, draws, st, stall, i);
      r.Ok? ==> RecordedBefore(r.value.0.improvements, r.value.1)
    decreases maxIters - i
  {
    if i == maxIters {
    } else if stall >= maxNoImprove {
      RecordedStep(st.improvements, st.improvements, i);
    } else if |moves| > 0 {
      ClimbNextShape(n, D, moves, validate, st, stall, draws(i), i);
      var step := ClimbNext(n, D, moves, validate, st, stall, draws(i), i);
      ClimbRunStep(n, D, moves, validate, maxIters, maxNoImprove, draws, st, stall, i);
      if step.Ok? {
        RecordedStep(st.improvements, step.value.0.improvements, i);
        ClimbRunRecorded(n, D, moves, validate, maxIters, maxNoImprove, draws, step.value.0, step.value.1, i + 1);
      }
    }
  }

  /**
   * A hill-climbing run from iteration i whose rejection count fits in the
   * iterations since the last improvement stops before maxIters only after
   * at least maxNoImprove iterations without an improvement.
   */
  lemma {:induction false} ClimbRunQuiet(n: nat, D: seq<seq<real>>, moves: seq<MoveKind>, validate: bool, maxIters: nat,
                                         maxNoImprove: int, draws: nat -> Draw, st: Search, stall: nat, i: nat)
    requires Reaches(D, n) && IdsWithin(st.cur, n) && i <= maxIters && QuietFrom(st.improvements) + stall <= i
    ensures var r := ClimbRun(n, D, moves, validate, maxIters, maxNoImprove, draws, st, stall, i);
      r.Ok? && r.value.1 < maxIters ==> maxNoImprove <= r.value.1 - 1 - QuietFrom(r.value.0.improvements)
    decreases maxIters - i
  {
    if i == maxIters {
    } else if stall >= maxNoImprove {
      assert ClimbRun(n, D, moves, validate, maxIters, maxNoImprove, draws, st, stall, i) == Ok((st, i + 1));
    } else if |moves| > 0 {
      ClimbNextShape(n, D, moves, validate, st, stall, draws(i), i);
      var step := ClimbNext(n, D, moves, validate, st, stall, draws(i), i);
      ClimbRunStep(n, D, moves, validate, maxIters, maxNoImprove, draws, st, stall, i);
      if step.Ok? {
        QuietStep(st.improvements, step.value.0.improvements, stall, step.value.1, i);
        ClimbRunQuiet(n, D, moves, validate, maxIters, maxNoImprove, draws, step.value.0, step.value.1, i + 1);
      }
    }
  }

  /** A hill-climbing run from a sound state ends sound, with the best schedule current. */
  lemma {:induction false} ClimbRunSound(s0: Sched, n: nat, D: seq<seq<real>>, moves: seq<MoveKind>, validate: bool,
                                         initScore: real, maxIters: nat, maxNoImprove: int, draws: nat -> Draw,
                                         st: Search, stall: nat, i: nat)
    requires Reaches(D, n) && i <= maxIters && Sound(s0, n, D, validate, initScore, st) && st.best == st.cur
    ensures var r := ClimbRun(n, D, moves, validate, maxIters, maxNoImprove, draws, st, stall, i);
      r.Ok? ==> Sound(s0, n, D, validate, initScore, r.value.0) && r.value.0.best == r.value.0.cur
    decreases maxIters - i
  {
    if i < maxIters && stall < maxNoImprove && |moves| > 0 {
      ClimbNextSound(s0, n, D, moves, validate, initScore, st, stall, draws(i), i);
      var step := ClimbNext(n, D, moves, validate, st, stall, draws(i), i);
      ClimbRunStep(n, D, moves, validate, maxIters, maxNoImprove, draws, st, stall, i);
      if step.Ok? {
        ClimbRunSound(s0, n, D, moves, validate, initScore, maxIters, maxNoImprove, draws, step.value.0, step.value.1, i + 1);
      }
    }
  }

  function Pow(x: real, k: nat): real {
    if k == 0 then 1.0 else x * Pow(x, k - 1)
  }

  /** The temperature after k coolings. */
  function Temperature(t0: real, decay: real, k: nat): real {
    t0 * Pow(decay, k)
  }

  /** One cooling step: the temperature times the decay. */
  function Cool(temp: real, decay: real): real {
    temp * decay
  }

  /** One cooling step advances the closed form of the temperature. */
  lemma CoolStep(t0: real, decay: real, i: nat)
    ensures Cool(Temperature(t0, decay, i), decay) == Temperature(t0, decay, i + 1)
  {
    assert Pow(decay, i + 1) == decay * Pow(decay, i);
  }

  /**
   * The annealing acceptance test for a neighbour delta worse than the
   * current schedule: a better one always passes; at a positive temperature
   * an equally good one passes too, since e^0 = 1 exceeds every uniform
   * draw, and a worse one passes when the drawn coin says so.
   */
  predicate AnnealAccepts(delta: real, temp: real, coin: bool) {
    delta < 0.0 || (temp > 0.0 && (delta == 0.0 || coin))
  }

  /**
   * One annealing iteration i at temperature temp on the trial TryMove made
   * from the current schedule, with coin the drawn outcome of the
   * probabilistic test: an accepted neighbour becomes the current schedule,
   * and also the best one when it beats the best by more than the
   * tolerance; otherwise nothing changes, and a failed trial raises its error.
   */
  method AnnealStep(s0: Sched, n: nat, D: seq<seq<real>>, validate: bool, initScore: real,
                    st: Search, temp: real, coin: bool, trial: Trial, i: nat) returns (r: Result<Search, OptError>)
    requires Reaches(D, n) && Sound(s0, n, D, validate, initScore, st)
    requires TrialFrom(st.cur, trial, n, D, validate)
    ensures r.Err? <==> trial.Failed?
    ensures r.Err? ==> r.error == trial.error
    ensures r.Ok? ==> Sound(s0, n, D, validate, initScore, r.value)
    ensures trial.Skipped? ==> r == Ok(st)
    ensures trial.Evaluated? && !AnnealAccepts(trial.score - st.curScore, temp, coin) ==> r == Ok(st)
    ensures trial.Evaluated? && AnnealAccepts(trial.score - st.curScore, temp, coin) ==>
      && r.Ok? && r.value.cur == trial.next && r.value.curScore == trial.score
      && if trial.score < st.bestScore - Eps
         then r.value.best == trial.next && r.value.bestScore == trial.score
              && r.value.improvements == st.improvements + [(i, 0.0)]
         else r.value.best == st.best && r.value.bestScore == st.bestScore && r.value.improvements == st.improvements
    ensures r.Ok? ==> r.value.bestScore <= st.bestScore
    ensures r.Ok? && r.value.best != st.best ==> r.value.bestScore + Eps < st.bestScore
  {
    if trial.Failed? {
      return Err(trial.error);
    }
    if trial.Skipped? {
      return Ok(st);
    }
    HeldStep(s0, st.cur, st.curScore, trial.next, trial.score, n, D, validate);
    var delta := trial.score - st.curScore;
    if !(delta < 0.0 || (temp > 0.0 && (delta == 0.0 || coin))) {
      return Ok(st);
    }
    if trial.score < st.bestScore - Eps {
      return Ok(Search(trial.next, trial.score, trial.next, trial.score, st.improvements + [(i, trial.score - trial.score)]));
    }
    return Ok(st.(cur := trial.next, curScore := trial.score));
  }

  /**
   * The acceptance test of annealing iteration i applied to a neighbour
   * next of travel score: it is taken exactly when it passes the test, and
   * becomes the best schedule too exactly when it beats the best by more
   * than the tolerance.
   */
  function AnnealOn(st: Search, next: Sched, score: real, temp: real, coin: bool, i: nat): Search {
    if !AnnealAccepts(score - st.curScore, temp, coin) then st
    else if score < st.bestScore - Eps then Search(next, score, next, score, st.improvements + [(i, 0.0)])
    else st.(cur := next, curScore := score)
  }

  /**
   * What annealing iteration i with draw d at temperature temp makes of the
   * state st: a flip on an empty schedule fails, no neighbour changes
   * nothing, and a neighbour goes through the acceptance test.
   */
  function AnnealNext(n: nat, D: seq<seq<real>>, moves: seq<MoveKind>, validate: bool,
                      st: Search, temp: real, d: Draw, i: nat): (r: Result<Search, OptError>)
    requires Reaches(D, n) && IdsWithin(st.cur, n) && |moves| > 0
    ensures r.Ok? ==> |r.value.cur| == |st.cur| && IdsWithin(r.value.cur, n)
  {
    if Picked(moves, d) == FlipVenueMove && |st.cur| == 0 then Err(FlipOnEmptySchedule)
    else
      var nb := Neighbour(st.cur, n, moves, validate, d);
      if nb.None? then Ok(st)
      else Ok(AnnealOn(st, nb.value, TotalTravel(nb.value, D, n), temp, d.coin, i))
  }

  /**
   * The acceptance test keeps a sound state sound when the neighbour is
   * held; the best score never rises, and a changed best is better by more
   * than the tolerance.
   */
  lemma AnnealOnSound(s0: Sched, n: nat, D: seq<seq<real>>, validate: bool, initScore: real,
                      st: Search, next: Sched, score: real, temp: real, coin: bool, i: nat)
    requires Reaches(D, n) && Sound(s0, n, D, validate, initScore, st) && Held(s0, next, score, n, D, validate)
    ensures var r := AnnealOn(st, next, score, temp, coin, i);
      && Sound(s0, n, D, validate, initScore, r)
      && r.bestScore <= st.bestScore
      && (r.best != st.best ==> r.bestScore + Eps < st.bestScore)
  {
    if AnnealAccepts(score - st.curScore, temp, coin) && score < st.bestScore - Eps {
      var imps := st.improvements + [(i, 0.0)];
      assert forall k :: 0 <= k < |imps| ==> imps[k].1 == 0.0 by {
        forall k | 0 <= k < |imps| ensures imps[k].1 == 0.0 {
          if k < |st.improvements| { assert imps[k] == st.improvements[k]; }
        }
      }
    }
  }

  /**
   * The annealing run from iteration i on at temperature temp: maxIters
   * iterations, each followed by one cooling step, yielding the final state
   * and temperature; the current schedule keeps its number of rounds.
   */
  function AnnealRun(n: nat, D: seq<seq<real>>, moves: seq<MoveKind>, validate: bool, decay: real, maxIters: nat,
                     draws: nat -> Draw, st: Search, temp: real, i: nat): (r: Result<(Search, real), OptError>)
    requires Reaches(D, n) && IdsWithin(st.cur, n) && i <= maxIters
    ensures r.Ok? ==> |r.value.0.cur| == |st.cur| && IdsWithin(r.value.0.cur, n)
    decreases maxIters - i
  {
    if i == maxIters then Ok((st, temp))
    else if |moves| == 0 then Err(NoMoves)
    else
      match AnnealNext(n, D, moves, validate, st, temp, draws(i), i)
      case Err(e) => Err(e)
      case Ok(next) => AnnealRun(n, D, moves, validate, decay, maxIters, draws, next, Cool(temp, decay), i + 1)
  }

  /**
   * One annealing iteration i with draw d at temperature temp: a trial
   * from the current schedule, then its acceptance test.
   */
  method AnnealIteration(s0: Sched, n: nat, D: seq<seq<real>>, moves: seq<MoveKind>, validate: bool, initScore: real,
                         st: Search, temp: real, d: Draw, i: nat) returns (r: Result<Search, OptError>)
    requires Reaches(D, n) && |moves| > 0 && Sound(s0, n, D, validate, initScore, st)
    ensures r == AnnealNext(n, D, moves, validate, st, temp, d, i)
    ensures r.Ok? ==> Sound(s0, n, D, validate, initScore, r.value)
  {
    var trial := TryMove(st.cur, n, D, moves, validate, d);
    r := AnnealStep(s0, n, D, validate, initScore, st, temp, d.coin, trial, i);
    if trial.Evaluated? {
      assert r == Ok(AnnealOn(st, trial.next, trial.score, temp, d.coin, i));
    }
  }

  /**
   * Simulated annealing. An evaluated move is taken when it passes the
   * acceptance test at the current temperature; the best schedule changes
   * only on an improvement beyond the tolerance. The temperature is
   * multiplied by the decay in every iteration, whatever happens in it.
   */
  method SimulatedAnnealing(s: Sched, n: nat, D: seq<seq<real>>, moves: seq<MoveKind>, t0: real, decay: real,
                            maxIters: int, validate: bool, draws: nat -> Draw) returns (out: Result<Outcome, OptError>)
    requires Reaches(D, n) && IdsWithin(s, n)
    ensures out == Err(NoIteration) <==> maxIters <= 0
    ensures maxIters > 0 && moves != [] && (|s| > 0 || FlipVenueMove !in moves) ==> out.Ok?
    ensures maxIters > 0 && moves == [] ==> out == Err(NoMoves)
    ensures maxIters > 0 && OnlyFlips(moves) && |s| == 0 ==> out == Err(FlipOnEmptySchedule)
    ensures out.Err? ==> (out.error == NoIteration || (out.error == NoMoves && moves == []) ||
                          (out.error == FlipOnEmptySchedule && |s| == 0 && FlipVenueMove in moves))
    ensures out.Ok? ==> var o := out.value;
      && Keeps(s, o.best, n)
      && o.bestScore == TotalTravel(o.best, D, n) == o.log.bestScore
      && (o.best == s <==> o.log.improvements == [])
      && (o.best == s || o.bestScore + Eps < TotalTravel(s, D, n))
      && (validate ==> o.best == s || AllConstraints(o.best, n))
      && o.log.iter == maxIters
      && o.log.temperature == Temperature(t0, decay, maxIters)
      && (forall k :: 0 <= k < |o.log.improvements| ==>
            o.log.improvements[k].0 < maxIters && o.log.improvements[k].1 == 0.0)
    ensures maxIters > 0 ==> var r := AnnealRun(n, D, moves, validate, decay, maxIters, draws, Start(s, TotalTravel(s, D, n)), t0, 0);
      out == if r.Err? then Err(r.error)
             else Ok(Outcome(r.value.0.best, r.value.0.bestScore, Log(r.value.0.bestScore, maxIters, r.value.0.improvements, r.value.1)))
  {
    if maxIters <= 0 {
      return Err(NoIteration);
    }
    var _, initScore := EvaluateTravel(s, n, D);
    assert Temperature(t0, decay, 0) == t0;
    var r := AnnealFrom(s, n, D, moves, decay, maxIters, validate, draws, initScore, Start(s, initScore), t0, 0);
    AnnealRunShape(n, D, moves, validate, t0, decay, maxIters, draws, Start(s, initScore), t0, 0);
    AnnealRunSound(s, n, D, moves, validate, initScore, decay, maxIters, draws, Start(s, initScore), t0, 0);
    if r.Err? {
      return Err(r.error);
    }
    var st := r.value.0;
    SoundBest(s, n, D, validate, initScore, st);
    return Ok(Outcome(st.best, st.bestScore, Log(st.bestScore, maxIters, st.improvements, r.value.1)));
  }

  /** The iterations of an annealing run from iteration i on at temperature temp: the final state and temperature. */
  method AnnealFrom(s: Sched, n: nat, D: seq<seq<real>>, moves: seq<MoveKind>, decay: real, maxIters: nat,
                    validate: bool, draws: nat -> Draw, initScore: real, st: Search, temp: real, i: nat)
    returns (r: Result<(Search, real), OptError>)
    requires Reaches(D, n) && i <= maxIters && Sound(s, n, D, validate, initScore, st)
    ensures r == AnnealRun(n, D, moves, validate, decay, maxIters, draws, st, temp, i)
    decreases maxIters - i
  {
    if i == maxIters {
      return Ok((st, temp));
    }
    if |moves| == 0 {
      return Err(NoMoves);
    }
    var step := AnnealIteration(s, n, D, moves, validate, initScore, st, temp, draws(i), i);
    AnnealRunStep(n, D, moves, validate, decay, maxIters, draws, st, temp, i);
    if step.Err? {
      return Err(step.error);
    }
    r := AnnealFrom(s, n, D, moves, decay, maxIters, validate, draws, initScore, step.value, Cool(temp, decay), i + 1);
  }

  /**
   * One annealing iteration fails only for a flip on an empty schedule;
   * otherwise it keeps the number of rounds and records at most one
   * improvement, at i.
   */
  lemma AnnealNextShape(n: nat, D: seq<seq<real>>, moves: seq<MoveKind>, validate: bool, st: Search, temp: real, d: Draw, i: nat)
    requires Reaches(D, n) && IdsWithin(st.cur, n) && |moves| > 0
    ensures var r := AnnealNext(n, D, moves, validate, st, temp, d, i);
      && (r.Err? <==> Picked(moves, d) == FlipVenueMove && |st.cur| == 0)
      && (r.Err? ==> r.error == FlipOnEmptySchedule && FlipVenueMove in moves)
      && (r.Ok? ==> |r.value.cur| == |st.cur|)
      && (r.Ok? ==> r.value.improvements == st.improvements || r.value.improvements == st.improvements + [(i, 0.0)])
  {
    if !(Picked(moves, d) == FlipVenueMove && |st.cur| == 0) {
      var nb := Neighbour(st.cur, n, moves, validate, d);
      if nb.Some? {
        assert |nb.value| == |st.cur|;
      }
    }
  }

  /**
   * One annealing iteration from a sound state leaves it sound; the best
   * score never rises, and a changed best is better by more than the
   * tolerance.
   */
  lemma AnnealNextSound(s0: Sched, n: nat, D: seq<seq<real>>, moves: seq<MoveKind>, validate: bool, initScore: real,
                        st: Search, temp: real, d: Draw, i: nat)
    requires Reaches(D, n) && |moves| > 0 && Sound(s0, n, D, validate, initScore, st)
    ensures var r := AnnealNext(n, D, moves, validate, st, temp, d, i);
      r.Ok? ==> && Sound(s0, n, D, validate, initScore, r.value)
                && r.value.bestScore <= st.bestScore
                && (r.value.best != st.best ==> r.value.bestScore + Eps < st.bestScore)
  {
    var nb := Neighbour(st.cur, n, moves, validate, d);
    if nb.Some? {
      HeldStep(s0, st.cur, st.curScore, nb.value, TotalTravel(nb.value, D, n), n, D, validate);
      AnnealOnSound(s0, n, D, validate, initScore, st, nb.value, TotalTravel(nb.value, D, n), temp, d.coin, i);
    }
  }

  /**
   * An annealing run that has not ended before iteration i fails with
   * iteration i's error, or goes on, one cooling later, from the state it
   * yields.
   */
  lemma AnnealRunStep(n: nat, D: seq<seq<real>>, moves: seq<MoveKind>, validate: bool, decay: real, maxIters: nat,
                      draws: nat -> Draw, st: Search, temp: real, i: nat)
    requires Reaches(D, n) && IdsWithin(st.cur, n) && i < maxIters && |moves| > 0
    ensures var step := AnnealNext(n, D, moves, validate, st, temp, draws(i), i);
      && (step.Err? ==> AnnealRun(n, D, moves, validate, decay, maxIters, draws, st, temp, i) == Err(step.error))
      && (step.Ok? ==> AnnealRun(n, D, moves, validate, decay, maxIters, draws, st, temp, i)
                       == AnnealRun(n, D, moves, validate, decay, maxIters, draws, step.value, Cool(temp, decay), i + 1))
  {
  }

  /**
   * How an annealing run from iteration i at temperature T0 * decay^i ends,
   * when the recorded improvements precede i: it fails only for an empty
   * move list or a flip on an empty schedule; otherwise it ends at
   * temperature T0 * decay^maxIters with every improvement recorded before
   * maxIters.
   */
  lemma {:induction false} AnnealRunShape(n: nat, D: seq<seq<real>>, moves: seq<MoveKind>, validate: bool, t0: real,
                                          decay: real, maxIters: nat, draws: nat -> Draw, st: Search, temp: real, i: nat)
    requires Reaches(D, n) && IdsWithin(st.cur, n) && i <= maxIters
    requires temp == Temperature(t0, decay, i) && RecordedBefore(st.improvements, i)
    ensures var r := AnnealRun(n, D, moves, validate, decay, maxIters, draws, st, temp, i);
      && (r.Err? ==> (r.error == NoMoves && moves == []) ||
                     (r.error == FlipOnEmptySchedule && |st.cur| == 0 && FlipVenueMove in moves))
      && (r.Ok? ==> r.value.1 == Temperature(t0, decay, maxIters) && RecordedBefore(r.value.0.improvements, maxIters))
    decreases maxIters - i
  {
    if i < maxIters && |moves| > 0 {
      AnnealNextShape(n, D, moves, validate, st, temp, draws(i), i);
      var step := AnnealNext(n, D, moves, validate, st, temp, draws(i), i);
      AnnealRunStep(n, D, moves, validate, decay, maxIters, draws, st, temp, i);
      if step.Ok? {
        RecordedStep(st.improvements, step.value.improvements, i);
        CoolStep(t0, decay, i);
        AnnealRunShape(n, D, moves, validate, t0, decay, maxIters, draws, step.value, Cool(temp, decay), i + 1);
      }
    }
  }

  /** An annealing run from a sound state ends sound, with a best score no higher than the state's. */
  lemma {:induction false} AnnealRunSound(s0: Sched, n: nat, D: seq<seq<real>>, moves: seq<MoveKind>, validate: bool,
                                          initScore: real, decay: real, maxIters: nat, draws: nat -> Draw,
                                          st: Search, temp: real, i: nat)
    requires Reaches(D, n) && i <= maxIters && Sound(s0, n, D, validate, initScore, st)
    ensures var r := AnnealRun(n, D, moves, validate, decay, maxIters, draws, st, temp, i);
      r.Ok? ==> Sound(s0, n, D, validate, initScore, r.value.0) && r.value.0.bestScore <= st.bestScore
    decreases maxIters - i
  {
    if i < maxIters && |moves| > 0 {
      AnnealNextSound(s0, n, D, moves, validate, initScore, st, temp, draws(i), i);
      var step := AnnealNext(n, D, moves, validate, st, temp, draws(i), i);
      AnnealRunStep(n, D, moves, validate, decay, maxIters, draws, st, temp, i);
      if step.Ok? {
        AnnealRunSound(s0, n, D, moves, validate, initScore, decay, maxIters, draws, step.value, Cool(temp, decay), i + 1);
      }
    }
  }
}
