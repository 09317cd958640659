/**
 * How the parts fit together: a generated round-robin schedule passes the
 * structural check, and whatever the optimizers make of it still pairs
 * every two teams exactly once.
 */
module Pipeline {
  import opened Schedule
  import opened RoundRobin
  import opened Validators
  import opened Optimizers

  /** The generated schedule passes the structural check exactly when there is a team. */
  lemma RoundRobinWellFormed(n: nat)
    ensures WellFormed(RoundRobinPairs(n), n) <==> n >= 1
  {
    RoundCount(n);
    RoundsHaveNoRepeatedTeam(n);
    NoByeEmitted(n);
    var s := RoundRobinPairs(n);
    forall r | 0 <= r < |s|
      ensures RoundIdsValid(s[r], n)
    {
    }
  }

  /** A schedule an optimizer returns pairs every two teams as often as its input did. */
  lemma KeepsCoverage(s: Sched, best: Sched, n: nat)
    requires Keeps(s, best, n)
    ensures CoversEachPairOnce(best, n) <==> CoversEachPairOnce(s, n)
    ensures AllRoundsDistinct(s) ==> AllRoundsDistinct(best)
  {
  }

  /** Optimizing the generated schedule keeps it a single round robin with no repeated team in a round. */
  lemma OptimizedRoundRobin(n: nat, best: Sched)
    requires Keeps(RoundRobinPairs(n), best, n)
    ensures CoversEachPairOnce(best, n) && AllRoundsDistinct(best)
  {
    EveryPairOnce(n);
    RoundsHaveNoRepeatedTeam(n);
  }
}
