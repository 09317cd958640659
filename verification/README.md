# Tournament scheduler core in Dafny

This project models the scheduling core of the Tournament-Scheduler
repository and proves properties of that model. The core does five things:

- It builds a single round robin with the circle method. An odd field is padded with a bye, whose id is -1.
- It measures team travel under the sequential-round model:
  - every team starts at its own stadium;
  - in each round it goes to the venue of its match, or stays put when it does not play;
  - after the last round it goes home.
- It checks schedules against four constraints:
  - structure: valid ids and no team twice in a round;
  - at most k consecutive away games;
  - no immediate reversal of a match in the next round;
  - home/away balance.
- It changes schedules with four neighbourhood moves: swap two rounds, swap two matches, flip a venue, and swap several pairings at once.
- It searches with a one-pass greedy improver, hill climbing and simulated annealing.

`core/tourney_starter.py` and the older `tounrney_starter.py` hold the same
distance-table, round-robin, travel and greedy functions. They are the same
line for line apart from docstrings and type annotations, so each statement below holds for both.

## Layout

| file | module | what it holds |
|---|---|---|
| `wrappers.dfy` | `Wrappers` | `Option` and `Result` |
| `schedule.dfy` | `Schedule` | matches, rounds, schedules, the bye, match and pairing multisets, the slot exchange |
| `distance.dfy` | `Distance` | teams and the distance table |
| `roundrobin.dfy` | `RoundRobin` | the circle method, its closed form and the coverage proof |
| `travel.dfy` | `Travel` | the reference travel definition and the round-by-round evaluator |
| `validators.dfy` | `Validators` | the four checks and their combination |
| `moves.dfy` | `Moves` | the four move primitives |
| `greedy.dfy` | `Greedy` | the greedy improver and the clash counterexample |
| `optimizers.dfy` | `Optimizers` | move proposal, hill climbing, simulated annealing |
| `pipeline.dfy` | `Pipeline` | round robin followed by an optimizer |

Modelling choices:

- Ids are integers, and the bye keeps its sentinel value -1.
- Distances are reals. The floating-point tolerance 1e-6 is the constant `Travel.Eps`.
- "Teams meet once" is stated on `PairBag`, the multiset of matches read without orientation.
- Randomness is a parameter `draws: nat -> Draw`, which gives the numbers drawn in each iteration.
  - Choosing an index below `len` is `x % len`.
  - Sampling two distinct indices takes the second among the remaining ones.
  - The annealing acceptance test is a drawn boolean.
- Each search loop has a reference definition, `Optimizers.ClimbRun` and `Optimizers.AnnealRun`. It runs one iteration after another, and each iteration takes the drawn move kind (`Picked`), the neighbour it yields (`Neighbour`) and the acceptance test. The executed iterations are proved to return exactly the reference run's value.
- The program's exceptions are `Err` values of `OptError`. They are:
  - an empty move list;
  - a flip drawn on an empty schedule;
  - no iteration at all, which leaves the iteration count unbound.

## Model

| member | source | states |
|---|---|---|
| Distance.DistanceMatrix | core/tourney_starter.py:117-124 | the table is n x n with a zero diagonal and the formula's value for the two stadiums everywhere else; it is symmetric when the formula is, and non-negative when the formula is |
| RoundRobin.RoundsAreRotations | tounrney_starter.py:62-85 | round r pairs mirrored positions of the working list after r rotations, so the schedule is the rotation sequence read off round by round |
| RoundRobin.RoundCount | core/tourney_starter.py:158-166 | n - 1 rounds for an even field, n rounds for an odd one, none for no teams |
| RoundRobin.RoundSizes | core/tourney_starter.py:168-174 | every round has floor(n/2) matches: an odd field loses exactly one pair to the bye in each round |
| RoundRobin.NoByeEmitted | core/tourney_starter.py:171-173 | every emitted id is a real team 0..n-1, so the bye never reaches a match |
| RoundRobin.RoundsHaveNoRepeatedTeam | core/tourney_starter.py:166-181 | no team plays twice in any round of the generated schedule |
| RoundRobin.FixedTeamAlternates | core/tourney_starter.py:175-180 | team 0 keeps the first position, so it is at home in every even round and away in every odd round in which it plays |
| RoundRobin.MeetsUnique | core/tourney_starter.py:166-181 | two teams meet in at most one round |
| RoundRobin.MeetsPaired | core/tourney_starter.py:168-178 | teams whose meeting condition holds for round r are paired in round r |
| RoundRobin.EveryPairOnce | core/tourney_starter.py:158-182 | every unordered pair of teams 0..n-1 occurs in exactly one match of the schedule |
| Travel.VenueSpec | core/tourney_starter.py:226-230 | a team's venue in a round is absent exactly when no match lists it, and otherwise is the host of the last match listing it (later matches overwrite earlier ones) |
| Travel.RoundLocations | core/tourney_starter.py:226-230 | the table filled match by match gives each team its venue, or none |
| Travel.PlayRound | core/tourney_starter.py:231-241 | one round moves each team to its venue or leaves it in place, and keeps running total plus remaining tour invariant |
| Travel.EvaluateTravel | core/tourney_starter.py:221-249 | the location-pointer evaluation returns exactly the reference per-team tours (start home, follow venues, stay on a bye, return home) and their sum |
| Travel.IdleTeamStaysHome | core/tourney_starter.py:231-247 | a team that plays no match travels 0 |
| Travel.HomeTeamStaysHome | core/tourney_starter.py:226-247 | a team that only ever hosts travels 0 |
| Travel.TravelNonNegative | core/tourney_starter.py:237-249 | with non-negative distances every per-team travel and the total are non-negative |
| Travel.TwoTeamExample | core/tourney_starter.py:214-219 | one match between two teams 100 apart costs the visitor 200 and the host 0 |
| Validators.ScanMatch | validators.py:47-68 | one match is reported on exactly when it holds an invalid id, plays itself or shares a real team with an earlier match of the round; each report is true of the schedule |
| Validators.ValidateSchedule | validators.py:28-70 | passes exactly on a non-empty schedule whose ids are all valid and whose rounds have no repeated team; an empty schedule gets the single empty-schedule reason; every reason is true |
| Validators.IsAway | validators.py:110-119 | a team is away in a round exactly when the first match listing it has it as visitor |
| Validators.MaxId | validators.py:89-98 | the team count is one more than the largest id listed, which every id is bounded by and some match lists |
| Validators.StreakStep | validators.py:121-132 | given the streak so far, a round completes an overlong away run exactly when it is away and the streak is already k long |
| Validators.StreakIsMaximalRun | validators.py:121-129 | the streak at a round is a maximal run of away rounds ending there: away in each of its rounds, and preceded by the first round or a round not away |
| Validators.CounterStep | validators.py:121-138 | the scan's counter before a round is the streak so far modulo k + 1: an away round advances it, wrapping to 0 when a report falls due, and any other round clears it |
| Validators.ScanAways | validators.py:104-138 | one team's reports are exactly the reports due round by round: with k >= 0, one per completed block of k + 1 away rounds within a streak, counting k + 1 games and starting at the block's first round, because the counter restarts after each report; with k < 0, one per round; so the scan reports nothing exactly when no k + 1 consecutive rounds are all away, and each report names such a run |
| Validators.ReportJustified | validators.py:132-136 | a report due at a round counts k + 1 games and names the start of k + 1 away rounds ending at that round |
| Validators.AwayReportsJustified | validators.py:104-138 | every report due for a non-negative limit names a real run of k + 1 away rounds |
| Validators.NoReportsNoRun | validators.py:104-138 | for a non-negative limit no report falls due over a prefix exactly when no k + 1 consecutive rounds of it are all away |
| Validators.NegativeLimitReportsAll | validators.py:132-138 | with a negative limit every round is reported |
| Validators.DoubleRunTwoReports | validators.py:132-138 | a maximal run of exactly 2(k + 1) away rounds from round a gives two reports of k + 1 games, starting at a and at a + k + 1, and no other report |
| Validators.CheckMaxConsecutiveAways | validators.py:84-140 | the reasons are the reports due for each team below the team count, team by team; the check passes exactly when no such team has more than k consecutive away rounds; every reason names a real run |
| Validators.CheckRepeaters | validators.py:153-178 | passes exactly when no real match is followed in the next round by its reversal; every reason names such a pair |
| Validators.CountRound | validators.py:204-209 | adding a round's matches brings each team's home and away counters to the counts over the longer match list |
| Validators.CheckHomeAwayBalance | validators.py:195-220 | passes exactly when every team 0..n-1 hosts and visits within one game of each other; each reason carries the true counts and difference |
| Validators.BalanceDependsOnMatches | validators.py:201-213 | balance depends only on the multiset of matches, not on how they are placed in rounds |
| Validators.ValidateAll | core/optimizers.py:214-230 | passes exactly when all four constraints hold (away limit 3); each reason is justified by the check that produced it, and a structural failure yields only structural reasons |
| Moves.SwapRounds | core/optimizers.py:42-47 | feasible exactly when both round indices are in range; then the two rounds are exchanged and nothing else changes; otherwise the schedule is returned unchanged |
| Moves.SwapRoundsInvolution | core/optimizers.py:45-46 | swapping the same two rounds twice restores the schedule |
| Moves.SwapRoundsKeeps | core/optimizers.py:36-38 | reordering rounds keeps every match and every pairing, and keeps rounds free of repeated teams |
| Moves.SwapMatches | core/optimizers.py:73-107 | feasible exactly when the indices are in range and no real team of either match is listed by another match of the round it enters; then exactly the two slots are exchanged |
| Moves.SwapMatchesKeepsBags | core/optimizers.py:104-107 | exchanging two matches keeps the multiset of matches and of pairings |
| Moves.SwapMatchesKeepsDistinct | core/optimizers.py:58-59 | a feasible exchange keeps every round free of repeated teams |
| Moves.SwapMatchesSameRound | core/optimizers.py:85-102 | within one round the exchange is feasible only when it changes nothing |
| Moves.SwapMatchesInvolution | core/optimizers.py:73-107 | on schedules without repeated teams a feasible exchange is undone by the same exchange |
| Moves.FlipVenue | core/optimizers.py:127-134 | feasible exactly when the indices are in range; then that one match has home and away exchanged and nothing else changes |
| Moves.FlipVenueInvolution | core/optimizers.py:131-134 | flipping the same match twice restores the schedule |
| Moves.FlipVenueKeeps | core/optimizers.py:123-125 | flipping keeps every pairing and keeps rounds free of repeated teams |
| Moves.SwapPairings | core/optimizers.py:158-205 | feasible exactly when both rounds exist, every listed index is below its round's length and no moving real team is listed by a staying match of the other round; then the listed exchanges are applied in order |
| Moves.SwapPairingsKeepsBags | core/optimizers.py:200-205 | exchanging several matches keeps the multiset of matches and of pairings |
| Moves.SwapPairingsSingle | core/optimizers.py:158-205 | with one listed pair the move is exactly the two-match exchange |
| Moves.SwapPairingsEmpty | core/optimizers.py:161-205 | with nothing listed the move succeeds and changes nothing |
| Moves.ApplySwapsClosedForm | core/optimizers.py:201-203 | with distinct indices on each side, each listed slot receives its partner's match, and every unlisted slot and every other round is untouched |
| Moves.SwapPairingsKeepsDistinct | core/optimizers.py:196-198 | between two different rounds, with no index listed twice on a side, a feasible move keeps every round free of repeated teams |
| Greedy.BeforeTotal | core/tourney_starter.py:307-311 | the scan order over candidates is a strict total order |
| Greedy.ScanRow | core/tourney_starter.py:311-325 | the inner scan stops at the first match of round r2 whose exchange improves by more than the tolerance, or reports that none does |
| Greedy.GreedyPass | core/tourney_starter.py:291-333 | the result is the first improving exchange in scan order applied, or the input unchanged with no improvement; matches are kept, an improvement lowers travel by more than the tolerance, and the clash-checked pass keeps rounds free of repeated teams |
| Greedy.FirstImprovingUnique | core/tourney_starter.py:306-331 | the scan's choice is determined: at most one candidate is the first improving one |
| Greedy.PassOutcomeDetermined | core/tourney_starter.py:320-331 | when an improving candidate exists, the pass's result is that exchange |
| Greedy.UncheckedPassBreaksRounds | core/tourney_starter.py:309-321 | on rounds [(0,1)] and [(2,3),(1,0)] with unit distances the unchecked scan takes an exchange after which team 0 plays twice in a round |
| Greedy.CheckedPassSkipsClash | core/tourney_starter.py:312-314 | the disjointness test admits that exchange, while the clash test of the match-swap move refuses it |
| Optimizers.SampleTwo | core/optimizers.py:299 | two distinct indices below the length are drawn |
| Optimizers.SampleTwoReachesAll | core/optimizers.py:299 | every ordered pair of distinct indices can be drawn |
| Optimizers.ProposeMove | core/optimizers.py:292-320 | a proposal fails exactly for a flip on an empty schedule; only a match exchange can come back infeasible |
| Optimizers.ProposalKeeps | core/optimizers.py:292-320 | every proposed schedule has the same rounds count and pairings as the current one and keeps rounds free of repeated teams |
| Optimizers.Neighbour | core/optimizers.py:292-327 | the neighbour an iteration evaluates keeps the round count, the pairings, the id range and round distinctness, and satisfies every constraint when validation is on |
| Optimizers.TryMove | core/optimizers.py:292-332 | an iteration fails exactly when the drawn kind is a flip on an empty schedule; it evaluates exactly when the drawn move was made, is feasible and passes validation if on, and then returns that schedule with its true travel; otherwise it skips |
| Optimizers.ClimbStep | core/optimizers.py:322-345 | given the trial `TryMove` made from the current schedule, a neighbour is taken exactly when it lowers the travel by more than the tolerance: it becomes the current and the best schedule, one improvement is recorded and the rejection counter is reset; a rejected neighbour adds one to the counter; a skipped trial changes nothing and a failed one raises its error; the state stays sound, and a changed current schedule is better by more than the tolerance |
| Optimizers.RecordedStep | core/optimizers.py:341-345 | an iteration that keeps the improvements or records one at its own index leaves every recorded index below the next iteration |
| Optimizers.ClimbNextShape | core/optimizers.py:292-345 | one hill-climbing iteration fails only for a flip drawn on an empty schedule with the flip in the move list; otherwise it keeps the round count, and either records no improvement and adds at most one to the rejection counter, or records one improvement at its own index and resets the counter |
| Optimizers.ClimbOnSound | core/optimizers.py:336-345 | the acceptance test applied to a held neighbour keeps a sound state sound, with the current schedule the best |
| Optimizers.ClimbNextSound | core/optimizers.py:322-345 | one hill-climbing iteration from a sound state leaves it sound, with the current schedule still the best |
| Optimizers.ClimbIteration | core/optimizers.py:292-345 | one executed iteration (the trial `TryMove` makes, then the acceptance test `ClimbStep` applies) yields exactly the reference step `ClimbNext` for its draw: a flip drawn on an empty schedule fails, no neighbour changes nothing, and a neighbour is taken exactly when it lowers the travel by more than the tolerance; the state stays sound, with the current schedule the best |
| Optimizers.ClimbFrom | core/optimizers.py:288-345 | the iterations from index i yield exactly the reference run `ClimbRun`: the run stops at max_iters, or before iteration i once max_no_improve rejected moves in a row are counted, reporting i + 1 as the last loop index plus one; an empty move list fails with NoMoves; otherwise draw i decides iteration i |
| Optimizers.ClimbRun | core/optimizers.py:288-354 | the reference hill-climbing run reports an iteration count between the start index and max_iters, beyond the start index when iterations remain, as the last loop index plus one |
| Optimizers.ClimbRunFails | core/optimizers.py:288-320 | a hill-climbing run fails only with NoMoves on an empty move list or for a flip on an empty schedule with the flip in the move list |
| Optimizers.ClimbRunRecorded | core/optimizers.py:288-354 | a successful hill-climbing run records every improvement before the iteration count it reports |
| Optimizers.QuietStep | core/optimizers.py:337-345 | an iteration keeps the rejection counter within the iterations since the last recorded improvement |
| Optimizers.ClimbRunQuiet | core/optimizers.py:288-345 | a hill-climbing run stops before max_iters only after at least max_no_improve iterations since the last improvement |
| Optimizers.ClimbRunSound | core/optimizers.py:288-345 | a hill-climbing run from a sound state ends sound, with the current schedule the best |
| Optimizers.HillClimb | core/optimizers.py:271-356 | when max_iters > 0 the result is exactly the reference run `ClimbRun` from the input and its travel, logged with the final iteration count; the run fails with no iteration exactly when max_iters <= 0; when it iterates and max_no_improve > 0, an empty move list fails with NoMoves and a flip-only move list on an empty schedule fails with FlipOnEmptySchedule; it succeeds whenever it iterates with a non-empty move list on a non-empty schedule or without the flip move; max_no_improve <= 0 stops at once with the input; the best keeps all pairings, is the input exactly when no improvement is recorded and otherwise beats it by more than the tolerance, satisfies the constraints when validation is on, and is logged with its score; recorded improvements precede the logged count; an early stop comes only after at least max_no_improve iterations since the last improvement |
| Optimizers.CoolStep | core/optimizers.py:415-481 | after i coolings the temperature is T0 * decay^i |
| Optimizers.AnnealStep | core/optimizers.py:458-478 | given the trial `TryMove` made from the current schedule, an evaluated neighbour is accepted exactly when it is better, or the temperature is positive and it is equally good or the drawn test passes; an accepted neighbour becomes the current schedule, and also the best, with one improvement recorded, exactly when it beats the best by more than the tolerance; otherwise nothing changes; a skipped trial changes nothing and a failed one raises its error; the best score never rises, and a changed best is better by more than the tolerance |
| Optimizers.AnnealNextShape | core/optimizers.py:419-478 | one annealing iteration fails exactly when a flip is drawn on an empty schedule, and the flip is then in the move list; otherwise it keeps the round count and records at most one improvement, at its own index |
| Optimizers.AnnealOnSound | core/optimizers.py:468-478 | the acceptance test applied to a held neighbour keeps a sound state sound; the best score never rises, and a changed best is better by more than the tolerance |
| Optimizers.AnnealNextSound | core/optimizers.py:419-478 | one annealing iteration from a sound state leaves it sound; the best score never rises, and a changed best is better by more than the tolerance |
| Optimizers.AnnealIteration | core/optimizers.py:419-478 | one executed iteration (the trial `TryMove` makes, then the acceptance test `AnnealStep` applies) yields exactly the reference step `AnnealNext` for its draw and temperature: a flip drawn on an empty schedule fails, no neighbour changes nothing, and a neighbour goes through the acceptance test; the state stays sound |
| Optimizers.AnnealFrom | core/optimizers.py:417-481 | the iterations from index i at temperature T yield exactly the reference run `AnnealRun`: every iteration, skipped or not, cools once; an empty move list fails with NoMoves; draw i decides iteration i |
| Optimizers.AnnealRun | core/optimizers.py:417-481 | the reference annealing run keeps the number of rounds of the current schedule and its ids within the field |
| Optimizers.AnnealRunShape | core/optimizers.py:417-481 | an annealing run fails only with NoMoves on an empty move list or for a flip on an empty schedule; started at T0 * decay^i it ends at T0 * decay^max_iters, with every improvement recorded before max_iters |
| Optimizers.AnnealRunSound | core/optimizers.py:417-481 | an annealing run from a sound state ends sound, with a best score no higher than the state's |
| Optimizers.SimulatedAnnealing | core/optimizers.py:398-493 | when max_iters > 0 the result is exactly the reference run `AnnealRun` from the input, its travel and T0, logged with max_iters and the final temperature; the run fails with no iteration exactly when max_iters <= 0; when it iterates, an empty move list fails with NoMoves and a flip-only move list on an empty schedule fails with FlipOnEmptySchedule; it succeeds whenever it iterates with a non-empty move list on a non-empty schedule or without the flip move; the best schedule keeps all pairings, is the input exactly when no improvement is recorded and otherwise beats it by more than the tolerance, and satisfies the constraints when validation is on; the log reports max_iters iterations, improvements recorded before that, and the final temperature T0 * decay^max_iters |
| Pipeline.RoundRobinWellFormed | core/tourney_starter.py:158-182 | the generated schedule passes the structural check exactly when there is at least one team |
| Pipeline.KeepsCoverage | core/optimizers.py:288-345 | whatever an optimizer returns pairs every two teams exactly as often as its input did |
| Pipeline.OptimizedRoundRobin | core/optimizers.py:417-481 | optimizing a generated round robin leaves a single round robin with no team twice in a round |

## Left out

- The great-circle distance is left out. It uses trigonometry in floating point, so `Distance.DistanceMatrix` takes the formula as a parameter. Symmetry and non-negativity are assumptions on that parameter.
- Floating-point rounding is left out. Travel is added in exact reals. The 1e-6 tolerance is kept as `Travel.Eps`.
- The exponential acceptance probability of simulated annealing is left out, together with the generator behind `random`. The test enters as the drawn boolean `coin`.
- Elapsed time in the optimizer logs is left out. It is a clock reading.
- Team generation is left out. It relies on randomness and floating point.
- The exact solver, the user interfaces, the visualisation, the experiments and the example run are left out. They are callers of the core.
- The `isinstance` and tuple-shape checks of the structural validator are left out. The types of the model already exclude those inputs.
- The `find_match` helper and the `max_tour_len` parameter of the greedy improver are left out. Neither affects the result.
- Moves.SwapPairings: negative match indices, which the move lets through to Python's from-the-end indexing, are not modelled; match indices are `nat`.
- Moves.SwapPairingsKeepsDistinct: stated only for two different rounds with no index listed twice on a side. A repeated index makes the sequential exchanges undo each other.
- Travel.EvaluateTravel: requires every id to be a team in [0, n). The evaluator would raise an index error on larger ids, and would read the bye as team n - 1 through negative indexing.
- Optimizers.HillClimb and Optimizers.SimulatedAnnealing: they inherit that requirement on the input schedule, because both evaluate it before the first iteration.
- Validators.CheckHomeAwayBalance: requires ids not below -1. The validator would count such ids against teams at the end of its lists through negative indexing.
- Optimizers.HillClimb: an arbitrary move callable is a single `OtherMove` kind that is always skipped. A move callable is otherwise opaque.
- Optimizers.SimulatedAnnealing: the acceptance of a worse schedule is the drawn boolean, not a comparison with e^(-delta/T). A better or, at a positive temperature, equally good schedule is always accepted, as in the program.
- Greedy.GreedyPass and Greedy.ScanRow: require every id to be a team below the size of the distance table, as `Travel.EvaluateTravel` does, because both evaluate travel. The improver would raise an index error on larger ids, and would read negative ids from the end of the table.
- The `moves=None` default of both optimizers is left out as a default. The move list is an explicit parameter, and the default list is `[SwapRoundsMove, SwapMatchesMove, FlipVenueMove]`.
- The `random_seed` argument of both optimizers is left out. Seeding only fixes which numbers are drawn, and every sequence of draws is covered by the `draws` parameter.

## Findings

| source | as written | input that shows it | evidently intended | confidence | as-written member | corrected member |
|---|---|---|---|---|---|---|
| core/tourney_starter.py:309-321 | the greedy improver admits an exchange whenever the two matches share no id, without looking at the other matches of the two rounds | rounds [(0,1)] and [(2,3),(1,0)] with 4 teams at unit distances: exchanging (0,1) with (2,3) lowers travel from 6 to 4 and is taken, after which team 0 plays twice in round 1 | no team appears twice in the same round, as the comment above the loop says; the match-swap move's clash test does this | high, not executed | Greedy.UncheckedPassBreaksRounds | Greedy.GreedyPass |

`Greedy.GreedyPass` with `checked = false` models the loop as written.
With `checked = true` it uses the clash test of `Moves.SwapMatches`, and its
contract proves that such a pass keeps every round free of repeated teams.
`Greedy.CheckedPassSkipsClash` shows that the corrected test refuses the
exchange above.
