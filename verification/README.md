# Verified model of MiniSat 2.2.0 and of two cprover fixpoint analyses

The project models the MiniSat 2.2.0 solver that the repository carries, and the dominator and constant propagation
analyses of cprover, and proves what they promise. Loops over mutable state are methods over class fields or arrays;
what each method keeps is stated by predicates over values, and the lemmas about those values do the proving.

**The solver** (`SolverTypes`, `Trail`, `UnitClosure`, `Watches`, `Propagation`, `UnitPropagation`, `Backtracking`,
`ReasonCones`, `ConflictAnalysis`, `ImplicationPoints`, `Database`, `Soundness`, `Verdicts`, `AddingClauses`,
`Assuming`, `Reduction`, `SearchProgress`, `Restarts`, `Solver`). The state is the trail with its decision levels, the
clause region, watch lists with blockers and lazy deletion, reasons, marks and the decision heap. The invariant of the
watch lists is level-aware: once a false watch has been dequeued, the clause has a literal (its other watch or the
blocker) that is true at a level no higher than that of the false watch; this is why `cancelUntil` need not touch a
watch list. On top of it: propagation is exactly the unit closure of the trail; what a variable was derived from is its
cone, the least set closed under reasons, and in these terms conflict analysis finds the first implication point, drops
exactly the redundant literals and names exactly the assumptions involved; every learnt clause follows from the formula
and is unit after the backjump, every verdict of `solve_` is right, and without a budget `solve_` always reaches one.

**The preprocessor** (`Elimination`, `ElimStack`, `Subsumption`, `Irredundance`, `Merging`, `SimpDatabase`,
`Eliminating`, `Costs`, `SimpSolver`, `Preprocessing`). Occurrence lists, occurrence counts and the elimination stack
change together with the clauses. The remaining clauses are satisfiable exactly if the formula is, and walking the flat
stack backwards turns a model of the rest into a model of the formula. Unless it is interrupted, `eliminate` ends with
every variable that was a candidate eliminated, assigned, frozen or over the limits (`Steady` says what length limits
leave open), and with no clause that another one subsumes or strengthens, but for those that were too long.
`SolveSimplified` composes it all: freeze the assumptions, eliminate, solve what is left, extend the model, unfreeze,
with the verdict on the formula as it was given.

**Memory and containers** (`ClauseGc`, `Heap`, `Sort`). The collector copies clauses between integer-addressed regions
and leaves forwarding pointers; the new heap is isomorphic to the reachable old one. The heap keeps its order and the
inverse index; the sort returns a sorted rearrangement for every strict weak order.

**DIMACS** (`Dimacs`, `DimacsText`, `DimacsWriter`). The reader accepts exactly the texts of a grammar with comments,
white space and signs, and reads them as they mean. The writer's text, read by the reader, is the written formula under
an injective, dense renaming of its variables (CNF format section of "Satisfiability: Suggested Format").

**Analyses** (`Dominators`; `GotoPrograms`, `ConstantDomain`, `ConstantPropagator`, `ConstantPrecision`). The dominator
worklist ends with exactly the sets that the paths define. The abstract interpreter over the constant domain ends below
every solution, its states describe every run and know every constant that known constants justify; rewriting the
program with them keeps every run.

## Where code and promise part

* A conditional `goto` whose target is its own fall-through: the edge is taken for the branch that is taken, so a guard
  that folds to false makes the next location unreachable although runs pass through it. `TransferCoversExactly` says
  for every instruction and state when the transfer function covers all steps, and it is exactly when this does not
  happen; `OwnFallThroughIsUnsound` runs the analysis on such a program, for any simplifier that leaves false alone:
  its result calls a location unreachable that a run reaches.
* With an unknown rounding mode, four modes are tried. `EvaluationKeepsValue` therefore asks that
  `__CPROVER_rounding_mode` be known or one of the four, and `ModeConditionIsExact` proves that this is the exact
  condition: in any other mode some expression and value-preserving simplifier give another value
  (`FifthModeIsMisread`).
* The header that `toDimacs` prints counts the variables named so far, before the assumptions are named. `ToDimacs`
  proves that the count is right exactly if every assumption is over a variable of the remaining clauses; the clause
  count is always right. `HeaderCountsTooFew` is an output that names one variable under a header with none. The reader
  grows its variables while reading, so what is read back does not depend on it.
* A model found by `search` covers the decision variables only. `VerdictOk` promises for `l_True` that no clause of the
  formula is falsified, and that every completion satisfies each clause with at most one variable that is no decision
  variable. `OpenVariablesMayFail` proves that this condition, over formula and decision variables alone, is exact for
  what the search looks at, tautologies aside; `TwoOpenVariables` is the clause of two free literals.

* A limit on the length of resolvents makes elimination miss candidates: `strengthenClause` looks again only at the
  variable whose literal went away, though the other variables of the clause may now fit. `ShorteningMayFit` is such a
  clause. `Eliminate` proves that only a candidate in a clause that is new or shorter than at the start can be missed,
  and none without such a limit, because a count over the limit stays over (`ShorteningKeepsTooMany`).

## Model

| member | source | states |
|---|---|---|
| Solvers.Solver.Propagate | trunk/minisat-2.2.0/core/Solver.cc:449-508 | literals of clauses are only reordered and the trail only grows by literals with reasons; there is a conflict exactly if naive unit propagation has one, the clause returned is then live and entirely false; without one the trail is the least closed set, and the watch lists serve it |
| Solvers.Solver.PropagateLit | trunk/minisat-2.2.0/core/Solver.cc:455-501 | one dequeued literal: its list is compacted in place, watches move, and both the finished and the interrupted scan leave lists from which the invariant can go on |
| UnitPropagation.PropagationIsComplete | trunk/minisat-2.2.0/core/Solver.cc:449-508 | if the queue is empty no live clause is false or unit with an unassigned literal, whatever the two watches are |
| UnitPropagation.PropagationIsUnitClosure | trunk/minisat-2.2.0/core/Solver.cc:449-508 | without a conflict, the trail is the least set that contains the old trail and is closed under naive unit propagation, and it contains no complementary literals: naive propagation finds no conflict either |
| UnitPropagation.ConflictIsUnitConflict | trunk/minisat-2.2.0/core/Solver.cc:487-493 | if watched propagation reports a conflict, so does naive unit propagation: every closed set contains complementary literals |
| UnitPropagation.FalseWatchIsServed | trunk/minisat-2.2.0/core/Solver.cc:461-478 | a clause with a false watch that has been dequeued has a true literal |
| Watches.MoveKeepsServed | trunk/minisat-2.2.0/core/Solver.cc:480-486 | moving a watch to a literal that is not false keeps the level-aware watch invariant |
| Backtracking.CancelKeepsServed | trunk/minisat-2.2.0/core/Solver.cc:207-218 | undoing levels keeps the watch invariant with the same watch lists |
| Backtracking.CancelRestoresIdle | trunk/minisat-2.2.0/core/Solver.cc:207-218 | after a conflict, undoing a level gives back lists that serve the remaining trail, although the scan was cut short |
| Solvers.Solver.CancelUntil | trunk/minisat-2.2.0/core/Solver.cc:207-218 | the trail is cut at the level, the assignments above it are gone, and their decision variables are in the heap again |
| Solvers.Solver.FirstUip | trunk/minisat-2.2.0/core/Solver.cc:272-302 | the literal found is the first unique implication point from the top of the stack, none above it is one, and the rest are exactly the false literals of lower levels in the cone of the conflict then; the clause of both follows from the formula |
| ImplicationPoints.UipAt | trunk/minisat-2.2.0/core/Solver.cc:290-302 | while variables of the current level are resolved away, exactly taking the last open literal reaches a unique implication point |
| Solvers.Solver.LitRedundant | trunk/minisat-2.2.0/core/Solver.cc:361-387 | true exactly if all that the literal was derived from, down to the marked variables, was propagated at levels that occur modulo 32 in the clause; then exactly this cone is marked in addition, and a failed call leaves marks and the clear list as they were |
| ReasonCones.SharedMarksKeepAnswers | trunk/minisat-2.2.0/core/Solver.cc:361-387 | marks left by earlier successful calls change no later answer: redundancy is the same as with the marks of the clause alone |
| ConflictAnalysis.MinimizedIsImplied | trunk/minisat-2.2.0/core/Solver.cc:304-335 | by induction on trail position, literals whose marks are justified by the kept ones can be dropped from an implied clause |
| Solvers.Solver.Minimize | trunk/minisat-2.2.0/core/Solver.cc:304-335 | the literals kept are, in order, exactly those that are not redundant with respect to the clause itself, deeply or locally as the mode says; the clause stays implied by the formula |
| Solvers.Solver.FindBacktrackLevel | trunk/minisat-2.2.0/core/Solver.cc:338-351 | the same literals, a literal of the highest remaining level second, and that level is the one to go back to |
| Solvers.Solver.Analyze | trunk/minisat-2.2.0/core/Solver.cc:264-356 | the learnt clause is the complement of the first implication point and the irredundant rest; it follows from the formula, is false, has one literal of the current level, first, and is unit after the backjump; all marks are cleared |
| Solvers.Solver.AnalyzeFinal | trunk/minisat-2.2.0/core/Solver.cc:399-426 | the clause is the given literal and the complements of exactly the decisions in its cone of reasons, once each; it follows from the formula, all its literals are negated assumptions, and all marks are cleared |
| ConflictAnalysis.FinalIsCore | trunk/minisat-2.2.0/core/Solver.cc:411-426 | once the stack is done, the marked variables are closed under reasons, so they are the whole cone |
| Trails.EnqueueKeepsTrail | trunk/minisat-2.2.0/core/Solver.cc:429-434 | an unassigned literal put on the trail is true at the current level; levels, positions and all earlier literals stand |
| AddingClauses.SimplifyClause | trunk/minisat-2.2.0/core/Solver.cc:137-145 | one pass over the sorted clause detects every true literal and every tautology, and else keeps exactly the unassigned literals, once each |
| Solvers.Solver.AddClause | trunk/minisat-2.2.0/core/Solver.cc:132-159 | the clause joins the formula and the database still has exactly its models; a trivial clause changes nothing, an empty rest refutes, a single open literal is propagated with a refutation exactly on conflict, and a longer rest is stored; ok is false only if the formula is unsatisfiable |
| AddingClauses.AddStored | trunk/minisat-2.2.0/core/Solver.cc:151-156 | storing and attaching the reduced clause keeps the whole database invariant for the formula with the original clause |
| AddingClauses.LearnClause | trunk/minisat-2.2.0/core/Solver.cc:629-641 | storing, attaching and asserting a learnt clause keeps the whole database invariant |
| Solvers.Solver.NewVar | trunk/minisat-2.2.0/core/Solver.cc:114-129 | the new variable is unassigned and everything else keeps its meaning |
| Database.AttachKeepsLists | trunk/minisat-2.2.0/core/Solver.cc:162-168 | the lists still hold, of every live clause, its first two literals' watchers and no others, with the new clause among them |
| Solvers.Solver.Clean | trunk/minisat-2.2.0/core/SolverTypes.h:299-308 | cleaning drops exactly the watchers of deleted clauses |
| Solvers.Solver.RemoveClause | trunk/minisat-2.2.0/core/Solver.cc:188-195 | lazy removal marks one clause and leaves lists that agree with what is left; the reason of a locked clause is dropped |
| Solvers.Solver.IsLocked | trunk/minisat-2.2.0/core/Solver.h:316-316 | true exactly if the clause is the reason of its first literal |
| Solvers.Solver.RemoveSatisfied | trunk/minisat-2.2.0/core/Solver.cc:545-557 | keeps exactly the unsatisfied clauses in order, and deletes the others |
| Solvers.Solver.ReduceDB | trunk/minisat-2.2.0/core/Solver.cc:519-542 | in the order of activity, a learnt clause is dropped exactly if it is longer than two, not a reason, and in the lower half or below the limit; nothing else changes |
| Reduction.LessIsStrictWeak | trunk/minisat-2.2.0/core/Solver.cc:519-524 | the order used for sorting learnt clauses is a strict weak order for all activities |
| Reduction.SortedIsByActivity | trunk/minisat-2.2.0/core/Solver.cc:519-524 | sorted by that order means: long clauses first, less active before more active, binary ones last |
| Solvers.Solver.Simplify | trunk/minisat-2.2.0/core/Solver.cc:577-598 | root propagation; then, exactly if there are new root literals and the propagation allowance since the last sweep is used up, removal of exactly the satisfied clauses and a new allowance; false means that the formula is unsatisfiable |
| Solvers.Solver.PickBranchLit | trunk/minisat-2.2.0/core/Solver.cc:225-244 | no literal is returned only if every decision variable is assigned, because the heap always holds all unassigned ones |
| Solvers.Solver.RebuildOrderHeap | trunk/minisat-2.2.0/core/Solver.cc:559-566 | the heap holds exactly the unassigned decision variables |
| SearchProgress.DecisionMakesProgress | trunk/minisat-2.2.0/core/Solver.cc:672-703 | a decision strictly decreases the distance of the vector of literal counts per level to its bound |
| SearchProgress.BackjumpMakesProgress | trunk/minisat-2.2.0/core/Solver.cc:629-641 | so does a backjump with an asserted literal, although clauses may be deleted |
| SearchProgress.WeightGrows | trunk/minisat-2.2.0/core/Solver.cc:622-704 | a lexicographically larger vector of literal counts has a larger number |
| Solvers.Solver.Search | trunk/minisat-2.2.0/core/Solver.cc:614-705 | search ends; true means that all decision variables are assigned and nothing is left to propagate, false comes with a final conflict that names exactly the decisions involved or with a refuted formula, and it ends without verdict only after at least as many conflicts as the limit, which then is below the progress bound, or out of budget |
| Restarts.Luby | trunk/minisat-2.2.0/core/Solver.cc:734-748 | the loops return the base to the power of that index of the Luby sequence, as defined by its finite subsequences |
| Restarts.LimitsGrow | trunk/minisat-2.2.0/core/Solver.cc:772-778 | by either restart scheme some restart limit exceeds any given bound |
| Solvers.Solver.RunSearches | trunk/minisat-2.2.0/core/Solver.cc:772-778 | the restart loop ends, and without a budget only with a verdict; the limits it searches with are those of the restart scheme, one after the other |
| Solvers.Solver.Solve | trunk/minisat-2.2.0/core/Solver.cc:751-796 | a model that satisfies the assumptions, falsifies no clause of the formula and, however completed, satisfies each clause with at most one non-decision variable; or the proof that both together have none, with a conflict clause over negated assumptions; without budget always one of the two; back at the root |
| Verdicts.FullTrailIsAModel | trunk/minisat-2.2.0/core/Solver.cc:784-787 | each completion of a trail that assigns all decision variables satisfies every clause with at most one other variable |
| Verdicts.FullTrailIsConsistent | trunk/minisat-2.2.0/core/Solver.cc:606-611 | a trail that assigns all decision variables falsifies no clause of the formula, whatever the decision variables are |
| Verdicts.OpenVariablesMayFail | trunk/minisat-2.2.0/core/Solver.cc:606-611 | an assignment of all decision variables that leaves nothing to propagate in a clause can be completed to falsify it exactly if the clause is no tautology and has two variables that are no decision variables |
| Verdicts.TwoOpenVariables | trunk/minisat-2.2.0/core/Solver.cc:606-611 | the clause of two positive literals, neither over a decision variable, may fail |
| Verdicts.DecidedModelIsAModel | trunk/minisat-2.2.0/core/Solver.cc:784-787 | if all variables of the formula are decision variables, a model reported satisfies all of it |
| Verdicts.FinalConflictIsUnsat | trunk/minisat-2.2.0/core/Solver.cc:675-688 | an implied clause over negated assumptions refutes the assumptions |
| Subsumption.FilterIsSafe | trunk/minisat-2.2.0/core/SolverTypes.h:154-159 | if all variables of one clause occur in the other, the 32-bit abstraction lets the pair through |
| Subsumption.Subsumes | trunk/minisat-2.2.0/core/SolverTypes.h:367-396 | the answer is right in all cases: subset, subset up to exactly one flipped literal, or neither |
| Subsumption.StrengthenedIsImplied | trunk/minisat-2.2.0/core/SolverTypes.h:398-402 | the strengthened clause follows from the two clauses |
| SimpDatabase.CleanKeepsIndex | trunk/minisat-2.2.0/core/SolverTypes.h:299-308 | after cleaning, an occurrence list holds exactly the live clauses over the variable, once each |
| SimpDatabase.StoreKeepsIndex | trunk/minisat-2.2.0/simp/SimpSolver.cc:148-168 | adding a clause keeps lists and counts exact |
| SimpDatabase.RemoveKeepsIndex | trunk/minisat-2.2.0/simp/SimpSolver.cc:175-187 | removing a clause with smudged lists keeps counts exact and the lists exact up to deleted clauses |
| SimpDatabase.ShortenKeepsIndex | trunk/minisat-2.2.0/simp/SimpSolver.cc:203-209 | removing a literal keeps lists and counts exact |
| SimpSolvers.SimpSolver.Lookup | trunk/minisat-2.2.0/core/SolverTypes.h:272-272 | the list looked up is exact |
| SimpSolvers.SimpSolver.RemoveClause | trunk/minisat-2.2.0/simp/SimpSolver.cc:175-187 | all indexes stay right, and the models are those of the rest that satisfy the clause |
| SimpSolvers.SimpSolver.UnitPropagate | trunk/minisat-2.2.0/simp/SimpSolver.cc:305-322 | the naive loop reaches the least closed set, and reports a conflict exactly if that set is contradictory; then there is no model |
| SimpDatabase.PropagatedIsClosure | trunk/minisat-2.2.0/simp/SimpSolver.cc:305-322 | literals assigned only by unit steps, up to a point where no live clause is false or unit, are the least closed set |
| SimpSolvers.SimpSolver.AddToDb | trunk/minisat-2.2.0/simp/SimpSolver.cc:135-172 | the models are the old ones that satisfy the clause, and false means that there are none; a trivial clause changes nothing, a single open literal is propagated with failure exactly on conflict, and a longer rest is stored and queued |
| SimpSolvers.SimpSolver.ImpliedByPropagation | trunk/minisat-2.2.0/simp/SimpSolver.cc:305-322 | true exactly if the clause has no root-true literal and no complementary pair and unit propagation from the complements of its literals is contradictory; the clause then follows |
| SimpSolvers.SimpSolver.StrengthenClause | trunk/minisat-2.2.0/simp/SimpSolver.cc:190-213 | the clause is queued and loses the literal, or becomes a root literal; the models stay, and false means that there are none |
| SimpSolvers.SimpSolver.TrySubsume | trunk/minisat-2.2.0/simp/SimpSolver.cc:371-386 | one pair of clauses: the models stay, and afterwards the one is of no more use on the other |
| SimpSolvers.SimpSolver.ScanCandidates | trunk/minisat-2.2.0/simp/SimpSolver.cc:360-387 | although the list shrinks while it is scanned, all candidates below the size limit are tried: the clause then subsumes and strengthens no live clause but those that were too long at the start |
| Irredundance.TriedNext | trunk/minisat-2.2.0/simp/SimpSolver.cc:381-385 | looking at the same index again after the list has lost its entry misses no candidate |
| Irredundance.TriedAll | trunk/minisat-2.2.0/simp/SimpSolver.cc:358-368 | it is enough to look through the list of one variable of the clause |
| SimpSolvers.SimpSolver.BackwardSubsumptionCheck | trunk/minisat-2.2.0/simp/SimpSolver.cc:326-390 | it ends, the models stay and false means that there are none; without an interrupt, no clause subsumes or strengthens another afterwards, clauses too long for the limit aside, given that this held for the clauses not queued |
| Irredundance.GatheredIsMinimal | trunk/minisat-2.2.0/simp/SimpSolver.cc:277-302 | queueing the clauses over touched variables queues all that could subsume or strengthen a new clause |
| SimpSolvers.SimpSolver.GatherTouchedClauses | trunk/minisat-2.2.0/simp/SimpSolver.cc:277-302 | every live clause over a touched variable is queued, and no variable is touched any more |
| SimpSolvers.SimpSolver.Asymm | trunk/minisat-2.2.0/simp/SimpSolver.cc:393-417 | the models stay; the clause is shortened exactly if it is live, not satisfied, and the complements of its other unassigned literals propagate to a contradiction; otherwise nothing changes |
| SimpSolvers.SimpSolver.AsymmVar | trunk/minisat-2.2.0/simp/SimpSolver.cc:420-434 | the models stay and false means that there are none; if any clause of the variable can be shortened, the database gets smaller |
| Merging.Merge | trunk/minisat-2.2.0/simp/SimpSolver.cc:217-244 | true exactly if the resolvent is no tautology, and then the result is the resolvent |
| Merging.MergeSize | trunk/minisat-2.2.0/simp/SimpSolver.cc:248-274 | the same answer, and the length of that resolvent |
| Merging.ResolventIsRight | trunk/minisat-2.2.0/simp/SimpSolver.cc:217-244 | the computed resolvent holds exactly the literals of both parents other than the pivot, without repetition |
| Elimination.ResolventsFollow | trunk/minisat-2.2.0/simp/SimpSolver.cc:470-528 | all resolvents follow from the clauses over the variable |
| Elimination.BlockRestores | trunk/minisat-2.2.0/simp/SimpSolver.cc:501-508 | if the resolvents hold, undoing the stored side and then its unit makes all clauses of both sides true and changes only that variable |
| Merging.MkElimClause | trunk/minisat-2.2.0/simp/SimpSolver.cc:444-466 | the clause is pushed with the literal of the variable first and its length last |
| SimpSolvers.SimpSolver.EliminateVar | trunk/minisat-2.2.0/simp/SimpSolver.cc:470-528 | the variable is eliminated exactly if its resolvents are few and short enough; the stack grows by the rarer side and a unit, formula, stack and rest stay in agreement, all variables that lose clauses wait to be tried, and false means that the formula is unsatisfiable |
| Eliminating.TooCostly | trunk/minisat-2.2.0/simp/SimpSolver.cc:484-493 | the early exit agrees with counting all resolvents against the limits |
| Costs.LimitsAreExact | trunk/minisat-2.2.0/simp/SimpSolver.cc:472-493 | counting over the two lists decides whether the set of clause pairs with a proper resolvent is larger than the set of occurrences and grow, or has a resolvent that is too long |
| Costs.ShorteningKeepsTooMany | trunk/minisat-2.2.0/simp/SimpSolver.cc:190-213 | taking another literal out of a clause leaves a variable with too many resolvents in that state |
| Costs.ShortenedIsRequeued | trunk/minisat-2.2.0/simp/SimpSolver.cc:190-213 | after a clause lost a literal and its variable was put back, no candidate is out of sight, except one whose resolvents were too long and may be shorter now |
| Costs.SteadyTwice | trunk/minisat-2.2.0/simp/SimpSolver.cc:614-643 | what one step keeps in sight and the next one keeps in sight, both together do |
| Costs.ShorteningMayFit | trunk/minisat-2.2.0/simp/SimpSolver.cc:190-213 | two clauses and a length limit where this exception happens |
| Eliminating.ResolvedKeepsElim | trunk/minisat-2.2.0/simp/SimpSolver.cc:495-518 | one elimination keeps the agreement of formula, flat stack and remaining clauses |
| Eliminating.EliminationIsInvertible | trunk/minisat-2.2.0/simp/SimpSolver.cc:470-528 | a model of the clauses after one elimination, extended by its entries, is a model of those before |
| Eliminating.FaithfulIsEquisatisfiable | trunk/minisat-2.2.0/simp/SimpSolver.cc:470-528 | after any number of eliminations the rest is satisfiable if and only if the formula is |
| ElimStack.ExtendModel | trunk/minisat-2.2.0/simp/SimpSolver.cc:563-577 | walking the flat stack backwards undoes the entries last to first |
| Eliminating.ExtendedModelIsAModel | trunk/minisat-2.2.0/simp/SimpSolver.cc:563-577 | a model of the rest that is total on the remaining variables becomes a total model of the whole formula, the same on these variables |
| SimpSolvers.SimpSolver.ExtendSolverModel | trunk/minisat-2.2.0/simp/SimpSolver.cc:563-577 | the extended assignment is total, agrees on the remaining variables and satisfies every clause ever added |
| SimpSolvers.SimpSolver.TryCandidate | trunk/minisat-2.2.0/simp/SimpSolver.cc:614-641 | a candidate that is not frozen and still unassigned is left only if it is over the limits; frozen variables stay |
| SimpSolvers.SimpSolver.TakeCandidate | trunk/minisat-2.2.0/simp/SimpSolver.cc:614-641 | one candidate leaves the heap; without an interrupt it is tried: if it is still one afterwards, it is over the limits |
| SimpSolvers.SimpSolver.EliminateCandidates | trunk/minisat-2.2.0/simp/SimpSolver.cc:614-643 | the loop ends although candidates come back; without an elimination or an interrupt nothing is left to look at; without an interrupt, whatever waited or was over the limits is eliminated, assigned, frozen, waiting or over the limits, or in a clause that became shorter under a length limit |
| SimpSolvers.SimpSolver.Eliminate | trunk/minisat-2.2.0/simp/SimpSolver.cc:580-662 | it ends, the formula keeps its meaning, no frozen variable is eliminated, nothing is left to look at; without an interrupt every former candidate is eliminated, assigned, frozen or over the limits (or in a new or shorter clause, if length is limited), and no clause subsumes or strengthens another, too long ones aside |
| SimpSolvers.SimpSolver.AddClause | trunk/minisat-2.2.0/simp/SimpSolver.cc:135-172 | the clause joins the formula, and everything said about elimination holds for the larger formula |
| SimpSolvers.SimpSolver.NewVar | trunk/minisat-2.2.0/simp/SimpSolver.cc:76-89 | a new unassigned variable with empty lists and zero counts; everything else stands |
| SimpSolvers.SimpSolver.SetFrozen | trunk/minisat-2.2.0/simp/SimpSolver.h:182-182 | the flag is set, and exactly a freed variable that is neither eliminated nor assigned joins the candidates; everything said about the formula stands |
| Eliminating.AssumptionsSurvive | trunk/minisat-2.2.0/simp/SimpSolver.cc:93-116 | under assumptions on variables that were not eliminated, rest and formula are satisfiable together |
| Preprocessing.SolveSimplified | trunk/minisat-2.2.0/simp/SimpSolver.cc:93-131 | solving with preprocessing: true with a total model of the formula and the assumptions, false only if they have none together, with a conflict clause over negated assumptions that the formula implies; the flags frozen for the call are as before unless the formula was refuted, and no candidate is lost from sight |
| Preprocessing.TrueAfterExtension | trunk/minisat-2.2.0/simp/SimpSolver.cc:118-131 | a model of the rest under the assumptions, extended to all variables, is a model of the formula under them |
| Preprocessing.FalseAfterElimination | trunk/minisat-2.2.0/simp/SimpSolver.cc:118-131 | a refutation of the rest under assumptions refutes the formula under them |
| ClauseGc.ClauseAllocator.Alloc | trunk/minisat-2.2.0/core/SolverTypes.h:208-218 | the clause stands at the old end of the region and nothing before it changed |
| ClauseGc.ClauseAllocator.Reloc | trunk/minisat-2.2.0/core/SolverTypes.h:234-248 | a clause is copied the first time and forwarded ever after, with the collection invariant kept |
| ClauseGc.RelocStep | trunk/minisat-2.2.0/core/SolverTypes.h:234-248 | writing the forwarding pointer harms no other clause of the old region and no copy |
| ClauseGc.ClauseRefs.RelocAll | trunk/minisat-2.2.0/core/Solver.cc:876-909 | every watcher, reason of an assigned variable, learnt and problem reference points to the copy of its clause, and only clauses so reached are copied |
| ClauseGc.ClauseRefs.GarbageCollect | trunk/minisat-2.2.0/core/Solver.cc:912-923 | the new region holds exactly the reached clauses with literals, learnt flag, mark and activity, with or without dropping the extra word of problem clauses; two references are equal after exactly if they were before; it is no larger |
| Heaps.Heap.PercolateUp | trunk/minisat-2.2.0/mtl/Heap.h:44-57 | the hole moves up until heap order holds above it; the index stays the exact inverse |
| Heaps.Heap.PercolateDown | trunk/minisat-2.2.0/mtl/Heap.h:60-75 | the hole moves down to the smaller child until heap order holds from there on |
| Heaps.Heap.Decrease | trunk/minisat-2.2.0/mtl/Heap.h:84-84 | heap order for the new order after one element became smaller |
| Heaps.Heap.Increase | trunk/minisat-2.2.0/mtl/Heap.h:85-85 | heap order for the new order after one element became larger |
| Heaps.Heap.Update | trunk/minisat-2.2.0/mtl/Heap.h:89-96 | heap order after the key of one element changed either way; an absent element is inserted |
| Heaps.Heap.Insert | trunk/minisat-2.2.0/mtl/Heap.h:99-107 | one element more, heap order and exact index |
| Heaps.Heap.RemoveMin | trunk/minisat-2.2.0/mtl/Heap.h:110-119 | one element less, and no element is smaller than it |
| Heaps.Heap.Build | trunk/minisat-2.2.0/mtl/Heap.h:123-134 | exactly the given elements in heap order, the earlier ones forgotten |
| Heaps.RootIsMinimum | trunk/minisat-2.2.0/mtl/Heap.h:110-119 | local heap order makes the root a minimum of all elements |
| Sort.Sort | trunk/minisat-2.2.0/mtl/Sort.h:57-80 | sorted rearrangement in place for every strict weak order; the recursion ends |
| Sort.Partition | trunk/minisat-2.2.0/mtl/Sort.h:63-76 | indices stay in bounds, the split is strictly inside, and the pivot separates the parts |
| Sort.SelectionSort | trunk/minisat-2.2.0/mtl/Sort.h:39-52 | sorted rearrangement in place |
| Sort.SortedHalves | trunk/minisat-2.2.0/mtl/Sort.h:77-78 | two sorted parts on the two sides of a pivot are sorted together |
| Dimacs.Reader.ParseInt | trunk/minisat-2.2.0/utils/ParseUtils.h:82-93 | white space, sign and digits are read as the number they denote; anything else is an error |
| Dimacs.Reader.ReadClause | trunk/minisat-2.2.0/core/Dimacs.h:34-45 | literals up to the zero, with variables added as needed |
| Dimacs.Reader.ParseMain | trunk/minisat-2.2.0/core/Dimacs.h:47-77 | the loop over the stream reads what the recursive description of the file says, and finds the errors that it says |
| DimacsText.AcceptedTexts | trunk/minisat-2.2.0/core/Dimacs.h:47-77 | a text is read, with a given result, if and only if it is a list of comment lines, headers and clauses, with any white space and signs where they may stand, that means this result |
| DimacsText.CommentSkipped | trunk/minisat-2.2.0/utils/ParseUtils.h:75-79 | a comment up to its newline is as if it were not there, and one without a newline ends the file |
| Dimacs.DecimalValue | trunk/minisat-2.2.0/utils/ParseUtils.h:82-93 | decimal printing and reading of naturals are inverse |
| Dimacs.ReadBack | trunk/minisat-2.2.0/core/Dimacs.h:47-77 | reading the text of any header and clause list gives that header and that list |
| DimacsWriter.Writer.MapVar | trunk/minisat-2.2.0/core/Solver.cc:800-807 | names are dense, injective and never change |
| DimacsWriter.Writer.ToDimacs | trunk/minisat-2.2.0/core/Solver.cc:819-870 | the text is exactly the assumption units and the unsatisfied clauses without false literals, renamed; the variable count is right exactly if the assumptions bring no new variable; a refuted solver writes a contradiction |
| DimacsWriter.HeaderCountsTooFew | trunk/minisat-2.2.0/core/Solver.cc:853-861 | one variable without clauses, assumed true: the header says no variables, and the text names one |
| DimacsWriter.WrittenIsRead | trunk/minisat-2.2.0/core/Solver.cc:819-870 | reading what was written gives the renamed clauses and the number of names |
| DimacsWriter.RenamingKeepsSatisfiability | trunk/minisat-2.2.0/core/Solver.cc:800-807 | a clause list and its renaming are satisfiable together |
| DimacsWriter.RemainingMeaning | trunk/minisat-2.2.0/core/Solver.cc:810-817 | the clauses written mean, under the root assignment, what all clauses mean |
| DimacsWriter.FileMeaning | trunk/minisat-2.2.0/core/Solver.cc:819-870 | the written file is satisfiable exactly if the clauses are, under the root assignment and the assumptions |
| Dominators.CfgDominators.Intersect | trunk/cprover/src/analyses/cfg_dominators.h:123-154 | the in-place merge of two ordered lists leaves their intersection plus the node itself, and reports whether it shrank |
| Dominators.FixedPointAlongPath | trunk/cprover/src/analyses/cfg_dominators.h:77-165 | along any path from the entry, a stable solution contains only nodes of the path and is not empty |
| Dominators.FixedPointIsExact | trunk/cprover/src/analyses/cfg_dominators.h:77-165 | an empty worklist and sound sets are exactly the dominator sets |
| Dominators.CfgDominators.FixedPoint | trunk/cprover/src/analyses/cfg_dominators.h:77-165 | it ends; a set is empty exactly at unreachable nodes, and elsewhere holds exactly the nodes on every path from the entry (from the exit, for post-dominators) |
| Dominators.DominatorsFormAChain | trunk/cprover/src/analyses/cfg_dominators.h:77-165 | of two dominators of a node one dominates the other |
| ConstantDomain.Merge | trunk/cprover/src/analyses/constant_propagator.cpp:415-482 | the join, and true exactly if the destination changed |
| ConstantDomain.JoinIsLeastUpperBound | trunk/cprover/src/analyses/constant_propagator.cpp:415-482 | the join is the least state above both |
| ConstantDomain.EvaluationKeepsValue | trunk/cprover/src/analyses/constant_propagator.cpp:537-598 | partial evaluation keeps the value in every environment that the constants fit, if the mode is known or one of the four tried |
| ConstantDomain.ModeConditionIsExact | trunk/cprover/src/analyses/constant_propagator.cpp:537-598 | partial evaluation keeps all values under all value-preserving simplifiers if and only if the rounding mode is known or one of the four |
| ConstantDomain.FifthModeIsMisread | trunk/cprover/src/analyses/constant_propagator.cpp:555-588 | for all constants without the mode and every environment whose mode is none of the four, the comparison of the mode with its own value is true and folded to false |
| ConstantDomain.EvaluateInAllModes | trunk/cprover/src/analyses/constant_propagator.cpp:555-588 | the loop gives the common result of the four modes, or the expression unchanged if they differ |
| ConstantDomain.TransferCoversExactly | trunk/cprover/src/analyses/constant_propagator.cpp:60-137 | the transfer function covers all concrete steps from a location along an edge if and only if it is not the edge of a jump to its own fall-through whose guard folds to false |
| ConstantPrecision.TransferIsPrecise | trunk/cprover/src/analyses/constant_propagator.cpp:30-137 | along an edge, an assigned variable becomes known if what it is assigned is determined by known variables, others stay known unless declared, dead or assigned, and an edge whose guard is determined against it gives bottom |
| ConstantPrecision.GivenIsEvaluated | trunk/cprover/src/analyses/constant_propagator.cpp:537-598 | an expression over known variables that the simplifier makes a constant is replaced by it, whether the rounding mode is known or all are tried |
| ConstantPrecision.FoldingGives | trunk/cprover/src/analyses/constant_propagator.cpp:590-598 | with a simplifier that computes what reads nothing, every expression over known variables gives its value |
| ConstantPropagators.JoinLowersHeight | trunk/cprover/src/analyses/constant_propagator.cpp:415-482 | each change by a join uses up height, which is bounded by the number of assigned symbols |
| ConstantPropagators.ConstantPropagator.Visit | trunk/cprover/src/analyses/ai.cpp:262-323 | all edges of the location are covered afterwards, up to locations put back to work, and new data uses up height |
| ConstantPropagators.ConstantPropagator.FixedPoint | trunk/cprover/src/analyses/ai.cpp:233-260 | it ends with a solution of all edges above the entry state that is below every bound, so below every solution for monotone edges, and reports whether anything changed |
| ConstantPrecision.FindsJustified | trunk/cprover/src/analyses/ai.cpp:233-323 | the fixpoint knows every constant, and calls unreachable every location, that claims justified by each other along all edges give, through loops and joins |
| ConstantPropagators.SolutionsAreBounds | trunk/cprover/src/analyses/ai.cpp:233-260 | with monotone edges every solution bounds what the worklist may compute, so the result of FixedPoint is the least one |
| ConstantPropagators.ReplacingIsMonotone | trunk/cprover/src/analyses/constant_propagator.cpp:60-137 | the edges of every program are monotone if constants are only put in and nothing is simplified |
| ConstantPropagators.RunIsDescribed | trunk/cprover/src/analyses/ai.cpp:233-323 | on every run the stored state of each location describes the environment, so no bottom location is reached |
| ConstantPropagators.OwnFallThroughIsUnsound | trunk/cprover/src/analyses/constant_propagator.cpp:110-133 | the analysis run on a program with a jump to its own fall-through, for any simplifier that leaves false alone: its own result makes a location bottom that a run reaches |
| ConstantPropagators.ConstantPropagator.Replace | trunk/cprover/src/analyses/constant_propagator.cpp:609-636 | guards and right-hand sides are rewritten with the state of their location, and nothing else |
| ConstantPrecision.GivenIsReplaced | trunk/cprover/src/analyses/constant_propagator.cpp:609-636 | a guard or right-hand side that the constants of its location determine is replaced by its value |
| ConstantPropagators.ReplacedHasTheSameRuns | trunk/cprover/src/analyses/constant_propagator.cpp:609-636 | the rewritten program has exactly the same runs |
| ConstantPropagators.ReplacedAssertion | trunk/cprover/src/analyses/constant_propagator.cpp:609-636 | an assertion has the same value before and after rewriting |

## Left out

- Activities, decay, phase saving, random branching, progress estimates and statistics: the branching literal is any unassigned decision variable with any sign; `ReduceDB` takes the activities and the limit as parameters.
- Budgets: a flag says whether budgets or interrupts exist at all; where one is polled it may be exhausted, and it then stays exhausted.
- Restart limits are computed over `real` and `int` without the width of `double` and `int`.
- Addresses in the core solver: clause references are positions in a list of clauses; the region with its addresses and the collector are modelled in `ClauseGc`, with all lists cleaned beforehand as in `garbageCollect`. Region capacity, its growth and its overflow are not modelled.
- The order heap in the solver is the set of its elements; the heap itself is proved in `Heap`.
- Watch lists and learnt clauses in the simplifier: its root and probing propagation is a loop over all clauses. `UnitPropagate` is proved to reach the least closed set and to report a conflict exactly if that set is contradictory, which is what `PropagationIsUnitClosure` and `ConflictIsUnitConflict` prove of the watched propagation.
- SimpSolvers.SimpSolver.RemoveClause: does not model `Solver::removeClause` detaching the watchers and dropping the reason of a locked clause, because the simplifier's state holds neither; both are in `Solvers.Solver.RemoveClause`.
- SimpSolvers.SimpSolver.BackwardSubsumptionCheck: says nothing about a clause that was too long for the size limit when it was looked at and has become shorter since, nor about an interrupted run, because the code skips these clauses on purpose.
- SimpSolvers.SimpSolver.Eliminate: that nothing is subsumed at the end is stated if the length limit of resolvents is below the size limit of subsumption, as it is by default; otherwise new clauses may be too long to be subsumed. With a length limit, candidates in clauses that became shorter are left open, because the code misses them.
- Preprocessing.SolveSimplified: the core solver is loaded with the clauses and root literals left by the simplifier, in place of one object that inherits from the other; learnt clauses of an earlier call are therefore not there. The flag `do_simp` stands for `do_simp && use_simplification`.
- DimacsWriter.Writer.ToDimacs: the source's `toDimacs(FILE*, const vec<Lit>&)` ignores its second parameter and writes the member `assumptions` (trunk/minisat-2.2.0/core/Solver.cc:819-870, overloads in trunk/minisat-2.2.0/core/Solver.h:360-363); the parameter of the model is what is written, that is, the member.
- The mark of an eliminated variable is set after its clauses are deleted, not before; the variable may therefore enter the candidate heap once more, where it is skipped.
- The order in which candidates are eliminated (`ElimLt::cost`): any order.
- Freeing the simplification data (`turn_off_elim`) and `cleanUpClauses`: bookkeeping after the loop.
- `SimpSolver::substitute`: it records nothing on the elimination stack.
- Integers of the DIMACS reader are unbounded; the 32-bit overflow of `parseInt` is not modelled. A byte stream is a character list; compressed streams, options, printing and signal handling are left out.
- ConstantDomain.EvaluationKeepsValue: asks for a known rounding mode or one of the four, which `ModeConditionIsExact` proves to be the exact condition.
- ConstantPropagators.RunIsDescribed: asks that no folded guard hides an own fall-through, which `TransferCoversExactly` proves to be the exact condition edge by edge.
- ConstantPropagators.ConstantPropagator.FixedPoint: leastness is stated for monotone edges; simplifiers that fold one expression and not a better known one need not be monotone.
- Solvers.Solver.Solve: promises no satisfied clause where two variables are no decision variables; `OpenVariablesMayFail` shows that the search cannot.
- Abstract interpretation over several functions, calls, threads, and jumps with several targets; expression simplification is any function that keeps values; `valuest` is a value, not an object updated in place.
- Pointers, arrays, structures and types in constant propagation, and the erasure of parameters at the end of a function.
- JSON, XML and text output of the analyses.
