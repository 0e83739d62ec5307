# A verified model of a small STRIPS planner

This project models, in Dafny, the core of a small STRIPS planner written in Ruby
(`planner.rb` and `heuristic.rb`). It covers four parts:

- **Interning of ground facts.** `Fact.find` stores one fact per key, where a key is a predicate name and an argument list.
- **Grounding.** `Planner.comb` enumerates object tuples. `find_applicable_actions` binds them to operator parameters, and `is_applicable?` tests the preconditions.
- **The `State` class.** Only `apply_action`, through `add_fact` and `delete_fact`, changes a state's fact hash in place. `clone` copies the hash, `expand` changes only the clones, and `solution` and `==` only read it.
- **The search.** The additive delete-relaxation heuristic (`calculate_heuristic` with `apply_action_relaxed`), the epsilon-greedy `choose_best_action`, and the enforced hill-climbing step `next_state` with the goal test `is_goal_satisfied?`.

The model has one module per file:

| file | module | what it holds |
|---|---|---|
| `wrappers.dfy` | `Wrappers` | `Option` and `Result` |
| `facts.dfy` | `Facts` | facts, fact keys, the `FactStore` class (`Fact.find`) |
| `grounding.dfy` | `Grounding` | operators, actions, the problem; `comb`, positional binding, literal resolution, applicability, effects, as functions with their lemmas |
| `states.dfy` | `States` | the `State` class with methods that run those steps in place, proved to compute the functions; the arena of states and the solution walk |
| `relaxation.dfy` | `Relaxation` | what `calculate_heuristic` computes, as functions (rounds, fixpoint, goal sum), with the lemmas about distances and facts |
| `heuristic.dfy` | `Heuristic` | the `Heuristic` class (`calculate_heuristic`, `apply_action_relaxed`, `choose_best_action`) proved against those functions |
| `search.dfy` | `Search` | the `Planner` class: `next_state` and `is_goal_satisfied?` |

**Keys and values.**
- A fact is identified by its key: the pair of its predicate's name and its argument list.
- An argument is `Option<string>`, because `get_matching_fact` yields `nil` for a token that the substitution does not bind.
- The fact store has a fixed invariant: every stored fact was built from the problem's own predicate table. Under that invariant, resolving a literal through the store yields exactly the fact the function `FactOf` describes.
- Every method that may intern facts ensures `FactStore.Kept`: the table loses no key. Because the invariant fixes the fact stored under each key, no interned fact changes either (`States.KeptEntries`).

**The search and the arena.**
- States that the search creates live in an arena, a sequence of `State` objects.
- A state's `previous` link is the index of its parent, which is always smaller than its own index, so `solution` terminates.
- `next_state` appends the states it pushes to the arena.
- Its priority queue is a sequence of (index, priority) entries. Some entry of least priority is removed; which one, among entries with equal priority, is not fixed.
- A state returned has the least heuristic of all pushed states. `nil` comes only once the queue is empty, and by then current and every pushed state have been expanded: each of their successors was pushed, or was `==` to a tabu state.
- The loop terminates because every pushed state has fact keys drawn from a finite set: the keys of the current state plus every fact an effect can name. Pushed states are pairwise not `==`, so there can be no more of them than subsets of that set.

**Where the code departs from standard STRIPS, or from what it evidently intends.** The model follows the code in each case.
- **Negated preconditions.** In standard STRIPS a negated precondition requires the fact to be absent. `is_applicable?` (planner.rb:143-153) strips the `not` and requires the fact to be *present*.
- **The call that starts each round.** `calculate_heuristic` calls `find_applicable_actions(true)` (heuristic.rb:39), but that method declares no parameter (planner.rb:126). As written, the call raises ArgumentError, so `calculate_heuristic`, and with it `solve`, never returns a value. The model records this under "Findings" and runs each round with the zero-argument call, which enumerates the ordinary applicable actions.
- **The caller's state.** `calculate_heuristic` adds the facts of each round to the state it is given rather than to a copy (heuristic.rb:58). `CalculateHeuristic` states this as a postcondition, and `Search.Child` records it for every pushed state. Two consequences follow, and the model states them as the code has them:
  - `solve` tests the goal on the root after `calculate_heuristic` inflated it (planner.rb:265-267), so relaxed facts alone can satisfy the goal test.
  - `next_state` tests `==` against `tabu_states` on inflated successors (planner.rb:292-294). A successor whose inflated facts have the same keys as an earlier successor's is dropped as tabu, even when its heuristic is lower.
- **Unreachable goals.** There is no separate "unreachable" value. An unreached goal fact counts as `INFINITY` (99999999) in the sum.
- **Queue ties.** The priority-queue library fixes no order among equal priorities, and the model leaves that order open.

## Model

| member | source | states |
|---|---|---|
| Facts.KeyOf | planner.rb:52-58 | definition: a fact's key, its predicate's name and its values |
| Grounding.FactOf | planner.rb:155-167 | definition: the fact a resolvable literal names under a substitution |
| Grounding.Applicable | planner.rb:143-153 | definition: every precondition's fact, negated or not, is in the facts |
| Grounding.ApplicableFrom | planner.rb:128-136 | definition: the applicable groundings of a list of operators, operators in order, tuples in comb order |
| Grounding.ApplyEffect | planner.rb:116-121 | definition: a positive effect stores its fact under its key, a "not" effect deletes that key |
| Grounding.ApplyEffects | planner.rb:115-122 | definition: the effects applied in order |
| Grounding.ApplyAction | planner.rb:112-124 | definition: apply_action on a fact hash, the operator's effects under the action's substitution |
| States.EntryFact | planner.rb:76-78 | definition: the fact of one entry, its first token the predicate and the rest the values |
| States.InitialFacts | planner.rb:73-80 | definition: the hash State#initialize builds, entries in order, later ones overwriting |
| States.Chain | planner.rb:182-190 | definition: the actions along the previous chain, root first |
| Relaxation.InitialDistance | heuristic.rb:35-36 | definition: distance 0 for every fact of the state, INFINITY for the rest |
| Relaxation.PrecDistance | heuristic.rb:42-49 | definition: prec_distance, the sum of the precondition facts' distances |
| Relaxation.RelaxedNew | heuristic.rb:68-78 | definition: apply_action_relaxed, in effect order |
| Relaxation.Relax | heuristic.rb:51-55 | definition: the distance update of each new fact at a cost |
| Relaxation.ActionDistance | heuristic.rb:42-55 | definition: one action's distance updates at prec_distance + 1 |
| Relaxation.RoundDistance | heuristic.rb:41-57 | definition: the distances after the first actions of a round |
| Relaxation.RoundAdded | heuristic.rb:41-57 | definition: added_facts after the first actions of a round |
| Relaxation.AddAll | heuristic.rb:58 | definition: the found facts added to the hash |
| Relaxation.Fixpoint | heuristic.rb:38-61 | definition: rounds until one adds nothing |
| Relaxation.RelaxedFacts | heuristic.rb:33-61 | definition: the facts calculate_heuristic leaves in the state |
| Relaxation.RelaxedDistance | heuristic.rb:35-61 | definition: the final distance hash |
| Relaxation.SumGoal | heuristic.rb:63 | definition: the inject over the goal facts' distances |
| Relaxation.HeuristicValue | heuristic.rb:33-64 | definition: the value calculate_heuristic returns |
| Heuristic.Cost | heuristic.rb:18-20 | definition: the heuristic value of a copy of the state with the action applied |
| Heuristic.MinCost | heuristic.rb:12-27 | definition: best_heuristic after the first costs |
| Heuristic.Ties | heuristic.rb:13-27 | definition: the candidates whose cost equals a value, in order |
| Heuristic.Best | heuristic.rb:11-28 | definition: best_actions once every action is costed |
| Search.Child | planner.rb:290-292 | definition: a successor made by an applicable action, inflated to its relaxed facts and scored with the action's cost |
| Search.Scored | planner.rb:290-295 | definition: a pushed state is the Child of an earlier state of the arena |
| Search.Successors | planner.rb:290-292 | definition: the key sets of a state's successors, one per applicable action, each inflated by calculate_heuristic |
| Search.Expanded | planner.rb:290-298 | definition: every successor of the state, inflated, has the key set of some pushed state: it was pushed, or a tabu state was == to it |
| Facts.FactStore.constructor | planner.rb:40 | the class-level fact table starts empty and valid |
| Facts.FactStore.Find | planner.rb:47-50 | the returned fact has the requested key and is the stored one; a hit leaves the table unchanged (so a repeated call returns the same fact); a miss stores a new fact; the table only grows |
| Grounding.Singletons | planner.rb:312 | comb for n = 1: one single-element tuple per item, in order |
| Grounding.Prefixed | planner.rb:315-317 | `[e] + f` for each tail f, in order |
| Grounding.PrefixEach | planner.rb:314-318 | \|items\| * \|tails\| tuples |
| Grounding.Comb | planner.rb:311-320 | for n >= 1 exactly \|items\|^n tuples, each of length n with entries from items; the n = 0 case that never returns on a non-empty array is excluded |
| Grounding.PrefixEachMembers | planner.rb:314-318 | prefixing a tail with an item keeps tuples over the items, one longer |
| Grounding.PrefixEachAt | planner.rb:314-318 | position k * \|tails\| + t holds item k followed by tail t |
| Grounding.CombOrder | planner.rb:311-320 | comb enumerates in lexicographic order of positions: the first position varies slowest |
| Grounding.CombComplete | planner.rb:311-320 | every length-n tuple over the items is enumerated |
| Grounding.PrefixEachContains | planner.rb:314-318 | `[e] + f` is produced for every head e and tail f |
| Grounding.Bind | planner.rb:130-132 | the substitution binds exactly the operator's parameter names |
| Grounding.BindAt | planner.rb:130-132 | a parameter is bound to the object at its last position (with distinct names, the i-th object) |
| Grounding.Args | planner.rb:162-165 | one value per predicate parameter |
| Grounding.ArgsAt | planner.rb:162-165 | the i-th value is the substitution of the i-th argument token, nil when there is none |
| Grounding.FactOfShape | planner.rb:155-167 | the resolved fact has the predicate named after the stripped "not", exactly its arity, and the i-th value is the substitution of the i-th argument token |
| Grounding.MatchingFact | planner.rb:155-167 | resolution succeeds exactly when the literal is non-empty and names a known predicate after a leading "not" (otherwise the source raises), and then yields FactOf |
| Grounding.ApplicableGroundings | planner.rb:129-135 | every grounding kept for an operator is an action of that operator |
| Grounding.ApplicableActions | planner.rb:126-141 | operator membership: every action found has one of the problem's operators (the full characterisation is ApplicableActionsExact) |
| Grounding.ApplicableFromOperators | planner.rb:128-136 | operator membership: every action found for a list of operators has an operator of that list (the full characterisation is ApplicableFromExact) |
| Grounding.ApplicableGroundingsExact | planner.rb:129-135 | an action is among an operator's kept groundings iff it is of that operator, applicable, and binds one of the tuples |
| Grounding.ApplicableFromExact | planner.rb:128-136 | an action is found for a list of operators iff its operator is in the list, it is applicable and it binds a comb tuple |
| Grounding.ApplicableActionsExact | planner.rb:126-153 | find_applicable_actions returns exactly the applicable groundings of the problem's operators, each binding every parameter of its operator |
| Grounding.GroundingInSnoc | planner.rb:129 | a grounding over one more tuple is one over the earlier tuples or the binding of the new one |
| Grounding.ApplyEffectsStep | planner.rb:115-122 | applying one more effect applies it to the table the earlier effects left |
| Grounding.UnnamedUnchanged | planner.rb:112-124 | a fact that no effect names keeps its presence and its value |
| Grounding.LastEffectWins | planner.rb:115-122 | the last effect naming a fact decides it: present as that effect's fact when positive, absent when it is a "not" |
| Grounding.ApplyEffectOther | planner.rb:92-98 | adding or deleting one fact leaves every other key as it was |
| Grounding.EffectKeysContain | planner.rb:115-122 | every fact an effect of a grounded action names is in the finite set of effect facts |
| Grounding.ApplyEffectsKeyed | planner.rb:112-124 | effects store each fact under its own key, so a hash keyed by its facts stays so |
| Grounding.ApplyEffectsWithin | planner.rb:115-122 | effects add no key outside a set holding all their facts' keys |
| Grounding.ApplyActionWithin | planner.rb:112-124 | apply_action adds only effect facts of the problem |
| States.Somes | planner.rb:75-78 | the tokens after the predicate name become the fact's values, one each |
| States.InitialFactsExact | planner.rb:73-84 | the initial table holds exactly the facts of the entries, each under its own key |
| States.KeptEntries | planner.rb:47-50 | a store that stays consistent and loses no key keeps every interned fact as it was |
| States.InitialFactsKeyed | planner.rb:73-84 | the initial hash holds each fact under its own key |
| States.SameKeys | planner.rb:193-203 | on hashes keyed by their facts, the source's test (every fact of each is included, by its key, in the other) holds iff the key sets are equal |
| States.Ancestor | planner.rb:185-188 | the state k links up the previous chain is in the arena |
| States.ChainAt | planner.rb:182-190 | the solution has one action per non-root state on the chain, and the action of the state k links up comes k places from the end (root first) |
| States.ChainLength | planner.rb:182-190 | the solution of any state, the root included, has one action per non-root state on its chain |
| States.Reverse | planner.rb:189 | the reversed list has the same length, element i being element \|s\|-1-i |
| States.State.constructor | planner.rb:73-84 | the new state holds the interned facts of the entries, heuristic -1 and no links |
| States.State.Empty | planner.rb:87 | State.new([], nil): no facts, heuristic -1, no links |
| States.State.Clone | planner.rb:86-90 | a fresh state with the same fact hash and no heuristic, previous or action |
| States.State.AddFact | planner.rb:92-94 | the fact is stored under its key and nothing else changes |
| States.State.DeleteFact | planner.rb:96-98 | the key is removed and nothing else changes |
| States.State.IncludesFact | planner.rb:104-106 | true iff the fact's key is in the state |
| States.State.GetMatchingFact | planner.rb:155-167 | returns MatchingFact (the fact, or the source's failures as errors); a returned fact is the one interned under its key; the table keeps every entry it had |
| States.State.Values | planner.rb:162-165 | the loop builds Args |
| States.State.Substitution | planner.rb:130-132 | the loop builds Bind |
| States.State.IsApplicable | planner.rb:143-153 | true iff every precondition's fact, negated or not, is in the state |
| States.State.ApplyAction | planner.rb:112-124 | the state's facts become the effects applied in order to the old facts |
| States.State.FindApplicableActions | planner.rb:126-141 | returns ApplicableActions of the state's facts: operators in order, tuples in comb order |
| States.State.ApplicableGroundingsOf | planner.rb:129-135 | the inner loop returns the kept groundings of one operator in comb order |
| States.State.GroundingOf | planner.rb:130-134 | the tuple bound to the parameters, and whether that action is applicable |
| States.State.Expand | planner.rb:169-180 | one fresh successor per applicable action, in order, each with the action applied, the action recorded, this state as previous and no heuristic; the successors are distinct objects; this state is not changed |
| States.State.Successor | planner.rb:172-177 | one successor: a clone with the action applied and recorded and the receiver as previous |
| States.State.Solution | planner.rb:182-190 | returns the actions along the previous chain, root first |
| States.State.Equals | planner.rb:193-203 | true iff both states have the same fact keys (so == is reflexive and symmetric) |
| Relaxation.FindApplicableActionsWith | planner.rb:126 | a call of find_applicable_actions succeeds iff it passes no argument; otherwise ArgumentError, with more arguments given than declared |
| Relaxation.RoundActionsRaise | heuristic.rb:39 | the call as written, find_applicable_actions(true), raises ArgumentError(1 given, 0 declared) in every state |
| Relaxation.RoundActionsCorrected | heuristic.rb:39 | the zero-argument call succeeds and gives exactly the applicable groundings of the state |
| Relaxation.ApplicableResolvable | heuristic.rb:39 | the actions of a round have resolvable literals |
| Relaxation.RelaxedNewUpToExact | heuristic.rb:71-76 | the facts collected from the first j effects are exactly the positive effects' facts missing from the state |
| Relaxation.RelaxedNewExact | heuristic.rb:68-78 | apply_action_relaxed returns exactly the facts of positive effects that the state lacks; "not" effects are ignored |
| Relaxation.RelaxedNewKeys | heuristic.rb:68-78 | a relaxed fact is never already in the state and is a groundable effect fact |
| Relaxation.RoundAddedFrom | heuristic.rb:41-57 | every fact a round adds comes from one action's relaxed step |
| Relaxation.AddAllKeys | heuristic.rb:58 | adding the facts adds exactly their keys |
| Relaxation.RoundGrows | heuristic.rb:38-61 | a round that adds facts leaves fewer groundable facts missing (the loop terminates) |
| Relaxation.AddedNew | heuristic.rb:41-58 | every fact a round adds is new to the state and groundable |
| Relaxation.PrecDistanceNonneg | heuristic.rb:42-49 | prec_distance is not negative |
| Relaxation.RelaxLowers | heuristic.rb:51-55 | the update only lowers a distance, stores only the candidate cost, and only under the new facts' keys |
| Relaxation.RelaxOk | heuristic.rb:51-55 | updates at cost at least 1 keep entry facts at 0, all stored distances in [0, INFINITY), and 0 only for entry facts |
| Relaxation.RelaxKeys | heuristic.rb:51-55 | the update stores only under the new facts' keys |
| Relaxation.ActionDistanceOk | heuristic.rb:42-55 | one action of a round keeps the distance invariant |
| Relaxation.ActionDistanceKeys | heuristic.rb:50-55 | one action stores distances only for the facts it adds |
| Relaxation.ActionDistanceLowers | heuristic.rb:51-55 | one action only lowers distances |
| Relaxation.RoundDistanceOk | heuristic.rb:41-57 | a round keeps the distance invariant |
| Relaxation.RoundDistanceKeys | heuristic.rb:41-57 | a round stores distances only for the facts it adds |
| Relaxation.RoundDistanceLowers | heuristic.rb:41-57 | a round only lowers distances |
| Relaxation.AddAllKeeps | heuristic.rb:58 | adding other facts keeps a fact's value |
| Relaxation.AddedKeeps | heuristic.rb:56-58 | a round keeps every old fact unchanged |
| Relaxation.NoneAddedAt | heuristic.rb:60 | when a round adds nothing, no action of it has a relaxed fact |
| Relaxation.RoundStep | heuristic.rb:38-61 | a round grows the facts by groundable effect facts only, keeps old ones, and its distances belong to facts of the grown state |
| Relaxation.FixpointFacts | heuristic.rb:38-61 | across rounds the facts only grow, old facts keep their values, new ones are groundable, and the loop stops exactly when a round adds nothing |
| Relaxation.FixpointDistance | heuristic.rb:35-61 | the final distances keep the invariant and belong to reached facts |
| Relaxation.FixpointLowers | heuristic.rb:35-61 | no distance ends above where it started |
| Relaxation.InitialDistanceOk | heuristic.rb:35-36 | every fact of the state starts at distance 0, and only those |
| Relaxation.RelaxedFactsProps | heuristic.rb:38-61 | after calculate_heuristic the state holds its original facts unchanged plus groundable effect facts, and no applicable action has a positive effect still missing |
| Relaxation.AddAllKeyed | heuristic.rb:58 | adding facts under their keys keeps a hash keyed by its facts |
| Relaxation.FixpointKeyed | heuristic.rb:38-61 | the rounds keep the state's hash keyed by its facts |
| Relaxation.RelaxedFactsKeyed | heuristic.rb:33-61 | calculate_heuristic leaves a hash keyed by its facts so |
| Relaxation.RelaxedDistanceProps | heuristic.rb:35-61 | entry facts end at distance 0 and only they do; every stored distance is below INFINITY and belongs to a reached fact |
| Relaxation.SumGoalNonneg | heuristic.rb:63 | the goal sum is not negative, is 0 iff every goal distance is 0, and bounds each goal distance |
| Relaxation.HeuristicNonneg | heuristic.rb:63 | the heuristic value is not negative |
| Relaxation.HeuristicZero | heuristic.rb:36-63 | the value is 0 iff every goal fact is already in the state (the condition is_goal_satisfied? tests) |
| Relaxation.HeuristicUnreached | heuristic.rb:35-63 | a goal fact the relaxation never reaches makes the value at least INFINITY |
| Heuristic.CostsUpToSnoc | heuristic.rb:17-20 | appending the next action's cost extends the list of costs |
| Heuristic.CostsAt | heuristic.rb:17-20 | each listed cost is the heuristic of the state the action at that position leads to |
| Heuristic.Pick | heuristic.rb:14-15 | a draw picks an element of a non-empty list, nil from an empty one |
| Heuristic.MinCostBounds | heuristic.rb:22-27 | best_heuristic is at most INFINITY and every cost seen, and is one of them or INFINITY |
| Heuristic.TiesExact | heuristic.rb:22-27 | best_actions holds exactly the actions whose cost equals the kept value |
| Heuristic.TiesBelow | heuristic.rb:22-27 | no action ties with a value below the least cost |
| Heuristic.BestExact | heuristic.rb:11-31 | outside the random branch the candidates are exactly the actions of least cost at most INFINITY; none iff every cost is above INFINITY |
| Heuristic.PrefixStable | heuristic.rb:17-28 | later costs do not change what the earlier ones gave |
| Heuristic.TiesStep | heuristic.rb:22-27 | an equal cost joins the ties, a lower one replaces them and becomes the best, a higher one changes nothing |
| Heuristic.Heuristic.constructor | heuristic.rb:7-9 | the heuristic keeps the problem |
| Heuristic.Heuristic.ApplyRelaxed | heuristic.rb:68-78 | returns RelaxedNew of the state's facts; the state is not changed |
| Heuristic.Heuristic.PrecDistanceOf | heuristic.rb:42-49 | the loop sums the distances of the precondition facts, INFINITY for absent ones |
| Heuristic.Heuristic.RelaxAll | heuristic.rb:51-55 | the loop performs the distance updates of Relax |
| Heuristic.Heuristic.Round | heuristic.rb:39-57 | one round's distances and added facts over the state's applicable actions |
| Heuristic.Heuristic.RoundOver | heuristic.rb:41-57 | the loop over a round's actions |
| Heuristic.Heuristic.ActionStep | heuristic.rb:42-56 | one action: its relaxed facts and the distance updates at prec_distance + 1 |
| Heuristic.Heuristic.AddAllTo | heuristic.rb:58 | the found facts are added to the state |
| Heuristic.Heuristic.ZeroDistances | heuristic.rb:35-36 | every fact of the state is at distance 0 |
| Heuristic.Heuristic.GoalSum | heuristic.rb:63 | the inject sums the goal facts' distances |
| Heuristic.Heuristic.CalculateHeuristic | heuristic.rb:33-64 | returns HeuristicValue of the state's facts at entry, and leaves the caller's state holding the relaxed facts |
| Heuristic.Heuristic.CostOf | heuristic.rb:18-20 | the heuristic of a clone with the action applied; the current state is not changed |
| Heuristic.Heuristic.ChooseBestAction | heuristic.rb:11-31 | a draw below 20 picks any action; otherwise it picks among the actions of least cost at most INFINITY (nil when there is none); the current state is not changed |
| Heuristic.Heuristic.BestOf | heuristic.rb:12-28 | the loop costs every action in order and returns the ties of least cost |
| Heuristic.Heuristic.Consider | heuristic.rb:17-28 | one pass of the loop keeps best_heuristic and best_actions for the costs seen |
| Heuristic.Heuristic.Keep | heuristic.rb:22-27 | the comparison keeps best_heuristic and best_actions right for one more cost |
| Search.MinExists | planner.rb:288 | a non-empty queue has an entry of least priority |
| Search.Remove | planner.rb:288 | popping removes one entry and keeps the others |
| Search.RemoveKeeps | planner.rb:288 | popping another state keeps a state queued |
| Search.KeySetsSnoc | planner.rb:296 | recording a state adds its key set |
| Search.DistinctSnoc | planner.rb:294-296 | recording a state that no tabu state is == keeps tabu_states pairwise not == |
| Search.KeySetsCard | planner.rb:294-296 | pairwise distinct states have as many key sets as states |
| Search.TabuBound | planner.rb:294-296 | tabu_states can hold no more states than there are subsets of the reachable keys (the loop terminates) |
| Search.GrownPush | planner.rb:295-296 | pushing a scored successor keeps every pushed state scored and descended from current |
| Search.ScoredKeys | planner.rb:290-292 | a scored successor's facts stay within the parent's keys and the effect facts |
| Search.SearchingPush | planner.rb:294-297 | pushing a new successor keeps the loop invariant of next_state |
| Search.QueuePush | planner.rb:295 | pushing keeps every queue entry at its state's heuristic and every better state queued |
| Search.OfferPush | planner.rb:294-297 | pushing a successor that no tabu state is == keeps the loop invariant, with tabu_states growing with the pushed states |
| Search.Includes | planner.rb:294 | include? is true iff some tabu state is == to s |
| Search.Offered | planner.rb:294-297 | after an offer, whether dropped as tabu or pushed, some pushed state has the successor's keys, and the arena and queue grew by at most the one pushed entry |
| Search.ReachedGrow | planner.rb:295-296 | pushing more states keeps a key set reached |
| Search.QueuedGrow | planner.rb:295 | pushing more entries keeps a state queued |
| Search.CoveringStep | planner.rb:290-298 | offering one more successor extends what the successor loop has reached and queued |
| Search.TargetsExpanded | planner.rb:290-298 | once every successor's inflated key set is reached, the state is expanded |
| Search.ExpandedGrow | planner.rb:290-298 | an expanded state stays expanded as more states are pushed |
| Search.ExploredStep | planner.rb:287-299 | one turn of next_state's loop keeps current and every pushed state queued or expanded |
| Search.PoppedLeast | planner.rb:288-289 | a popped entry of least priority that improves on current has the least heuristic of all pushed states |
| Search.Planner.constructor | planner.rb:234-261 | the planner holds the problem and a heuristic for it |
| Search.Planner.IsGoalSatisfied | planner.rb:304-309 | true iff every goal fact is in the state |
| Search.Planner.NextState | planner.rb:281-302 | returns a pushed state whose heuristic is strictly below current's and least among all pushed states; nil only when the queue ran out, so every pushed state's heuristic is at least current's and current and every pushed state were expanded (each successor pushed or == to a tabu state); every pushed state is a successor, inflated and scored, of current or of an earlier pushed state, and no two pushed states are == |
| Search.Planner.ExpandAll | planner.rb:290-298 | the popped state is expanded: every successor is pushed or == to a tabu state; the loop invariant is kept, the arena and queue only grow, each pushed state is queued, and every other state stays queued or expanded |
| Search.Planner.OfferAll | planner.rb:290-298 | after offering every successor the state at idx is expanded; the loop invariant is kept and each pushed state is queued |
| Search.Planner.OfferNext | planner.rb:290-298 | one successor offered keeps the loop state of the successor loop and reaches its inflated key set |
| Search.Planner.Offer | planner.rb:291-297 | a successor is scored; it is pushed at its heuristic and recorded in tabu_states iff no tabu state is == to it; either way some pushed state then has its inflated keys |
| Search.Planner.Score | planner.rb:292 | the successor holds its relaxed facts and its heuristic is the cost of its action from the parent |

## Left out

- YAML and file loading, the command-line entry point and all printing and debug output: these are I/O. Predicates, operators, literals and initial and goal facts are given already split into tokens.
- The `solve` driver: it is an output loop ending in `exit`. Its step, `next_state`, and its goal test are modelled.
- The priority queue's internals: the queue is a sequence, and min-extraction chooses some entry of least priority.
- `rand`: the draws are parameters of `ChooseBestAction`. `rand(n)` is taken as the draw modulo n, and `rand(0)` on an empty list gives nil.
- The string form of `Fact.key`, the `Problem.instance` singleton and `Action#to_s`. The model keys facts on (name, values) and passes the problem explicitly.
- The diagnostic `puts "ERROR ..."` in `calculate_heuristic`: it is output only.
- Search.Planner.NextState: does not fix which of several entries of equal priority is popped, because the queue's tie order belongs to the foreign priority-queue library.
- Search.Planner.NextState: does not model the `previous` object references. States live in an arena and link to their parent by index, so their aliasing is not modelled.
- Heuristic.Heuristic.CalculateHeuristic: runs each round with the zero-argument call of find_applicable_actions. As written, the call passes `true` and raises ArgumentError (see Findings). No relaxed applicability test exists in the code for the argument to select, so none is modelled.
- States.State.Equals: compares the two hashes' key sets. The source compares each stored fact's own key. The two agree on hashes that hold each fact under its own key (`SameKeys`), and every hash the planner builds is one (`InitialFactsKeyed`, `ApplyEffectsKeyed`, `RelaxedFactsKeyed`).
- Heuristic.Heuristic.ChooseBestAction: returns the costs it computed as a ghost value so that its postcondition can name them.
- Grounding.Comb: excludes n = 0 on a non-empty object list, where the source recurses without end. Every operator must therefore have a parameter, or the object list must be empty.
- Malformed literals: an empty literal, or a predicate missing from the table, raises an exception in the source. `MatchingFact` returns an error for these. The operations above it require a well-formed problem.
- The goal: modelled as the list of the goal state's facts. These are the values of its fact hash, so their keys are distinct.

## Findings

| source | as written | input that shows it | evidently intended | confidence | as-written member | corrected member |
|---|---|---|---|---|---|---|
| heuristic.rb:39 | `state.find_applicable_actions(true)` passes an argument to a method that declares none (planner.rb:126), so it raises ArgumentError | any state: the first round of any `calculate_heuristic` call | each round enumerates the actions applicable in the state | not executed | Relaxation.RoundActionsAsWritten, Relaxation.RoundActionsRaise | Relaxation.RoundActionsCorrected; the rounds (Relaxation.AddedBy, Heuristic.Heuristic.Round) use that call |
