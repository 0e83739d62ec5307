/**
 * The search of planner.rb: the enforced hill-climbing step next_state and
 * the goal test. States live in an arena (a sequence of State objects)
 * whose previous links are indices; next_state appends the states it pushes.
 * The priority queue is a sequence of (arena index, priority) entries from
 * which some entry of least priority is taken; which one, among equals, is
 * left open.
 */
module Search {
  import opened Wrappers
  import opened Facts
  import opened Grounding
  import opened States
  import opened Relaxation
  import opened Heuristic

  /** An entry of the priority queue: the arena index of a state and its priority. */
  datatype Entry = Entry(index: nat, priority: int)

  /** The entry at m has the least priority of the queue. */
  predicate IsMin(queue: seq<Entry>, m: nat)
  {
    m < |queue| && forall j | 0 <= j < |queue| :: queue[m].priority <= queue[j].priority
  }

  /** A non-empty queue has an entry of least priority. */
  lemma {:induction false} MinExists(queue: seq<Entry>) returns (m: nat)
    requires queue != []
    ensures IsMin(queue, m)
  {
    if |queue| == 1 {
      m := 0;
    } else {
      var n := |queue| - 1;
      var k := MinExists(queue[..n]);
      assert forall j | 0 <= j < n :: queue[..n][j] == queue[j];
      m := if queue[n].priority < queue[k].priority then n else k;
    }
  }

  /** The queue without its entry at m. */
  function Remove(queue: seq<Entry>, m: nat): (r: seq<Entry>)
    requires m < |queue|
    ensures |r| == |queue| - 1
    ensures forall j | 0 <= j < |queue| && j != m :: queue[j] in r
    ensures forall e | e in r :: e in queue
  {
    queue[..m] + queue[m + 1..]
  }

  /** Some entry of the queue is for the state at k. */
  predicate Queued(queue: seq<Entry>, k: nat)
  {
    exists e | e in queue :: e.index == k
  }

  /** Taking out an entry for another state keeps the state at k queued. */
  lemma RemoveKeeps(queue: seq<Entry>, m: nat, k: nat)
    requires m < |queue| && Queued(queue, k) && queue[m].index != k
    ensures Queued(Remove(queue, m), k)
  {
    var e :| e in queue && e.index == k;
    var j :| 0 <= j < |queue| && queue[j] == e;
    assert e in Remove(queue, m);
  }

  /** The fact-key sets of the states in the list. */
  ghost function KeySets(states: seq<State>): set<set<FactKey>>
    reads states
  {
    set k | 0 <= k < |states| :: states[k].facts.Keys
  }

  /** No two states of the list are == (their fact-key sets differ). */
  ghost predicate Distinct(states: seq<State>)
    reads states
  {
    forall j, k | 0 <= j < k < |states| :: states[j].facts.Keys != states[k].facts.Keys
  }

  /** Every state of the list has its fact keys in u. */
  ghost predicate Within(states: seq<State>, u: set<FactKey>)
    reads states
  {
    forall k | 0 <= k < |states| :: states[k].facts.Keys <= u
  }

  /** The subsets of u. */
  ghost function Subsets(u: set<FactKey>): set<set<FactKey>>
  {
    set s: set<FactKey> | s <= u
  }

  /** Appending a state adds its key set. */
  lemma KeySetsSnoc(init: seq<State>, s: State)
    ensures KeySets(init + [s]) == KeySets(init) + {s.facts.Keys}
  {
    var states := init + [s];
    forall x | x in KeySets(states) ensures x in KeySets(init) + {s.facts.Keys} {
      var k :| 0 <= k < |states| && states[k].facts.Keys == x;
      if k < |init| {
        assert init[k] == states[k];
      }
    }
    forall x | x in KeySets(init) ensures x in KeySets(states) {
      var k :| 0 <= k < |init| && init[k].facts.Keys == x;
      assert init[k] == states[k];
    }
    assert states[|init|] == s;
  }

  /** Appending a state no state of the list is == to keeps the list distinct. */
  lemma DistinctSnoc(init: seq<State>, s: State)
    requires Distinct(init)
    requires forall k | 0 <= k < |init| :: init[k].facts.Keys != s.facts.Keys
    ensures Distinct(init + [s])
  {
    var states := init + [s];
    forall j, k | 0 <= j < k < |states| ensures states[j].facts.Keys != states[k].facts.Keys {
      assert states[j] == init[j];
    }
  }

  /** A list of distinct states has as many key sets as states. */
  lemma {:induction false} KeySetsCard(states: seq<State>)
    requires Distinct(states)
    ensures |KeySets(states)| == |states|
  {
    if states != [] {
      var n := |states| - 1;
      var init, last := states[..n], states[n];
      assert states == init + [last];
      assert Distinct(init) by {
        forall j, k | 0 <= j < k < |init| ensures init[j].facts.Keys != init[k].facts.Keys {
          assert init[j] == states[j] && init[k] == states[k];
        }
      }
      KeySetsCard(init);
      KeySetsSnoc(init, last);
      assert last.facts.Keys !in KeySets(init) by {
        forall k | 0 <= k < |init| ensures init[k].facts.Keys != last.facts.Keys {
          assert init[k] == states[k];
        }
      }
    }
  }

  /** Distinct states with their keys in u number at most the subsets of u. */
  lemma TabuBound(states: seq<State>, u: set<FactKey>)
    requires Distinct(states) && Within(states, u)
    ensures |states| <= |Subsets(u)|
  {
    KeySetsCard(states);
    assert KeySets(states) <= Subsets(u);
    SubsetCard(KeySets(states), Subsets(u));
  }

  /**
   * The state at k was pushed by next_state: made by expand from its previous
   * state by an applicable action, inflated by calculate_heuristic to the
   * relaxed facts, and scored with the cost of the action.
   */
  ghost predicate Scored(p: Problem, arena: seq<State>, k: nat)
    reads arena
    requires WellFormed(p) && k < |arena|
  {
    var s := arena[k];
    s.previous.Some? && s.previous.value < k && Child(p, arena[s.previous.value].facts, s)
  }

  /**
   * s was made from the facts of its parent by an applicable action, then
   * inflated by calculate_heuristic to the relaxed facts and scored with the
   * cost of the action.
   */
  ghost predicate Child(p: Problem, parent: FactTable, s: State)
    reads s
    requires WellFormed(p)
  {
    && s.action.Some?
    && var a := s.action.value;
       && a in ApplicableActions(p, parent)
       && s.facts == RelaxedFacts(p, Grounding.ApplyAction(p.predicates, parent, a))
       && s.heuristic == Cost(p, parent, a)
  }

  /**
   * ar is the arena after next_state from the state at `current` pushed its
   * states: the old arena is kept, and each new state is scored and descends
   * from current or from another new state.
   */
  ghost predicate Grown(p: Problem, arena: seq<State>, current: nat, ar: seq<State>)
    reads ar
    requires WellFormed(p)
  {
    && |arena| <= |ar| && ar[..|arena|] == arena && ValidArena(ar)
    && forall k {:trigger Pushed(p, arena, current, ar, k)} | |arena| <= k < |ar| :: Pushed(p, arena, current, ar, k)
  }

  /** The state at k of ar is scored and descends from current or from a state pushed before it. */
  ghost predicate Pushed(p: Problem, arena: seq<State>, current: nat, ar: seq<State>, k: nat)
    reads ar
    requires WellFormed(p) && k < |ar|
  {
    Scored(p, ar, k) && (ar[k].previous == Some(current) || ar[k].previous.value >= |arena|)
  }

  /** Appending a scored state that descends from current keeps the arena grown. */
  lemma GrownPush(p: Problem, arena: seq<State>, current: nat, ar: seq<State>, s: State)
    requires WellFormed(p) && Grown(p, arena, current, ar)
    requires Scored(p, ar + [s], |ar|)
    requires s.previous == Some(current) || s.previous.value >= |arena|
    ensures Grown(p, arena, current, ar + [s])
  {
    var ar' := ar + [s];
    assert ar'[..|arena|] == arena by {
      assert ar'[..|ar|] == ar;
    }
    forall k | 0 <= k < |ar| ensures ar'[k] == ar[k] {
    }
    forall k | |arena| <= k < |ar'| ensures Pushed(p, arena, current, ar', k) {
      if k < |ar| {
        assert Pushed(p, arena, current, ar, k);
        assert ar[ar[k].previous.value] == ar'[ar'[k].previous.value];
      }
    }
  }

  /** The facts of a successor, inflated, stay within the keys of its parent and the effect universe. */
  lemma ScoredKeys(p: Problem, parent: FactTable, a: Action, u: set<FactKey>)
    requires WellFormed(p) && a in ApplicableActions(p, parent)
    requires parent.Keys <= u && EffectKeys(p) <= u
    ensures RelaxedFacts(p, Grounding.ApplyAction(p.predicates, parent, a)).Keys <= u
  {
    ApplicableActionsExact(p, parent, a);
    ApplyActionWithin(p, parent, a);
    RelaxedFactsProps(p, Grounding.ApplyAction(p.predicates, parent, a));
  }

  /**
   * The loop state of next_state started from the state at `current` of
   * `arena`: the arena grown by the pushed states, which are pairwise not ==
   * and within the key universe u, and the queue holding current or pushed
   * states at their heuristic, among them every pushed state scored below
   * current. tabu_states is kept equal to the pushed states.
   */
  ghost predicate Searching(p: Problem, arena: seq<State>, current: nat, u: set<FactKey>,
                            ar: seq<State>, queue: seq<Entry>)
    reads ar
    requires WellFormed(p) && current < |arena|
  {
    && Grown(p, arena, current, ar)
    && Distinct(ar[|arena|..]) && Within(ar[|arena|..], u)
    && (forall e | e in queue ::
          && e.index < |ar|
          && e.priority == ar[e.index].heuristic
          && (e.index == current || e.index >= |arena|))
    && (forall k | |arena| <= k < |ar| && ar[k].heuristic < arena[current].heuristic :: Queued(queue, k))
  }

  /** Some state of ar from `start` on has exactly the fact keys `keys`. */
  ghost predicate Reached(start: nat, ar: seq<State>, keys: set<FactKey>)
    reads ar
  {
    exists j | start <= j < |ar| :: ar[j].facts.Keys == keys
  }

  /**
   * The state at k has been expanded: each of its successors, inflated by
   * calculate_heuristic, was pushed or was == to a state pushed before it, so
   * some pushed state (from `start` on) has its fact keys.
   */
  ghost predicate Expanded(p: Problem, start: nat, ar: seq<State>, k: nat)
    reads ar
    requires WellFormed(p) && k < |ar|
  {
    forall keys | keys in Successors(p, ar[k].facts) :: Reached(start, ar, keys)
  }

  /** The key sets of the successors of a state with these facts, each inflated by calculate_heuristic. */
  ghost function Successors(p: Problem, facts: FactTable): set<set<FactKey>>
    requires WellFormed(p)
  {
    set a | a in ApplicableActions(p, facts) :: RelaxedFacts(p, Grounding.ApplyAction(p.predicates, facts, a)).Keys
  }

  /** current and every pushed state are still queued or have been expanded. */
  ghost predicate Explored(p: Problem, arena: seq<State>, current: nat, ar: seq<State>, queue: seq<Entry>)
    reads ar
    requires WellFormed(p) && current < |arena| <= |ar|
  {
    forall k | k == current || |arena| <= k < |ar| :: Queued(queue, k) || Expanded(p, |arena|, ar, k)
  }

  /** Pushing more states keeps a state expanded. */
  lemma ExpandedGrow(p: Problem, start: nat, ar: seq<State>, ar': seq<State>, k: nat)
    requires WellFormed(p) && k < |ar| <= |ar'| && ar'[..|ar|] == ar
    requires Expanded(p, start, ar, k)
    ensures Expanded(p, start, ar', k)
  {
    assert ar'[k] == ar[k];
    forall keys | keys in Successors(p, ar[k].facts) ensures Reached(start, ar', keys) {
      ReachedGrow(start, ar, ar', keys);
    }
  }

  /**
   * One turn of next_state's loop keeps every state queued or expanded: the
   * entry at m was popped and its state expanded, the queue otherwise only
   * grew, and every state pushed meanwhile was queued.
   */
  lemma ExploredStep(p: Problem, arena: seq<State>, current: nat, ar: seq<State>, before: seq<Entry>, m: nat,
                     ar': seq<State>, queue': seq<Entry>)
    requires WellFormed(p) && current < |arena| <= |ar| <= |ar'| && ar'[..|ar|] == ar
    requires m < |before| && Explored(p, arena, current, ar, before)
    requires |before| - 1 <= |queue'| && queue'[..|before| - 1] == Remove(before, m)
    requires forall k | |ar| <= k < |ar'| :: Queued(queue', k)
    requires before[m].index < |ar'| && Expanded(p, |arena|, ar', before[m].index)
    ensures Explored(p, arena, current, ar', queue')
  {
    var queue := Remove(before, m);
    forall k | k == current || |arena| <= k < |ar'| ensures Queued(queue', k) || Expanded(p, |arena|, ar', k) {
      if k < |ar| && k != before[m].index {
        if Queued(before, k) {
          var e :| e in before && e.index == k;
          var j :| 0 <= j < |before| && before[j] == e;
          assert e in queue;
          var i :| 0 <= i < |queue| && queue[i] == e;
          assert queue'[i] == e;
        } else {
          ExpandedGrow(p, |arena|, ar, ar', k);
        }
      }
    }
  }

  /**
   * The loop state of next_state's loop over the states expanded from the
   * state at idx, after the first i of them were offered: the search state
   * grown from (ar, queue) to (ar', queue'), one entry per state pushed, and
   * each state still to offer made by its action from the state at idx and
   * not in the arena.
   */
  ghost predicate Offering(p: Problem, arena: seq<State>, current: nat, u: set<FactKey>,
                           ar: seq<State>, queue: seq<Entry>, idx: nat, states: seq<State>, actions: seq<Action>,
                           i: nat, ar': seq<State>, queue': seq<Entry>)
    reads ar, ar', states
    requires WellFormed(p) && current < |arena| && idx < |ar|
  {
    && i <= |states| == |actions|
    && |ar| <= |ar'| && ar'[..|ar|] == ar
    && Searching(p, arena, current, u, ar', queue')
    && |ar'| - |ar| == |queue'| - |queue|
    && (forall j | i <= j < |states| :: Produced(states[j], p.predicates, ar[idx].facts, actions[j], idx))
    && (forall j, k | i <= j < |states| && 0 <= k < |ar'| :: states[j] != ar'[k])
  }

  /** targets[j] is the key set of the j-th successor of parent, inflated. */
  ghost predicate Targets(p: Problem, parent: FactTable, actions: seq<Action>, targets: seq<set<FactKey>>)
    requires WellFormed(p)
  {
    && |targets| == |actions| && Resolvable(p.predicates, actions)
    && forall j {:trigger targets[j]} | 0 <= j < |actions| ::
         targets[j] == RelaxedFacts(p, Grounding.ApplyAction(p.predicates, parent, actions[j])).Keys
  }

  /**
   * What the same loop has achieved towards expanding a state: the queue
   * only grew, with an entry for each state pushed after the first n, and
   * the first i of `targets`, the key sets of its inflated successors, are
   * each the keys of a state pushed from `start` on.
   */
  ghost predicate Covering(start: nat, n: nat, queue: seq<Entry>, targets: seq<set<FactKey>>, i: nat,
                           ar': seq<State>, queue': seq<Entry>)
    reads ar'
  {
    && i <= |targets| && n <= |ar'|
    && |queue| <= |queue'| && queue'[..|queue|] == queue
    && (forall k | n <= k < |ar'| :: Queued(queue', k))
    && (forall j | 0 <= j < i :: Reached(start, ar', targets[j]))
  }

  /**
   * What offering s did to the arena and the queue: when a tabu state has
   * its keys they are unchanged, otherwise s is pushed; either way some
   * pushed state has s's keys.
   */
  lemma Offered(start: nat, ar: seq<State>, tabu: seq<State>, queue: seq<Entry>, s: State,
                ar': seq<State>, queue': seq<Entry>)
    requires start <= |ar| && tabu == ar[start..]
    requires if exists k | 0 <= k < |tabu| :: tabu[k].facts.Keys == s.facts.Keys
             then ar' == ar && queue' == queue
             else ar' == ar + [s] && queue' == queue + [Entry(|ar|, s.heuristic)]
    ensures Reached(start, ar', s.facts.Keys)
    ensures |ar| <= |ar'| <= |ar| + 1 && ar'[..|ar|] == ar && |queue| <= |queue'| && queue'[..|queue|] == queue
    ensures |ar'| == |ar| + 1 ==> Queued(queue', |ar|)
  {
    if exists k | 0 <= k < |tabu| :: tabu[k].facts.Keys == s.facts.Keys {
      var k :| 0 <= k < |tabu| && tabu[k].facts.Keys == s.facts.Keys;
      assert ar'[start + k] == tabu[k];
    } else {
      assert ar'[|ar|] == s;
      assert queue'[|queue|] in queue';
    }
  }

  /** A prefix of a prefix is a prefix. */
  lemma PrefixOfPrefix<T>(a: seq<T>, b: seq<T>, c: seq<T>)
    requires |a| <= |b| <= |c| && b[..|a|] == a && c[..|b|] == b
    ensures c[..|a|] == a
  {
    assert c[..|b|][..|a|] == c[..|a|];
  }

  /** A state reached stays reached as more states are pushed. */
  lemma ReachedGrow(start: nat, ar: seq<State>, ar': seq<State>, keys: set<FactKey>)
    requires |ar| <= |ar'| && ar'[..|ar|] == ar && Reached(start, ar, keys)
    ensures Reached(start, ar', keys)
  {
    var w :| start <= w < |ar| && ar[w].facts.Keys == keys;
    assert ar'[w] == ar[w];
  }

  /** An index queued stays queued as more entries are pushed. */
  lemma QueuedGrow(queue: seq<Entry>, queue': seq<Entry>, k: nat)
    requires |queue| <= |queue'| && queue'[..|queue|] == queue && Queued(queue, k)
    ensures Queued(queue', k)
  {
    var e :| e in queue && e.index == k;
    var j :| 0 <= j < |queue| && queue[j] == e;
    assert queue'[j] == e;
  }

  /**
   * Once every target of a state's successors is reached, the state is
   * expanded.
   */
  lemma TargetsExpanded(p: Problem, start: nat, parent: FactTable, actions: seq<Action>, targets: seq<set<FactKey>>,
                        ar: seq<State>)
    requires WellFormed(p) && actions == ApplicableActions(p, parent) && Targets(p, parent, actions, targets)
    requires forall j | 0 <= j < |targets| :: Reached(start, ar, targets[j])
    ensures forall keys | keys in Successors(p, parent) :: Reached(start, ar, keys)
  {
    forall keys | keys in Successors(p, parent) ensures Reached(start, ar, keys) {
      var a :| a in actions && keys == RelaxedFacts(p, Grounding.ApplyAction(p.predicates, parent, a)).Keys;
      var j :| 0 <= j < |actions| && actions[j] == a;
      assert Reached(start, ar, targets[j]);
    }
  }

  /** Offering the successor at i, which pushed at most one state, advances Covering. */
  lemma CoveringStep(start: nat, n: nat, queue: seq<Entry>, targets: seq<set<FactKey>>, i: nat,
                     ar': seq<State>, queue': seq<Entry>, ar'': seq<State>, queue'': seq<Entry>)
    requires i < |targets| && Covering(start, n, queue, targets, i, ar', queue')
    requires |ar'| <= |ar''| <= |ar'| + 1 && ar''[..|ar'|] == ar'
    requires |queue'| <= |queue''| && queue''[..|queue'|] == queue'
    requires |ar''| == |ar'| + 1 ==> Queued(queue'', |ar'|)
    requires Reached(start, ar'', targets[i])
    ensures Covering(start, n, queue, targets, i + 1, ar'', queue'')
  {
    PrefixOfPrefix(queue, queue', queue'');
    forall k | n <= k < |ar''| ensures Queued(queue'', k) {
      if k < |ar'| {
        QueuedGrow(queue', queue'', k);
      }
    }
    forall j | 0 <= j < i + 1 ensures Reached(start, ar'', targets[j]) {
      if j < i {
        ReachedGrow(start, ar', ar'', targets[j]);
      }
    }
  }

  /**
   * A popped entry of least priority whose state improves on current's has
   * the least heuristic of all pushed states: every pushed state that
   * improves on current's is still queued.
   */
  lemma PoppedLeast(p: Problem, arena: seq<State>, current: nat, u: set<FactKey>,
                    ar: seq<State>, queue: seq<Entry>, m: nat)
    requires WellFormed(p) && current < |arena| && Searching(p, arena, current, u, ar, queue)
    requires IsMin(queue, m) && ar[queue[m].index].heuristic < arena[current].heuristic
    ensures forall k | |arena| <= k < |ar| :: ar[queue[m].index].heuristic <= ar[k].heuristic
  {
    forall k | |arena| <= k < |ar| ensures ar[queue[m].index].heuristic <= ar[k].heuristic {
      if ar[k].heuristic < arena[current].heuristic {
        var e :| e in queue && e.index == k;
        var j :| 0 <= j < |queue| && queue[j] == e;
      }
    }
  }

  /**
   * Pushing a scored state whose keys are in u and differ from those of every
   * pushed state keeps the loop state.
   */
  lemma SearchingPush(p: Problem, arena: seq<State>, current: nat, u: set<FactKey>,
                      ar: seq<State>, queue: seq<Entry>, s: State)
    requires WellFormed(p) && current < |arena| && Searching(p, arena, current, u, ar, queue)
    requires Scored(p, ar + [s], |ar|) && (s.previous == Some(current) || s.previous.value >= |arena|)
    requires s.facts.Keys <= u
    requires forall k | |arena| <= k < |ar| :: ar[k].facts.Keys != s.facts.Keys
    ensures Searching(p, arena, current, u, ar + [s], queue + [Entry(|ar|, s.heuristic)])
  {
    var ar' := ar + [s];
    var queue' := queue + [Entry(|ar|, s.heuristic)];
    GrownPush(p, arena, current, ar, s);
    var pushed := ar[|arena|..];
    assert ar'[|arena|..] == pushed + [s];
    forall k | 0 <= k < |pushed| ensures pushed[k].facts.Keys != s.facts.Keys {
      assert pushed[k] == ar[|arena| + k];
    }
    DistinctSnoc(pushed, s);
    assert Within(pushed + [s], u) by {
      forall k | 0 <= k < |pushed| + 1 ensures (pushed + [s])[k].facts.Keys <= u {
        if k < |pushed| {
          assert (pushed + [s])[k] == pushed[k];
        }
      }
    }
    QueuePush(p, arena, current, ar, queue, s);
  }

  /** The queue part of SearchingPush. */
  lemma QueuePush(p: Problem, arena: seq<State>, current: nat, ar: seq<State>, queue: seq<Entry>, s: State)
    requires current < |arena| <= |ar| && ar[..|arena|] == arena
    requires forall e | e in queue ::
               && e.index < |ar|
               && e.priority == ar[e.index].heuristic
               && (e.index == current || e.index >= |arena|)
    requires forall k | |arena| <= k < |ar| && ar[k].heuristic < arena[current].heuristic :: Queued(queue, k)
    ensures var ar', queue' := ar + [s], queue + [Entry(|ar|, s.heuristic)];
            && (forall e | e in queue' ::
                  && e.index < |ar'|
                  && e.priority == ar'[e.index].heuristic
                  && (e.index == current || e.index >= |arena|))
            && (forall k | |arena| <= k < |ar'| && ar'[k].heuristic < arena[current].heuristic :: Queued(queue', k))
  {
    var ar', queue' := ar + [s], queue + [Entry(|ar|, s.heuristic)];
    forall k | 0 <= k < |ar| ensures ar'[k] == ar[k] {
    }
    forall k | |arena| <= k < |ar'| && ar'[k].heuristic < arena[current].heuristic ensures Queued(queue', k) {
      if k < |ar| {
        var e :| e in queue && e.index == k;
        assert e in queue';
      } else {
        assert queue'[|queue|] in queue';
      }
    }
  }

  /**
   * Pushing a scored successor of the state at idx that no tabu state is ==
   * to keeps the loop state, tabu_states growing with the arena.
   */
  lemma OfferPush(p: Problem, arena: seq<State>, current: nat, u: set<FactKey>,
                  ar: seq<State>, tabu: seq<State>, queue: seq<Entry>, idx: nat, s: State)
    requires WellFormed(p) && current < |arena| && arena[current].facts.Keys <= u && EffectKeys(p) <= u
    requires Searching(p, arena, current, u, ar, queue) && tabu == ar[|arena|..]
    requires idx < |ar| && (idx == current || idx >= |arena|)
    requires s.previous == Some(idx) && Child(p, ar[idx].facts, s)
    requires !exists k | 0 <= k < |tabu| :: tabu[k].facts.Keys == s.facts.Keys
    ensures Searching(p, arena, current, u, ar + [s], queue + [Entry(|ar|, s.heuristic)])
    ensures tabu + [s] == (ar + [s])[|arena|..]
  {
    var parent := ar[idx].facts;
    assert parent.Keys <= u by {
      if idx >= |arena| {
        assert ar[idx] == tabu[idx - |arena|];
      } else {
        assert ar[..|arena|][idx] == arena[idx];
      }
    }
    ScoredKeys(p, parent, s.action.value, u);
    assert Scored(p, ar + [s], |ar|) by {
      assert (ar + [s])[idx] == ar[idx];
    }
    forall k | |arena| <= k < |ar| ensures ar[k].facts.Keys != s.facts.Keys {
      assert ar[k] == tabu[k - |arena|];
    }
    SearchingPush(p, arena, current, u, ar, queue, s);
  }

  /** include?: some state of the list is == s. */
  method Includes(tabu: seq<State>, s: State) returns (b: bool)
    ensures b <==> exists k | 0 <= k < |tabu| :: tabu[k].facts.Keys == s.facts.Keys
  {
    var k := 0;
    while k < |tabu|
      invariant 0 <= k <= |tabu|
      invariant forall j | 0 <= j < k :: tabu[j].facts.Keys != s.facts.Keys
    {
      var same := tabu[k].Equals(s);
      if same {
        return true;
      }
      k := k + 1;
    }
    return false;
  }

  class Planner {
    const problem: Problem
    const heuristic: Heuristic

    constructor (p: Problem)
      ensures problem == p && heuristic.problem == p
    {
      problem := p;
      heuristic := new Heuristic(p);
    }

    /**
     * is_goal_satisfied?: every goal fact is in the state.
     */
    method IsGoalSatisfied(state: State) returns (b: bool)
      ensures b <==> forall j | 0 <= j < |problem.goal| :: KeyOf(problem.goal[j]) in state.facts
    {
      var j := 0;
      while j < |problem.goal|
        invariant 0 <= j <= |problem.goal|
        invariant forall i | 0 <= i < j :: KeyOf(problem.goal[i]) in state.facts
      {
        var present := state.IncludesFact(problem.goal[j]);
        if !present {
          return false;
        }
        j := j + 1;
      }
      return true;
    }

    /**
     * next_state: from the state at `current`, pop a state of least priority;
     * return it when its heuristic is below current's, otherwise score each
     * of its successors and push those no tabu state is == to, recording
     * them in tabu_states. The queue running out gives None. The pushed
     * states are appended to the arena, which is returned.
     */
    method NextState(store: FactStore, arena: seq<State>, current: nat) returns (r: Option<nat>, ar: seq<State>)
      requires WellFormed(problem) && heuristic.problem == problem && StoreOk(store, problem.predicates)
      requires ValidArena(arena) && current < |arena|
      modifies store
      ensures StoreOk(store, problem.predicates)
      ensures store.Kept()
      ensures Grown(problem, arena, current, ar) && Distinct(ar[|arena|..])
      ensures r.Some? ==> |arena| <= r.value < |ar| && ar[r.value].heuristic < arena[current].heuristic
      ensures r.Some? ==> forall k | |arena| <= k < |ar| :: ar[r.value].heuristic <= ar[k].heuristic
      ensures r.None? ==> forall k | |arena| <= k < |ar| :: ar[k].heuristic >= arena[current].heuristic
      ensures r.None? ==> forall k | k == current || |arena| <= k < |ar| :: Expanded(problem, |arena|, ar, k)
    {
      ghost var u := arena[current].facts.Keys + EffectKeys(problem);
      var queue := [Entry(current, arena[current].heuristic)];
      var tabu: seq<State> := [];
      ar := arena;
      assert ar[..|arena|] == arena;
      while queue != []
        invariant StoreOk(store, problem.predicates)
        invariant store.Kept()
        invariant Searching(problem, arena, current, u, ar, queue) && tabu == ar[|arena|..]
        invariant Explored(problem, arena, current, ar, queue)
        invariant |tabu| <= |Subsets(u)|
        decreases |Subsets(u)| - |tabu|, |queue|
      {
        ghost var least := MinExists(queue);
        var m :| 0 <= m < |queue| && IsMin(queue, m);
        var entry := queue[m];
        ghost var before := queue;
        queue := Remove(queue, m);
        if ar[entry.index].heuristic < arena[current].heuristic {
          PoppedLeast(problem, arena, current, u, ar, before, m);
          return Some(entry.index), ar;
        }
        forall k | |arena| <= k < |ar| && ar[k].heuristic < arena[current].heuristic ensures Queued(queue, k) {
          RemoveKeeps(before, m, k);
        }
        ar, tabu, queue := ExpandAll(store, arena, current, u, ar, tabu, before, m, queue, entry.index);
        TabuBound(tabu, u);
      }
      return None, ar;
    }

    /**
     * next_state's expansion of the popped state, at idx: expand it, then
     * offer each successor in turn.
     */
    method ExpandAll(store: FactStore, ghost arena: seq<State>, current: nat, ghost u: set<FactKey>,
                     ar: seq<State>, tabu: seq<State>, ghost before: seq<Entry>, ghost m: nat, queue: seq<Entry>, idx: nat)
      returns (ar': seq<State>, tabu': seq<State>, queue': seq<Entry>)
      requires WellFormed(problem) && heuristic.problem == problem && StoreOk(store, problem.predicates)
      requires current < |arena| && arena[current].facts.Keys <= u && EffectKeys(problem) <= u
      requires Searching(problem, arena, current, u, ar, queue) && tabu == ar[|arena|..]
      requires idx < |ar| && (idx == current || idx >= |arena|)
      requires |arena| <= |ar| && m < |before| && before[m].index == idx && queue == Remove(before, m)
      requires Explored(problem, arena, current, ar, before)
      modifies store
      ensures StoreOk(store, problem.predicates)
      ensures store.Kept()
      ensures Searching(problem, arena, current, u, ar', queue') && tabu' == ar'[|arena|..]
      ensures |tabu| <= |tabu'| && |tabu'| - |tabu| == |queue'| - |queue|
      ensures |ar| <= |ar'| && ar'[..|ar|] == ar && |queue| <= |queue'| && queue'[..|queue|] == queue
      ensures forall k | |ar| <= k < |ar'| :: Queued(queue', k)
      ensures Expanded(problem, |arena|, ar', idx)
      ensures Explored(problem, arena, current, ar', queue')
    {
      var states := ar[idx].Expand(store, problem, idx);
      assert Explored(problem, arena, current, ar, before);
      ar', tabu', queue' := OfferAll(store, arena, current, u, ar, tabu, queue, idx, states);
      ExploredStep(problem, arena, current, ar, before, m, ar', queue');
    }

    /** next_state's loop over the states expand made from the state at idx: each is offered in turn. */
    method OfferAll(store: FactStore, ghost arena: seq<State>, current: nat, ghost u: set<FactKey>,
                    ar: seq<State>, tabu: seq<State>, queue: seq<Entry>, idx: nat, states: seq<State>)
      returns (ar': seq<State>, tabu': seq<State>, queue': seq<Entry>)
      requires WellFormed(problem) && heuristic.problem == problem && StoreOk(store, problem.predicates)
      requires current < |arena| && arena[current].facts.Keys <= u && EffectKeys(problem) <= u
      requires Searching(problem, arena, current, u, ar, queue) && tabu == ar[|arena|..]
      requires idx < |ar| && (idx == current || idx >= |arena|)
      requires |states| == |ApplicableActions(problem, ar[idx].facts)|
      requires forall j | 0 <= j < |states| ::
                 Produced(states[j], problem.predicates, ar[idx].facts, ApplicableActions(problem, ar[idx].facts)[j], idx)
      requires forall j, k | 0 <= j < k < |states| :: states[j] != states[k]
      requires forall j, k | 0 <= j < |states| && 0 <= k < |ar| :: states[j] != ar[k]
      modifies store, states
      ensures StoreOk(store, problem.predicates)
      ensures store.Kept()
      ensures Searching(problem, arena, current, u, ar', queue') && tabu' == ar'[|arena|..]
      ensures |tabu| <= |tabu'| && |tabu'| - |tabu| == |queue'| - |queue|
      ensures |ar| <= |ar'| && ar'[..|ar|] == ar && |queue| <= |queue'| && queue'[..|queue|] == queue
      ensures forall k | |ar| <= k < |ar'| :: Queued(queue', k)
      ensures Expanded(problem, |arena|, ar', idx)
    {
      ghost var parent := ar[idx].facts;
      ghost var actions := ApplicableActions(problem, parent);
      ApplicableResolvable(problem, parent);
      ghost var targets := seq(|actions|, j requires 0 <= j < |actions| =>
                               RelaxedFacts(problem, Grounding.ApplyAction(problem.predicates, parent, actions[j])).Keys);
      assert Targets(problem, parent, actions, targets);
      ar', tabu', queue' := ar, tabu, queue;
      var i := 0;
      while i < |states|
        invariant 0 <= i <= |states|
        invariant StoreOk(store, problem.predicates)
        invariant store.Kept()
        invariant Offering(problem, arena, current, u, ar, queue, idx, states, actions, i, ar', queue')
        invariant Covering(|arena|, |ar|, queue, targets, i, ar', queue')
        invariant tabu' == ar'[|arena|..]
      {
        ar', tabu', queue' := OfferNext(store, arena, current, u, ar, queue, idx, states, actions, parent, targets, i,
                                        ar', tabu', queue');
        i := i + 1;
      }
      assert ar'[idx] == ar[idx];
      TargetsExpanded(problem, |arena|, parent, actions, targets, ar');
    }

    /** One turn of OfferAll's loop: the state at i is offered. */
    method OfferNext(store: FactStore, ghost arena: seq<State>, current: nat, ghost u: set<FactKey>,
                     ghost ar: seq<State>, ghost queue: seq<Entry>, idx: nat, states: seq<State>,
                     ghost actions: seq<Action>, ghost parent: FactTable, ghost targets: seq<set<FactKey>>, i: nat,
                     ar': seq<State>, tabu': seq<State>, queue': seq<Entry>)
      returns (ar'': seq<State>, tabu'': seq<State>, queue'': seq<Entry>)
      requires WellFormed(problem) && heuristic.problem == problem && StoreOk(store, problem.predicates)
      requires current < |arena| && arena[current].facts.Keys <= u && EffectKeys(problem) <= u
      requires idx < |ar| && (idx == current || idx >= |arena|)
      requires parent == ar[idx].facts && actions == ApplicableActions(problem, parent)
      requires forall j, k | 0 <= j < k < |states| :: states[j] != states[k]
      requires i < |states| && Offering(problem, arena, current, u, ar, queue, idx, states, actions, i, ar', queue')
      requires Targets(problem, parent, actions, targets)
      requires Covering(|arena|, |ar|, queue, targets, i, ar', queue')
      requires tabu' == ar'[|arena|..]
      modifies store, states[i]
      ensures StoreOk(store, problem.predicates)
      ensures store.Kept()
      ensures Offering(problem, arena, current, u, ar, queue, idx, states, actions, i + 1, ar'', queue'')
      ensures tabu'' == ar''[|arena|..]
      ensures Covering(|arena|, |ar|, queue, targets, i + 1, ar'', queue'')
    {
      assert ar'[idx] == ar[idx];
      assert actions[i] in actions;
      ar'', tabu'', queue'' := Offer(store, arena, current, u, ar', tabu', queue', idx, states[i], actions, targets, i,
                                     |ar|, queue);
      PrefixOfPrefix(ar, ar', ar'');
    }

    /**
     * The body of next_state's loop over expanded states, for s: it is scored
     * by calculate_heuristic, which adds its relaxed facts to it, and it is
     * pushed and recorded in tabu_states unless a tabu state is == to it.
     */
    method Offer(store: FactStore, ghost arena: seq<State>, current: nat, ghost u: set<FactKey>,
                 ar: seq<State>, tabu: seq<State>, queue: seq<Entry>, idx: nat, s: State,
                 ghost actions: seq<Action>, ghost targets: seq<set<FactKey>>, ghost j: nat,
                 ghost n: nat, ghost queue0: seq<Entry>)
      returns (ar': seq<State>, tabu': seq<State>, queue': seq<Entry>)
      requires WellFormed(problem) && heuristic.problem == problem && StoreOk(store, problem.predicates)
      requires current < |arena| && arena[current].facts.Keys <= u && EffectKeys(problem) <= u
      requires Searching(problem, arena, current, u, ar, queue) && tabu == ar[|arena|..]
      requires idx < |ar| && (idx == current || idx >= |arena|)
      requires Targets(problem, ar[idx].facts, actions, targets) && j < |actions|
      requires actions[j] in ApplicableActions(problem, ar[idx].facts)
      requires Produced(s, problem.predicates, ar[idx].facts, actions[j], idx)
      requires forall k | 0 <= k < |ar| :: ar[k] != s
      requires Covering(|arena|, n, queue0, targets, j, ar, queue)
      modifies store, s`facts, s`heuristic
      ensures StoreOk(store, problem.predicates)
      ensures store.Kept()
      ensures Searching(problem, arena, current, u, ar', queue') && tabu' == ar'[|arena|..]
      ensures Covering(|arena|, n, queue0, targets, j + 1, ar', queue')
      ensures if exists k | 0 <= k < |tabu| :: tabu[k].facts.Keys == s.facts.Keys
              then ar' == ar && tabu' == tabu && queue' == queue
              else ar' == ar + [s] && tabu' == tabu + [s] && queue' == queue + [Entry(|ar|, s.heuristic)]
    {
      ghost var parent := ar[idx].facts;
      Score(store, s, parent, actions[j], idx);
      var seen := Includes(tabu, s);
      assert s.facts.Keys == targets[j];
      if seen {
        Offered(|arena|, ar, tabu, queue, s, ar, queue);
        CoveringStep(|arena|, n, queue0, targets, j, ar, queue, ar, queue);
        return ar, tabu, queue;
      }
      OfferPush(problem, arena, current, u, ar, tabu, queue, idx, s);
      ar', tabu', queue' := ar + [s], tabu + [s], queue + [Entry(|ar|, s.heuristic)];
      Offered(|arena|, ar, tabu, queue, s, ar', queue');
      CoveringStep(|arena|, n, queue0, targets, j, ar, queue, ar', queue');
    }

    /**
     * s.heuristic = @heuristic.calculate_heuristic(s): the successor made from
     * parent by a gets its relaxed facts added and the cost of a as its heuristic.
     */
    method Score(store: FactStore, s: State, ghost parent: FactTable, ghost a: Action, ghost idx: nat)
      requires WellFormed(problem) && heuristic.problem == problem && StoreOk(store, problem.predicates)
      requires a in ApplicableActions(problem, parent) && Produced(s, problem.predicates, parent, a, idx)
      modifies store, s`facts, s`heuristic
      ensures StoreOk(store, problem.predicates)
      ensures store.Kept()
      ensures s.previous == Some(idx) && Child(problem, parent, s)
    {
      var h := heuristic.CalculateHeuristic(store, s);
      s.heuristic := h;
    }
  }
}
