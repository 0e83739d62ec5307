/**
 * The Heuristic class of heuristic.rb: the relaxed-plan estimate of how far
 * a state is from the goal, and the greedy choice of an action by that
 * estimate. The loops run in place, on the state they are given, and are
 * proved to compute the functions of relaxation.dfy.
 */
module Heuristic {
  import opened Wrappers
  import opened Facts
  import opened Grounding
  import opened States
  import opened Relaxation

  /**
   * The cost choose_best_action gives an action: the heuristic value of a
   * copy of the state with the action applied.
   */
  function Cost(p: Problem, facts: FactTable, a: Action): int
    requires WellFormed(p) && OperatorResolves(p.predicates, a.operator)
  {
    HeuristicValue(p, Grounding.ApplyAction(p.predicates, facts, a))
  }

  /** hs lists the costs of the actions, in order. */
  ghost predicate CostsAre(p: Problem, facts: FactTable, actions: seq<Action>, hs: seq<int>)
    requires WellFormed(p) && Resolvable(p.predicates, actions)
  {
    |hs| == |actions| && CostsUpTo(p, facts, actions, hs)
  }

  /** hs holds the costs of the first |hs| actions, defined one action at a time. */
  ghost predicate CostsUpTo(p: Problem, facts: FactTable, actions: seq<Action>, hs: seq<int>)
    requires WellFormed(p) && Resolvable(p.predicates, actions)
    decreases |hs|
  {
    |hs| <= |actions| &&
    (|hs| == 0 ||
     (CostsUpTo(p, facts, actions, hs[..|hs| - 1]) && hs[|hs| - 1] == Cost(p, facts, actions[|hs| - 1])))
  }

  /** Appending the cost of the next action keeps hs the costs of a prefix of the actions. */
  lemma CostsUpToSnoc(p: Problem, facts: FactTable, actions: seq<Action>, hs: seq<int>, h: int)
    requires WellFormed(p) && Resolvable(p.predicates, actions)
    requires CostsUpTo(p, facts, actions, hs) && |hs| < |actions|
    requires h == Cost(p, facts, actions[|hs|])
    ensures CostsUpTo(p, facts, actions, hs + [h])
  {
    assert (hs + [h])[..|hs|] == hs;
  }

  /** Every entry of hs is the cost of the action at the same position. */
  lemma {:induction false} CostsAt(p: Problem, facts: FactTable, actions: seq<Action>, hs: seq<int>, j: nat)
    requires WellFormed(p) && Resolvable(p.predicates, actions)
    requires CostsUpTo(p, facts, actions, hs) && j < |hs|
    ensures hs[j] == Cost(p, facts, actions[j])
    decreases |hs|
  {
    if j < |hs| - 1 {
      CostsAt(p, facts, actions, hs[..|hs| - 1], j);
    }
  }

  /** best_heuristic after the first i costs: the least of them, starting from INFINITY. */
  function MinCost(hs: seq<int>, i: nat): int
    requires i <= |hs|
  {
    if i == 0 then INFINITY
    else
      var m := MinCost(hs, i - 1);
      if hs[i - 1] < m then hs[i - 1] else m
  }

  /** The first i candidates whose cost is m, in order. */
  function Ties<T>(xs: seq<T>, hs: seq<int>, i: nat, m: int): seq<T>
    requires i <= |xs| && i <= |hs|
  {
    if i == 0 then []
    else Ties(xs, hs, i - 1, m) + (if hs[i - 1] == m then [xs[i - 1]] else [])
  }

  /** best_actions once the loop is over: the candidates of least cost, if that cost is at most INFINITY. */
  function Best<T>(xs: seq<T>, hs: seq<int>): seq<T>
    requires |hs| == |xs|
  {
    Ties(xs, hs, |xs|, MinCost(hs, |hs|))
  }

  /**
   * rand(n) is modelled as a draw reduced modulo n; rand(0) returns a float,
   * which indexes the empty list at 0 and yields nil.
   */
  function Pick<T>(s: seq<T>, draw: nat): (r: Option<T>)
    ensures r.None? <==> s == []
    ensures r.Some? ==> r.value in s
  {
    if s == [] then None else Some(s[draw % |s|])
  }

  /** MinCost is at most INFINITY and each of the first i costs, and is one of them or INFINITY. */
  lemma {:induction false} MinCostBounds(hs: seq<int>, i: nat)
    requires i <= |hs|
    ensures MinCost(hs, i) <= INFINITY
    ensures forall j | 0 <= j < i :: MinCost(hs, i) <= hs[j]
    ensures MinCost(hs, i) == INFINITY || exists j | 0 <= j < i :: MinCost(hs, i) == hs[j]
  {
    if i > 0 {
      MinCostBounds(hs, i - 1);
    }
  }

  /** The candidates Ties keeps are exactly those of cost m. */
  lemma {:induction false} TiesExact<T>(xs: seq<T>, hs: seq<int>, i: nat, m: int, x: T)
    requires i <= |xs| && i <= |hs|
    ensures x in Ties(xs, hs, i, m) <==> exists j | 0 <= j < i :: xs[j] == x && hs[j] == m
  {
    if i > 0 {
      TiesExact(xs, hs, i - 1, m, x);
    }
  }

  /** No cost among the first i is below their MinCost, so there is nothing to tie with below it. */
  lemma {:induction false} TiesBelow<T>(xs: seq<T>, hs: seq<int>, i: nat, m: int)
    requires i <= |xs| && i <= |hs|
    requires m < MinCost(hs, i)
    ensures Ties(xs, hs, i, m) == []
  {
    if i > 0 {
      MinCostBounds(hs, i);
      TiesBelow(xs, hs, i - 1, m);
    }
  }

  /**
   * What choose_best_action promises outside its random branch: the chosen
   * candidates are exactly those of least cost, if that cost is at most
   * INFINITY, and there are none only when every cost is above INFINITY.
   */
  lemma BestExact<T>(xs: seq<T>, hs: seq<int>, x: T)
    requires |hs| == |xs|
    ensures x in Best(xs, hs) <==>
              exists j | 0 <= j < |hs| :: xs[j] == x && hs[j] <= INFINITY && forall k | 0 <= k < |hs| :: hs[j] <= hs[k]
    ensures Best(xs, hs) == [] <==> forall j | 0 <= j < |hs| :: hs[j] > INFINITY
  {
    var n := |hs|;
    var m := MinCost(hs, n);
    MinCostBounds(hs, n);
    TiesExact(xs, hs, n, m, x);
    if Ties(xs, hs, n, m) == [] {
      if m == INFINITY {
        forall j | 0 <= j < n ensures hs[j] > INFINITY {
          TiesExact(xs, hs, n, m, xs[j]);
        }
      } else {
        var k :| 0 <= k < n && m == hs[k];
        TiesExact(xs, hs, n, m, xs[k]);
      }
    } else {
      TiesExact(xs, hs, n, m, Ties(xs, hs, n, m)[0]);
    }
  }

  /** Extending the costs does not change what the first i of them give. */
  lemma {:induction false} PrefixStable<T>(xs: seq<T>, hs: seq<int>, h: int, i: nat, m: int)
    requires i <= |xs| && i <= |hs|
    ensures MinCost(hs + [h], i) == MinCost(hs, i)
    ensures Ties(xs, hs + [h], i, m) == Ties(xs, hs, i, m)
  {
    if i > 0 {
      PrefixStable(xs, hs, h, i - 1, m);
      assert (hs + [h])[i - 1] == hs[i - 1];
    }
  }

  /** One step of choose_best_action's loop: the candidate at i = |hs| comes with cost h. */
  lemma TiesStep<T>(xs: seq<T>, hs: seq<int>, h: int)
    requires |hs| < |xs|
    ensures var i, hs' := |hs|, hs + [h];
            && (h == MinCost(hs, i) ==>
                  MinCost(hs', i + 1) == h && Ties(xs, hs', i + 1, h) == Ties(xs, hs, i, h) + [xs[i]])
            && (h < MinCost(hs, i) ==> MinCost(hs', i + 1) == h && Ties(xs, hs', i + 1, h) == [xs[i]])
            && (h > MinCost(hs, i) ==>
                  MinCost(hs', i + 1) == MinCost(hs, i) && Ties(xs, hs', i + 1, MinCost(hs, i)) == Ties(xs, hs, i, MinCost(hs, i)))
  {
    var i := |hs|;
    PrefixStable(xs, hs, h, i, h);
    PrefixStable(xs, hs, h, i, MinCost(hs, i));
    if h < MinCost(hs, i) {
      TiesBelow(xs, hs, i, h);
    }
  }

  class Heuristic {
    const problem: Problem

    constructor (p: Problem)
      ensures problem == p
    {
      problem := p;
    }

    /**
     * apply_action_relaxed: the facts of a's positive effects that the state
     * lacks, in effect order. The state is not changed.
     */
    method ApplyRelaxed(store: FactStore, state: State, a: Action) returns (added: seq<Fact>)
      requires NamedTable(problem.predicates) && StoreOk(store, problem.predicates)
      requires OperatorResolves(problem.predicates, a.operator)
      modifies store
      ensures StoreOk(store, problem.predicates)
      ensures store.Kept()
      ensures added == RelaxedNew(problem.predicates, state.facts, a)
    {
      var preds := problem.predicates;
      var effects := a.operator.effect;
      added := [];
      var i := 0;
      while i < |effects|
        invariant 0 <= i <= |effects|
        invariant StoreOk(store, preds)
        invariant store.Kept()
        invariant added == RelaxedNewUpTo(preds, state.facts, a, i)
      {
        var effect := effects[i];
        assert effect in effects;
        var r := state.GetMatchingFact(store, preds, effect, a);
        var present := state.IncludesFact(r.value);
        if !IsNot(effect[0]) && !present {
          added := added + [r.value];
        }
        i := i + 1;
      }
    }

    /** The prec_distance loop: the sum of the distances of a's precondition facts. */
    method PrecDistanceOf(store: FactStore, state: State, distance: Distance, a: Action) returns (c: int)
      requires NamedTable(problem.predicates) && StoreOk(store, problem.predicates)
      requires OperatorResolves(problem.predicates, a.operator)
      modifies store
      ensures StoreOk(store, problem.predicates)
      ensures store.Kept()
      ensures c == PrecDistance(problem.predicates, distance, a, |a.operator.precondition|)
    {
      var preds := problem.predicates;
      var precs := a.operator.precondition;
      c := 0;
      var i := 0;
      while i < |precs|
        invariant 0 <= i <= |precs|
        invariant StoreOk(store, preds)
        invariant store.Kept()
        invariant c == PrecDistance(preds, distance, a, i)
      {
        assert precs[i] in precs;
        var r := state.GetMatchingFact(store, preds, precs[i], a);
        c := c + Dist(distance, KeyOf(r.value));
        i := i + 1;
      }
    }

    /** The update loop over new_facts: each distance above c is lowered to c. */
    static method RelaxAll(distance: Distance, fs: seq<Fact>, c: int) returns (d: Distance)
      ensures d == Relax(distance, fs, c, |fs|)
    {
      d := distance;
      var k := 0;
      while k < |fs|
        invariant 0 <= k <= |fs|
        invariant d == Relax(distance, fs, c, k)
      {
        var key := KeyOf(fs[k]);
        if c < Dist(d, key) {
          d := d[key := c];
        }
        k := k + 1;
      }
    }

    /**
     * One round of calculate_heuristic's outer loop, up to the adding of
     * the facts: the distances after the round and the facts it found. The
     * state is not changed.
     */
    method Round(store: FactStore, state: State, distance: Distance) returns (d: Distance, added: seq<Fact>)
      requires WellFormed(problem) && StoreOk(store, problem.predicates)
      modifies store
      ensures StoreOk(store, problem.predicates)
      ensures store.Kept()
      ensures d == DistanceAfter(problem, state.facts, distance)
      ensures added == AddedBy(problem, state.facts)
    {
      var actions := state.FindApplicableActions(store, problem);
      ApplicableResolvable(problem, state.facts);
      d, added := RoundOver(store, state, distance, actions);
    }

    /** The loop of a round over its actions. */
    method RoundOver(store: FactStore, state: State, distance: Distance, actions: seq<Action>)
      returns (d: Distance, added: seq<Fact>)
      requires NamedTable(problem.predicates) && StoreOk(store, problem.predicates)
      requires Resolvable(problem.predicates, actions)
      modifies store
      ensures StoreOk(store, problem.predicates)
      ensures store.Kept()
      ensures d == RoundDistance(problem.predicates, state.facts, distance, actions, |actions|)
      ensures added == RoundAdded(problem.predicates, state.facts, actions, |actions|)
    {
      var preds := problem.predicates;
      ghost var table := state.facts;
      d := distance;
      added := [];
      var i := 0;
      while i < |actions|
        invariant 0 <= i <= |actions|
        invariant StoreOk(store, preds) && state.facts == table
        invariant store.Kept()
        invariant d == RoundDistance(preds, table, distance, actions, i)
        invariant added == RoundAdded(preds, table, actions, i)
      {
        var nf;
        d, nf := ActionStep(store, state, actions[i], d);
        added := added + nf;
        i := i + 1;
      }
    }

    /**
     * One action of a round: its prec_distance, its relaxed
     * facts, and the distance updates at that cost plus one.
     */
    method ActionStep(store: FactStore, state: State, a: Action, d0: Distance)
      returns (d: Distance, nf: seq<Fact>)
      requires NamedTable(problem.predicates) && StoreOk(store, problem.predicates)
      requires OperatorResolves(problem.predicates, a.operator)
      modifies store
      ensures StoreOk(store, problem.predicates)
      ensures store.Kept()
      ensures nf == RelaxedNew(problem.predicates, state.facts, a)
      ensures d == ActionDistance(problem.predicates, state.facts, d0, a)
    {
      var c := PrecDistanceOf(store, state, d0, a);
      nf := ApplyRelaxed(store, state, a);
      d := RelaxAll(d0, nf, c + 1);
    }

    /** added_facts.each { |f| state.add_fact(f) } */
    static method AddAllTo(state: State, fs: seq<Fact>)
      modifies state`facts
      ensures state.facts == AddAll(old(state.facts), fs, |fs|)
    {
      var k := 0;
      while k < |fs|
        invariant 0 <= k <= |fs|
        invariant state.facts == AddAll(old(state.facts), fs, k)
      {
        state.AddFact(fs[k]);
        k := k + 1;
      }
    }

    /** state.each_fact { |f| distance[f] = 0 } */
    static method ZeroDistances(state: State) returns (d: Distance)
      ensures d == InitialDistance(state.facts)
    {
      d := map[];
      var rest := state.facts.Keys;
      while rest != {}
        invariant rest <= state.facts.Keys
        invariant d == map k | k in state.facts.Keys - rest :: 0
        decreases rest
      {
        var k :| k in rest;
        d := d[k := 0];
        rest := rest - {k};
      }
    }

    /** The inject over the goal facts: the sum of their distances. */
    static method GoalSum(goal: seq<Fact>, distance: Distance) returns (h: int)
      ensures h == SumGoal(goal, distance, |goal|)
    {
      h := 0;
      var i := 0;
      while i < |goal|
        invariant 0 <= i <= |goal|
        invariant h == SumGoal(goal, distance, i)
      {
        h := h + Dist(distance, KeyOf(goal[i]));
        i := i + 1;
      }
    }

    /**
     * calculate_heuristic: rounds of relaxed expansion on the state itself
     * until a round adds nothing, then the sum of the goal facts' distances.
     * The state keeps the facts the rounds added.
     */
    method CalculateHeuristic(store: FactStore, state: State) returns (h: int)
      requires WellFormed(problem) && StoreOk(store, problem.predicates)
      modifies store, state`facts
      ensures StoreOk(store, problem.predicates)
      ensures store.Kept()
      ensures state.facts == RelaxedFacts(problem, old(state.facts))
      ensures h == HeuristicValue(problem, old(state.facts))
    {
      ghost var start := state.facts;
      var distance := ZeroDistances(state);
      while true
        invariant StoreOk(store, problem.predicates)
        invariant store.Kept()
        invariant Fixpoint(problem, state.facts, distance) == Fixpoint(problem, start, InitialDistance(start))
        decreases |EffectKeys(problem) - state.facts.Keys|
      {
        ghost var before := state.facts;
        var d, added := Round(store, state, distance);
        AddAllTo(state, added);
        if added == [] {
          distance := d;
          break;
        }
        RoundGrows(problem, before);
        distance := d;
      }
      h := GoalSum(problem.goal, distance);
    }

    /** The cost of one action: a clone of the state with the action applied, and its heuristic value. */
    method CostOf(store: FactStore, current: State, a: Action) returns (h: int)
      requires WellFormed(problem) && StoreOk(store, problem.predicates)
      requires OperatorResolves(problem.predicates, a.operator)
      modifies store
      ensures StoreOk(store, problem.predicates)
      ensures store.Kept()
      ensures h == Cost(problem, current.facts, a)
    {
      var copy := current.Clone();
      copy.ApplyAction(store, problem.predicates, a);
      h := CalculateHeuristic(store, copy);
    }

    /**
     * choose_best_action: with a draw below 20 (of rand(100)) any action at
     * random; otherwise one of the actions whose applied state has the least
     * heuristic value, ties broken at random, none when every value is above
     * INFINITY. The current state is not changed. The costs the loop
     * computes are returned as the ghost hs.
     */
    method ChooseBestAction(store: FactStore, current: State, actions: seq<Action>, draw: nat, pick: nat)
      returns (r: Option<Action>, ghost hs: seq<int>)
      requires WellFormed(problem) && StoreOk(store, problem.predicates)
      requires Resolvable(problem.predicates, actions)
      requires draw < 100
      modifies store
      ensures StoreOk(store, problem.predicates)
      ensures store.Kept()
      ensures draw < 20 ==> r == Pick(actions, pick)
      ensures draw >= 20 ==> CostsAre(problem, current.facts, actions, hs) && r == Pick(Best(actions, hs), pick)
    {
      if draw < 20 {
        return Pick(actions, pick), [];
      }
      var bestActions;
      bestActions, hs := BestOf(store, current, actions);
      r := Pick(bestActions, pick);
    }

    /** The loop of choose_best_action: best_actions once every action has been costed. */
    method BestOf(store: FactStore, current: State, actions: seq<Action>)
      returns (bestActions: seq<Action>, ghost hs: seq<int>)
      requires WellFormed(problem) && StoreOk(store, problem.predicates)
      requires Resolvable(problem.predicates, actions)
      modifies store
      ensures StoreOk(store, problem.predicates)
      ensures store.Kept()
      ensures CostsAre(problem, current.facts, actions, hs)
      ensures bestActions == Best(actions, hs)
    {
      hs := [];
      var best := INFINITY;
      bestActions := [];
      var i := 0;
      while i < |actions|
        invariant 0 <= i <= |actions| && |hs| == i
        invariant StoreOk(store, problem.predicates)
        invariant store.Kept()
        invariant CostsUpTo(problem, current.facts, actions, hs)
        invariant best == MinCost(hs, i)
        invariant bestActions == Ties(actions, hs, i, best)
      {
        best, bestActions, hs := Consider(store, current, actions, i, hs, best, bestActions);
        i := i + 1;
      }
    }

    /**
     * One pass of choose_best_action's loop, for the action at i, after the i
     * already costed in hs: it is costed on a clone; an equal cost joins the ties,
     * a lower one replaces them.
     */
    method Consider(store: FactStore, current: State, actions: seq<Action>, i: nat, ghost hs: seq<int>, best: int,
                    ties: seq<Action>)
      returns (best': int, ties': seq<Action>, ghost hs': seq<int>)
      requires WellFormed(problem) && StoreOk(store, problem.predicates)
      requires Resolvable(problem.predicates, actions) && i == |hs| < |actions|
      requires CostsUpTo(problem, current.facts, actions, hs)
      requires best == MinCost(hs, |hs|) && ties == Ties(actions, hs, |hs|, best)
      modifies store
      ensures StoreOk(store, problem.predicates)
      ensures store.Kept()
      ensures CostsUpTo(problem, current.facts, actions, hs') && hs' == hs + [Cost(problem, current.facts, actions[i])]
      ensures best' == MinCost(hs', |hs'|) && ties' == Ties(actions, hs', |hs'|, best')
    {
      var h := CostOf(store, current, actions[i]);
      CostsUpToSnoc(problem, current.facts, actions, hs, h);
      hs' := hs + [h];
      best', ties' := Keep(actions, i, hs, h, best, ties);
    }

    /**
     * The comparison in choose_best_action's loop for the action at i with
     * cost h: an equal cost joins the ties, a lower one replaces them.
     */
    static method Keep(actions: seq<Action>, i: nat, ghost hs: seq<int>, h: int, best: int, ties: seq<Action>)
      returns (best': int, ties': seq<Action>)
      requires i == |hs| < |actions|
      requires best == MinCost(hs, |hs|) && ties == Ties(actions, hs, |hs|, best)
      ensures best' == MinCost(hs + [h], |hs| + 1) && ties' == Ties(actions, hs + [h], |hs| + 1, best')
    {
      TiesStep(actions, hs, h);
      best', ties' := best, ties;
      if h == best {
        ties' := ties + [actions[i]];
      } else if h < best {
        ties' := [actions[i]];
        best' := h;
      }
    }
  }
}
