/**
 * What Heuristic#calculate_heuristic computes, as functions of values: the
 * distance table, the rounds of relaxed expansion up to a fixpoint and the
 * sum over the goal. The methods of heuristic.dfy run the same steps in
 * place and are proved to compute these functions; the lemmas here state
 * what the values mean.
 *
 * The rounds run on the state itself: the actions of a round are the
 * applicable actions of the state's facts at the start of the round
 * (State#find_applicable_actions, which tests every precondition, negated
 * or not, for presence), and the facts a round finds are added to the state.
 */
module Relaxation {
  import opened Wrappers
  import opened Facts
  import opened Grounding

  /** Heuristic::INFINITY, the distance of a fact that has not been reached. */
  const INFINITY: int := 99999999

  /** The distance hash; a key that is absent reads as INFINITY (Hash.new(INFINITY)). */
  type Distance = map<FactKey, int>

  function Dist(d: Distance, k: FactKey): int
  {
    if k in d then d[k] else INFINITY
  }

  /** Every fact of the state starts at distance 0. */
  function InitialDistance(facts: FactTable): Distance
  {
    map k | k in facts :: 0
  }

  // ---------------------------------------------------------------------------
  // One action of a round

  /** prec_distance after the first j preconditions of a: the sum of their distances. */
  function PrecDistance(preds: map<string, Predicate>, d: Distance, a: Action, j: nat): int
    requires OperatorResolves(preds, a.operator) && j <= |a.operator.precondition|
  {
    if j == 0 then 0
    else
      var lit := a.operator.precondition[j - 1];
      assert lit in a.operator.precondition;
      PrecDistance(preds, d, a, j - 1) + Dist(d, KeyOf(FactOf(preds, lit, a.substitutions)))
  }

  /** The facts apply_action_relaxed collects from the first j effects of a. */
  function RelaxedNewUpTo(preds: map<string, Predicate>, facts: FactTable, a: Action, j: nat): seq<Fact>
    requires OperatorResolves(preds, a.operator) && j <= |a.operator.effect|
  {
    if j == 0 then []
    else
      var e := a.operator.effect[j - 1];
      assert e in a.operator.effect;
      var f := FactOf(preds, e, a.substitutions);
      RelaxedNewUpTo(preds, facts, a, j - 1) + (if !Negated(e) && KeyOf(f) !in facts then [f] else [])
  }

  /** apply_action_relaxed: the facts of the positive effects that the state lacks, in effect order. */
  function RelaxedNew(preds: map<string, Predicate>, facts: FactTable, a: Action): seq<Fact>
    requires OperatorResolves(preds, a.operator)
  {
    RelaxedNewUpTo(preds, facts, a, |a.operator.effect|)
  }

  /** The distance updates for the first k facts of fs, each at cost c. */
  function Relax(d: Distance, fs: seq<Fact>, c: int, k: nat): Distance
    requires k <= |fs|
  {
    if k == 0 then d
    else
      var d0 := Relax(d, fs, c, k - 1);
      var key := KeyOf(fs[k - 1]);
      if c < Dist(d0, key) then d0[key := c] else d0
  }

  /** Every action of the list has an operator whose literals resolve. */
  predicate Resolvable(preds: map<string, Predicate>, actions: seq<Action>)
  {
    forall i | 0 <= i < |actions| :: OperatorResolves(preds, actions[i].operator)
  }

  /** The actions find_applicable_actions returns resolve. */
  lemma ApplicableResolvable(p: Problem, facts: FactTable)
    requires WellFormed(p)
    ensures Resolvable(p.predicates, ApplicableActions(p, facts))
  {
  }

  /**
   * One action of a round: its cost is its prec_distance plus one, read from
   * the table d0, and each fact it adds is lowered to that cost.
   */
  function ActionDistance(preds: map<string, Predicate>, facts: FactTable, d0: Distance, a: Action): Distance
    requires OperatorResolves(preds, a.operator)
  {
    var nf := RelaxedNew(preds, facts, a);
    Relax(d0, nf, PrecDistance(preds, d0, a, |a.operator.precondition|) + 1, |nf|)
  }

  /**
   * The distance table of a round after its first i actions, each read from
   * the table as the earlier actions of the round left it.
   */
  function RoundDistance(preds: map<string, Predicate>, facts: FactTable, d: Distance, actions: seq<Action>, i: nat)
    : Distance
    requires Resolvable(preds, actions) && i <= |actions|
  {
    if i == 0 then d
    else ActionDistance(preds, facts, RoundDistance(preds, facts, d, actions, i - 1), actions[i - 1])
  }

  /** The added_facts list of a round after its first i actions. */
  function RoundAdded(preds: map<string, Predicate>, facts: FactTable, actions: seq<Action>, i: nat): seq<Fact>
    requires Resolvable(preds, actions) && i <= |actions|
  {
    if i == 0 then [] else RoundAdded(preds, facts, actions, i - 1) + RelaxedNew(preds, facts, actions[i - 1])
  }

  /** The table with the first k facts of fs added under their keys. */
  function AddAll(facts: FactTable, fs: seq<Fact>, k: nat): FactTable
    requires k <= |fs|
  {
    if k == 0 then facts else AddAll(facts, fs, k - 1)[KeyOf(fs[k - 1]) := fs[k - 1]]
  }

  /** The keys of the first k facts of fs. */
  ghost function KeysOf(fs: seq<Fact>, k: nat): set<FactKey>
    requires k <= |fs|
  {
    set i | 0 <= i < k :: KeyOf(fs[i])
  }

  /** Ruby's ArgumentError: `given` arguments passed to a method that declares `declared` parameters. */
  datatype CallError = ArgumentError(given: nat, declared: nat)

  /**
   * A call of State#find_applicable_actions with `args` arguments. The method
   * declares no parameter, so any argument raises before its body runs.
   */
  function FindApplicableActionsWith(p: Problem, facts: FactTable, args: nat): (r: Result<seq<Action>, CallError>)
    requires WellFormed(p)
    ensures r.Ok? <==> args == 0
    ensures r.Err? ==> r.error.given > r.error.declared
  {
    if args == 0 then Ok(ApplicableActions(p, facts)) else Err(ArgumentError(args, 0))
  }

  /** The call that starts each round as calculate_heuristic writes it: find_applicable_actions(true). */
  function RoundActionsAsWritten(p: Problem, facts: FactTable): Result<seq<Action>, CallError>
    requires WellFormed(p)
  {
    FindApplicableActionsWith(p, facts, 1)
  }

  /** As written, the first round raises in every state, so calculate_heuristic returns no value at all. */
  lemma RoundActionsRaise(p: Problem, facts: FactTable)
    requires WellFormed(p)
    ensures RoundActionsAsWritten(p, facts) == Err(ArgumentError(1, 0))
  {
  }

  /**
   * The call the rounds of this model make instead, the one the method
   * accepts: it succeeds and gives exactly the applicable groundings.
   */
  lemma RoundActionsCorrected(p: Problem, facts: FactTable, a: Action)
    requires WellFormed(p)
    ensures FindApplicableActionsWith(p, facts, 0).Ok?
    ensures a in FindApplicableActionsWith(p, facts, 0).value <==>
              Grounded(p, a) && Applicable(p.predicates, a, facts)
  {
    ApplicableActionsExact(p, facts, a);
  }

  /** The distance table after a round over the applicable actions of the facts. */
  function DistanceAfter(p: Problem, facts: FactTable, d: Distance): Distance
    requires WellFormed(p)
  {
    var actions := ApplicableActions(p, facts);
    RoundDistance(p.predicates, facts, d, actions, |actions|)
  }

  /** The facts a round over the applicable actions of the facts adds. */
  function AddedBy(p: Problem, facts: FactTable): seq<Fact>
    requires WellFormed(p)
  {
    var actions := ApplicableActions(p, facts);
    RoundAdded(p.predicates, facts, actions, |actions|)
  }

  /**
   * The rounds from (facts, d) on: a round that adds no fact ends the loop,
   * otherwise its facts are added and the next round runs.
   */
  function Fixpoint(p: Problem, facts: FactTable, d: Distance): (FactTable, Distance)
    requires WellFormed(p)
    decreases |EffectKeys(p) - facts.Keys|
  {
    var added := AddedBy(p, facts);
    if added == [] then (facts, DistanceAfter(p, facts, d))
    else
      RoundGrows(p, facts);
      Fixpoint(p, AddAll(facts, added, |added|), DistanceAfter(p, facts, d))
  }

  /** The facts calculate_heuristic leaves in the state. */
  function RelaxedFacts(p: Problem, facts: FactTable): FactTable
    requires WellFormed(p)
  {
    Fixpoint(p, facts, InitialDistance(facts)).0
  }

  /** The final distance table. */
  function RelaxedDistance(p: Problem, facts: FactTable): Distance
    requires WellFormed(p)
  {
    Fixpoint(p, facts, InitialDistance(facts)).1
  }

  /** The sum of the distances of the first i goal facts. */
  function SumGoal(goal: seq<Fact>, d: Distance, i: nat): int
    requires i <= |goal|
  {
    if i == 0 then 0 else SumGoal(goal, d, i - 1) + Dist(d, KeyOf(goal[i - 1]))
  }

  /** calculate_heuristic's value for a state with these facts. */
  function HeuristicValue(p: Problem, facts: FactTable): int
    requires WellFormed(p)
  {
    SumGoal(p.goal, RelaxedDistance(p, facts), |p.goal|)
  }

  // ---------------------------------------------------------------------------
  // Termination: a round that adds facts adds new groundable ones

  /**
   * apply_action_relaxed returns exactly the facts of a's positive effects
   * that are not in the state.
   */
  lemma {:induction false} RelaxedNewUpToExact(preds: map<string, Predicate>, facts: FactTable, a: Action, j: nat, f: Fact)
    requires OperatorResolves(preds, a.operator) && j <= |a.operator.effect|
    ensures f in RelaxedNewUpTo(preds, facts, a, j) <==>
              exists i | 0 <= i < j ::
                && a.operator.effect[i] in a.operator.effect
                && !Negated(a.operator.effect[i])
                && f == FactOf(preds, a.operator.effect[i], a.substitutions)
                && KeyOf(f) !in facts
  {
    if j > 0 {
      RelaxedNewUpToExact(preds, facts, a, j - 1, f);
    }
  }

  lemma RelaxedNewExact(preds: map<string, Predicate>, facts: FactTable, a: Action, f: Fact)
    requires OperatorResolves(preds, a.operator)
    ensures f in RelaxedNew(preds, facts, a) <==>
              exists i | 0 <= i < |a.operator.effect| ::
                && a.operator.effect[i] in a.operator.effect
                && !Negated(a.operator.effect[i])
                && f == FactOf(preds, a.operator.effect[i], a.substitutions)
                && KeyOf(f) !in facts
  {
    RelaxedNewUpToExact(preds, facts, a, |a.operator.effect|, f);
  }

  /** The facts a grounded action adds in a relaxed step are new and groundable. */
  lemma RelaxedNewKeys(p: Problem, facts: FactTable, a: Action, f: Fact)
    requires WellFormed(p) && Grounded(p, a)
    requires f in RelaxedNew(p.predicates, facts, a)
    ensures KeyOf(f) !in facts && KeyOf(f) in EffectKeys(p)
  {
    RelaxedNewExact(p.predicates, facts, a, f);
    var i :| 0 <= i < |a.operator.effect| && a.operator.effect[i] in a.operator.effect &&
             f == FactOf(p.predicates, a.operator.effect[i], a.substitutions) && KeyOf(f) !in facts;
    EffectKeysContain(p, a, a.operator.effect[i]);
  }

  /** The facts a round adds come from the actions' relaxed steps. */
  lemma {:induction false} RoundAddedFrom(preds: map<string, Predicate>, facts: FactTable,
                                          actions: seq<Action>, i: nat, f: Fact)
    requires Resolvable(preds, actions) && i <= |actions|
    requires f in RoundAdded(preds, facts, actions, i)
    ensures exists j | 0 <= j < i :: f in RelaxedNew(preds, facts, actions[j])
  {
    if f !in RelaxedNew(preds, facts, actions[i - 1]) {
      RoundAddedFrom(preds, facts, actions, i - 1, f);
    }
  }

  lemma {:induction false} AddAllKeys(facts: FactTable, fs: seq<Fact>, k: nat)
    requires k <= |fs|
    ensures AddAll(facts, fs, k).Keys == facts.Keys + KeysOf(fs, k)
  {
    if k > 0 {
      AddAllKeys(facts, fs, k - 1);
      assert KeysOf(fs, k) == KeysOf(fs, k - 1) + {KeyOf(fs[k - 1])};
    }
  }

  /** A round that adds facts shrinks the set of groundable facts still missing. */
  lemma RoundGrows(p: Problem, facts: FactTable)
    requires WellFormed(p)
    ensures var added := AddedBy(p, facts);
            added != [] ==> |EffectKeys(p) - AddAll(facts, added, |added|).Keys| < |EffectKeys(p) - facts.Keys|
  {
    var added := AddedBy(p, facts);
    if added != [] {
      AddedNew(p, facts, added[0]);
      AddAllKeys(facts, added, |added|);
      assert KeyOf(added[0]) in KeysOf(added, |added|);
      MissingShrinks(EffectKeys(p), facts.Keys, AddAll(facts, added, |added|).Keys, KeyOf(added[0]));
    }
  }

  /** Every fact a round adds is new to the state and groundable. */
  lemma AddedNew(p: Problem, facts: FactTable, f: Fact)
    requires WellFormed(p) && f in AddedBy(p, facts)
    ensures KeyOf(f) !in facts && KeyOf(f) in EffectKeys(p)
  {
    var actions := ApplicableActions(p, facts);
    RoundAddedFrom(p.predicates, facts, actions, |actions|, f);
    var j :| 0 <= j < |actions| && f in RelaxedNew(p.predicates, facts, actions[j]);
    ApplicableActionsExact(p, facts, actions[j]);
    RelaxedNewKeys(p, facts, actions[j], f);
  }

  /** Adding a missing element of u to a set leaves fewer elements of u missing. */
  lemma MissingShrinks<T>(u: set<T>, before: set<T>, after: set<T>, x: T)
    requires before <= after && x in u && x !in before && x in after
    ensures |u - after| < |u - before|
  {
    assert u - after <= (u - before) - {x};
    SubsetCard(u - after, (u - before) - {x});
  }

  lemma {:induction false} SubsetCard<T>(a: set<T>, b: set<T>)
    requires a <= b
    ensures |a| <= |b|
    decreases |b|
  {
    if b != {} {
      var x :| x in b;
      SubsetCard(a - {x}, b - {x});
    }
  }

  // ---------------------------------------------------------------------------
  // The distance table

  /**
   * The distance invariant of calculate_heuristic for a state that had the
   * facts `entry` on entry: those facts are at distance 0, every stored
   * distance is at least 0 and below INFINITY, and only they are at 0.
   */
  ghost predicate ValuesOk(entry: FactTable, d: Distance)
  {
    && (forall k | k in entry :: k in d && d[k] == 0)
    && (forall k | k in d :: 0 <= d[k] < INFINITY)
    && (forall k | k in d :: d[k] == 0 ==> k in entry)
  }

  /** A table whose stored distances are not negative gives a prec_distance that is not negative. */
  lemma {:induction false} PrecDistanceNonneg(preds: map<string, Predicate>, d: Distance, a: Action, j: nat)
    requires OperatorResolves(preds, a.operator) && j <= |a.operator.precondition|
    requires forall k | k in d :: d[k] >= 0
    ensures PrecDistance(preds, d, a, j) >= 0
  {
    if j > 0 {
      PrecDistanceNonneg(preds, d, a, j - 1);
    }
  }

  /**
   * The update loop only lowers a distance, stores nothing but the cost c,
   * and stores only under the keys of the facts it was given.
   */
  lemma {:induction false} RelaxLowers(d: Distance, fs: seq<Fact>, c: int, k: nat, key: FactKey)
    requires k <= |fs|
    ensures Dist(Relax(d, fs, c, k), key) <= Dist(d, key)
    ensures key in Relax(d, fs, c, k) ==>
              (key in d && Relax(d, fs, c, k)[key] == d[key]) || (Relax(d, fs, c, k)[key] == c && c < Dist(d, key))
    ensures key in Relax(d, fs, c, k) ==> key in d || key in KeysOf(fs, k)
  {
    if k > 0 {
      RelaxLowers(d, fs, c, k - 1, key);
    }
  }

  /** An update at cost 1 or more keeps the distance invariant. */
  lemma RelaxOk(entry: FactTable, d: Distance, fs: seq<Fact>, c: int, k: nat)
    requires k <= |fs| && ValuesOk(entry, d) && c >= 1
    ensures ValuesOk(entry, Relax(d, fs, c, k))
  {
    var r := Relax(d, fs, c, k);
    forall key | key in entry ensures key in r && r[key] == 0 {
      RelaxLowers(d, fs, c, k, key);
    }
    forall key | key in r ensures 0 <= r[key] < INFINITY && (r[key] == 0 ==> key in entry) {
      RelaxLowers(d, fs, c, k, key);
    }
  }

  lemma RelaxKeys(d: Distance, fs: seq<Fact>, c: int)
    ensures Relax(d, fs, c, |fs|).Keys <= d.Keys + KeysOf(fs, |fs|)
  {
    forall key | key in Relax(d, fs, c, |fs|) ensures key in d || key in KeysOf(fs, |fs|) {
      RelaxLowers(d, fs, c, |fs|, key);
    }
  }

  lemma {:induction false} KeysOfConcat(a: seq<Fact>, b: seq<Fact>)
    ensures KeysOf(a + b, |a + b|) == KeysOf(a, |a|) + KeysOf(b, |b|)
  {
    var ab := a + b;
    forall key | key in KeysOf(ab, |ab|) ensures key in KeysOf(a, |a|) + KeysOf(b, |b|) {
      var i :| 0 <= i < |ab| && KeyOf(ab[i]) == key;
      if i >= |a| {
        assert ab[i] == b[i - |a|];
      }
    }
    forall key | key in KeysOf(b, |b|) ensures key in KeysOf(ab, |ab|) {
      var i :| 0 <= i < |b| && KeyOf(b[i]) == key;
      assert ab[|a| + i] == b[i];
    }
    forall key | key in KeysOf(a, |a|) ensures key in KeysOf(ab, |ab|) {
      var i :| 0 <= i < |a| && KeyOf(a[i]) == key;
      assert ab[i] == a[i];
    }
  }

  /** One action of a round keeps the distance invariant. */
  lemma ActionDistanceOk(preds: map<string, Predicate>, entry: FactTable, facts: FactTable, d0: Distance, a: Action)
    requires OperatorResolves(preds, a.operator) && ValuesOk(entry, d0)
    ensures ValuesOk(entry, ActionDistance(preds, facts, d0, a))
  {
    var nf := RelaxedNew(preds, facts, a);
    PrecDistanceNonneg(preds, d0, a, |a.operator.precondition|);
    RelaxOk(entry, d0, nf, PrecDistance(preds, d0, a, |a.operator.precondition|) + 1, |nf|);
  }

  /** One action of a round stores distances only for the facts it adds. */
  lemma ActionDistanceKeys(preds: map<string, Predicate>, facts: FactTable, d0: Distance, a: Action)
    requires OperatorResolves(preds, a.operator)
    ensures var nf := RelaxedNew(preds, facts, a);
            ActionDistance(preds, facts, d0, a).Keys <= d0.Keys + KeysOf(nf, |nf|)
  {
    var nf := RelaxedNew(preds, facts, a);
    RelaxKeys(d0, nf, PrecDistance(preds, d0, a, |a.operator.precondition|) + 1);
  }

  /** One action of a round only lowers distances. */
  lemma ActionDistanceLowers(preds: map<string, Predicate>, facts: FactTable, d0: Distance, a: Action, key: FactKey)
    requires OperatorResolves(preds, a.operator)
    ensures Dist(ActionDistance(preds, facts, d0, a), key) <= Dist(d0, key)
  {
    var nf := RelaxedNew(preds, facts, a);
    RelaxLowers(d0, nf, PrecDistance(preds, d0, a, |a.operator.precondition|) + 1, |nf|, key);
  }

  /** A round keeps the distance invariant. */
  lemma {:induction false} RoundDistanceOk(preds: map<string, Predicate>, entry: FactTable, facts: FactTable, d: Distance,
                                           actions: seq<Action>, i: nat)
    requires Resolvable(preds, actions) && i <= |actions|
    requires ValuesOk(entry, d)
    ensures ValuesOk(entry, RoundDistance(preds, facts, d, actions, i))
  {
    if i > 0 {
      RoundDistanceOk(preds, entry, facts, d, actions, i - 1);
      ActionDistanceOk(preds, entry, facts, RoundDistance(preds, facts, d, actions, i - 1), actions[i - 1]);
    }
  }

  /** A round stores distances only for the facts it adds. */
  lemma {:induction false} RoundDistanceKeys(preds: map<string, Predicate>, facts: FactTable, d: Distance,
                                             actions: seq<Action>, i: nat)
    requires Resolvable(preds, actions) && i <= |actions|
    ensures RoundDistance(preds, facts, d, actions, i).Keys <=
              d.Keys + KeysOf(RoundAdded(preds, facts, actions, i), |RoundAdded(preds, facts, actions, i)|)
  {
    if i > 0 {
      RoundDistanceKeys(preds, facts, d, actions, i - 1);
      ActionDistanceKeys(preds, facts, RoundDistance(preds, facts, d, actions, i - 1), actions[i - 1]);
      KeysOfConcat(RoundAdded(preds, facts, actions, i - 1), RelaxedNew(preds, facts, actions[i - 1]));
    }
  }

  /** A round only lowers distances. */
  lemma {:induction false} RoundDistanceLowers(preds: map<string, Predicate>, facts: FactTable, d: Distance,
                                               actions: seq<Action>, i: nat, key: FactKey)
    requires Resolvable(preds, actions) && i <= |actions|
    ensures Dist(RoundDistance(preds, facts, d, actions, i), key) <= Dist(d, key)
  {
    if i > 0 {
      RoundDistanceLowers(preds, facts, d, actions, i - 1, key);
      ActionDistanceLowers(preds, facts, RoundDistance(preds, facts, d, actions, i - 1), actions[i - 1], key);
    }
  }

  // ---------------------------------------------------------------------------
  // The facts

  lemma {:induction false} AddAllKeeps(facts: FactTable, fs: seq<Fact>, k: nat, key: FactKey)
    requires k <= |fs| && key in facts && key !in KeysOf(fs, k)
    ensures key in AddAll(facts, fs, k) && AddAll(facts, fs, k)[key] == facts[key]
  {
    if k > 0 {
      assert KeysOf(fs, k - 1) <= KeysOf(fs, k);
      AddAllKeeps(facts, fs, k - 1, key);
    }
  }

  /** The facts a round adds are new: the table keeps every fact it had, unchanged. */
  lemma AddedKeeps(p: Problem, facts: FactTable, key: FactKey)
    requires WellFormed(p) && key in facts
    ensures var added := AddedBy(p, facts);
            key in AddAll(facts, added, |added|) && AddAll(facts, added, |added|)[key] == facts[key]
  {
    var added := AddedBy(p, facts);
    if key in KeysOf(added, |added|) {
      var i :| 0 <= i < |added| && KeyOf(added[i]) == key;
      AddedNew(p, facts, added[i]);
    }
    AddAllKeeps(facts, added, |added|, key);
  }

  /** At the fixpoint no applicable action has a positive effect whose fact is missing. */
  lemma {:induction false} NoneAddedAt(preds: map<string, Predicate>, facts: FactTable, actions: seq<Action>, i: nat, j: nat)
    requires Resolvable(preds, actions) && j < i <= |actions|
    requires RoundAdded(preds, facts, actions, i) == []
    ensures RelaxedNew(preds, facts, actions[j]) == []
  {
    if j < i - 1 {
      NoneAddedAt(preds, facts, actions, i - 1, j);
    }
  }

  /**
   * One round that adds facts: the table keeps every fact it had, unchanged,
   * gains groundable effect facts only, and the round's distances belong to
   * facts of the grown table.
   */
  lemma RoundStep(p: Problem, facts: FactTable, d: Distance)
    requires WellFormed(p) && d.Keys <= facts.Keys
    ensures var added := AddedBy(p, facts);
            var next := AddAll(facts, added, |added|);
            && facts.Keys <= next.Keys <= facts.Keys + EffectKeys(p)
            && (forall k | k in facts :: next[k] == facts[k])
            && DistanceAfter(p, facts, d).Keys <= next.Keys
  {
    var added := AddedBy(p, facts);
    var actions := ApplicableActions(p, facts);
    var next := AddAll(facts, added, |added|);
    AddAllKeys(facts, added, |added|);
    RoundDistanceKeys(p.predicates, facts, d, actions, |actions|);
    forall k | k in facts ensures next[k] == facts[k] {
      AddedKeeps(p, facts, k);
    }
    forall k | k in next && k !in facts ensures k in EffectKeys(p) {
      var i :| 0 <= i < |added| && KeyOf(added[i]) == k;
      AddedNew(p, facts, added[i]);
    }
  }

  /**
   * The facts the rounds from (facts, d) reach: the facts only grow, every
   * old fact keeps its value, the new ones are groundable effect facts, and
   * the last round finds nothing to add.
   */
  lemma {:induction false} FixpointFacts(p: Problem, facts: FactTable, d: Distance)
    requires WellFormed(p) && d.Keys <= facts.Keys
    ensures var r := Fixpoint(p, facts, d).0;
            && facts.Keys <= r.Keys <= facts.Keys + EffectKeys(p)
            && (forall k | k in facts :: r[k] == facts[k])
            && AddedBy(p, r) == []
    decreases |EffectKeys(p) - facts.Keys|
  {
    var added := AddedBy(p, facts);
    if added != [] {
      RoundGrows(p, facts);
      RoundStep(p, facts, d);
      FixpointFacts(p, AddAll(facts, added, |added|), DistanceAfter(p, facts, d));
    }
  }

  /**
   * The distances the rounds from (facts, d) reach keep the invariant and
   * belong to reached facts.
   */
  lemma {:induction false} FixpointDistance(p: Problem, entry: FactTable, facts: FactTable, d: Distance)
    requires WellFormed(p)
    requires ValuesOk(entry, d) && d.Keys <= facts.Keys
    ensures ValuesOk(entry, Fixpoint(p, facts, d).1)
    ensures Fixpoint(p, facts, d).1.Keys <= Fixpoint(p, facts, d).0.Keys
    decreases |EffectKeys(p) - facts.Keys|
  {
    var added := AddedBy(p, facts);
    var actions := ApplicableActions(p, facts);
    RoundDistanceOk(p.predicates, entry, facts, d, actions, |actions|);
    if added != [] {
      RoundGrows(p, facts);
      RoundStep(p, facts, d);
      FixpointDistance(p, entry, AddAll(facts, added, |added|), DistanceAfter(p, facts, d));
    } else {
      RoundDistanceKeys(p.predicates, facts, d, actions, |actions|);
    }
  }

  /** A distance is never raised: the final table is at most the one the rounds started from. */
  lemma {:induction false} FixpointLowers(p: Problem, facts: FactTable, d: Distance, key: FactKey)
    requires WellFormed(p)
    ensures Dist(Fixpoint(p, facts, d).1, key) <= Dist(d, key)
    decreases |EffectKeys(p) - facts.Keys|
  {
    var actions := ApplicableActions(p, facts);
    RoundDistanceLowers(p.predicates, facts, d, actions, |actions|, key);
    var added := AddedBy(p, facts);
    if added != [] {
      RoundGrows(p, facts);
      FixpointLowers(p, AddAll(facts, added, |added|), DistanceAfter(p, facts, d), key);
    }
  }

  lemma InitialDistanceOk(facts: FactTable)
    ensures ValuesOk(facts, InitialDistance(facts)) && InitialDistance(facts).Keys == facts.Keys
  {
  }

  /** Facts added under their own keys keep a table keyed by its facts. */
  lemma {:induction false} AddAllKeyed(facts: FactTable, fs: seq<Fact>, k: nat)
    requires k <= |fs| && KeyedByFacts(facts)
    ensures KeyedByFacts(AddAll(facts, fs, k))
  {
    if k > 0 {
      AddAllKeyed(facts, fs, k - 1);
    }
  }

  /** The rounds add facts under their own keys, so a table keyed by its facts stays so. */
  lemma {:induction false} FixpointKeyed(p: Problem, facts: FactTable, d: Distance)
    requires WellFormed(p) && KeyedByFacts(facts)
    ensures KeyedByFacts(Fixpoint(p, facts, d).0)
    decreases |EffectKeys(p) - facts.Keys|
  {
    var added := AddedBy(p, facts);
    if added != [] {
      RoundGrows(p, facts);
      AddAllKeyed(facts, added, |added|);
      FixpointKeyed(p, AddAll(facts, added, |added|), DistanceAfter(p, facts, d));
    }
  }

  /** calculate_heuristic leaves a state keyed by its facts so. */
  lemma RelaxedFactsKeyed(p: Problem, facts: FactTable)
    requires WellFormed(p) && KeyedByFacts(facts)
    ensures KeyedByFacts(RelaxedFacts(p, facts))
  {
    FixpointKeyed(p, facts, InitialDistance(facts));
  }

  /**
   * After calculate_heuristic the state holds its old facts, unchanged,
   * plus groundable effect facts only; its relaxed facts are closed: no
   * applicable action has a positive effect whose fact is missing.
   */
  lemma RelaxedFactsProps(p: Problem, facts: FactTable)
    requires WellFormed(p)
    ensures facts.Keys <= RelaxedFacts(p, facts).Keys <= facts.Keys + EffectKeys(p)
    ensures forall k | k in facts :: RelaxedFacts(p, facts)[k] == facts[k]
    ensures forall a | a in ApplicableActions(p, RelaxedFacts(p, facts)) ::
              RelaxedNew(p.predicates, RelaxedFacts(p, facts), a) == []
  {
    InitialDistanceOk(facts);
    FixpointFacts(p, facts, InitialDistance(facts));
    var final := RelaxedFacts(p, facts);
    var actions := ApplicableActions(p, final);
    forall a | a in actions ensures RelaxedNew(p.predicates, final, a) == [] {
      var j :| 0 <= j < |actions| && actions[j] == a;
      NoneAddedAt(p.predicates, final, actions, |actions|, j);
    }
  }

  /**
   * The final distances: every fact of the state at entry is at 0, every
   * stored distance is below INFINITY and belongs to a fact of the relaxed
   * state, and no distance is above where it started.
   */
  lemma RelaxedDistanceProps(p: Problem, facts: FactTable)
    requires WellFormed(p)
    ensures ValuesOk(facts, RelaxedDistance(p, facts))
    ensures RelaxedDistance(p, facts).Keys <= RelaxedFacts(p, facts).Keys
  {
    InitialDistanceOk(facts);
    FixpointDistance(p, facts, facts, InitialDistance(facts));
  }

  // ---------------------------------------------------------------------------
  // The heuristic value

  lemma {:induction false} SumGoalNonneg(goal: seq<Fact>, d: Distance, i: nat)
    requires i <= |goal| && forall k | k in d :: d[k] >= 0
    ensures SumGoal(goal, d, i) >= 0
    ensures SumGoal(goal, d, i) == 0 <==> forall j | 0 <= j < i :: Dist(d, KeyOf(goal[j])) == 0
    ensures forall j | 0 <= j < i :: SumGoal(goal, d, i) >= Dist(d, KeyOf(goal[j]))
  {
    if i > 0 {
      SumGoalNonneg(goal, d, i - 1);
    }
  }

  /** The value is never negative. */
  lemma HeuristicNonneg(p: Problem, facts: FactTable)
    requires WellFormed(p)
    ensures HeuristicValue(p, facts) >= 0
  {
    RelaxedDistanceProps(p, facts);
    SumGoalNonneg(p.goal, RelaxedDistance(p, facts), |p.goal|);
  }

  /** The value is 0 exactly when every goal fact is already in the state. */
  lemma HeuristicZero(p: Problem, facts: FactTable)
    requires WellFormed(p)
    ensures HeuristicValue(p, facts) == 0 <==> forall j | 0 <= j < |p.goal| :: KeyOf(p.goal[j]) in facts
  {
    var d := RelaxedDistance(p, facts);
    RelaxedDistanceProps(p, facts);
    SumGoalNonneg(p.goal, d, |p.goal|);
    forall j | 0 <= j < |p.goal| ensures Dist(d, KeyOf(p.goal[j])) == 0 <==> KeyOf(p.goal[j]) in facts {
    }
  }

  /** A goal fact the relaxed state does not reach makes the value at least INFINITY. */
  lemma HeuristicUnreached(p: Problem, facts: FactTable, j: nat)
    requires WellFormed(p) && j < |p.goal|
    requires KeyOf(p.goal[j]) !in RelaxedFacts(p, facts)
    ensures HeuristicValue(p, facts) >= INFINITY
  {
    var d := RelaxedDistance(p, facts);
    RelaxedDistanceProps(p, facts);
    SumGoalNonneg(p.goal, d, |p.goal|);
    assert Dist(d, KeyOf(p.goal[j])) == INFINITY;
  }
}
