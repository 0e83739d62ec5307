/**
 * The State class of planner.rb: a fact hash updated in place, plus the
 * heuristic value and the back link (previous state, producing action) that
 * the search records. Every fact a state resolves goes through the fact
 * store, as get_matching_fact calls Fact.find.
 *
 * The previous links form a chain; here the states live in an arena (a
 * sequence) and a link is the index of the parent, always smaller than the
 * child's own index, so walking the chain terminates.
 */
module States {
  import opened Wrappers
  import opened Facts
  import opened Grounding

  /** The store holds only facts built from the problem's own predicate table. */
  ghost predicate StoreOk(store: FactStore, preds: map<string, Predicate>)
    reads store
  {
    store.Valid() && store.Canonical(preds)
  }

  /**
   * A store that stays consistent with one predicate table and loses no key
   * keeps every interned fact as it was.
   */
  twostate lemma KeptEntries(store: FactStore, preds: map<string, Predicate>)
    requires old(StoreOk(store, preds)) && StoreOk(store, preds) && store.Kept()
    ensures forall k | k in old(store.facts) :: k in store.facts && store.facts[k] == old(store.facts)[k]
  {
  }

  // ---------------------------------------------------------------------------
  // Initial facts (State#initialize)

  /** The tokens of a fact entry after the predicate name, each an object. */
  function Somes(tokens: seq<string>): (values: seq<Value>)
    ensures |values| == |tokens|
    ensures forall i | 0 <= i < |tokens| :: values[i] == Some(tokens[i])
  {
    seq(|tokens|, i requires 0 <= i < |tokens| => Some(tokens[i]))
  }

  /**
   * The fact of one entry of an initial or goal list: the predicate named by
   * the first token, the remaining tokens as its values, however many there are.
   */
  function EntryFact(preds: map<string, Predicate>, entry: seq<string>): Fact
    requires |entry| > 0 && entry[0] in preds
  {
    Fact(preds[entry[0]], Somes(entry[1..]))
  }

  /** The fact hash State#initialize builds from the entries, in order. */
  function InitialFacts(preds: map<string, Predicate>, entries: seq<seq<string>>): FactTable
    requires forall i | 0 <= i < |entries| :: |entries[i]| > 0 && entries[i][0] in preds
    decreases |entries|
  {
    if entries == [] then map[]
    else
      var n := |entries| - 1;
      var f := EntryFact(preds, entries[n]);
      InitialFacts(preds, entries[..n])[KeyOf(f) := f]
  }

  /** The initial table holds exactly the entries' facts, each under its own key. */
  lemma {:induction false} InitialFactsExact(preds: map<string, Predicate>, entries: seq<seq<string>>, k: FactKey)
    requires forall i | 0 <= i < |entries| :: |entries[i]| > 0 && entries[i][0] in preds
    ensures k in InitialFacts(preds, entries) <==>
              exists i | 0 <= i < |entries| :: KeyOf(EntryFact(preds, entries[i])) == k
    ensures k in InitialFacts(preds, entries) ==> KeyOf(InitialFacts(preds, entries)[k]) == k
    decreases |entries|
  {
    if entries != [] {
      var n := |entries| - 1;
      var init := entries[..n];
      InitialFactsExact(preds, init, k);
      var f := EntryFact(preds, entries[n]);
      assert InitialFacts(preds, entries) == InitialFacts(preds, init)[KeyOf(f) := f];
      if KeyOf(f) == k {
        assert KeyOf(EntryFact(preds, entries[n])) == k;
      } else if k in InitialFacts(preds, init) {
        var i :| 0 <= i < n && KeyOf(EntryFact(preds, init[i])) == k;
        assert init[i] == entries[i];
        assert KeyOf(EntryFact(preds, entries[i])) == k;
      }
      if exists i | 0 <= i < |entries| :: KeyOf(EntryFact(preds, entries[i])) == k {
        var i :| 0 <= i < |entries| && KeyOf(EntryFact(preds, entries[i])) == k;
        if i < n {
          assert init[i] == entries[i];
        }
      }
    }
  }

  /** The initial table is keyed by its facts. */
  lemma InitialFactsKeyed(preds: map<string, Predicate>, entries: seq<seq<string>>)
    requires forall i | 0 <= i < |entries| :: |entries[i]| > 0 && entries[i][0] in preds
    ensures KeyedByFacts(InitialFacts(preds, entries))
  {
    forall k | k in InitialFacts(preds, entries) ensures KeyOf(InitialFacts(preds, entries)[k]) == k {
      InitialFactsExact(preds, entries, k);
    }
  }

  /**
   * What == tests (each state includes, by key, every fact of the other)
   * holds exactly when the two hashes have the same keys, for hashes keyed by
   * their facts.
   */
  lemma SameKeys(t: FactTable, u: FactTable)
    requires KeyedByFacts(t) && KeyedByFacts(u)
    ensures ((forall k | k in u :: KeyOf(u[k]) in t) && (forall k | k in t :: KeyOf(t[k]) in u))
            <==> t.Keys == u.Keys
  {
  }

  // ---------------------------------------------------------------------------
  // Arena of states and the solution walk

  /**
   * Every state's previous link points to an earlier state, and a state has
   * a previous state exactly when it has a producing action (the root has neither).
   */
  ghost predicate ValidArena(arena: seq<State>)
    reads arena
  {
    forall i | 0 <= i < |arena| ::
      && (arena[i].previous.Some? <==> arena[i].action.Some?)
      && (arena[i].previous.Some? ==> arena[i].previous.value < i)
  }

  /**
   * s is the successor expand makes from the facts by the action a, with the
   * state at `index` as its previous state and no heuristic yet.
   */
  ghost predicate Produced(s: State, preds: map<string, Predicate>, facts: FactTable, a: Action, index: nat)
    reads s
  {
    && OperatorResolves(preds, a.operator)
    && s.facts == Grounding.ApplyAction(preds, facts, a)
    && s.action == Some(a) && s.previous == Some(index) && s.heuristic == -1
  }

  /** The producing actions along the previous chain of state i, root first. */
  ghost function Chain(arena: seq<State>, i: nat): seq<Action>
    reads arena
    requires ValidArena(arena) && i < |arena|
    decreases i
  {
    var s := arena[i];
    (if s.previous.Some? then Chain(arena, s.previous.value) else []) +
    (if s.action.Some? then [s.action.value] else [])
  }

  /** The number of states on the chain of state i other than the root. */
  ghost function Depth(arena: seq<State>, i: nat): nat
    reads arena
    requires ValidArena(arena) && i < |arena|
    decreases i
  {
    if arena[i].previous.Some? then 1 + Depth(arena, arena[i].previous.value) else 0
  }

  /** The state k links above state i. */
  ghost function Ancestor(arena: seq<State>, i: nat, k: nat): (j: nat)
    reads arena
    requires ValidArena(arena) && i < |arena| && k <= Depth(arena, i)
    ensures j < |arena|
    decreases k
  {
    if k == 0 then i else Ancestor(arena, arena[i].previous.value, k - 1)
  }

  /**
   * The solution of state i has one action per non-root state on its chain:
   * the action of the state k links up comes k places from the end.
   */
  lemma {:induction false} ChainAt(arena: seq<State>, i: nat, k: nat)
    requires ValidArena(arena) && i < |arena| && k < Depth(arena, i)
    ensures |Chain(arena, i)| == Depth(arena, i)
    ensures arena[Ancestor(arena, i, k)].action.Some?
    ensures Chain(arena, i)[Depth(arena, i) - 1 - k] == arena[Ancestor(arena, i, k)].action.value
    decreases i
  {
    var j := arena[i].previous.value;
    if k == 0 {
      if arena[j].previous.Some? {
        ChainAt(arena, j, 0);
      }
    } else {
      ChainAt(arena, j, k - 1);
    }
  }

  /** The solution of state i has one action per non-root state on its chain. */
  lemma {:induction false} ChainLength(arena: seq<State>, i: nat)
    requires ValidArena(arena) && i < |arena|
    ensures |Chain(arena, i)| == Depth(arena, i)
    decreases i
  {
    if arena[i].previous.Some? {
      ChainLength(arena, arena[i].previous.value);
    }
  }

  /** The elements of s in reverse order. */
  function Reverse<T>(s: seq<T>): (r: seq<T>)
    ensures |r| == |s|
    ensures forall i | 0 <= i < |s| :: r[i] == s[|s| - 1 - i]
  {
    if s == [] then [] else Reverse(s[1..]) + [s[0]]
  }

  // ---------------------------------------------------------------------------
  // States

  class State {
    var facts: FactTable
    var heuristic: int
    var previous: Option<nat>
    var action: Option<Action>

    /**
     * State.new(entries, predicates): each entry names a predicate and its
     * argument objects; its fact is interned and stored under its key.
     */
    constructor (store: FactStore, preds: map<string, Predicate>, entries: seq<seq<string>>)
      requires StoreOk(store, preds) && NamedTable(preds)
      requires forall i | 0 <= i < |entries| :: |entries[i]| > 0 && entries[i][0] in preds
      modifies store
      ensures StoreOk(store, preds)
      ensures store.Kept()
      ensures facts == InitialFacts(preds, entries)
      ensures heuristic == -1 && previous == None && action == None
    {
      var table: FactTable := map[];
      var i := 0;
      while i < |entries|
        invariant 0 <= i <= |entries|
        invariant StoreOk(store, preds)
        invariant store.Kept()
        invariant table == InitialFacts(preds, entries[..i])
      {
        var e := entries[i];
        var f := store.Find(preds[e[0]], Somes(e[1..]));
        assert f == EntryFact(preds, e);
        assert entries[..i + 1][..i] == entries[..i];
        table := table[KeyOf(f) := f];
        i := i + 1;
      }
      assert entries[..i] == entries;
      facts := table;
      heuristic := -1;
      previous := None;
      action := None;
    }

    /** State.new([], nil): no facts, no heuristic value yet, no links. */
    constructor Empty()
      ensures facts == map[] && heuristic == -1 && previous == None && action == None
    {
      facts := map[];
      heuristic := -1;
      previous := None;
      action := None;
    }

    /** clone: a new state with a copy of the fact hash and nothing else. */
    method Clone() returns (s: State)
      ensures fresh(s)
      ensures s.facts == facts && s.heuristic == -1 && s.previous == None && s.action == None
    {
      s := new State.Empty();
      s.facts := facts;
    }

    method AddFact(f: Fact)
      modifies this`facts
      ensures facts == old(facts)[KeyOf(f) := f]
    {
      facts := facts[KeyOf(f) := f];
    }

    method DeleteFact(f: Fact)
      modifies this`facts
      ensures facts == old(facts) - {KeyOf(f)}
    {
      facts := facts - {KeyOf(f)};
    }

    method IncludesFact(f: Fact) returns (b: bool)
      ensures b <==> KeyOf(f) in facts
    {
      b := KeyOf(f) in facts;
    }

    /**
     * get_matching_fact: drop a leading "not", look the predicate up, take
     * one value per predicate parameter from the substitution of the next
     * argument token, and intern the fact. The failures are the source's
     * exceptions.
     */
    method GetMatchingFact(store: FactStore, preds: map<string, Predicate>, lit: Literal, a: Action)
      returns (r: Result<Fact, MatchError>)
      requires StoreOk(store, preds) && NamedTable(preds)
      modifies store
      ensures StoreOk(store, preds)
      ensures store.Kept()
      ensures r == MatchingFact(preds, lit, a.substitutions)
      ensures r.Ok? ==> KeyOf(r.value) in store.facts && store.facts[KeyOf(r.value)] == r.value
    {
      if |lit| == 0 {
        return Err(EmptyLiteral);
      }
      var tokens := lit;
      if IsNot(tokens[0]) {
        tokens := tokens[1..];
      }
      if |tokens| == 0 || tokens[0] !in preds {
        return Err(UnknownPredicate(lit));
      }
      assert tokens == Stripped(lit);
      var pred := preds[tokens[0]];
      var values := Values(pred.parameters, tokens[1..], a.substitutions);
      assert pred == preds[pred.name];
      var f := store.Find(pred, values);
      assert f == Fact(pred, values) == FactOf(preds, lit, a.substitutions);
      r := Ok(f);
    }

    /**
     * The values loop of get_matching_fact: for each predicate parameter, the
     * substitution of the next argument token (nil once they run out).
     */
    static method Values(params: seq<string>, tokens: seq<string>, subst: map<string, Obj>) returns (values: seq<Value>)
      ensures values == Args(params, tokens, subst)
    {
      var rest := tokens;
      values := [];
      var i := 0;
      while i < |params|
        invariant 0 <= i <= |params|
        invariant values + Args(params[i..], rest, subst) == Args(params, tokens, subst)
      {
        var v := if rest != [] && rest[0] in subst then Some(subst[rest[0]]) else None;
        assert params[i..][1..] == params[i + 1..];
        values := values + [v];
        rest := if rest == [] then [] else rest[1..];
        i := i + 1;
      }
      assert params[i..] == [];
    }

    /** The substitution loop of find_applicable_actions: parameter k is bound to objs[k]. */
    static method Substitution(params: seq<string>, objs: seq<Obj>) returns (subst: map<string, Obj>)
      requires |params| == |objs|
      ensures subst == Bind(params, objs)
    {
      subst := map[];
      var k := 0;
      while k < |objs|
        invariant 0 <= k <= |objs|
        invariant subst == Bind(params[..k], objs[..k])
      {
        assert params[..k + 1][..k] == params[..k];
        assert objs[..k + 1][..k] == objs[..k];
        subst := subst[params[k] := objs[k]];
        k := k + 1;
      }
      assert params[..k] == params && objs[..k] == objs;
    }

    /** is_applicable?: the fact of each precondition is present, checked in order. */
    method IsApplicable(store: FactStore, preds: map<string, Predicate>, a: Action) returns (b: bool)
      requires StoreOk(store, preds) && NamedTable(preds) && OperatorResolves(preds, a.operator)
      modifies store
      ensures StoreOk(store, preds)
      ensures store.Kept()
      ensures b == Applicable(preds, a, facts)
    {
      var precs := a.operator.precondition;
      var i := 0;
      while i < |precs|
        invariant 0 <= i <= |precs|
        invariant StoreOk(store, preds)
        invariant store.Kept()
        invariant forall j | 0 <= j < i :: KeyOf(FactOf(preds, precs[j], a.substitutions)) in facts
      {
        assert precs[i] in precs;
        var r := GetMatchingFact(store, preds, precs[i], a);
        var present := IncludesFact(r.value);
        if !present {
          return false;
        }
        i := i + 1;
      }
      return true;
    }

    /** apply_action: each effect in order adds its fact, or deletes it when it is a "not". */
    method ApplyAction(store: FactStore, preds: map<string, Predicate>, a: Action)
      requires StoreOk(store, preds) && NamedTable(preds) && OperatorResolves(preds, a.operator)
      modifies this`facts, store
      ensures StoreOk(store, preds)
      ensures store.Kept()
      ensures facts == Grounding.ApplyAction(preds, old(facts), a)
    {
      var effects := a.operator.effect;
      var i := 0;
      while i < |effects|
        invariant 0 <= i <= |effects|
        invariant StoreOk(store, preds)
        invariant store.Kept()
        invariant facts == ApplyEffects(preds, old(facts), a.substitutions, effects[..i])
      {
        var effect := effects[i];
        assert effect in effects;
        var r := GetMatchingFact(store, preds, effect, a);
        ApplyEffectsStep(preds, old(facts), a.substitutions, effects, i);
        if !IsNot(effect[0]) {
          AddFact(r.value);
        } else {
          DeleteFact(r.value);
        }
        i := i + 1;
      }
      assert effects[..i] == effects;
    }

    /**
     * find_applicable_actions: for each operator in turn, each tuple of comb
     * bound positionally to the parameters, kept when applicable.
     */
    method FindApplicableActions(store: FactStore, p: Problem) returns (res: seq<Action>)
      requires WellFormed(p) && StoreOk(store, p.predicates)
      modifies store
      ensures StoreOk(store, p.predicates)
      ensures store.Kept()
      ensures res == ApplicableActions(p, facts)
    {
      var ops := p.operators;
      ghost var table := facts;
      res := [];
      var i := 0;
      while i < |ops|
        invariant 0 <= i <= |ops|
        invariant StoreOk(store, p.predicates) && facts == table
        invariant store.Kept()
        invariant Groundable(p, ops[..i])
        invariant res == ApplicableFrom(p, ops[..i], table)
      {
        ApplicableFromPrefix(p, ops, i, table);
        var found := ApplicableGroundingsOf(store, p, ops[i]);
        res := res + found;
        i := i + 1;
      }
      assert ops[..i] == ops;
    }

    /** The inner loop of find_applicable_actions: the applicable groundings of op, in comb order. */
    method ApplicableGroundingsOf(store: FactStore, p: Problem, op: Operator) returns (found: seq<Action>)
      requires NamedTable(p.predicates) && StoreOk(store, p.predicates)
      requires OperatorResolves(p.predicates, op) && Enumerable(p.objects, op)
      modifies store
      ensures StoreOk(store, p.predicates)
      ensures store.Kept()
      ensures found == ApplicableGroundings(p.predicates, op, Comb(p.objects, |op.parameters|), facts)
    {
      var tuples := Comb(p.objects, |op.parameters|);
      ghost var table := facts;
      found := [];
      var j := 0;
      while j < |tuples|
        invariant 0 <= j <= |tuples|
        invariant StoreOk(store, p.predicates) && facts == table
        invariant store.Kept()
        invariant Uniform(tuples, |op.parameters|)
        invariant found == ApplicableGroundings(p.predicates, op, tuples[..j], table)
      {
        assert tuples[j] in tuples;
        var action, ok := GroundingOf(store, p.predicates, op, tuples[j]);
        ApplicableGroundingsPrefix(p.predicates, op, tuples, j, table, action, ok);
        if ok {
          found := found + [action];
        }
        j := j + 1;
      }
      assert tuples[..j] == tuples;
    }

    /** One tuple of the inner loop: its objects bound to op's parameters, and whether that action is applicable. */
    method GroundingOf(store: FactStore, preds: map<string, Predicate>, op: Operator, objs: seq<Obj>)
      returns (action: Action, ok: bool)
      requires NamedTable(preds) && StoreOk(store, preds) && OperatorResolves(preds, op)
      requires |objs| == |op.parameters|
      modifies store
      ensures StoreOk(store, preds)
      ensures store.Kept()
      ensures action == Action(op, Bind(op.parameters, objs)) && ok == Applicable(preds, action, facts)
    {
      var subst := Substitution(op.parameters, objs);
      action := Action(op, subst);
      ok := IsApplicable(store, preds, action);
    }

    /**
     * expand: one successor per applicable action, in order; each is a clone
     * with the action applied, the action recorded and this state (at index
     * `index` of the arena) as its previous state. This state is not changed.
     */
    method Expand(store: FactStore, p: Problem, index: nat) returns (states: seq<State>)
      requires WellFormed(p) && StoreOk(store, p.predicates)
      modifies store
      ensures StoreOk(store, p.predicates)
      ensures store.Kept()
      ensures |states| == |ApplicableActions(p, facts)|
      ensures forall i | 0 <= i < |states| ::
                fresh(states[i]) && Produced(states[i], p.predicates, facts, ApplicableActions(p, facts)[i], index)
      ensures forall i, j | 0 <= i < j < |states| :: states[i] != states[j]
    {
      var actions := FindApplicableActions(store, p);
      ghost var table := facts;
      states := [];
      var i := 0;
      while i < |actions|
        invariant 0 <= i <= |actions|
        invariant StoreOk(store, p.predicates) && facts == table
        invariant store.Kept()
        invariant |states| == i
        invariant forall j | 0 <= j < i :: fresh(states[j]) && Produced(states[j], p.predicates, table, actions[j], index)
        invariant forall j, k | 0 <= j < k < i :: states[j] != states[k]
      {
        var a := actions[i];
        assert a.operator in p.operators;
        var s := Successor(store, p.predicates, a, index);
        states := states + [s];
        i := i + 1;
      }
    }

    /** The body of expand's loop: a clone with a applied, a recorded and this state (at `index`) as previous. */
    method Successor(store: FactStore, preds: map<string, Predicate>, a: Action, index: nat) returns (s: State)
      requires StoreOk(store, preds) && NamedTable(preds) && OperatorResolves(preds, a.operator)
      modifies store
      ensures StoreOk(store, preds)
      ensures store.Kept()
      ensures fresh(s) && Produced(s, preds, facts, a, index)
    {
      s := Clone();
      s.ApplyAction(store, preds, a);
      s.action := Some(a);
      s.previous := Some(index);
    }

    /**
     * solution: walk the previous links from this state (at index `index`),
     * collecting each action, and reverse, giving the actions root first.
     */
    method Solution(arena: seq<State>, index: nat) returns (plan: seq<Action>)
      requires ValidArena(arena) && index < |arena| && arena[index] == this
      ensures plan == Chain(arena, index)
    {
      var collected: seq<Action> := [];
      var current: Option<nat> := Some(index);
      while current.Some?
        invariant current.Some? ==> current.value < |arena|
        invariant Chain(arena, index) ==
                  (if current.Some? then Chain(arena, current.value) else []) + Reverse(collected)
        decreases if current.Some? then current.value + 1 else 0
      {
        var s := arena[current.value];
        if s.action.Some? {
          assert Reverse(collected + [s.action.value]) == [s.action.value] + Reverse(collected);
          collected := collected + [s.action.value];
        }
        current := s.previous;
      }
      plan := Reverse(collected);
    }

    /**
     * ==: the same object, or the same facts: every fact of each state is
     * included in the other.
     */
    method Equals(other: State) returns (b: bool)
      ensures b <==> facts.Keys == other.facts.Keys
    {
      if other == this {
        return true;
      }
      var keys := other.facts.Keys;
      while keys != {}
        invariant keys <= other.facts.Keys
        invariant forall k | k in other.facts.Keys - keys :: k in facts
        decreases keys
      {
        var k :| k in keys;
        if k !in facts {
          return false;
        }
        keys := keys - {k};
      }
      keys := facts.Keys;
      while keys != {}
        invariant keys <= facts.Keys
        invariant forall k | k in facts.Keys - keys :: k in other.facts
        decreases keys
      {
        var k :| k in keys;
        if k !in other.facts {
          return false;
        }
        keys := keys - {k};
      }
      return true;
    }
  }
}
