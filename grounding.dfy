/**
 * Operator schemas and their groundings: Planner.comb, the positional binding
 * of parameters in State#find_applicable_actions, the resolution of a literal
 * to a fact (State#get_matching_fact), the applicability test
 * (State#is_applicable?) and the effect of an action on a fact table
 * (State#apply_action), all as functions of values. The State class in
 * states.dfy runs these step by step and is proved to compute them.
 */
module Grounding {
  import opened Wrappers
  import opened Facts

  /** A precondition or effect, split into tokens: ["not"], a predicate name, argument tokens. */
  type Literal = seq<string>

  datatype Operator = Operator(name: string, parameters: seq<string>,
                               precondition: seq<Literal>, effect: seq<Literal>)

  /** An operator with a substitution from its parameter names to objects. */
  datatype Action = Action(operator: Operator, substitutions: map<string, Obj>)

  /**
   * The planning problem: the predicate table, the object list, the operators
   * and the goal state's facts (the values of its fact hash, in order).
   */
  datatype Problem = Problem(predicates: map<string, Predicate>, objects: seq<Obj>,
                             operators: seq<Operator>, goal: seq<Fact>)

  /** The facts of a state, keyed by fact key, as the @facts hash of State. */
  type FactTable = map<FactKey, Fact>

  // ---------------------------------------------------------------------------
  // Planner.comb

  function Pow(b: nat, e: nat): nat
  {
    if e == 0 then 1 else b * Pow(b, e - 1)
  }

  function Singletons(items: seq<Obj>): (r: seq<seq<Obj>>)
    ensures |r| == |items|
    ensures forall k | 0 <= k < |items| :: r[k] == [items[k]]
  {
    seq(|items|, k requires 0 <= k < |items| => [items[k]])
  }

  /** [e] + t for every t of tails, in order. */
  function Prefixed(e: Obj, tails: seq<seq<Obj>>): (r: seq<seq<Obj>>)
    ensures |r| == |tails|
    ensures forall k | 0 <= k < |tails| :: r[k] == [e] + tails[k]
  {
    seq(|tails|, k requires 0 <= k < |tails| => [e] + tails[k])
  }

  /** For each element e of items in turn, every tail prefixed by e. */
  function PrefixEach(items: seq<Obj>, tails: seq<seq<Obj>>): (r: seq<seq<Obj>>)
    ensures |r| == |items| * |tails|
  {
    if items == [] then [] else Prefixed(items[0], tails) + PrefixEach(items[1..], tails)
  }

  /** t has length n and draws its entries from items. */
  predicate TupleOver(items: seq<Obj>, n: nat, t: seq<Obj>)
  {
    |t| == n && forall x | x in t :: x in items
  }

  /**
   * Planner.comb(items, n): every length-n tuple over items, the first
   * position varying slowest. For n == 0 the source recurses without end
   * unless items is empty (then it returns []), hence the precondition.
   */
  function Comb(items: seq<Obj>, n: nat): (r: seq<seq<Obj>>)
    requires n >= 1 || items == []
    ensures n >= 1 ==> |r| == Pow(|items|, n)
    ensures forall t | t in r :: TupleOver(items, n, t)
    decreases n
  {
    if n == 1 then Singletons(items)
    else if items == [] then []
    else
      var tails := Comb(items, n - 1);
      PrefixEachMembers(items, tails, n - 1);
      PrefixEach(items, tails)
  }

  lemma {:induction false} PrefixEachMembers(items: seq<Obj>, tails: seq<seq<Obj>>, m: nat)
    requires forall t | t in tails :: TupleOver(items, m, t)
    ensures forall t | t in PrefixEach(items, tails) :: TupleOver(items, m + 1, t)
  {
    PrefixEachMembersOf(items, items, tails, m);
  }

  lemma {:induction false} PrefixEachMembersOf(items: seq<Obj>, heads: seq<Obj>, tails: seq<seq<Obj>>, m: nat)
    requires forall x | x in heads :: x in items
    requires forall t | t in tails :: TupleOver(items, m, t)
    ensures forall t | t in PrefixEach(heads, tails) :: TupleOver(items, m + 1, t)
    decreases |heads|
  {
    if heads != [] {
      assert forall x | x in heads[1..] :: x in heads;
      PrefixEachMembersOf(items, heads[1..], tails, m);
      forall t | t in Prefixed(heads[0], tails)
        ensures TupleOver(items, m + 1, t)
      {
        var k :| 0 <= k < |tails| && Prefixed(heads[0], tails)[k] == t;
        assert tails[k] in tails && TupleOver(items, m, tails[k]);
        forall x | x in t ensures x in items {
          if x != heads[0] { assert x in tails[k]; }
        }
      }
    }
  }

  /** Position k * |tails| + t of PrefixEach holds items[k] followed by tails[t]. */
  lemma {:induction false} PrefixEachAt(items: seq<Obj>, tails: seq<seq<Obj>>, k: nat, t: nat)
    requires k < |items| && t < |tails|
    ensures k * |tails| + t < |PrefixEach(items, tails)|
    ensures PrefixEach(items, tails)[k * |tails| + t] == [items[k]] + tails[t]
  {
    var T := |tails|;
    var r := PrefixEach(items, tails);
    assert r == Prefixed(items[0], tails) + PrefixEach(items[1..], tails);
    if k > 0 {
      PrefixEachAt(items[1..], tails, k - 1, t);
      assert k * T + t == T + ((k - 1) * T + t);
    }
  }

  /**
   * comb enumerates in lexicographic order of positions: the tuple at
   * position k * m^(n-1) + t is items[k] followed by the t-th tuple of length n-1.
   */
  lemma CombOrder(items: seq<Obj>, n: nat, k: nat, t: nat)
    requires n >= 2 && k < |items| && t < Pow(|items|, n - 1)
    ensures k * Pow(|items|, n - 1) + t < |Comb(items, n)|
    ensures Comb(items, n)[k * Pow(|items|, n - 1) + t] == [items[k]] + Comb(items, n - 1)[t]
  {
    PrefixEachAt(items, Comb(items, n - 1), k, t);
  }

  /** comb misses no tuple: every length-n tuple over items is enumerated. */
  lemma {:induction false} CombComplete(items: seq<Obj>, n: nat, tuple: seq<Obj>)
    requires n >= 1 && TupleOver(items, n, tuple)
    ensures tuple in Comb(items, n)
    decreases n
  {
    assert tuple[0] in tuple;
    if n == 1 {
      var k :| 0 <= k < |items| && items[k] == tuple[0];
      assert tuple == [items[k]];
      assert Comb(items, 1)[k] == tuple;
    } else {
      var rest := tuple[1..];
      forall x | x in rest ensures x in items {
        assert x in tuple;
      }
      assert TupleOver(items, n - 1, rest);
      CombComplete(items, n - 1, rest);
      PrefixEachContains(items, Comb(items, n - 1), tuple[0], rest);
      assert [tuple[0]] + rest == tuple;
    }
  }

  lemma {:induction false} PrefixEachContains(heads: seq<Obj>, tails: seq<seq<Obj>>, e: Obj, tail: seq<Obj>)
    requires e in heads && tail in tails
    ensures [e] + tail in PrefixEach(heads, tails)
    decreases |heads|
  {
    if heads[0] == e {
      var k :| 0 <= k < |tails| && tails[k] == tail;
      assert Prefixed(e, tails)[k] == [e] + tail;
    } else {
      PrefixEachContains(heads[1..], tails, e, tail);
    }
  }

  // ---------------------------------------------------------------------------
  // Binding parameters positionally

  /**
   * The substitution built by `objs.each{|o| subst[param.shift] = o}`: the
   * parameters are bound left to right, so a repeated parameter name keeps the
   * object of its last position.
   */
  function Bind(params: seq<string>, objs: seq<Obj>): (subst: map<string, Obj>)
    requires |params| == |objs|
    ensures subst.Keys == set p | p in params
    decreases |params|
  {
    if params == [] then map[]
    else
      var n := |params| - 1;
      assert forall p | p in params :: p in params[..n] || p == params[n];
      Bind(params[..n], objs[..n])[params[n] := objs[n]]
  }

  /** Position i holds the last occurrence of its parameter name. */
  predicate LastAt(params: seq<string>, i: int)
  {
    0 <= i < |params| && forall j | i < j < |params| :: params[j] != params[i]
  }

  /**
   * A parameter is bound to the object at its last position; with distinct
   * parameter names, the i-th parameter to the i-th object.
   */
  lemma {:induction false} BindAt(params: seq<string>, objs: seq<Obj>, i: int)
    requires |params| == |objs| && LastAt(params, i)
    ensures Bind(params, objs)[params[i]] == objs[i]
    decreases |params|
  {
    var n := |params| - 1;
    if i < n {
      assert params[n] != params[i];
      forall j | i < j < n ensures params[..n][j] != params[..n][i] {
        assert params[j] != params[i];
      }
      BindAt(params[..n], objs[..n], i);
    }
  }

  // ---------------------------------------------------------------------------
  // Resolving a literal to a fact

  function Downcase(c: char): char
  {
    if 'A' <= c <= 'Z' then (c as int + 32) as char else c
  }

  /** `token.casecmp('not') == 0`: the token is "not" up to ASCII case. */
  predicate IsNot(token: string)
  {
    |token| == 3 && Downcase(token[0]) == 'n' && Downcase(token[1]) == 'o' && Downcase(token[2]) == 't'
  }

  /** The literal's first token is a case-insensitive "not". */
  predicate Negated(lit: Literal)
  {
    |lit| > 0 && IsNot(lit[0])
  }

  /** The tokens get_matching_fact works on once a leading "not" is shifted off. */
  function Stripped(lit: Literal): Literal
  {
    if Negated(lit) then lit[1..] else lit
  }

  /**
   * get_matching_fact resolves the literal without an exception: the literal
   * has a first token, and after the "not" a predicate name that the table knows.
   */
  predicate Resolves(preds: map<string, Predicate>, lit: Literal)
  {
    |lit| > 0 && |Stripped(lit)| > 0 && Stripped(lit)[0] in preds
  }

  /**
   * The argument list of get_matching_fact: one value per predicate
   * parameter, each the substitution of the next argument token, nil when the
   * tokens have run out or the token is not a bound parameter.
   */
  function Args(params: seq<string>, tokens: seq<string>, subst: map<string, Obj>): (values: seq<Value>)
    ensures |values| == |params|
    decreases |params|
  {
    if params == [] then []
    else
      var v := if tokens != [] && tokens[0] in subst then Some(subst[tokens[0]]) else None;
      [v] + Args(params[1..], if tokens == [] then [] else tokens[1..], subst)
  }

  /** The i-th value is the substitution of the i-th token, nil when there is none. */
  lemma {:induction false} ArgsAt(params: seq<string>, tokens: seq<string>, subst: map<string, Obj>, i: nat)
    requires i < |params|
    ensures Args(params, tokens, subst)[i] ==
              if i < |tokens| && tokens[i] in subst then Some(subst[tokens[i]]) else None
    decreases i
  {
    if i > 0 {
      var rest := if tokens == [] then [] else tokens[1..];
      ArgsAt(params[1..], rest, subst, i - 1);
      if i < |tokens| {
        assert rest[i - 1] == tokens[i];
      }
    }
  }

  /**
   * The fact a resolvable literal denotes under a substitution: the leading
   * "not" is dropped, the predicate is looked up by name, and the arity is the
   * predicate's own, the i-th value being the substitution of the i-th argument token.
   */
  function FactOf(preds: map<string, Predicate>, lit: Literal, subst: map<string, Obj>): Fact
    requires Resolves(preds, lit)
  {
    var tokens := Stripped(lit);
    var p := preds[tokens[0]];
    Fact(p, Args(p.parameters, tokens[1..], subst))
  }

  /**
   * The fact a literal resolves to: the leading "not" is dropped, the
   * predicate is looked up by name, the arity is the predicate's own, and the
   * i-th value is the substitution of the i-th argument token (nil when there
   * is none).
   */
  lemma FactOfShape(preds: map<string, Predicate>, lit: Literal, subst: map<string, Obj>)
    requires Resolves(preds, lit)
    ensures FactOf(preds, lit, subst).pred == preds[Stripped(lit)[0]]
    ensures |FactOf(preds, lit, subst).values| == |preds[Stripped(lit)[0]].parameters|
    ensures forall i | 0 <= i < |preds[Stripped(lit)[0]].parameters| ::
              FactOf(preds, lit, subst).values[i] ==
                if i + 1 < |Stripped(lit)| && Stripped(lit)[i + 1] in subst
                then Some(subst[Stripped(lit)[i + 1]]) else None
  {
    var tokens := Stripped(lit);
    var p := preds[tokens[0]];
    forall i | 0 <= i < |p.parameters|
      ensures Args(p.parameters, tokens[1..], subst)[i] ==
                if i + 1 < |tokens| && tokens[i + 1] in subst then Some(subst[tokens[i + 1]]) else None
    {
      ArgsAt(p.parameters, tokens[1..], subst, i);
    }
  }

  datatype MatchError = EmptyLiteral | UnknownPredicate(lit: Literal)

  /**
   * get_matching_fact with its failures: an empty literal (nil.casecmp) and a
   * predicate name missing from the table (nil.parameters) raise in the source.
   */
  function MatchingFact(preds: map<string, Predicate>, lit: Literal, subst: map<string, Obj>): (r: Result<Fact, MatchError>)
    ensures r.Ok? <==> Resolves(preds, lit)
    ensures r.Ok? ==> r.value == FactOf(preds, lit, subst)
    ensures |lit| == 0 ==> r == Err(EmptyLiteral)
  {
    if |lit| == 0 then Err(EmptyLiteral)
    else if !Resolves(preds, lit) then Err(UnknownPredicate(lit))
    else Ok(FactOf(preds, lit, subst))
  }

  // ---------------------------------------------------------------------------
  // Well-formed problems

  /** Every literal of the operator resolves (the source raises otherwise). */
  predicate OperatorResolves(preds: map<string, Predicate>, op: Operator)
  {
    (forall i | 0 <= i < |op.precondition| :: Resolves(preds, op.precondition[i])) &&
    (forall i | 0 <= i < |op.effect| :: Resolves(preds, op.effect[i]))
  }

  /** comb terminates for the operator's arity. */
  predicate Enumerable(objects: seq<Obj>, op: Operator)
  {
    |op.parameters| >= 1 || objects == []
  }

  /** Every operator of ops resolves its predicates and can be enumerated. */
  predicate Groundable(p: Problem, ops: seq<Operator>)
  {
    forall op | op in ops :: OperatorResolves(p.predicates, op) && Enumerable(p.objects, op)
  }

  lemma GroundablePrefix(p: Problem, ops: seq<Operator>, j: nat)
    requires Groundable(p, ops) && j <= |ops|
    ensures Groundable(p, ops[..j])
  {
    assert forall op | op in ops[..j] :: op in ops;
  }

  /** What the planner needs of its input to run without an exception. */
  predicate WellFormed(p: Problem)
  {
    && NamedTable(p.predicates)
    && Groundable(p, p.operators)
  }

  /** The action is a grounding of one of the problem's operators. */
  ghost predicate Grounded(p: Problem, a: Action)
  {
    && a.operator in p.operators
    && Enumerable(p.objects, a.operator)
    && GroundingIn(Comb(p.objects, |a.operator.parameters|), a)
  }

  // ---------------------------------------------------------------------------
  // Applicability

  /**
   * is_applicable?: the fact of every precondition is in the state. The
   * leading "not" was stripped when the fact was resolved, so a negated
   * precondition is also tested for presence.
   */
  predicate Applicable(preds: map<string, Predicate>, a: Action, facts: FactTable)
    requires OperatorResolves(preds, a.operator)
  {
    forall i | 0 <= i < |a.operator.precondition| ::
      KeyOf(FactOf(preds, a.operator.precondition[i], a.substitutions)) in facts
  }

  /** Every tuple of tuples has length n. */
  predicate Uniform(tuples: seq<seq<Obj>>, n: nat)
  {
    forall t | t in tuples :: |t| == n
  }

  /** The applicable groundings of op, one per tuple, in the order of tuples. */
  function ApplicableGroundings(preds: map<string, Predicate>, op: Operator, tuples: seq<seq<Obj>>, facts: FactTable): (r: seq<Action>)
    requires OperatorResolves(preds, op)
    requires Uniform(tuples, |op.parameters|)
    ensures forall a | a in r :: a.operator == op
    decreases |tuples|
  {
    if tuples == [] then []
    else
      var n := |tuples| - 1;
      var a := Action(op, Bind(op.parameters, tuples[n]));
      ApplicableGroundings(preds, op, tuples[..n], facts) + (if Applicable(preds, a, facts) then [a] else [])
  }

  /** The groundings of the first j + 1 tuples: those of the first j, then tuple j's when applicable. */
  lemma ApplicableGroundingsPrefix(preds: map<string, Predicate>, op: Operator, tuples: seq<seq<Obj>>,
                                   j: nat, facts: FactTable, a: Action, ok: bool)
    requires OperatorResolves(preds, op)
    requires Uniform(tuples, |op.parameters|)
    requires j < |tuples| && |tuples[j]| == |op.parameters|
    requires a == Action(op, Bind(op.parameters, tuples[j])) && ok == Applicable(preds, a, facts)
    ensures Uniform(tuples[..j + 1], |op.parameters|)
    ensures Uniform(tuples[..j], |op.parameters|)
    ensures ApplicableGroundings(preds, op, tuples[..j + 1], facts) ==
            ApplicableGroundings(preds, op, tuples[..j], facts) + (if ok then [a] else [])
  {
    UniformPrefix(tuples, j + 1, |op.parameters|);
    UniformPrefix(tuples, j, |op.parameters|);
    var t := tuples[..j + 1];
    assert t[..j] == tuples[..j] && t[j] == tuples[j];
    assert ApplicableGroundings(preds, op, t, facts) ==
           ApplicableGroundings(preds, op, t[..j], facts) + (if Applicable(preds, a, facts) then [a] else []);
  }

  /** One more tuple adds its grounding at the end, when applicable. */
  lemma ApplicableGroundingsSnoc(preds: map<string, Predicate>, op: Operator, tuples: seq<seq<Obj>>,
                                 t: seq<Obj>, facts: FactTable)
    requires OperatorResolves(preds, op)
    requires Uniform(tuples, |op.parameters|)
    requires |t| == |op.parameters|
    ensures Uniform(tuples + [t], |op.parameters|)
    ensures var a := Action(op, Bind(op.parameters, t));
            ApplicableGroundings(preds, op, tuples + [t], facts) ==
            ApplicableGroundings(preds, op, tuples, facts) + (if Applicable(preds, a, facts) then [a] else [])
  {
    assert (tuples + [t])[..|tuples|] == tuples;
  }

  /** The applicable actions of the operators ops, operator by operator. */
  function ApplicableFrom(p: Problem, ops: seq<Operator>, facts: FactTable): seq<Action>
    requires Groundable(p, ops)
    decreases |ops|
  {
    if ops == [] then []
    else
      var n := |ops| - 1;
      assert ops[n] in ops && Enumerable(p.objects, ops[n]);
      ApplicableFrom(p, ops[..n], facts) +
      ApplicableGroundings(p.predicates, ops[n], Comb(p.objects, |ops[n].parameters|), facts)
  }

  /** The groundings from the first i + 1 operators: those of the first i, then operator i's. */
  lemma ApplicableFromPrefix(p: Problem, ops: seq<Operator>, i: nat, facts: FactTable)
    requires Groundable(p, ops) && i < |ops|
    ensures Groundable(p, ops[..i]) && Groundable(p, ops[..i + 1])
    ensures OperatorResolves(p.predicates, ops[i]) && Enumerable(p.objects, ops[i])
    ensures ApplicableFrom(p, ops[..i + 1], facts) ==
              ApplicableFrom(p, ops[..i], facts) +
              ApplicableGroundings(p.predicates, ops[i], Comb(p.objects, |ops[i].parameters|), facts)
  {
    GroundablePrefix(p, ops, i);
    GroundablePrefix(p, ops, i + 1);
    assert ops[i] in ops;
    assert ops[..i + 1][..i] == ops[..i];
  }

  /** find_applicable_actions: operators in order, each grounding in comb order, filtered. */
  function ApplicableActions(p: Problem, facts: FactTable): (r: seq<Action>)
    requires WellFormed(p)
    ensures forall i | 0 <= i < |r| :: r[i].operator in p.operators
  {
    ApplicableFromOperators(p, p.operators, facts);
    ApplicableFrom(p, p.operators, facts)
  }

  lemma {:induction false} ApplicableFromOperators(p: Problem, ops: seq<Operator>, facts: FactTable)
    requires Groundable(p, ops)
    ensures forall a | a in ApplicableFrom(p, ops, facts) :: a.operator in ops
    decreases |ops|
  {
    if ops != [] {
      var n := |ops| - 1;
      GroundablePrefix(p, ops, n);
      ApplicableFromOperators(p, ops[..n], facts);
    }
  }

  /** Some tuple of tuples, bound to a's operator's parameters, is a's substitution. */
  ghost predicate GroundingIn(tuples: seq<seq<Obj>>, a: Action)
  {
    exists t :: t in tuples && |t| == |a.operator.parameters| && a.substitutions == Bind(a.operator.parameters, t)
  }

  lemma {:induction false} ApplicableGroundingsExact(preds: map<string, Predicate>, op: Operator,
                                                   tuples: seq<seq<Obj>>, facts: FactTable, a: Action)
    requires OperatorResolves(preds, op)
    requires Uniform(tuples, |op.parameters|)
    ensures a in ApplicableGroundings(preds, op, tuples, facts) <==>
              a.operator == op && Applicable(preds, a, facts) && GroundingIn(tuples, a)
    decreases |tuples|
  {
    if tuples != [] {
      var n := |tuples| - 1;
      UniformPrefix(tuples, n, |op.parameters|);
      ApplicableGroundingsExact(preds, op, tuples[..n], facts, a);
      ApplicableGroundingsLast(preds, op, tuples, facts, a);
    }
  }

  lemma UniformPrefix(tuples: seq<seq<Obj>>, j: nat, n: nat)
    requires Uniform(tuples, n) && j <= |tuples|
    ensures Uniform(tuples[..j], n)
  {
    assert forall t | t in tuples[..j] :: t in tuples;
  }

  /** The last tuple of a non-empty list, added to those before it. */
  lemma ApplicableGroundingsLast(preds: map<string, Predicate>, op: Operator,
                                 tuples: seq<seq<Obj>>, facts: FactTable, a: Action)
    requires OperatorResolves(preds, op)
    requires Uniform(tuples, |op.parameters|) && tuples != []
    requires Uniform(tuples[..|tuples| - 1], |op.parameters|)
    requires a in ApplicableGroundings(preds, op, tuples[..|tuples| - 1], facts) <==>
               a.operator == op && Applicable(preds, a, facts) && GroundingIn(tuples[..|tuples| - 1], a)
    ensures a in ApplicableGroundings(preds, op, tuples, facts) <==>
              a.operator == op && Applicable(preds, a, facts) && GroundingIn(tuples, a)
  {
    var n := |tuples| - 1;
    var init, last := tuples[..n], tuples[n];
    assert tuples == init + [last];
    assert last in tuples;
    ApplicableGroundingsStep(preds, op, init, last, facts, a);
  }

  /** One step of ApplicableGroundingsExact: the last tuple added to those before it. */
  lemma ApplicableGroundingsStep(preds: map<string, Predicate>, op: Operator,
                                 init: seq<seq<Obj>>, last: seq<Obj>, facts: FactTable, a: Action)
    requires OperatorResolves(preds, op)
    requires Uniform(init, |op.parameters|)
    requires |last| == |op.parameters|
    requires a in ApplicableGroundings(preds, op, init, facts) <==>
               a.operator == op && Applicable(preds, a, facts) && GroundingIn(init, a)
    ensures Uniform(init + [last], |op.parameters|)
    ensures a in ApplicableGroundings(preds, op, init + [last], facts) <==>
              a.operator == op && Applicable(preds, a, facts) && GroundingIn(init + [last], a)
  {
    var b := Action(op, Bind(op.parameters, last));
    ApplicableGroundingsSnoc(preds, op, init, last, facts);
    GroundingInSnoc(init, last, a);
    assert a == b <==> a.operator == op && a.substitutions == Bind(op.parameters, last);
  }

  /** A grounding over init + [last] is one over init or the binding of last. */
  lemma GroundingInSnoc(init: seq<seq<Obj>>, last: seq<Obj>, a: Action)
    ensures GroundingIn(init + [last], a) <==>
              GroundingIn(init, a) ||
              (|last| == |a.operator.parameters| && a.substitutions == Bind(a.operator.parameters, last))
  {
    if GroundingIn(init + [last], a) {
      var t :| t in init + [last] && |t| == |a.operator.parameters| && a.substitutions == Bind(a.operator.parameters, t);
      assert t in init || t == last;
    }
    if GroundingIn(init, a) {
      var t :| t in init && |t| == |a.operator.parameters| && a.substitutions == Bind(a.operator.parameters, t);
      assert t in init + [last];
    }
    if |last| == |a.operator.parameters| && a.substitutions == Bind(a.operator.parameters, last) {
      assert last in init + [last];
    }
  }

  lemma {:induction false} ApplicableFromExact(p: Problem, ops: seq<Operator>, facts: FactTable, a: Action)
    requires Groundable(p, ops)
    ensures a in ApplicableFrom(p, ops, facts) <==>
              a.operator in ops && Applicable(p.predicates, a, facts) &&
              GroundingIn(Comb(p.objects, |a.operator.parameters|), a)
    decreases |ops|
  {
    if ops != [] {
      var n := |ops| - 1;
      GroundablePrefix(p, ops, n);
      ApplicableFromExact(p, ops[..n], facts, a);
      ApplicableFromLast(p, ops, facts, a);
    }
  }

  /** The last operator of a non-empty list, added to those before it. */
  lemma ApplicableFromLast(p: Problem, ops: seq<Operator>, facts: FactTable, a: Action)
    requires Groundable(p, ops) && ops != [] && Groundable(p, ops[..|ops| - 1])
    requires a in ApplicableFrom(p, ops[..|ops| - 1], facts) <==>
               a.operator in ops[..|ops| - 1] && Applicable(p.predicates, a, facts) &&
               GroundingIn(Comb(p.objects, |a.operator.parameters|), a)
    ensures a in ApplicableFrom(p, ops, facts) <==>
              a.operator in ops && Applicable(p.predicates, a, facts) &&
              GroundingIn(Comb(p.objects, |a.operator.parameters|), a)
  {
    var n := |ops| - 1;
    var init, last := ops[..n], ops[n];
    assert ops == init + [last];
    assert last in ops;
    ApplicableFromStep(p, init, last, facts, a);
  }

  /** One step of ApplicableFromExact: the last operator added to those before it. */
  lemma ApplicableFromStep(p: Problem, init: seq<Operator>, last: Operator, facts: FactTable, a: Action)
    requires Groundable(p, init)
    requires OperatorResolves(p.predicates, last) && Enumerable(p.objects, last)
    requires a in ApplicableFrom(p, init, facts) <==>
               a.operator in init && Applicable(p.predicates, a, facts) &&
               GroundingIn(Comb(p.objects, |a.operator.parameters|), a)
    ensures Groundable(p, init + [last])
    ensures a in ApplicableFrom(p, init + [last], facts) <==>
              a.operator in init + [last] && Applicable(p.predicates, a, facts) &&
              GroundingIn(Comb(p.objects, |a.operator.parameters|), a)
  {
    var ops := init + [last];
    var tuples := Comb(p.objects, |last.parameters|);
    assert ops[..|init|] == init;
    assert ApplicableFrom(p, ops, facts) == ApplicableFrom(p, init, facts) + ApplicableGroundings(p.predicates, last, tuples, facts);
    ApplicableGroundingsExact(p.predicates, last, tuples, facts, a);
    assert a.operator in ops <==> a.operator in init || a.operator == last;
  }


  /**
   * find_applicable_actions returns exactly the applicable groundings of the
   * problem's operators, and each binds every parameter of its operator.
   */
  lemma ApplicableActionsExact(p: Problem, facts: FactTable, a: Action)
    requires WellFormed(p)
    ensures a in ApplicableActions(p, facts) <==>
              Grounded(p, a) && Applicable(p.predicates, a, facts)
    ensures a in ApplicableActions(p, facts) ==>
              a.substitutions.Keys == set x | x in a.operator.parameters
  {
    ApplicableFromExact(p, p.operators, facts, a);
  }

  // ---------------------------------------------------------------------------
  // Effects

  /**
   * apply_action: the effects in order, a positive effect adding its fact
   * and a "not" effect deleting it.
   */
  function ApplyEffects(preds: map<string, Predicate>, facts: FactTable, subst: map<string, Obj>, effects: seq<Literal>): FactTable
    requires forall e | e in effects :: Resolves(preds, e)
    decreases |effects|
  {
    if effects == [] then facts
    else
      var n := |effects| - 1;
      ApplyEffect(preds, ApplyEffects(preds, facts, subst, effects[..n]), subst, effects[n])
  }

  /** Every fact of the table sits under its own key, as in every hash the planner fills through add_fact. */
  ghost predicate KeyedByFacts(t: FactTable)
  {
    forall k | k in t :: KeyOf(t[k]) == k
  }

  /** One effect: a positive literal stores its fact, a "not" literal deletes it. */
  function ApplyEffect(preds: map<string, Predicate>, facts: FactTable, subst: map<string, Obj>, e: Literal): FactTable
    requires Resolves(preds, e)
  {
    var f := FactOf(preds, e, subst);
    if Negated(e) then facts - {KeyOf(f)} else facts[KeyOf(f) := f]
  }

  /** Effects store every fact under its own key, so a table keyed by its facts stays so. */
  lemma {:induction false} ApplyEffectsKeyed(preds: map<string, Predicate>, facts: FactTable, subst: map<string, Obj>,
                                             effects: seq<Literal>)
    requires forall e | e in effects :: Resolves(preds, e)
    requires KeyedByFacts(facts)
    ensures KeyedByFacts(ApplyEffects(preds, facts, subst, effects))
    decreases |effects|
  {
    if effects != [] {
      var n := |effects| - 1;
      assert forall e | e in effects[..n] :: e in effects;
      ApplyEffectsKeyed(preds, facts, subst, effects[..n]);
      assert effects[n] in effects;
    }
  }

  /** Applying one more effect of the list: the effect at i applied to the table the first i left. */
  lemma ApplyEffectsStep(preds: map<string, Predicate>, facts: FactTable, subst: map<string, Obj>,
                         effects: seq<Literal>, i: nat)
    requires forall e | e in effects :: Resolves(preds, e)
    requires i < |effects|
    ensures forall e | e in effects[..i + 1] :: Resolves(preds, e)
    ensures forall e | e in effects[..i] :: Resolves(preds, e)
    ensures ApplyEffects(preds, facts, subst, effects[..i + 1]) ==
              ApplyEffect(preds, ApplyEffects(preds, facts, subst, effects[..i]), subst, effects[i])
  {
    assert effects[..i + 1][..i] == effects[..i];
  }

  /** The state after applying action a to facts. */
  function ApplyAction(preds: map<string, Predicate>, facts: FactTable, a: Action): FactTable
    requires OperatorResolves(preds, a.operator)
  {
    ApplyEffects(preds, facts, a.substitutions, a.operator.effect)
  }

  /** No effect of effects names the fact key k. */
  predicate NoneNames(preds: map<string, Predicate>, subst: map<string, Obj>, effects: seq<Literal>, k: FactKey)
    requires forall e | e in effects :: Resolves(preds, e)
  {
    forall e | e in effects :: KeyOf(FactOf(preds, e, subst)) != k
  }

  /** A fact that no effect names is as it was. */
  lemma {:induction false} UnnamedUnchanged(preds: map<string, Predicate>, facts: FactTable, subst: map<string, Obj>,
                                           effects: seq<Literal>, k: FactKey)
    requires forall e | e in effects :: Resolves(preds, e)
    requires NoneNames(preds, subst, effects, k)
    ensures k in ApplyEffects(preds, facts, subst, effects) <==> k in facts
    ensures k in facts ==> ApplyEffects(preds, facts, subst, effects)[k] == facts[k]
    decreases |effects|
  {
    if effects != [] {
      var n := |effects| - 1;
      assert forall e | e in effects[..n] :: e in effects;
      assert effects[n] in effects;
      UnnamedUnchanged(preds, facts, subst, effects[..n], k);
    }
  }

  /**
   * The last effect that names a fact decides it: present, as that effect's
   * fact, when the effect is positive; absent when it is a "not".
   */
  lemma {:induction false} LastEffectWins(preds: map<string, Predicate>, facts: FactTable, subst: map<string, Obj>,
                                         effects: seq<Literal>, j: nat)
    requires forall e | e in effects :: Resolves(preds, e)
    requires j < |effects|
    requires NoneNames(preds, subst, effects[j + 1..], KeyOf(FactOf(preds, effects[j], subst)))
    ensures var f := FactOf(preds, effects[j], subst);
            (KeyOf(f) in ApplyEffects(preds, facts, subst, effects) <==> !Negated(effects[j])) &&
            (!Negated(effects[j]) ==> ApplyEffects(preds, facts, subst, effects)[KeyOf(f)] == f)
    decreases |effects|
  {
    var n := |effects| - 1;
    var init := effects[..n];
    assert forall e | e in init :: e in effects;
    assert effects[n] in effects;
    var before := ApplyEffects(preds, facts, subst, init);
    if j < n {
      var k := KeyOf(FactOf(preds, effects[j], subst));
      NoneNamesInit(preds, subst, effects, j, k);
      assert init[j] == effects[j];
      LastEffectWins(preds, facts, subst, init, j);
      ApplyEffectOther(preds, before, subst, effects[n], k);
    }
  }

  /** Dropping the last effect keeps "no later effect names k". */
  lemma NoneNamesInit(preds: map<string, Predicate>, subst: map<string, Obj>, effects: seq<Literal>, j: nat, k: FactKey)
    requires forall e | e in effects :: Resolves(preds, e)
    requires j + 1 < |effects|
    requires NoneNames(preds, subst, effects[j + 1..], k)
    ensures forall e | e in effects[..|effects| - 1] :: Resolves(preds, e)
    ensures NoneNames(preds, subst, effects[..|effects| - 1][j + 1..], k)
    ensures KeyOf(FactOf(preds, effects[|effects| - 1], subst)) != k
  {
    var later, laterInit := effects[j + 1..], effects[..|effects| - 1][j + 1..];
    assert laterInit == later[..|later| - 1];
    assert forall e | e in laterInit :: e in later;
    assert forall e | e in effects[..|effects| - 1] :: e in effects;
    assert effects[|effects| - 1] == later[|later| - 1];
  }

  /** An effect leaves every fact it does not name as it was. */
  lemma ApplyEffectOther(preds: map<string, Predicate>, facts: FactTable, subst: map<string, Obj>, e: Literal, k: FactKey)
    requires Resolves(preds, e) && KeyOf(FactOf(preds, e, subst)) != k
    ensures k in ApplyEffect(preds, facts, subst, e) <==> k in facts
    ensures k in facts ==> ApplyEffect(preds, facts, subst, e)[k] == facts[k]
  {
  }

  // ---------------------------------------------------------------------------
  // The facts an action can produce

  /** The key of every fact an effect of some grounding can name. */
  ghost function EffectKeys(p: Problem): set<FactKey>
    requires WellFormed(p)
  {
    set op, lit, t | op in p.operators && lit in op.effect && t in Comb(p.objects, |op.parameters|) &&
                     |t| == |op.parameters|
      :: KeyOf(FactOf(p.predicates, lit, Bind(op.parameters, t)))
  }

  lemma EffectKeysContain(p: Problem, a: Action, lit: Literal)
    requires WellFormed(p) && Grounded(p, a) && lit in a.operator.effect
    ensures KeyOf(FactOf(p.predicates, lit, a.substitutions)) in EffectKeys(p)
  {
    var t :| t in Comb(p.objects, |a.operator.parameters|) && |t| == |a.operator.parameters| &&
             a.substitutions == Bind(a.operator.parameters, t);
    assert KeyOf(FactOf(p.predicates, lit, Bind(a.operator.parameters, t))) in EffectKeys(p);
  }

  /** Effects whose facts all have keys in u add no key outside u. */
  lemma {:induction false} ApplyEffectsWithin(preds: map<string, Predicate>, facts: FactTable, subst: map<string, Obj>,
                                             effects: seq<Literal>, u: set<FactKey>)
    requires forall e | e in effects :: Resolves(preds, e)
    requires forall e | e in effects :: KeyOf(FactOf(preds, e, subst)) in u
    ensures ApplyEffects(preds, facts, subst, effects).Keys <= facts.Keys + u
    decreases |effects|
  {
    if effects != [] {
      var n := |effects| - 1;
      var prev := ApplyEffects(preds, facts, subst, effects[..n]);
      assert forall e | e in effects[..n] :: e in effects;
      ApplyEffectsWithin(preds, facts, subst, effects[..n], u);
      assert effects[n] in effects;
      assert ApplyEffect(preds, prev, subst, effects[n]).Keys <= prev.Keys + {KeyOf(FactOf(preds, effects[n], subst))};
    }
  }

  /** Applying a grounded action adds nothing outside the effect universe. */
  lemma ApplyActionWithin(p: Problem, facts: FactTable, a: Action)
    requires WellFormed(p) && Grounded(p, a)
    ensures ApplyAction(p.predicates, facts, a).Keys <= facts.Keys + EffectKeys(p)
  {
    forall lit | lit in a.operator.effect
      ensures KeyOf(FactOf(p.predicates, lit, a.substitutions)) in EffectKeys(p)
    {
      EffectKeysContain(p, a, lit);
    }
    ApplyEffectsWithin(p.predicates, facts, a.substitutions, a.operator.effect, EffectKeys(p));
  }
}
