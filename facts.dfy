/**
 * Ground facts and the fact-interning table (classes Predicate and Fact of
 * planner.rb). A fact is identified by its key, the pair of its predicate's
 * name and its argument list; every table in the planner (a state's facts,
 * the heuristic's distances) is keyed by it.
 */
module Facts {
  import opened Wrappers

  /** A domain object, as written in the problem file. */
  type Obj = string

  /**
   * One argument of a fact. Facts resolved from an operator's literals take
   * their arguments from a substitution, and a token that has no binding
   * yields Ruby's nil, modelled as None.
   */
  type Value = Option<Obj>

  /** A predicate schema: its name and its parameter names (the arity). */
  datatype Predicate = Predicate(name: string, parameters: seq<string>)

  datatype Fact = Fact(pred: Predicate, values: seq<Value>)

  /** What Fact.key encodes: the predicate name and the argument list. */
  type FactKey = (string, seq<Value>)

  function KeyOf(f: Fact): FactKey
  {
    (f.pred.name, f.values)
  }

  /** A predicate table whose entries are stored under their own names. */
  predicate NamedTable(preds: map<string, Predicate>)
  {
    forall n | n in preds :: preds[n].name == n
  }

  /**
   * The class-level @@facts hash: one Fact per key, created on first request
   * and never removed.
   */
  class FactStore {
    var facts: map<FactKey, Fact>

    /** Every stored fact sits under its own key. */
    ghost predicate Valid()
      reads this
    {
      forall k | k in facts :: KeyOf(facts[k]) == k
    }

    /**
     * Every stored fact was built from the predicate that the table `preds`
     * holds under its name, as happens when all lookups go through one
     * predicate table.
     */
    ghost predicate Canonical(preds: map<string, Predicate>)
      reads this
    {
      forall k | k in facts :: k.0 in preds && facts[k] == Fact(preds[k.0], k.1)
    }

    /**
     * Since the pre-state the table lost no key. Under Canonical the fact
     * stored under a key is fixed by the key, so every interned fact is kept.
     */
    twostate predicate Kept()
      reads this
    {
      old(facts).Keys <= facts.Keys
    }

    constructor ()
      ensures Valid() && facts == map[]
    {
      facts := map[];
    }

    /**
     * Fact.find: return the fact stored under (p.name, values),
     * storing a new one first when there is none. A hit leaves the table as it
     * was, so a second call with the same arguments returns the same fact; the
     * table only grows.
     */
    method Find(p: Predicate, values: seq<Value>) returns (f: Fact)
      requires Valid()
      modifies this
      ensures Valid()
      ensures KeyOf(f) == (p.name, values)
      ensures (p.name, values) in facts && facts[(p.name, values)] == f
      ensures (p.name, values) in old(facts) ==> f == old(facts)[(p.name, values)] && facts == old(facts)
      ensures (p.name, values) !in old(facts) ==>
                f == Fact(p, values) && facts == old(facts)[(p.name, values) := f]
      ensures forall k | k in old(facts) :: k in facts && facts[k] == old(facts)[k]
      ensures Kept()
    {
      var key := (p.name, values);
      if key !in facts {
        facts := facts[key := Fact(p, values)];
      }
      f := facts[key];
    }
  }
}
