/** The condition trees of homeassistant/helpers/condition.py: what the checkers compute,
    and the order-free three-valued logic they implement. */
module Conditions {

  datatype Op = AndOp | OrOp | NotOp

  /** A condition configuration. A leaf stands for any condition that is not a combination
      of others; `id` is what the environment knows it by. */
  datatype Condition =
    | Leaf(id: nat, enabled: bool, entityIds: seq<string>)
    | Compound(op: Op, enabled: bool, children: seq<Condition>)

  /** The error of a leaf, or the errors of the children of a combination with their index
      and the number of children. */
  datatype Err =
    | Message(text: string)
    | Container(op: Op, errors: seq<Indexed>)
  datatype Indexed = Indexed(index: nat, total: nat, error: Err)

  /** What a checker does: return `True`, `False` or `None`, or raise a `ConditionError`. */
  datatype Outcome = True | False | Nothing | Raises(error: Err)

  type Environment = nat -> Outcome

  // ------------------------------------------------------------------- meaning

  /** The outcome of a child that settles the combination at once. */
  predicate Decides(op: Op, o: Outcome) {
    match op
    case AndOp => o == False
    case OrOp => o == True
    case NotOp => o == True
  }

  function Decided(op: Op): Outcome {
    if op == OrOp then True else False
  }

  function Undecided(op: Op): Outcome {
    if op == OrOp then False else True
  }

  /** The errors among the outcomes, in order. */
  function Errors(os: seq<Outcome>, total: nat): seq<Indexed> {
    if os == [] then []
    else
      var before, o := Errors(os[..|os| - 1], total), os[|os| - 1];
      if o.Raises? then before + [Indexed(|os| - 1, total, o.error)] else before
  }

  /** A child that decides settles the combination, wherever it stands; otherwise errors
      surface, all of them; otherwise the combination is undecided. */
  function Combine(op: Op, os: seq<Outcome>): Outcome {
    if exists o :: o in os && Decides(op, o) then Decided(op)
    else if exists o :: o in os && o.Raises? then Raises(Container(op, Errors(os, |os|)))
    else Undecided(op)
  }

  function Meaning(c: Condition, env: Environment): Outcome {
    match c
    case Leaf(id, enabled, _) => if enabled then env(id) else Nothing
    case Compound(op, enabled, children) => if enabled then Combine(op, Meanings(children, env)) else Nothing
  }

  function Meanings(cs: seq<Condition>, env: Environment): (r: seq<Outcome>)
    ensures |r| == |cs|
    ensures forall i :: 0 <= i < |cs| ==> r[i] == Meaning(cs[i], env)
  {
    if cs == [] then [] else Meanings(cs[..|cs| - 1], env) + [Meaning(cs[|cs| - 1], env)]
  }

  // ------------------------------------------------------------------ checkers

  /** The checker built by `async_from_config`: it asks the children one after the other,
      stops at the first that decides, and collects errors on the way. */
  method Check(c: Condition, env: Environment) returns (o: Outcome)
    ensures o == Meaning(c, env)
    decreases c
  {
    match c
    case Leaf(id, enabled, _) =>
      o := if enabled then env(id) else Nothing;
    case Compound(op, enabled, children) =>
      if !enabled {
        return Nothing;
      }
      var errors: seq<Indexed> := [];
      ghost var os := Meanings(children, env);
      for index := 0 to |children|
        invariant errors == Errors(os[..index], |children|)
        invariant forall i :: 0 <= i < index ==> !Decides(op, os[i])
      {
        var answer := Check(children[index], env);
        assert os[..index + 1][..index] == os[..index];
        if Decides(op, answer) {
          assert answer in os;
          return Decided(op);
        }
        if answer.Raises? {
          errors := errors + [Indexed(index, |children|, answer.error)];
        }
      }
      assert os[..|children|] == os;
      NoErrorsIffNoneRaises(os, |children|);
      if errors != [] {
        return Raises(Container(op, errors));
      }
      return Undecided(op);
  }

  lemma {:induction false} NoErrorsIffNoneRaises(os: seq<Outcome>, total: nat)
    ensures Errors(os, total) == [] <==> forall o :: o in os ==> !o.Raises?
    decreases |os|
  {
    if os != [] {
      var init, last := os[..|os| - 1], os[|os| - 1];
      NoErrorsIffNoneRaises(init, total);
      assert os == init + [last];
    }
  }

  // ------------------------------------------------- errors name their children

  /** An error that surfaces lists exactly the children that raised, each once, in order. */
  lemma {:induction false} ErrorsAreExact(os: seq<Outcome>, total: nat)
    ensures forall i :: 0 <= i < |os| && os[i].Raises? ==> Indexed(i, total, os[i].error) in Errors(os, total)
    ensures forall e :: e in Errors(os, total) ==>
      e.index < |os| && e.total == total && os[e.index] == Raises(e.error)
    ensures forall j, k :: 0 <= j < k < |Errors(os, total)| ==> Errors(os, total)[j].index < Errors(os, total)[k].index
    decreases |os|
  {
    if os != [] {
      var init, last := os[..|os| - 1], os[|os| - 1];
      ErrorsAreExact(init, total);
      var before, es := Errors(init, total), Errors(os, total);
      assert forall j :: 0 <= j < |before| ==> before[j] in before && es[j] == before[j];
    }
  }

  // ------------------------------------------------------------ three-valued logic

  /** Outcomes up to what an error says; `None` counts as no opinion. */
  datatype Verdict = Yes | No | Silent | Error

  function VerdictOf(o: Outcome): Verdict {
    match o case True => Yes case False => No case Nothing => Silent case Raises(_) => Error
  }

  function Verdicts(cs: seq<Condition>, env: Environment): set<Verdict> {
    set c | c in cs :: VerdictOf(Meaning(c, env))
  }

  /** The truth tables: they only look at which verdicts occur among the children. */
  function Logic(op: Op, vs: set<Verdict>): Verdict {
    match op
    case AndOp => if No in vs then No else if Error in vs then Error else Yes
    case OrOp => if Yes in vs then Yes else if Error in vs then Error else No
    case NotOp => if Yes in vs then No else if Error in vs then Error else Yes
  }

  lemma VerdictsOccur(cs: seq<Condition>, env: Environment)
    ensures forall o :: o in Meanings(cs, env) ==> VerdictOf(o) in Verdicts(cs, env)
    ensures forall v :: v in Verdicts(cs, env) ==> Occurs(Meanings(cs, env), v)
  {
    hide Meaning;
    var os := Meanings(cs, env);
    forall o | o in os
      ensures VerdictOf(o) in Verdicts(cs, env)
    {
      var i :| 0 <= i < |os| && os[i] == o;
      assert cs[i] in cs;
    }
    forall v | v in Verdicts(cs, env)
      ensures Occurs(os, v)
    {
      var c :| c in cs && VerdictOf(Meaning(c, env)) == v;
      var i :| 0 <= i < |cs| && cs[i] == c;
      assert os[i] in os;
    }
  }

  predicate Occurs(os: seq<Outcome>, v: Verdict) {
    exists o :: o in os && VerdictOf(o) == v
  }

  /** The verdict of a combination is a function of the set of its children's verdicts. So
      neither the order nor the repetition of children matters. */
  lemma CombinationIsLogic(op: Op, cs: seq<Condition>, env: Environment)
    ensures VerdictOf(Meaning(Compound(op, true, cs), env)) == Logic(op, Verdicts(cs, env))
  {
    VerdictsOccur(cs, env);
    hide Verdicts;
    assert Meaning(Compound(op, true, cs), env) == Combine(op, Meanings(cs, env));
  }

  /** Reordering the children keeps the verdict. */
  lemma OrderDoesNotMatter(op: Op, enabled: bool, cs: seq<Condition>, ds: seq<Condition>, env: Environment)
    requires multiset(cs) == multiset(ds)
    ensures VerdictOf(Meaning(Compound(op, enabled, cs), env)) == VerdictOf(Meaning(Compound(op, enabled, ds), env))
  {
    assert forall c :: c in cs <==> c in multiset(cs);
    assert forall c :: c in ds <==> c in multiset(ds);
    assert Verdicts(cs, env) == Verdicts(ds, env);
    CombinationIsLogic(op, cs, env);
    CombinationIsLogic(op, ds, env);
  }

  function Not1(c: Condition): Condition {
    Compound(NotOp, true, [c])
  }

  /** `not` of several conditions is the `and` of `not` of each. */
  lemma NotIsAndOfNots(cs: seq<Condition>, env: Environment)
    ensures VerdictOf(Meaning(Compound(NotOp, true, cs), env)) ==
            VerdictOf(Meaning(Compound(AndOp, true, seq(|cs|, i requires 0 <= i < |cs| => Not1(cs[i]))), env))
  {
    hide Combine;
    var ns := seq(|cs|, i requires 0 <= i < |cs| => Not1(cs[i]));
    CombinationIsLogic(NotOp, cs, env);
    CombinationIsLogic(AndOp, ns, env);
    forall c | c in cs
      ensures VerdictOf(Meaning(Not1(c), env)) == Logic(NotOp, {VerdictOf(Meaning(c, env))})
    {
      CombinationIsLogic(NotOp, [c], env);
      assert Verdicts([c], env) == {VerdictOf(Meaning(c, env))};
    }
    forall i | 0 <= i < |cs|
      ensures Not1(cs[i]) in ns && cs[i] in cs
    {
      assert ns[i] == Not1(cs[i]);
    }
    assert forall n :: n in ns ==> exists c :: c in cs && n == Not1(c);
  }

  function Negate(v: Verdict): Verdict {
    match v case Yes => No case No => Yes case Silent => Silent case Error => Error
  }

  /** `not` is the negation of `or`, errors included. */
  lemma NotIsNegatedOr(cs: seq<Condition>, env: Environment)
    ensures VerdictOf(Meaning(Compound(NotOp, true, cs), env)) ==
            Negate(VerdictOf(Meaning(Compound(OrOp, true, cs), env)))
  {
    CombinationIsLogic(NotOp, cs, env);
    CombinationIsLogic(OrOp, cs, env);
  }

  // -------------------------------------------------------------- disabled nodes

  /** The tree without the disabled nodes below its root, at any depth. */
  function Prune(c: Condition): Condition {
    match c
    case Leaf(_, _, _) => c
    case Compound(op, enabled, children) => Compound(op, enabled, PruneAll(children))
  }

  function PruneAll(cs: seq<Condition>): seq<Condition> {
    if cs == [] then []
    else
      var rest := PruneAll(cs[1..]);
      if cs[0].enabled then [Prune(cs[0])] + rest else rest
  }

  /** Deleting disabled nodes below the root never changes the verdict. */
  lemma {:induction false} PruningKeepsVerdict(c: Condition, env: Environment)
    ensures VerdictOf(Meaning(Prune(c), env)) == VerdictOf(Meaning(c, env))
    decreases c, 1
  {
    hide Combine, Verdicts;
    if c.Compound? {
      PruneAllVerdicts(c.children, env);
      CombinationIsLogic(c.op, c.children, env);
      CombinationIsLogic(c.op, PruneAll(c.children), env);
    }
  }

  lemma {:induction false} PruneAllVerdicts(cs: seq<Condition>, env: Environment)
    ensures Verdicts(PruneAll(cs), env) <= Verdicts(cs, env) <= Verdicts(PruneAll(cs), env) + {Silent}
    decreases cs, 0
  {
    if cs != [] {
      var rest := PruneAll(cs[1..]);
      PruneAllVerdicts(cs[1..], env);
      assert cs == [cs[0]] + cs[1..];
      assert Verdicts(cs, env) == {VerdictOf(Meaning(cs[0], env))} + Verdicts(cs[1..], env);
      if cs[0].enabled {
        PruningKeepsVerdict(cs[0], env);
        assert Verdicts([Prune(cs[0])] + rest, env) == {VerdictOf(Meaning(Prune(cs[0]), env))} + Verdicts(rest, env);
      }
    }
  }

  // ------------------------------------------------------- errors are conservative

  /** `e` agrees with `env` on every leaf that does not raise in `env`. */
  ghost predicate Settles(env: Environment, e: Environment) {
    forall id :: env(id).Raises? || e(id) == env(id)
  }

  /** A verdict that is not an error does not depend on the leaves that raised: whatever
      they had answered instead, the verdict would be the same. */
  lemma {:induction false} DefiniteVerdictIgnoresErrors(c: Condition, env: Environment, e: Environment)
    requires Settles(env, e)
    ensures VerdictOf(Meaning(c, env)) != Error ==> VerdictOf(Meaning(c, e)) == VerdictOf(Meaning(c, env))
    decreases c
  {
    hide Combine;
    if c.Compound? {
      forall d | d in c.children
        ensures VerdictOf(Meaning(d, env)) != Error ==> VerdictOf(Meaning(d, e)) == VerdictOf(Meaning(d, env))
      {
        DefiniteVerdictIgnoresErrors(d, env, e);
      }
      CombinationIsLogic(c.op, c.children, env);
      CombinationIsLogic(c.op, c.children, e);
    }
  }

  // ------------------------------------------------------------ entity extraction

  /** The entities named by the leaves of the trees, enabled or not. */
  function Entities(cs: seq<Condition>): set<string> {
    if cs == [] then {}
    else
      (match cs[0]
       case Leaf(_, _, ids) => set id | id in ids
       case Compound(_, _, children) => Entities(children))
      + Entities(cs[1..])
  }

  /** The leaf that is reached by going down to the child of each index names the entity. */
  predicate NamedAt(c: Condition, path: seq<nat>, e: string)
    decreases |path|
  {
    match c
    case Leaf(_, _, ids) => path == [] && e in ids
    case Compound(_, _, children) =>
      path != [] && path[0] < |children| && NamedAt(children[path[0]], path[1..], e)
  }

  ghost predicate Named(c: Condition, e: string) {
    exists path :: NamedAt(c, path, e)
  }

  lemma NamedBelow(c: Condition, e: string)
    requires c.Compound?
    ensures Named(c, e) <==> exists i :: 0 <= i < |c.children| && Named(c.children[i], e)
  {
    if Named(c, e) {
      var path :| NamedAt(c, path, e);
      assert NamedAt(c.children[path[0]], path[1..], e);
    }
    if i :| 0 <= i < |c.children| && Named(c.children[i], e) {
      var path :| NamedAt(c.children[i], path, e);
      assert ([i] + path)[1..] == path;
      assert NamedAt(c, [i] + path, e);
    }
  }

  /** They are exactly the entities that a leaf at some place in one of the trees names. */
  lemma {:induction false} EntitiesExact(cs: seq<Condition>, e: string)
    ensures e in Entities(cs) <==> exists i :: 0 <= i < |cs| && Named(cs[i], e)
    decreases cs
  {
    if cs != [] {
      EntitiesExact(cs[1..], e);
      HeadOrRest(cs, e);
      if cs[0].Compound? {
        NamedBelow(cs[0], e);
        EntitiesExact(cs[0].children, e);
      } else if e in cs[0].entityIds {
        assert NamedAt(cs[0], [], e);
      }
    }
  }

  lemma HeadOrRest(cs: seq<Condition>, e: string)
    requires cs != []
    ensures (exists i :: 0 <= i < |cs| && Named(cs[i], e))
       <==> Named(cs[0], e) || exists i :: 0 <= i < |cs[1..]| && Named(cs[1..][i], e)
  {
    if i :| 0 <= i < |cs[1..]| && Named(cs[1..][i], e) { assert cs[i + 1] == cs[1..][i]; }
    if i :| 0 <= i < |cs| && Named(cs[i], e) && i > 0 { assert cs[1..][i - 1] == cs[i]; }
  }

  function Size(cs: seq<Condition>): nat {
    if cs == [] then 0
    else
      1 + (match cs[0] case Leaf(_, _, _) => 0 case Compound(_, _, children) => Size(children)) + Size(cs[1..])
  }

  lemma {:induction false} WorklistAppend(cs: seq<Condition>, ds: seq<Condition>)
    ensures Entities(cs + ds) == Entities(cs) + Entities(ds)
    ensures Size(cs + ds) == Size(cs) + Size(ds)
    decreases |cs|
  {
    if cs == [] {
      assert cs + ds == ds;
    } else {
      assert (cs + ds)[1..] == cs[1..] + ds;
      WorklistAppend(cs[1..], ds);
    }
  }

  /** `async_extract_entities`: a worklist walk that finds exactly the entities of all leaves. */
  method ExtractEntities(config: Condition) returns (referenced: set<string>)
    ensures forall e :: e in referenced <==> Named(config, e)
  {
    forall e ensures e in Entities([config]) <==> Named(config, e) { EntitiesExact([config], e); }
    referenced := {};
    var toProcess := [config];
    while toProcess != []
      invariant referenced + Entities(toProcess) == Entities([config])
      decreases Size(toProcess)
    {
      var c, rest := toProcess[0], toProcess[1..];
      match c
      case Leaf(_, _, ids) =>
        referenced := referenced + set id | id in ids;
        toProcess := rest;
      case Compound(_, _, children) =>
        WorklistAppend(rest, children);
        toProcess := rest + children;
    }
  }
}
