/** Evaluating a reusable model's constraints one after the other, in some order that respects who needs
    whom. Formulas are abstract: a formula's value depends on the scope, and may be an error. */
module ModelEvaluation {
  import opened SysmlModel
  import opened EvaluationOrder

  type Scope = map<string, real>

  type Formulas = (string, Scope) -> Option<real>

  datatype Evaluation = Evaluation(scope: Scope, outputs: Scope, evaluated: seq<Id>, failed: Option<Id>)

  function Begin(inputs: Scope): Evaluation {
    Evaluation(inputs, map[], [], None)
  }

  function Evaluated(value: Formulas, c: ConstraintDef, e: Evaluation): Evaluation {
    var e := e.(evaluated := e.evaluated + [c.id]);
    match value(c.formula, e.scope)
    case None => e.(failed := Some(c.id))
    case Some(v) =>
      if c.produces.None? then e
      else e.(scope := e.scope[c.produces.value := v], outputs := e.outputs[c.produces.value := v])
  }

  /** The outcome of evaluating in an order; an error ends it. */
  function EvaluateAll(value: Formulas, cs: seq<ConstraintDef>, order: seq<nat>, inputs: Scope): Evaluation
    requires forall k :: 0 <= k < |order| ==> order[k] < |cs|
  {
    if order == [] then Begin(inputs)
    else
      var e := EvaluateAll(value, cs, order[..|order| - 1], inputs);
      if e.failed.Some? then e else Evaluated(value, cs[order[|order| - 1]], e)
  }

  method EvaluateModel(value: Formulas, cs: seq<ConstraintDef>, inputs: Scope) returns (r: Option<Evaluation>)
    ensures r.None? <==> Circular(cs)
    ensures r.Some? ==> exists order :: Topological(cs, order) && r.value == EvaluateAll(value, cs, order, inputs)
  {
    hide Circular, NeedsFirst, NoRepeats;
    var order := TopologicalOrder(cs);
    if order.None? {
      return None;
    }
    var e := Begin(inputs);
    for k := 0 to |order.value|
      invariant e == EvaluateAll(value, cs, order.value[..k], inputs) && e.failed.None?
    {
      assert order.value[..k + 1][..k] == order.value[..k];
      var c := cs[order.value[k]];
      var result := value(c.formula, e.scope);
      e := e.(evaluated := e.evaluated + [c.id]);
      if result.None? {
        e := e.(failed := Some(c.id));
        StaysFailed(value, cs, order.value, inputs, k + 1);
        return Some(e);
      }
      if c.produces.Some? {
        e := e.(scope := e.scope[c.produces.value := result.value],
                outputs := e.outputs[c.produces.value := result.value]);
      }
    }
    assert order.value[..|order.value|] == order.value;
    return Some(e);
  }

  lemma {:induction false} StaysFailed(value: Formulas, cs: seq<ConstraintDef>, order: seq<nat>, inputs: Scope, k: nat)
    requires k <= |order| && forall i :: 0 <= i < |order| ==> order[i] < |cs|
    requires EvaluateAll(value, cs, order[..k], inputs).failed.Some?
    ensures EvaluateAll(value, cs, order, inputs) == EvaluateAll(value, cs, order[..k], inputs)
  {
    if k < |order| {
      var init := order[..|order| - 1];
      assert init[..k] == order[..k];
      StaysFailed(value, cs, init, inputs, k);
    } else {
      assert order[..k] == order;
    }
  }

  // ----- What the evaluation computes -----

  /** No symbol has two producers. */
  ghost predicate OneProducer(cs: seq<ConstraintDef>) {
    forall i, j :: 0 <= i < j < |cs| && cs[i].produces.Some? ==> cs[i].produces != cs[j].produces
  }

  predicate SameAt(s: Scope, t: Scope, symbol: string) {
    if symbol in s then symbol in t && s[symbol] == t[symbol] else symbol !in t
  }

  ghost predicate SameOn(s: Scope, t: Scope, symbols: seq<string>) {
    forall u :: u in symbols ==> SameAt(s, t, u)
  }

  /** A constraint's formula reads only the symbols the constraint declares it uses. */
  ghost predicate ReadsOnlyUses(value: Formulas, cs: seq<ConstraintDef>) {
    forall i, s, t :: 0 <= i < |cs| && SameOn(s, t, cs[i].uses) ==> value(cs[i].formula, s) == value(cs[i].formula, t)
  }

  function Own(c: ConstraintDef): set<string> {
    if c.produces.Some? then {c.produces.value} else {}
  }

  /** What a constraint sees: the inputs and every other constraint's output. */
  function View(c: ConstraintDef, inputs: Scope, outputs: Scope): Scope {
    inputs + (outputs - Own(c))
  }

  /** These outputs satisfy this constraint: its formula has a value on what it sees, and that is its output. */
  predicate Holds(value: Formulas, c: ConstraintDef, inputs: Scope, outputs: Scope) {
    var v := value(c.formula, View(c, inputs, outputs));
    v.Some? && (c.produces.Some? ==> c.produces.value in outputs && outputs[c.produces.value] == v.value)
  }

  function Products(cs: seq<ConstraintDef>): set<string> {
    set c | c in cs && c.produces.Some? :: c.produces.value
  }

  ghost predicate Solution(value: Formulas, cs: seq<ConstraintDef>, inputs: Scope, outputs: Scope) {
    outputs.Keys == Products(cs) && forall i :: 0 <= i < |cs| ==> Holds(value, cs[i], inputs, outputs)
  }

  /** The symbols produced by the constraints of a partial order. */
  function ProductsOf(cs: seq<ConstraintDef>, order: seq<nat>): set<string>
    requires forall k :: 0 <= k < |order| ==> order[k] < |cs|
  {
    set i | i in order && cs[i].produces.Some? :: cs[i].produces.value
  }

  lemma TheProducer(cs: seq<ConstraintDef>, i: nat)
    requires OneProducer(cs) && i < |cs| && cs[i].produces.Some?
    ensures cs[i].produces.value in ProducedBy(cs) && ProducedBy(cs)[cs[i].produces.value] == i
  {
  }

  lemma {:induction false} UsesAreNeeds(producedBy: map<string, nat>, i: nat, uses: seq<string>, u: string)
    requires u in uses && u in producedBy && producedBy[u] != i
    ensures producedBy[u] in Needs(producedBy, i, uses)
  {
    if u != uses[|uses| - 1] {
      UsesAreNeeds(producedBy, i, uses[..|uses| - 1], u);
    }
  }

  /** Using another constraint's product means being fed by it. */
  lemma UsingIsNeeding(cs: seq<ConstraintDef>, i: nat, j: nat)
    requires OneProducer(cs) && i < |cs| && j < |cs| && i != j
    requires cs[j].produces.Some? && cs[j].produces.value in cs[i].uses
    ensures Feeds(cs, j, i)
  {
    TheProducer(cs, j);
    UsesAreNeeds(ProducedBy(cs), i, cs[i].uses, cs[j].produces.value);
  }

  lemma ProductsOneMore(cs: seq<ConstraintDef>, order: seq<nat>, k: nat)
    requires k < |order| && forall i :: 0 <= i < |order| ==> order[i] < |cs|
    ensures ProductsOf(cs, order[..k + 1]) == ProductsOf(cs, order[..k]) + Own(cs[order[k]])
  {
    assert order[..k + 1] == order[..k] + [order[k]];
  }

  lemma OwnIsNew(cs: seq<ConstraintDef>, order: seq<nat>, k: nat)
    requires Topological(cs, order) && OneProducer(cs) && k < |order|
    ensures Own(cs[order[k]]) !! ProductsOf(cs, order[..k])
  {
    hide NeedsFirst;
    forall j | 0 <= j < k
      ensures Own(cs[order[k]]) !! Own(cs[order[j]])
    {
      assert order[j] != order[k];
    }
    forall i | i in order[..k]
      ensures exists j :: 0 <= j < k && order[j] == i
    {
      var j :| 0 <= j < k && order[..k][j] == i;
    }
  }

  lemma EvaluatedOneMore(value: Formulas, cs: seq<ConstraintDef>, order: seq<nat>, inputs: Scope, k: nat)
    requires k < |order| && forall i :: 0 <= i < |order| ==> order[i] < |cs|
    ensures var e := EvaluateAll(value, cs, order[..k], inputs);
            EvaluateAll(value, cs, order[..k + 1], inputs) == if e.failed.Some? then e
              else Evaluated(value, cs[order[k]], e)
  {
    assert order[..k + 1][..k] == order[..k];
  }

  /** The outputs so far: those of the constraints evaluated, each of which they satisfy. */
  ghost predicate Sofar(value: Formulas, cs: seq<ConstraintDef>, order: seq<nat>, inputs: Scope, k: nat, e: Evaluation)
    requires k <= |order| && forall i :: 0 <= i < |order| ==> order[i] < |cs|
  {
    && e.outputs.Keys == ProductsOf(cs, order[..k])
    && e.scope == inputs + e.outputs
    && forall j :: 0 <= j < k ==> Holds(value, cs[order[j]], inputs, e.outputs)
  }

  /** An output that arrives later changes nothing for a constraint evaluated before. */
  lemma LaterOutput(value: Formulas, cs: seq<ConstraintDef>, order: seq<nat>, inputs: Scope, outputs: Scope, j: nat,
                    k: nat, v: real)
    requires Topological(cs, order) && OneProducer(cs) && ReadsOnlyUses(value, cs)
    requires j < k < |order| && cs[order[k]].produces.Some? && Holds(value, cs[order[j]], inputs, outputs)
    ensures Holds(value, cs[order[j]], inputs, outputs[cs[order[k]].produces.value := v])
  {
    hide NeedsFirst, Feeds;
    var c, s := cs[order[j]], cs[order[k]].produces.value;
    var later := outputs[s := v];
    NotUsedBefore(cs, order, j, k);
    forall u | u in c.uses
      ensures SameAt(View(c, inputs, outputs), View(c, inputs, later), u)
    {
    }
    assert SameOn(View(c, inputs, outputs), View(c, inputs, later), c.uses);
    assert order[j] != order[k];
  }

  lemma NotUsedBefore(cs: seq<ConstraintDef>, order: seq<nat>, j: nat, k: nat)
    requires Topological(cs, order) && OneProducer(cs) && j < k < |order| && cs[order[k]].produces.Some?
    ensures cs[order[k]].produces.value !in cs[order[j]].uses
  {
    hide Feeds, Circular;
    forall i | 0 <= i <= j
      ensures order[i] != order[k]
    {
    }
    assert order[k] !in order[..j];
    if cs[order[k]].produces.value in cs[order[j]].uses {
      UsingIsNeeding(cs, order[j], order[k]);
    }
  }

  lemma NextHolds(value: Formulas, cs: seq<ConstraintDef>, order: seq<nat>, inputs: Scope, k: nat, e: Evaluation)
    requires Topological(cs, order) && OneProducer(cs) && ReadsOnlyUses(value, cs) && k < |order|
    requires Sofar(value, cs, order, inputs, k, e) && value(cs[order[k]].formula, e.scope).Some?
    ensures Sofar(value, cs, order, inputs, k + 1, Evaluated(value, cs[order[k]], e))
  {
    hide NeedsFirst, ProductsOf, ReadsOnlyUses, OneProducer, NoRepeats;
    var c := cs[order[k]];
    var after := Evaluated(value, c, e);
    ProductsOneMore(cs, order, k);
    OwnIsNew(cs, order, k);
    assert View(c, inputs, after.outputs) == e.scope;
    forall j | 0 <= j < k
      ensures Holds(value, cs[order[j]], inputs, after.outputs)
    {
      if c.produces.Some? {
        LaterOutput(value, cs, order, inputs, e.outputs, j, k, after.outputs[c.produces.value]);
        assert after.outputs == e.outputs[c.produces.value := after.outputs[c.produces.value]];
      }
    }
  }

  lemma {:induction false} EvaluationHolds(value: Formulas, cs: seq<ConstraintDef>, order: seq<nat>, inputs: Scope,
                                           k: nat)
    requires Topological(cs, order) && OneProducer(cs) && ReadsOnlyUses(value, cs) && k <= |order|
    ensures var e := EvaluateAll(value, cs, order[..k], inputs);
            e.failed.None? ==> Sofar(value, cs, order, inputs, k, e)
    decreases k
  {
    hide NeedsFirst, ReadsOnlyUses, OneProducer, NoRepeats, Sofar;
    if k == 0 {
      NothingEvaluated(value, cs, order, inputs);
    } else {
      EvaluationHolds(value, cs, order, inputs, k - 1);
      EvaluatedOneMore(value, cs, order, inputs, k - 1);
      var e := EvaluateAll(value, cs, order[..k - 1], inputs);
      if e.failed.None? && value(cs[order[k - 1]].formula, e.scope).Some? {
        NextHolds(value, cs, order, inputs, k - 1, e);
      }
    }
  }

  lemma NothingEvaluated(value: Formulas, cs: seq<ConstraintDef>, order: seq<nat>, inputs: Scope)
    requires forall i :: 0 <= i < |order| ==> order[i] < |cs|
    ensures order[..0] == [] && EvaluateAll(value, cs, [], inputs) == Begin(inputs)
    ensures Sofar(value, cs, order, inputs, 0, Begin(inputs))
  {
    assert inputs + map[] == inputs;
  }

  /** Every constraint is in the order, so all products are produced. */
  lemma WholeOrder(cs: seq<ConstraintDef>, order: seq<nat>)
    requires Topological(cs, order)
    ensures order[..|order|] == order && ProductsOf(cs, order) == Products(cs)
    ensures forall i :: 0 <= i < |cs| ==> i in order
  {
    hide NeedsFirst;
    forall i | 0 <= i < |cs|
      ensures i in order
    {
      CoversAll(order, |cs|, i);
    }
    forall s | s in Products(cs)
      ensures s in ProductsOf(cs, order)
    {
      var c :| c in cs && c.produces == Some(s);
      var i :| 0 <= i < |cs| && cs[i] == c;
      assert i in order;
    }
  }

  /** An evaluation without error solves the constraints as equations. */
  lemma EvaluationSolves(value: Formulas, cs: seq<ConstraintDef>, order: seq<nat>, inputs: Scope)
    requires Topological(cs, order) && OneProducer(cs) && ReadsOnlyUses(value, cs)
    requires EvaluateAll(value, cs, order, inputs).failed.None?
    ensures var e := EvaluateAll(value, cs, order, inputs);
            Solution(value, cs, inputs, e.outputs) && e.scope == inputs + e.outputs
  {
    hide NeedsFirst, ReadsOnlyUses, OneProducer, NoRepeats, Holds, Products, ProductsOf;
    WholeOrder(cs, order);
    EvaluationHolds(value, cs, order, inputs, |order|);
    var e := EvaluateAll(value, cs, order, inputs);
    forall i | 0 <= i < |cs|
      ensures Holds(value, cs[i], inputs, e.outputs)
    {
      assert i in order;
      var j :| 0 <= j < |order| && order[j] == i;
    }
  }

  // ----- Order does not matter -----

  ghost predicate Tracks(cs: seq<ConstraintDef>, order: seq<nat>, inputs: Scope, solution: Scope, k: nat, e: Evaluation)
    requires k <= |order| && forall i :: 0 <= i < |order| ==> order[i] < |cs|
  {
    && e.failed.None?
    && e.outputs.Keys == ProductsOf(cs, order[..k])
    && e.scope == inputs + e.outputs
    && forall s :: s in e.outputs ==> s in solution && e.outputs[s] == solution[s]
  }

  /** What a constraint uses of the solution has been produced when its turn comes. */
  lemma UsedIsProduced(cs: seq<ConstraintDef>, order: seq<nat>, k: nat, u: string)
    requires Topological(cs, order) && OneProducer(cs) && k < |order|
    requires u in cs[order[k]].uses && u in Products(cs) && u !in Own(cs[order[k]])
    ensures u in ProductsOf(cs, order[..k])
  {
    hide Feeds, OneProducer, NoRepeats;
    var p :| p in cs && p.produces == Some(u);
    var j :| 0 <= j < |cs| && cs[j] == p;
    UsingIsNeeding(cs, order[k], j);
    assert j in order[..k];
  }

  lemma EarlierAreProducts(cs: seq<ConstraintDef>, order: seq<nat>, k: nat)
    requires k <= |order| && forall i :: 0 <= i < |order| ==> order[i] < |cs|
    ensures ProductsOf(cs, order[..k]) <= Products(cs)
  {
  }

  /** A constraint reads from the scope, when its turn comes, what it sees of the solution. */
  lemma ScopeShowsSolution(cs: seq<ConstraintDef>, order: seq<nat>, inputs: Scope, solution: Scope, k: nat,
                           e: Evaluation)
    requires Topological(cs, order) && OneProducer(cs) && k < |order|
    requires Tracks(cs, order, inputs, solution, k, e) && solution.Keys == Products(cs)
    ensures SameOn(e.scope, View(cs[order[k]], inputs, solution), cs[order[k]].uses)
  {
    hide NeedsFirst, NoRepeats, OneProducer, ProductsOf, Products, Own;
    var c := cs[order[k]];
    OwnIsNew(cs, order, k);
    EarlierAreProducts(cs, order, k);
    forall u | u in c.uses
      ensures SameAt(e.scope, View(c, inputs, solution), u)
    {
      if u in solution && u !in Own(c) {
        UsedIsProduced(cs, order, k, u);
      }
    }
  }

  lemma TracksOneMore(value: Formulas, cs: seq<ConstraintDef>, order: seq<nat>, inputs: Scope, solution: Scope, k: nat,
                      e: Evaluation)
    requires k < |order| && forall i :: 0 <= i < |order| ==> order[i] < |cs|
    requires Tracks(cs, order, inputs, solution, k, e) && Holds(value, cs[order[k]], inputs, solution)
    requires value(cs[order[k]].formula, e.scope) == value(cs[order[k]].formula, View(cs[order[k]], inputs, solution))
    ensures Tracks(cs, order, inputs, solution, k + 1, Evaluated(value, cs[order[k]], e))
  {
    hide ProductsOf, View;
    var c := cs[order[k]];
    var after := Evaluated(value, c, e);
    ProductsOneMore(cs, order, k);
    assert inputs + after.outputs == after.scope;
  }

  lemma {:induction false} EvaluationTracks(value: Formulas, cs: seq<ConstraintDef>, order: seq<nat>, inputs: Scope,
                                            solution: Scope, k: nat)
    requires Topological(cs, order) && OneProducer(cs) && ReadsOnlyUses(value, cs) && k <= |order|
    requires Solution(value, cs, inputs, solution)
    ensures Tracks(cs, order, inputs, solution, k, EvaluateAll(value, cs, order[..k], inputs))
    decreases k
  {
    hide NeedsFirst, OneProducer, NoRepeats, ProductsOf, Products, Tracks, Holds, SameOn, Evaluated, EvaluateAll, View;
    if k == 0 {
      NothingEvaluated(value, cs, order, inputs);
      StartTracks(value, cs, order, inputs, solution);
    } else {
      EvaluationTracks(value, cs, order, inputs, solution, k - 1);
      EvaluatedOneMore(value, cs, order, inputs, k - 1);
      var e, i := EvaluateAll(value, cs, order[..k - 1], inputs), order[k - 1];
      ScopeShowsSolution(cs, order, inputs, solution, k - 1, e);
      TracksOneMore(value, cs, order, inputs, solution, k - 1, e);
      HasNotFailed(cs, order, inputs, solution, k - 1, e);
    }
  }

  lemma HasNotFailed(cs: seq<ConstraintDef>, order: seq<nat>, inputs: Scope, solution: Scope, k: nat, e: Evaluation)
    requires k <= |order| && forall i :: 0 <= i < |order| ==> order[i] < |cs|
    requires Tracks(cs, order, inputs, solution, k, e)
    ensures e.failed.None?
  {
  }

  lemma StartTracks(value: Formulas, cs: seq<ConstraintDef>, order: seq<nat>, inputs: Scope, solution: Scope)
    requires forall i :: 0 <= i < |order| ==> order[i] < |cs|
    ensures Tracks(cs, order, inputs, solution, 0, Begin(inputs))
  {
    assert order[..0] == [];
    assert inputs + map[] == inputs;
  }

  /** Evaluation finds the solution whenever there is one, whatever the order. */
  lemma SolutionIsFound(value: Formulas, cs: seq<ConstraintDef>, order: seq<nat>, inputs: Scope, solution: Scope)
    requires Topological(cs, order) && OneProducer(cs) && ReadsOnlyUses(value, cs)
    requires Solution(value, cs, inputs, solution)
    ensures var e := EvaluateAll(value, cs, order, inputs);
            e.failed.None? && e.outputs == solution
  {
    hide NeedsFirst, ReadsOnlyUses, OneProducer, NoRepeats, Holds, Products, ProductsOf;
    WholeOrder(cs, order);
    EvaluationTracks(value, cs, order, inputs, solution, |order|);
  }

  // ----- Neither does the order of the list -----

  lemma SameConstraints(cs: seq<ConstraintDef>, ds: seq<ConstraintDef>)
    requires multiset(cs) == multiset(ds)
    ensures |cs| == |ds| && forall c :: c in cs <==> c in ds
  {
    assert |multiset(cs)| == |multiset(ds)|;
    forall c
      ensures c in cs <==> c in ds
    {
      assert (c in cs <==> c in multiset(cs)) && (c in ds <==> c in multiset(ds));
    }
  }

  lemma OccursTwice(cs: seq<ConstraintDef>, i: nat, j: nat)
    requires i < j < |cs| && cs[i] == cs[j]
    ensures multiset(cs)[cs[i]] >= 2
  {
    var c := cs[i];
    assert cs == cs[..j] + [c] + cs[j + 1..];
    assert cs[..j][i] in cs[..j];
  }

  lemma TwoPlaces(cs: seq<ConstraintDef>, c: ConstraintDef) returns (i: nat, j: nat)
    requires multiset(cs)[c] >= 2
    ensures i < j < |cs| && cs[i] == cs[j] == c
  {
    assert c in multiset(cs);
    var k :| 0 <= k < |cs| && cs[k] == c;
    var rest := cs[..k] + cs[k + 1..];
    assert cs == cs[..k] + [c] + cs[k + 1..];
    assert multiset(rest)[c] >= 1;
    var l :| 0 <= l < |rest| && rest[l] == c;
    if l < k {
      i, j := l, k;
    } else {
      i, j := k, l + 1;
    }
  }

  lemma OneProducerRelisted(cs: seq<ConstraintDef>, ds: seq<ConstraintDef>)
    requires multiset(cs) == multiset(ds) && OneProducer(cs)
    ensures OneProducer(ds)
  {
    SameConstraints(cs, ds);
    forall i, j | 0 <= i < j < |ds| && ds[i].produces.Some?
      ensures ds[i].produces != ds[j].produces
    {
      if ds[i] == ds[j] {
        OccursTwice(ds, i, j);
        var k, l := TwoPlaces(cs, ds[i]);
      } else {
        assert ds[i] in ds && ds[j] in ds;
        var k :| 0 <= k < |cs| && cs[k] == ds[i];
        var l :| 0 <= l < |cs| && cs[l] == ds[j];
      }
    }
  }

  lemma ReadsRelisted(value: Formulas, cs: seq<ConstraintDef>, ds: seq<ConstraintDef>)
    requires multiset(cs) == multiset(ds) && ReadsOnlyUses(value, cs)
    ensures ReadsOnlyUses(value, ds)
  {
    SameConstraints(cs, ds);
    forall i, s, t | 0 <= i < |ds| && SameOn(s, t, ds[i].uses)
      ensures value(ds[i].formula, s) == value(ds[i].formula, t)
    {
      assert ds[i] in ds;
      var k :| 0 <= k < |cs| && cs[k] == ds[i];
    }
  }

  lemma SolutionRelisted(value: Formulas, cs: seq<ConstraintDef>, ds: seq<ConstraintDef>, inputs: Scope, outputs: Scope)
    requires multiset(cs) == multiset(ds) && Solution(value, cs, inputs, outputs)
    ensures Solution(value, ds, inputs, outputs)
  {
    hide Holds;
    SameConstraints(cs, ds);
    assert Products(cs) == Products(ds);
    forall i | 0 <= i < |ds|
      ensures Holds(value, ds[i], inputs, outputs)
    {
      assert ds[i] in ds;
      var k :| 0 <= k < |cs| && cs[k] == ds[i];
    }
  }

  /** What one order of one listing computes, every order of every listing does. */
  lemma SuccessIsFound(value: Formulas, cs: seq<ConstraintDef>, ds: seq<ConstraintDef>, one: seq<nat>, other: seq<nat>,
                       inputs: Scope)
    requires multiset(cs) == multiset(ds) && OneProducer(cs) && ReadsOnlyUses(value, cs)
    requires Topological(cs, one) && Topological(ds, other)
    requires EvaluateAll(value, cs, one, inputs).failed.None?
    ensures var e, f := EvaluateAll(value, cs, one, inputs), EvaluateAll(value, ds, other, inputs);
            f.failed.None? && e.outputs == f.outputs && e.scope == f.scope
  {
    hide Topological, ReadsOnlyUses, OneProducer, Solution, EvaluateAll;
    InRange(cs, one);
    InRange(ds, other);
    OneProducerRelisted(cs, ds);
    ReadsRelisted(value, cs, ds);
    EvaluationSolves(value, cs, one, inputs);
    var outputs := EvaluateAll(value, cs, one, inputs).outputs;
    SolutionRelisted(value, cs, ds, inputs, outputs);
    SolutionIsFound(value, ds, other, inputs, outputs);
    EvaluationSolves(value, ds, other, inputs);
  }

  /** Any two orders of any two listings of the same constraints give the same outcome: no error with the same
      outputs and scope, or an error in both. */
  lemma EvaluationIsConfluent(value: Formulas, cs: seq<ConstraintDef>, ds: seq<ConstraintDef>, one: seq<nat>,
                              other: seq<nat>, inputs: Scope)
    requires multiset(cs) == multiset(ds) && OneProducer(cs) && ReadsOnlyUses(value, cs)
    requires Topological(cs, one) && Topological(ds, other)
    ensures var e, f := EvaluateAll(value, cs, one, inputs), EvaluateAll(value, ds, other, inputs);
            && (e.failed.None? <==> f.failed.None?)
            && (e.failed.None? ==> e.outputs == f.outputs && e.scope == f.scope)
  {
    hide Topological, ReadsOnlyUses, OneProducer, EvaluateAll;
    InRange(cs, one);
    InRange(ds, other);
    OneProducerRelisted(cs, ds);
    ReadsRelisted(value, cs, ds);
    if EvaluateAll(value, cs, one, inputs).failed.None? {
      SuccessIsFound(value, cs, ds, one, other, inputs);
    }
    if EvaluateAll(value, ds, other, inputs).failed.None? {
      SuccessIsFound(value, ds, cs, other, one, inputs);
    }
  }

  lemma {:induction false} NeedIsUsed(producedBy: map<string, nat>, i: nat, uses: seq<string>, j: nat)
    requires j in Needs(producedBy, i, uses)
    ensures j != i && exists u :: u in uses && u in producedBy && producedBy[u] == j
  {
    var u := uses[|uses| - 1];
    if !(u in producedBy && producedBy[u] == j && j != i) {
      NeedIsUsed(producedBy, i, uses[..|uses| - 1], j);
    }
  }

  /** Who needs whom is the same in every listing. */
  lemma FeedsRelisted(cs: seq<ConstraintDef>, ds: seq<ConstraintDef>, j: nat, i: nat, l: nat, k: nat)
    requires OneProducer(cs) && OneProducer(ds) && Feeds(cs, j, i)
    requires j < |cs| && l < |ds| && k < |ds| && ds[l] == cs[j] && ds[k] == cs[i]
    ensures Feeds(ds, l, k)
  {
    hide Needs;
    NeedIsUsed(ProducedBy(cs), i, cs[i].uses, j);
    UsingIsNeeding(ds, k, l);
  }

  ghost function IndexIn(cs: seq<ConstraintDef>, c: ConstraintDef): (i: nat)
    requires c in cs
    ensures i < |cs| && cs[i] == c
  {
    var i :| 0 <= i < |cs| && cs[i] == c;
    i
  }

  lemma CircleStays(cs: seq<ConstraintDef>, ds: seq<ConstraintDef>)
    requires multiset(cs) == multiset(ds) && OneProducer(cs) && Circular(cs)
    ensures Circular(ds)
  {
    hide Feeds, OneProducer;
    SameConstraints(cs, ds);
    OneProducerRelisted(cs, ds);
    var walk :| Round(cs, walk);
    forall k | 0 <= k < |walk|
      ensures walk[k] < |cs|
    {
      RoundInRange(cs, walk, k);
      assert walk[k] < |cs| ==> cs[walk[k]] in cs;
    }
    var there := seq(|walk|, k requires 0 <= k < |walk| => IndexIn(ds, cs[walk[k]]));
    forall k | 0 <= k < |there| - 1
      ensures Feeds(ds, there[k], there[k + 1])
    {
      FeedsRelisted(cs, ds, walk[k], walk[k + 1], there[k], there[k + 1]);
    }
    assert Round(ds, there);
  }

  lemma RoundInRange(cs: seq<ConstraintDef>, walk: seq<nat>, k: nat)
    requires Round(cs, walk) && k < |walk|
    ensures walk[k] < |cs|
  {
    if k > 0 {
      assert Feeds(cs, walk[k - 1], walk[k - 1 + 1]);
    } else {
      var last := |walk| - 2;
      assert Feeds(cs, walk[last], walk[last + 1]);
    }
  }

  /** Nor does the refusal of circular constraints depend on how they are listed. */
  lemma CircularIsConfluent(cs: seq<ConstraintDef>, ds: seq<ConstraintDef>)
    requires multiset(cs) == multiset(ds) && OneProducer(cs)
    ensures Circular(cs) <==> Circular(ds)
  {
    hide Circular, OneProducer;
    OneProducerRelisted(cs, ds);
    if Circular(cs) {
      CircleStays(cs, ds);
    }
    if Circular(ds) {
      CircleStays(ds, cs);
    }
  }

  lemma InRange(cs: seq<ConstraintDef>, order: seq<nat>)
    requires Topological(cs, order)
    ensures forall k :: 0 <= k < |order| ==> order[k] < |cs|
  {
  }

  /** Where no constraint uses its own product, the final scope satisfies every equation as it stands. */
  lemma FinalScopeSolves(value: Formulas, cs: seq<ConstraintDef>, order: seq<nat>, inputs: Scope, i: nat)
    requires Topological(cs, order) && OneProducer(cs) && ReadsOnlyUses(value, cs)
    requires EvaluateAll(value, cs, order, inputs).failed.None?
    requires i < |cs| && (cs[i].produces.Some? ==> cs[i].produces.value !in cs[i].uses)
    ensures var e := EvaluateAll(value, cs, order, inputs);
            var v := value(cs[i].formula, e.scope);
            v.Some? && (cs[i].produces.Some? ==>
                        cs[i].produces.value in e.scope && e.scope[cs[i].produces.value] == v.value)
  {
    hide Topological, OneProducer, EvaluateAll, Products;
    InRange(cs, order);
    EvaluationSolves(value, cs, order, inputs);
    var e := EvaluateAll(value, cs, order, inputs);
    assert Holds(value, cs[i], inputs, e.outputs);
    assert SameOn(View(cs[i], inputs, e.outputs), e.scope, cs[i].uses);
  }

  /** There is no error exactly when the equations have a solution, and then it is the only one. */
  lemma SucceedsIffSolvable(value: Formulas, cs: seq<ConstraintDef>, order: seq<nat>, inputs: Scope)
    requires Topological(cs, order) && OneProducer(cs) && ReadsOnlyUses(value, cs)
    ensures var e := EvaluateAll(value, cs, order, inputs);
            && (e.failed.None? <==> exists solution :: Solution(value, cs, inputs, solution))
            && (forall solution :: Solution(value, cs, inputs, solution) ==> solution == e.outputs)
  {
    hide Topological, ReadsOnlyUses, OneProducer, Solution, EvaluateAll;
    InRange(cs, order);
    if EvaluateAll(value, cs, order, inputs).failed.None? {
      EvaluationSolves(value, cs, order, inputs);
    }
    forall solution | Solution(value, cs, inputs, solution)
      ensures EvaluateAll(value, cs, order, inputs).failed.None? &&
              solution == EvaluateAll(value, cs, order, inputs).outputs
    {
      SolutionIsFound(value, cs, order, inputs, solution);
    }
  }

  // ----- What does depend on the order -----

  /** Two constraints that use nothing may be evaluated either way round. */
  lemma EitherWayRound(one: ConstraintDef, two: ConstraintDef)
    requires one.uses == [] && two.uses == []
    ensures Topological([one, two], [0, 1]) && Topological([one, two], [1, 0])
  {
    var cs := [one, two];
    assert NeedsOf(cs, 0) == [] && NeedsOf(cs, 1) == [];
  }

  lemma OneThenOther(value: Formulas, cs: seq<ConstraintDef>, i: nat, j: nat)
    requires i < |cs| && j < |cs|
    ensures var first := Evaluated(value, cs[i], Begin(map[]));
            EvaluateAll(value, cs, [i, j], map[]) == if first.failed.Some? then first
              else Evaluated(value, cs[j], first)
  {
    hide Evaluated;
    EvaluatedOneMore(value, cs, [i, j], map[], 0);
    EvaluatedOneMore(value, cs, [i, j], map[], 1);
    assert [i, j][..0] == [] && [i, j][..2] == [i, j];
  }

  /** What an evaluation that fails has already computed depends on the order. */
  lemma FailuresDependOnOrder()
    ensures var one, two := ConstraintDef("a", "1", [], Some("x")), ConstraintDef("b", "bad", [], None);
            var value: Formulas := (formula, scope) => if formula == "1" then Some(1.0) else None;
            && Topological([one, two], [0, 1]) && Topological([one, two], [1, 0])
            && EvaluateAll(value, [one, two], [0, 1], map[]).outputs !=
               EvaluateAll(value, [one, two], [1, 0], map[]).outputs
  {
    hide Topological, EvaluateAll;
    var one, two := ConstraintDef("a", "1", [], Some("x")), ConstraintDef("b", "bad", [], None);
    var value: Formulas := (formula, scope) => if formula == "1" then Some(1.0) else None;
    EitherWayRound(one, two);
    OneThenOther(value, [one, two], 0, 1);
    OneThenOther(value, [one, two], 1, 0);
    assert "x" in Evaluated(value, one, Begin(map[])).outputs;
    InRange([one, two], [0, 1]);
    InRange([one, two], [1, 0]);
  }

  /** Nor do all orders agree where a symbol has two producers. */
  lemma TwoProducersDependOnOrder()
    ensures var one, two := ConstraintDef("a", "1", [], Some("x")), ConstraintDef("b", "2", [], Some("x"));
            var value: Formulas := (formula, scope) => if formula == "1" then Some(1.0) else Some(2.0);
            && Topological([one, two], [0, 1]) && Topological([one, two], [1, 0])
            && EvaluateAll(value, [one, two], [0, 1], map[]).outputs !=
               EvaluateAll(value, [one, two], [1, 0], map[]).outputs
  {
    hide Topological, EvaluateAll;
    var one, two := ConstraintDef("a", "1", [], Some("x")), ConstraintDef("b", "2", [], Some("x"));
    var value: Formulas := (formula, scope) => if formula == "1" then Some(1.0) else Some(2.0);
    EitherWayRound(one, two);
    OneThenOther(value, [one, two], 0, 1);
    OneThenOther(value, [one, two], 1, 0);
    InRange([one, two], [0, 1]);
    InRange([one, two], [1, 0]);
    assert EvaluateAll(value, [one, two], [0, 1], map[]).outputs["x"] == 2.0;
    assert EvaluateAll(value, [one, two], [1, 0], map[]).outputs["x"] == 1.0;
  }
}
