/** What the evaluation order and the evaluation's record come to, told on the listed constraints alone. */
module EvaluationLaws {
  import opened SysmlModel
  import opened EvaluationOrder
  import opened ModelEvaluation

  /** The last constraint listed as producing a symbol. */
  ghost predicate LastToProduce(cs: seq<ConstraintDef>, symbol: string, j: nat) {
    && j < |cs| && cs[j].produces == Some(symbol)
    && forall k :: j < k < |cs| ==> cs[k].produces != Some(symbol)
  }

  lemma LastOneMore(cs: seq<ConstraintDef>, symbol: string, j: nat)
    requires cs != []
    ensures var last := |cs| - 1;
            LastToProduce(cs, symbol, j) <==>
            if cs[last].produces == Some(symbol) then j == last else LastToProduce(cs[..last], symbol, j)
  {
    var last := |cs| - 1;
    if LastToProduce(cs[..last], symbol, j) && cs[last].produces != Some(symbol) {
      forall k | j < k < |cs|
        ensures cs[k].produces != Some(symbol)
      {
        assert k < last ==> cs[..last][k] == cs[k];
      }
    }
  }

  lemma {:induction false} ProducerIs(cs: seq<ConstraintDef>, symbol: string, j: nat)
    ensures symbol in ProducedBy(cs) && ProducedBy(cs)[symbol] == j <==> LastToProduce(cs, symbol, j)
  {
    if cs == [] {
      assert !LastToProduce(cs, symbol, j);
    } else {
      hide LastToProduce;
      ProducerIs(cs[..|cs| - 1], symbol, j);
      LastOneMore(cs, symbol, j);
    }
  }

  lemma {:induction false} NeedIff(producedBy: map<string, nat>, i: nat, uses: seq<string>, j: nat)
    ensures j in Needs(producedBy, i, uses) <==>
            j != i && exists u :: u in uses && u in producedBy && producedBy[u] == j
  {
    if uses != [] {
      var init, last := uses[..|uses| - 1], uses[|uses| - 1];
      NeedIff(producedBy, i, init, j);
      assert uses == init + [last];
    }
  }

  /** One constraint feeds another just if that other one uses a symbol which it is the last listed to produce. */
  lemma FeedsIff(cs: seq<ConstraintDef>, j: nat, i: nat)
    ensures Feeds(cs, j, i) <==>
            i < |cs| && j != i && exists u :: u in cs[i].uses && LastToProduce(cs, u, j)
  {
    if i < |cs| {
      NeedIff(ProducedBy(cs), i, cs[i].uses, j);
      forall u
        ensures u in ProducedBy(cs) && ProducedBy(cs)[u] == j <==> LastToProduce(cs, u, j)
      {
        ProducerIs(cs, u, j);
      }
    }
  }

  /** The constraints recorded as evaluated are the first of the order: all of them if nothing failed, and otherwise
      those up to the one that failed, whose formula has no value where the evaluation stopped. */
  lemma {:induction false} EvaluatedAre(value: Formulas, cs: seq<ConstraintDef>, order: seq<nat>, inputs: Scope)
    requires forall k :: 0 <= k < |order| ==> order[k] < |cs|
    ensures var e := EvaluateAll(value, cs, order, inputs);
            && |e.evaluated| <= |order|
            && (forall k :: 0 <= k < |e.evaluated| ==> e.evaluated[k] == cs[order[k]].id)
            && (e.failed.None? ==> |e.evaluated| == |order|)
            && (e.failed.Some? ==>
                  && e.evaluated != [] && e.failed.value == e.evaluated[|e.evaluated| - 1]
                  && value(cs[order[|e.evaluated| - 1]].formula, e.scope).None?)
  {
    if order != [] {
      EvaluatedAre(value, cs, order[..|order| - 1], inputs);
    }
  }

  /** Before it stops, every constraint's formula has a value on what is known when its turn comes: the inputs and,
      over them, the latest output of each symbol. */
  lemma {:induction false} PassedOnTurn(value: Formulas, cs: seq<ConstraintDef>, order: seq<nat>, inputs: Scope, k: nat)
    requires (forall i :: 0 <= i < |order| ==> order[i] < |cs|) && k < |order|
    ensures var e := EvaluateAll(value, cs, order, inputs);
            var before := EvaluateAll(value, cs, order[..k], inputs);
            k < |e.evaluated| && !(e.failed.Some? && k == |e.evaluated| - 1) ==>
              && before.failed.None? && before.scope == inputs + before.outputs
              && value(cs[order[k]].formula, before.scope).Some?
  {
    var last := |order| - 1;
    EvaluatedAre(value, cs, order, inputs);
    EvaluatedAre(value, cs, order[..last], inputs);
    if k < last {
      PassedOnTurn(value, cs, order[..last], inputs, k);
      assert order[..last][..k] == order[..k];
    } else {
      ScopeIs(value, cs, order[..k], inputs);
    }
  }

  lemma {:induction false} ScopeIs(value: Formulas, cs: seq<ConstraintDef>, order: seq<nat>, inputs: Scope)
    requires forall i :: 0 <= i < |order| ==> order[i] < |cs|
    ensures var e := EvaluateAll(value, cs, order, inputs); e.scope == inputs + e.outputs
  {
    if order != [] {
      ScopeIs(value, cs, order[..|order| - 1], inputs);
    }
  }
}
