/** What every order of evaluation has computed, even where it fails. */
module OrderFailures {
  import opened SysmlModel
  import opened EvaluationOrder
  import opened ModelEvaluation
  import opened OrderIndependence

  /** An order whose evaluation ends at a constraint with an error. */
  ghost predicate FailsAt(value: Formulas, cs: seq<ConstraintDef>, order: seq<nat>, inputs: Scope, p: nat)
    requires p < |order| && forall i :: 0 <= i < |order| ==> order[i] < |cs|
  {
    Runs(value, cs, order, inputs, p) && ResultAt(value, cs, order, inputs, p).None?
  }

  /** A constraint at which some order ends with an error. */
  ghost predicate Fails(value: Formulas, cs: seq<ConstraintDef>, inputs: Scope, f: nat) {
    exists order, p :: Topological(cs, order) && FailsThere(value, cs, order, inputs, p, f)
  }

  ghost predicate FailsThere(value: Formulas, cs: seq<ConstraintDef>, order: seq<nat>, inputs: Scope, p: nat, f: nat)
    requires Topological(cs, order)
  {
    p < |order| && order[p] == f && FailsAt(value, cs, order, inputs, p)
  }

  /** An order that evaluates a constraint, without an error. */
  ghost predicate Succeeds(value: Formulas, cs: seq<ConstraintDef>, order: seq<nat>, inputs: Scope, c: nat)
    requires Topological(cs, order) && c < |cs|
  {
    Runs(value, cs, order, inputs, Place(cs, order, c) + 1)
  }

  // ----- The end of an evaluation -----

  lemma {:induction false} FirstFailure(value: Formulas, cs: seq<ConstraintDef>, order: seq<nat>, inputs: Scope, k: nat)
    returns (p: nat)
    requires k <= |order| && (forall i :: 0 <= i < |order| ==> order[i] < |cs|) && !Runs(value, cs, order, inputs, k)
    ensures p < k && FailsAt(value, cs, order, inputs, p)
    decreases k
  {
    hide Runs, ResultAt;
    if k == 0 {
      NothingRun(value, cs, order, inputs);
    } else {
      RunsOn(value, cs, order, inputs, k - 1);
      if Runs(value, cs, order, inputs, k - 1) {
        p := k - 1;
      } else {
        p := FirstFailure(value, cs, order, inputs, k - 1);
      }
    }
  }

  /** The outputs left behind are those of the constraints before the one that failed. */
  lemma EndsThere(value: Formulas, cs: seq<ConstraintDef>, order: seq<nat>, inputs: Scope, p: nat)
    requires p < |order| && (forall i :: 0 <= i < |order| ==> order[i] < |cs|) && FailsAt(value, cs, order, inputs, p)
    ensures var e := EvaluateAll(value, cs, order, inputs);
            e.failed == Some(cs[order[p]].id) && e.outputs == EvaluateAll(value, cs, order[..p], inputs).outputs
  {
    EvaluatedOneMore(value, cs, order, inputs, p);
    StaysFailed(value, cs, order, inputs, p + 1);
  }

  lemma StopsThere(value: Formulas, cs: seq<ConstraintDef>, order: seq<nat>, inputs: Scope, p: nat, k: nat)
    requires p < |order| && (forall i :: 0 <= i < |order| ==> order[i] < |cs|) && FailsAt(value, cs, order, inputs, p)
    requires k <= |order|
    ensures Runs(value, cs, order, inputs, k) <==> k <= p
  {
    hide Runs, ResultAt;
    if k <= p {
      RanBefore(value, cs, order, inputs, k, p);
    } else if Runs(value, cs, order, inputs, k) {
      RanBefore(value, cs, order, inputs, p, k);
    }
  }

  /** A symbol is among the outputs of a failed evaluation exactly when a constraint before the failure produces it. */
  lemma LeftBehind(value: Formulas, cs: seq<ConstraintDef>, order: seq<nat>, inputs: Scope, p: nat, s: string)
    requires p < |order| && (forall i :: 0 <= i < |order| ==> order[i] < |cs|) && FailsAt(value, cs, order, inputs, p)
    ensures s in EvaluateAll(value, cs, order, inputs).outputs <==> exists q :: 0 <= q < p && Makes(cs, order[q], s)
  {
    hide Runs, ResultAt, EvaluateAll, Makes;
    EndsThere(value, cs, order, inputs, p);
    ScopeShowsWriters(value, cs, order, inputs, p, s);
    var w := WriterAt(cs, order, p, s);
  }

  /** If one order fails, every order does. */
  lemma EveryOrderFails(value: Formulas, cs: seq<ConstraintDef>, one: seq<nat>, other: seq<nat>, inputs: Scope)
    returns (p: nat)
    requires Topological(cs, one) && Topological(cs, other) && ReadsSettled(cs) && ReadsOnlyUses(value, cs)
    requires EvaluateAll(value, cs, one, inputs).failed.Some?
    ensures p < |other| && FailsAt(value, cs, other, inputs, p) && Fails(value, cs, inputs, other[p])
  {
    hide Topological, ReadsSettled, ReadsOnlyUses, EvaluateAll, Runs, FailsAt;
    InRange(cs, one);
    InRange(cs, other);
    WholeRun(value, cs, one, inputs);
    if Runs(value, cs, other, inputs, |other|) {
      OtherRunsToo(value, cs, other, one, inputs, |one|);
    }
    p := FirstFailure(value, cs, other, inputs, |other|);
    assert FailsThere(value, cs, other, inputs, p, other[p]);
  }

  // ----- What a failing constraint needs is enough to fail -----

  /** The order that evaluates just what a constraint needs, and then the constraint. */
  function Straight(cs: seq<ConstraintDef>, order: seq<nat>, low: set<nat>, f: nat): seq<nat> {
    Arranged(cs, order, low, [f])
  }

  lemma StraightParts(cs: seq<ConstraintDef>, order: seq<nat>, low: set<nat>, f: nat)
    ensures var a, all := Keep(order, low), Straight(cs, order, low, f);
            |a| < |all| && all[|a|] == f && forall k :: 0 <= k < |a| ==> all[k] == a[k] && a[k] in order && a[k] in low
  {
    var a := Keep(order, low);
    assert forall k :: 0 <= k < |a| ==> a[k] in a;
  }

  lemma StraightIsTopological(cs: seq<ConstraintDef>, order: seq<nat>, f: nat)
    requires Topological(cs, order) && f < |cs|
    ensures Topological(cs, Straight(cs, order, Ancestors(cs, [f]), f))
  {
    hide Topological, Feeds, Forced, Arranged;
    NotForcedOnItself(cs, order, f);
    AncestorsAreBelow(cs, [f]);
    ArrangedIsTopological(cs, order, Ancestors(cs, [f]), [f]);
  }

  /** An order that fails at a constraint has evaluated all it needs. */
  lemma NeededRan(value: Formulas, cs: seq<ConstraintDef>, order: seq<nat>, inputs: Scope, p: nat, x: nat)
    requires Topological(cs, order) && p < |order| && Runs(value, cs, order, inputs, p) && Forced(cs, x, order[p])
    ensures x < |cs| && Place(cs, order, x) < p
    ensures Runs(value, cs, order, inputs, Place(cs, order, x)) &&
            ResultAt(value, cs, order, inputs, Place(cs, order, x)).Some?
  {
    hide NeedsFirst, Forced, Runs, ResultAt;
    ForcedInRange(cs, x, order[p]);
    ForcedIsEarlier(cs, order, x, p);
    var q :| 0 <= q < p && order[q] == x;
    OnePlace(order, q, Place(cs, order, x));
    RanBefore(value, cs, order, inputs, q, p);
  }

  lemma {:induction false} StraightRuns(value: Formulas, cs: seq<ConstraintDef>, order: seq<nat>, inputs: Scope, p: nat,
                                        all: seq<nat>, k: nat)
    requires Topological(cs, order) && Topological(cs, all) && ReadsSettled(cs) && ReadsOnlyUses(value, cs)
    requires p < |order| && Runs(value, cs, order, inputs, p)
    requires k <= |all| && forall q :: 0 <= q < k ==> Forced(cs, all[q], order[p])
    ensures Runs(value, cs, all, inputs, k)
    decreases k
  {
    hide NeedsFirst, NoRepeats, ReadsSettled, ReadsOnlyUses, ResultAt, Runs, Forced;
    if k == 0 {
      NothingRun(value, cs, all, inputs);
    } else {
      StraightRuns(value, cs, order, inputs, p, all, k - 1);
      NeededRan(value, cs, order, inputs, p, all[k - 1]);
      SameResult(value, cs, order, Place(cs, order, all[k - 1]), all, k - 1, inputs);
      RunsOn(value, cs, all, inputs, k - 1);
    }
  }

  /** Where a constraint fails in some order, some order fails there with nothing evaluated but what it needs. */
  lemma FailsStraight(value: Formulas, cs: seq<ConstraintDef>, inputs: Scope, f: nat) returns (all: seq<nat>, p: nat)
    requires Fails(value, cs, inputs, f) && ReadsSettled(cs) && ReadsOnlyUses(value, cs)
    ensures Topological(cs, all) && FailsThere(value, cs, all, inputs, p, f)
    ensures forall q :: 0 <= q < p ==> Forced(cs, all[q], f)
  {
    hide NeedsFirst, NoRepeats, ReadsSettled, ReadsOnlyUses, ResultAt, Runs, Forced, Straight, Keep;
    var order, r :| Topological(cs, order) && FailsThere(value, cs, order, inputs, r, f);
    var low := Ancestors(cs, [f]);
    all, p := Straight(cs, order, low, f), |Keep(order, low)|;
    StraightIsTopological(cs, order, f);
    StraightParts(cs, order, low, f);
    forall q | 0 <= q < p
      ensures Forced(cs, all[q], f)
    {
      assert ForcedBeforeOne(cs, all[q], [f]);
    }
    StraightRuns(value, cs, order, inputs, r, all, p);
    SameResult(value, cs, order, r, all, p, inputs);
  }

  // ----- What every order has computed -----

  lemma SucceedsIff(value: Formulas, cs: seq<ConstraintDef>, order: seq<nat>, inputs: Scope, p: nat, c: nat)
    requires Topological(cs, order) && p < |order| && FailsAt(value, cs, order, inputs, p) && c < |cs|
    ensures Succeeds(value, cs, order, inputs, c) <==> Place(cs, order, c) < p
  {
    hide NeedsFirst, FailsAt, Runs;
    StopsThere(value, cs, order, inputs, p, Place(cs, order, c) + 1);
  }

  lemma NeededSucceeds(value: Formulas, cs: seq<ConstraintDef>, one: seq<nat>, other: seq<nat>, inputs: Scope, c: nat)
    requires Topological(cs, one) && Topological(cs, other) && ReadsSettled(cs) && ReadsOnlyUses(value, cs)
    requires EvaluateAll(value, cs, one, inputs).failed.Some? && c < |cs|
    requires forall f :: Fails(value, cs, inputs, f) ==> Forced(cs, c, f)
    ensures Succeeds(value, cs, other, inputs, c)
  {
    hide Topological, ReadsSettled, ReadsOnlyUses, EvaluateAll, Fails, Forced, Succeeds;
    var p := EveryOrderFails(value, cs, one, other, inputs);
    InRange(cs, other);
    NeededRan(value, cs, other, inputs, p, c);
    SucceedsIff(value, cs, other, inputs, p, c);
  }

  lemma OthersMayNot(value: Formulas, cs: seq<ConstraintDef>, inputs: Scope, c: nat, f: nat)
    requires ReadsSettled(cs) && ReadsOnlyUses(value, cs) && c < |cs| && Fails(value, cs, inputs, f)
    requires forall order :: Topological(cs, order) ==> Succeeds(value, cs, order, inputs, c)
    ensures Forced(cs, c, f)
  {
    hide NeedsFirst, ReadsSettled, ReadsOnlyUses, Fails, Forced, Succeeds, FailsAt;
    var all, p := FailsStraight(value, cs, inputs, f);
    SucceedsIff(value, cs, all, inputs, p, c);
  }

  /** Where evaluation fails, the constraints that every order has evaluated before it fails are those that every
      constraint at which it can fail needs. */
  lemma AlwaysEvaluatedIff(value: Formulas, cs: seq<ConstraintDef>, order: seq<nat>, inputs: Scope, c: nat)
    requires ReadsSettled(cs) && ReadsOnlyUses(value, cs) && Topological(cs, order) && c < |cs|
    requires EvaluateAll(value, cs, order, inputs).failed.Some?
    ensures (forall other :: Topological(cs, other) ==> Succeeds(value, cs, other, inputs, c))
       <==> (forall f :: Fails(value, cs, inputs, f) ==> Forced(cs, c, f))
  {
    hide Topological, ReadsSettled, ReadsOnlyUses, EvaluateAll, Fails, Forced, Succeeds;
    if forall f :: Fails(value, cs, inputs, f) ==> Forced(cs, c, f) {
      forall other | Topological(cs, other)
        ensures Succeeds(value, cs, other, inputs, c)
      {
        NeededSucceeds(value, cs, order, other, inputs, c);
      }
    }
    if forall other :: Topological(cs, other) ==> Succeeds(value, cs, other, inputs, c) {
      forall f | Fails(value, cs, inputs, f)
        ensures Forced(cs, c, f)
      {
        OthersMayNot(value, cs, inputs, c, f);
      }
    }
  }

  /** A producer of the symbol that a constraint needs. */
  ghost predicate NeedsMakerOf(cs: seq<ConstraintDef>, s: string, f: nat) {
    exists c :: Makes(cs, c, s) && Forced(cs, c, f)
  }

  lemma NeededIsLeft(value: Formulas, cs: seq<ConstraintDef>, one: seq<nat>, other: seq<nat>, inputs: Scope, s: string)
    requires Topological(cs, one) && Topological(cs, other) && ReadsSettled(cs) && ReadsOnlyUses(value, cs)
    requires EvaluateAll(value, cs, one, inputs).failed.Some?
    requires forall f :: Fails(value, cs, inputs, f) ==> NeedsMakerOf(cs, s, f)
    ensures s in EvaluateAll(value, cs, other, inputs).outputs
  {
    hide NeedsFirst, NoRepeats, ReadsSettled, ReadsOnlyUses, EvaluateAll, Fails, Forced, FailsAt, Makes;
    var p := EveryOrderFails(value, cs, one, other, inputs);
    LeftBehind(value, cs, other, inputs, p, s);
    var c :| Makes(cs, c, s) && Forced(cs, c, other[p]);
    ForcedIsEarlier(cs, other, c, p);
  }

  lemma OthersMayBeMissing(value: Formulas, cs: seq<ConstraintDef>, inputs: Scope, s: string, f: nat)
    requires ReadsSettled(cs) && ReadsOnlyUses(value, cs) && Fails(value, cs, inputs, f)
    requires forall order :: Topological(cs, order) ==> s in EvaluateAll(value, cs, order, inputs).outputs
    ensures NeedsMakerOf(cs, s, f)
  {
    hide NeedsFirst, NoRepeats, ReadsSettled, ReadsOnlyUses, EvaluateAll, Fails, Forced, FailsAt, Makes;
    var all, p := FailsStraight(value, cs, inputs, f);
    LeftBehind(value, cs, all, inputs, p, s);
  }

  /** Where evaluation fails, the symbols that every order leaves computed are those of which every constraint at
      which it can fail needs a producer. */
  lemma AlwaysComputedIff(value: Formulas, cs: seq<ConstraintDef>, order: seq<nat>, inputs: Scope, s: string)
    requires ReadsSettled(cs) && ReadsOnlyUses(value, cs) && Topological(cs, order)
    requires EvaluateAll(value, cs, order, inputs).failed.Some?
    ensures (forall other :: Topological(cs, other) ==> s in EvaluateAll(value, cs, other, inputs).outputs)
       <==> (forall f :: Fails(value, cs, inputs, f) ==> NeedsMakerOf(cs, s, f))
  {
    hide NeedsFirst, NoRepeats, ReadsSettled, ReadsOnlyUses, EvaluateAll, Fails, NeedsMakerOf;
    if forall f :: Fails(value, cs, inputs, f) ==> NeedsMakerOf(cs, s, f) {
      forall other | Topological(cs, other)
        ensures s in EvaluateAll(value, cs, other, inputs).outputs
      {
        NeededIsLeft(value, cs, order, other, inputs, s);
      }
    }
    if forall other :: Topological(cs, other) ==> s in EvaluateAll(value, cs, other, inputs).outputs {
      forall f | Fails(value, cs, inputs, f)
        ensures NeedsMakerOf(cs, s, f)
      {
        OthersMayBeMissing(value, cs, inputs, s, f);
      }
    }
  }

  /** What two orders have both computed of a symbol with one producer is the same, whether they fail or not. */
  lemma ComputedAgrees(value: Formulas, cs: seq<ConstraintDef>, one: seq<nat>, other: seq<nat>, inputs: Scope, c: nat,
                       s: string)
    requires Topological(cs, one) && Topological(cs, other) && ReadsSettled(cs) && ReadsOnlyUses(value, cs)
    requires Makes(cs, c, s) && forall j :: Makes(cs, j, s) ==> j == c
    ensures var e, f := EvaluateAll(value, cs, one, inputs), EvaluateAll(value, cs, other, inputs);
            s in e.outputs && s in f.outputs ==> e.outputs[s] == f.outputs[s]
  {
    hide Topological, ReadsSettled, ReadsOnlyUses, EvaluateAll, Makes;
    InRange(cs, one);
    InRange(cs, other);
    var k := Reached(value, cs, one, inputs);
    var l := Reached(value, cs, other, inputs);
    ScopeShowsWriters(value, cs, one, inputs, k, s);
    ScopeShowsWriters(value, cs, other, inputs, l, s);
    var v, w := WriterAt(cs, one, k, s), WriterAt(cs, other, l, s);
    if v.Some? && w.Some? {
      RanBefore(value, cs, one, inputs, v.value, k);
      RanBefore(value, cs, other, inputs, w.value, l);
      SameResult(value, cs, one, v.value, other, w.value, inputs);
    }
  }

  /** How far an evaluation gets. */
  lemma Reached(value: Formulas, cs: seq<ConstraintDef>, order: seq<nat>, inputs: Scope) returns (k: nat)
    requires forall i :: 0 <= i < |order| ==> order[i] < |cs|
    ensures k <= |order| && Runs(value, cs, order, inputs, k)
    ensures EvaluateAll(value, cs, order, inputs).outputs == EvaluateAll(value, cs, order[..k], inputs).outputs
  {
    hide Runs, EvaluateAll;
    WholeRun(value, cs, order, inputs);
    if Runs(value, cs, order, inputs, |order|) {
      k := |order|;
    } else {
      k := FirstFailure(value, cs, order, inputs, |order|);
      EndsThere(value, cs, order, inputs, k);
    }
  }

  // ----- Common cases -----

  /** One producer per symbol settles every reading and every result. */
  lemma OneProducerSettles(cs: seq<ConstraintDef>)
    requires OneProducer(cs)
    ensures Settled(cs)
  {
    hide Forced, Feeds;
    forall i, s | 0 <= i < |cs| && s in cs[i].uses
      ensures ReadSettled(cs, s, i)
    {
      if j :| Rival(cs, s, i, j) {
        UsingIsNeeding(cs, i, j);
        FeedingForces(cs, j, i);
        assert LastRival(cs, s, i, j);
      }
    }
    forall s
      ensures ResultSettled(cs, s)
    {
      if j :| Makes(cs, j, s) {
        assert LastMaker(cs, s, j);
      }
    }
  }
}
