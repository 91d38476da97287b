/** What an evaluation owes to the order in which the constraints are listed. They are read out of a hash set, so
    the list comes in any order, and with it who needs whom wherever a symbol has several producers. */
module Listings {
  import opened SysmlModel
  import opened EvaluationOrder
  import opened ModelEvaluation
  import opened OrderIndependence
  import opened OrderFailures

  /** The same constraints, listed in some order. */
  predicate Relisted(cs: seq<ConstraintDef>, ds: seq<ConstraintDef>) {
    multiset(cs) == multiset(ds)
  }

  ghost predicate AgreeOn(value: Formulas, ds: seq<ConstraintDef>, one: seq<nat>, es: seq<ConstraintDef>,
                          other: seq<nat>, inputs: Scope)
    requires Topological(ds, one) && Topological(es, other)
  {
    SameOutcome(EvaluateAll(value, ds, one, inputs), EvaluateAll(value, es, other, inputs))
  }

  /** Every two listings agree on being circular, and all orders of all listings have the same outcome, whatever the
      formulas compute and whatever the inputs. */
  ghost predicate ListingFree(cs: seq<ConstraintDef>) {
    && (forall ds, es :: Relisted(cs, ds) && Relisted(cs, es) ==> (Circular(ds) <==> Circular(es)))
    && (forall value, ds, one, es, other, inputs ::
          Relisted(cs, ds) && Relisted(cs, es) && ReadsOnlyUses(value, cs) && Topological(ds, one) &&
            Topological(es, other) ==>
          AgreeOn(value, ds, one, es, other, inputs))
  }

  ghost predicate AlwaysCircular(cs: seq<ConstraintDef>) {
    forall ds :: Relisted(cs, ds) ==> Circular(ds)
  }

  // ----- Where there is no circle there is an order -----

  lemma NotAllStuck(cs: seq<ConstraintDef>, stuck: set<nat>)
    requires !Circular(cs) && stuck != {}
    ensures exists i: nat :: i in stuck && !NeedsAnother(cs, stuck, i)
  {
    hide Circular, NeedsAnother;
    if forall i :: i in stuck ==> NeedsAnother(cs, stuck, i) {
      StuckIsCircular(cs, stuck);
    }
  }

  lemma NeedsNone(cs: seq<ConstraintDef>, stuck: set<nat>, i: nat)
    requires i < |cs| && !NeedsAnother(cs, stuck, i)
    ensures forall j: nat :: Feeds(cs, j, i) ==> j < |cs| && j !in stuck
  {
    hide NeedsOf;
    forall j: nat | Feeds(cs, j, i)
      ensures j < |cs|
    {
      NeedIsConstraint(cs, i, j);
    }
  }

  lemma SomeIsReady(cs: seq<ConstraintDef>, order: seq<nat>) returns (i: nat)
    requires !Circular(cs) && |order| < |cs|
    ensures i < |cs| && i !in order && forall j: nat :: Feeds(cs, j, i) ==> j in order
  {
    hide Circular, Feeds, NeedsAnother;
    LeavesOneOut(order, |cs|);
    var left: nat :| left < |cs| && left !in order;
    var stuck := set x: nat | x < |cs| && x !in order;
    assert left in stuck;
    NotAllStuck(cs, stuck);
    var x :| x in stuck && !NeedsAnother(cs, stuck, x);
    NeedsNone(cs, stuck, x);
    i := x;
  }

  lemma {:induction false} OrderUpTo(cs: seq<ConstraintDef>, n: nat) returns (order: seq<nat>)
    requires !Circular(cs) && n <= |cs|
    ensures |order| == n && NoRepeats(order) && (forall k :: 0 <= k < n ==> order[k] < |cs|) && NeedsFirst(cs, order)
  {
    hide Circular, Feeds;
    if n == 0 {
      order := [];
    } else {
      var init := OrderUpTo(cs, n - 1);
      var i := SomeIsReady(cs, init);
      order := init + [i];
      forall k, j | 0 <= k < n && Feeds(cs, j, order[k])
        ensures j in order[..k]
      {
        assert order[..k] == init[..k];
      }
    }
  }

  /** Constraints that do not need each other in a circle can be ordered. */
  lemma NoCircleMeansOrder(cs: seq<ConstraintDef>) returns (order: seq<nat>)
    requires !Circular(cs)
    ensures Topological(cs, order)
  {
    order := OrderUpTo(cs, |cs|);
  }

  // ----- Enough -----

  lemma OneProducerIsListingFree(cs: seq<ConstraintDef>)
    requires OneProducer(cs)
    ensures ListingFree(cs)
  {
    hide Circular, OneProducer, ReadsOnlyUses, Topological, EvaluateAll;
    forall ds, es | Relisted(cs, ds) && Relisted(cs, es)
      ensures Circular(ds) <==> Circular(es)
    {
      CircularIsConfluent(cs, ds);
      CircularIsConfluent(cs, es);
    }
    forall value, ds, one, es, other, inputs |
      Relisted(cs, ds) && Relisted(cs, es) && ReadsOnlyUses(value, cs) && Topological(ds, one) && Topological(es, other)
      ensures AgreeOn(value, ds, one, es, other, inputs)
    {
      OneProducerRelisted(cs, ds);
      ReadsRelisted(value, cs, ds);
      InRange(ds, one);
      InRange(es, other);
      EvaluationIsConfluent(value, ds, es, one, other, inputs);
    }
  }

  // ----- And no less -----

  lemma {:induction false} LastListedIsTaken(cs: seq<ConstraintDef>, j: nat, s: string)
    requires Makes(cs, j, s)
    ensures s in ProducedBy(cs) && ProducedBy(cs)[s] >= j
    decreases |cs|
  {
    hide ProducedBy;
    var last := |cs| - 1;
    ProducedOneMore(cs);
    if j < last {
      LastListedIsTaken(cs[..last], j, s);
    }
  }

  lemma ProducedOneMore(cs: seq<ConstraintDef>)
    requires cs != []
    ensures var last := |cs| - 1;
            var before := ProducedBy(cs[..last]);
            ProducedBy(cs) == if cs[last].produces.Some? then before[cs[last].produces.value := last] else before
    ensures forall s :: s in ProducedBy(cs) ==> ProducedBy(cs)[s] < |cs|
  {
  }

  /** Only the producer from which a symbol is taken is forced before anything. */
  lemma ForcingIsTaken(cs: seq<ConstraintDef>, j: nat, i: nat, s: string)
    requires Makes(cs, j, s) && Forced(cs, j, i)
    ensures s in ProducedBy(cs) && ProducedBy(cs)[s] == j
  {
    hide Needs, ProducedBy;
    var walk :| Path(cs, walk) && walk[0] == j && walk[|walk| - 1] == i;
    assert Feeds(cs, walk[0], walk[0 + 1]);
    NeedIsUsed(ProducedBy(cs), walk[1], cs[walk[1]].uses, j);
    var u :| u in ProducedBy(cs) && ProducedBy(cs)[u] == j;
  }

  /** Where all orders agree, the first listed of two producers of a symbol is evaluated after all others. */
  lemma FirstListedIsLast(cs: seq<ConstraintDef>, order: seq<nat>, a: nat, b: nat, s: string)
    requires OrderFree(cs) && DistinctFormulas(cs) && Topological(cs, order)
    requires a < b && Makes(cs, a, s) && Makes(cs, b, s)
    ensures LastMaker(cs, s, a)
  {
    hide OrderFree, DistinctFormulas, Topological, Forced, ProducedBy;
    ResultsMustSettle(cs, order, s);
    var l :| LastMaker(cs, s, l);
    LastListedIsTaken(cs, a, s);
    LastListedIsTaken(cs, b, s);
    if a != l {
      ForcingIsTaken(cs, a, l, s);
    }
    if b != l {
      ForcingIsTaken(cs, b, l, s);
    }
  }

  lemma ResultIsFirstListed(names: seq<ConstraintDef>, cs: seq<ConstraintDef>, order: seq<nat>, a: nat, b: nat,
                            s: string)
    requires OrderFree(cs) && DistinctFormulas(cs) && Topological(cs, order)
    requires a < b && Makes(cs, a, s) && Makes(cs, b, s)
    ensures var e := EvaluateAll(Numbers(names), cs, order, map[]);
            e.failed.None? && s in e.outputs && e.outputs[s] == IndexOf(names, cs[a].formula) as real
  {
    hide OrderFree, DistinctFormulas, NeedsFirst, NoRepeats, LastMaker, Numbers, IndexOf, EvaluateAll;
    FirstListedIsLast(cs, order, a, b, s);
    LastWriter(cs, order, s);
    NumbersShow(names, cs, order, s);
  }

  lemma ListingFreeIsOrderFree(cs: seq<ConstraintDef>, ds: seq<ConstraintDef>)
    requires ListingFree(cs) && Relisted(cs, ds)
    ensures OrderFree(ds)
  {
    hide Circular, Topological, EvaluateAll, SameOutcome, ReadsOnlyUses;
    forall value, one, other, inputs | ReadsOnlyUses(value, ds) && Topological(ds, one) && Topological(ds, other)
      ensures InRangeOf(ds, one) && InRangeOf(ds, other)
      ensures SameOutcome(EvaluateAll(value, ds, one, inputs), EvaluateAll(value, ds, other, inputs))
    {
      InRange(ds, one);
      InRange(ds, other);
      ReadsRelisted(value, ds, cs);
      assert AgreeOn(value, ds, one, ds, other, inputs);
    }
  }

  /** Two constraints, listed the other way round. */
  function Swapped(cs: seq<ConstraintDef>, a: nat, b: nat): seq<ConstraintDef>
    requires a < b < |cs|
  {
    cs[a := cs[b]][b := cs[a]]
  }

  lemma SwappedIsRelisted(cs: seq<ConstraintDef>, a: nat, b: nat)
    requires a < b < |cs|
    ensures Relisted(cs, Swapped(cs, a, b))
  {
    var u, v, w := cs[..a], cs[a + 1..b], cs[b + 1..];
    assert cs == u + [cs[a]] + v + [cs[b]] + w;
    assert Swapped(cs, a, b) == u + [cs[b]] + v + [cs[a]] + w;
  }

  lemma SwappedIsDistinct(cs: seq<ConstraintDef>, a: nat, b: nat)
    requires a < b < |cs| && DistinctFormulas(cs)
    ensures DistinctFormulas(Swapped(cs, a, b))
  {
  }

  lemma ListingsCompared(cs: seq<ConstraintDef>, ds: seq<ConstraintDef>, one: seq<nat>, other: seq<nat>)
    requires ListingFree(cs) && Relisted(cs, ds) && Topological(cs, one) && Topological(ds, other)
    ensures AgreeOn(Numbers(cs), cs, one, ds, other, map[])
  {
    hide Circular, Topological, AgreeOn, ReadsOnlyUses;
    NumbersRead(cs, cs);
  }

  /** Two producers of one symbol can be listed either way round, and one of the two listings is circular or they
      leave different results. */
  lemma NoTwoProducers(cs: seq<ConstraintDef>, order: seq<nat>, a: nat, b: nat, s: string)
    requires ListingFree(cs) && DistinctFormulas(cs) && Topological(cs, order) && a < b < |cs|
    ensures !(Makes(cs, a, s) && Makes(cs, b, s))
  {
    hide ListingFree, DistinctFormulas, Circular, Topological, OrderFree, EvaluateAll, Numbers, IndexOf, Relisted;
    if Makes(cs, a, s) && Makes(cs, b, s) {
      var ds := Swapped(cs, a, b);
      SwappedIsRelisted(cs, a, b);
      SwappedIsDistinct(cs, a, b);
      OwnListing(cs);
      var other := SwappedHasOrder(cs, order, ds);
      ListingFreeIsOrderFree(cs, cs);
      ListingFreeIsOrderFree(cs, ds);
      ResultIsFirstListed(cs, cs, order, a, b, s);
      ResultIsFirstListed(cs, ds, other, a, b, s);
      IndexOfFormula(cs, a);
      IndexOfFormula(cs, b);
      ListingsCompared(cs, ds, order, other);
    }
  }

  lemma SwappedHasOrder(cs: seq<ConstraintDef>, order: seq<nat>, ds: seq<ConstraintDef>) returns (other: seq<nat>)
    requires ListingFree(cs) && Topological(cs, order) && Relisted(cs, ds)
    ensures Topological(ds, other)
  {
    hide Circular, Topological, AgreeOn;
    OrderMeansNoCircle(cs, order);
    other := NoCircleMeansOrder(ds);
  }

  lemma ListingFreeNeedsOneProducer(cs: seq<ConstraintDef>)
    requires ListingFree(cs) && DistinctFormulas(cs) && !Circular(cs)
    ensures OneProducer(cs)
  {
    hide ListingFree, DistinctFormulas, Circular;
    var order := NoCircleMeansOrder(cs);
    forall i, j | 0 <= i < j < |cs| && cs[i].produces.Some?
      ensures cs[i].produces != cs[j].produces
    {
      NoTwoProducers(cs, order, i, j, cs[i].produces.value);
    }
  }

  /** For constraints whose formulas are their own, neither the refusal nor the outcome depends on the listing or on
      the order, for any formulas and inputs, if and only if each symbol has one producer, or the constraints are
      circular however they are listed. */
  lemma ListingFreeIff(cs: seq<ConstraintDef>)
    requires DistinctFormulas(cs)
    ensures ListingFree(cs) <==> OneProducer(cs) || AlwaysCircular(cs)
    ensures !Circular(cs) ==> (ListingFree(cs) <==> OneProducer(cs))
  {
    hide DistinctFormulas, Circular, OneProducer, Topological, ReadsOnlyUses, AgreeOn;
    if OneProducer(cs) {
      OneProducerIsListingFree(cs);
    }
    if AlwaysCircular(cs) {
      NothingToCompare(cs);
    }
    if ListingFree(cs) && !Circular(cs) {
      ListingFreeNeedsOneProducer(cs);
    }
    if ListingFree(cs) && !AlwaysCircular(cs) {
      var ds :| Relisted(cs, ds) && !Circular(ds);
      assert Relisted(cs, cs);
      ListingFreeNeedsOneProducer(cs);
    }
  }

  lemma NothingToCompare(cs: seq<ConstraintDef>)
    requires AlwaysCircular(cs)
    ensures ListingFree(cs)
  {
    hide Circular, ReadsOnlyUses, AgreeOn, Topological;
    forall ds, one | Relisted(cs, ds)
      ensures !Topological(ds, one)
    {
      if Topological(ds, one) {
        OrderMeansNoCircle(ds, one);
      }
    }
  }

  // ----- What every order of every listing has computed -----

  /** Constraints are elements of the model, each under its own id. */
  ghost predicate DistinctIds(cs: seq<ConstraintDef>) {
    forall i, j :: 0 <= i < j < |cs| ==> cs[i].id != cs[j].id
  }

  lemma DistinctIdsRelisted(cs: seq<ConstraintDef>, ds: seq<ConstraintDef>)
    requires Relisted(cs, ds) && DistinctIds(cs)
    ensures DistinctIds(ds)
  {
    SameConstraints(cs, ds);
    forall i, j | 0 <= i < j < |ds|
      ensures ds[i].id != ds[j].id
    {
      if ds[i] == ds[j] {
        OccursTwice(ds, i, j);
        var k, l := TwoPlaces(cs, ds[i]);
      } else {
        assert ds[i] in ds && ds[j] in ds;
        var k := IndexIn(cs, ds[i]);
        var l := IndexIn(cs, ds[j]);
      }
    }
  }

  /** An order of one listing as an order of another. */
  ghost function Moved(cs: seq<ConstraintDef>, ds: seq<ConstraintDef>, order: seq<nat>): (there: seq<nat>)
    requires Relisted(cs, ds) && forall k :: 0 <= k < |order| ==> order[k] < |ds|
    ensures |there| == |order| && forall k :: 0 <= k < |order| ==> there[k] < |cs| && cs[there[k]] == ds[order[k]]
  {
    SameConstraints(cs, ds);
    assert forall k :: 0 <= k < |order| ==> ds[order[k]] in ds;
    seq(|order|, k requires 0 <= k < |order| => IndexIn(cs, ds[order[k]]))
  }

  lemma OneIndex(cs: seq<ConstraintDef>, i: nat, j: nat)
    requires DistinctIds(cs) && i < |cs| && j < |cs| && cs[i] == cs[j]
    ensures i == j
  {
  }

  lemma MovedIsTopological(cs: seq<ConstraintDef>, ds: seq<ConstraintDef>, order: seq<nat>)
    requires Relisted(cs, ds) && OneProducer(cs) && DistinctIds(cs) && Topological(ds, order)
    ensures Topological(cs, Moved(cs, ds, order))
  {
    hide Feeds, OneProducer, DistinctIds, Moved;
    OneProducerRelisted(cs, ds);
    DistinctIdsRelisted(cs, ds);
    SameConstraints(cs, ds);
    var there := Moved(cs, ds, order);
    forall i, j | 0 <= i < j < |there|
      ensures there[i] != there[j]
    {
      if there[i] == there[j] {
        OneIndex(ds, order[i], order[j]);
      }
    }
    forall k, j: nat | 0 <= k < |there| && Feeds(cs, j, there[k])
      ensures j in there[..k]
    {
      FeederInRange(cs, j, there[k]);
      assert cs[j] in cs;
      var l := IndexIn(ds, cs[j]);
      FeedsRelisted(cs, ds, j, there[k], l, order[k]);
      assert l in order[..k];
      var q :| 0 <= q < k && order[q] == l;
      OneIndex(cs, there[q], j);
      assert there[..k][q] == j;
    }
  }

  /** Evaluation sees the constraints only, not where they are listed. */
  lemma {:induction false} MovedComputesTheSame(value: Formulas, cs: seq<ConstraintDef>, ds: seq<ConstraintDef>,
                                                one: seq<nat>, other: seq<nat>, inputs: Scope)
    requires |one| == |other| && forall k :: 0 <= k < |one| ==>
             one[k] < |cs| && other[k] < |ds| && cs[one[k]] == ds[other[k]]
    ensures EvaluateAll(value, cs, one, inputs) == EvaluateAll(value, ds, other, inputs)
    decreases |one|
  {
    hide Evaluated;
    if one != [] {
      MovedComputesTheSame(value, cs, ds, one[..|one| - 1], other[..|other| - 1], inputs);
    }
  }

  ghost predicate Computes(value: Formulas, ds: seq<ConstraintDef>, order: seq<nat>, inputs: Scope, s: string)
    requires Topological(ds, order)
  {
    s in EvaluateAll(value, ds, order, inputs).outputs
  }

  /** Where evaluation fails, the symbols that every order of every listing leaves computed are those of which every
      constraint at which it can fail needs the producer. */
  lemma ListedComputedIff(value: Formulas, cs: seq<ConstraintDef>, order: seq<nat>, inputs: Scope, s: string)
    requires OneProducer(cs) && DistinctIds(cs) && ReadsOnlyUses(value, cs) && Topological(cs, order)
    requires EvaluateAll(value, cs, order, inputs).failed.Some?
    ensures (forall ds, other :: Relisted(cs, ds) && Topological(ds, other) ==> Computes(value, ds, other, inputs, s))
       <==> (forall f :: Fails(value, cs, inputs, f) ==> NeedsMakerOf(cs, s, f))
  {
    hide OneProducer, DistinctIds, ReadsOnlyUses, ReadsSettled, Topological, EvaluateAll, Fails, NeedsMakerOf, Relisted;
    OneProducerSettles(cs);
    AlwaysComputedIff(value, cs, order, inputs, s);
    if forall f :: Fails(value, cs, inputs, f) ==> NeedsMakerOf(cs, s, f) {
      forall ds, other | Relisted(cs, ds) && Topological(ds, other)
        ensures Computes(value, ds, other, inputs, s)
      {
        InRange(ds, other);
        var there := Moved(cs, ds, other);
        MovedIsTopological(cs, ds, other);
        MovedComputesTheSame(value, cs, ds, there, other, inputs);
      }
    }
    if forall ds, other :: Relisted(cs, ds) && Topological(ds, other) ==> Computes(value, ds, other, inputs, s) {
      OwnListing(cs);
      forall other | Topological(cs, other)
        ensures InRangeOf(cs, other) && s in EvaluateAll(value, cs, other, inputs).outputs
      {
        InRange(cs, other);
        assert Computes(value, cs, other, inputs, s);
      }
    }
  }

  lemma OwnListing(cs: seq<ConstraintDef>)
    ensures Relisted(cs, cs)
  {
  }

  /** An order of a listing evaluates a constraint without an error. */
  ghost predicate GetsPast(value: Formulas, ds: seq<ConstraintDef>, order: seq<nat>, inputs: Scope, c: ConstraintDef)
    requires Topological(ds, order)
  {
    exists k :: 0 <= k < |order| && ds[order[k]] == c && Runs(value, ds, order, inputs, k + 1)
  }

  lemma MovedRuns(value: Formulas, cs: seq<ConstraintDef>, ds: seq<ConstraintDef>, one: seq<nat>, other: seq<nat>,
                  inputs: Scope, k: nat)
    requires |one| == |other| && forall k :: 0 <= k < |one| ==>
             one[k] < |cs| && other[k] < |ds| && cs[one[k]] == ds[other[k]]
    requires k <= |one|
    ensures Runs(value, cs, one, inputs, k) <==> Runs(value, ds, other, inputs, k)
  {
    hide EvaluateAll;
    MovedComputesTheSame(value, cs, ds, one[..k], other[..k], inputs);
  }

  lemma OwnGetsPast(value: Formulas, cs: seq<ConstraintDef>, order: seq<nat>, inputs: Scope, c: nat)
    requires DistinctIds(cs) && Topological(cs, order) && c < |cs|
    ensures GetsPast(value, cs, order, inputs, cs[c]) <==> Succeeds(value, cs, order, inputs, c)
  {
    hide Runs, NeedsFirst;
    var p := Place(cs, order, c);
    if GetsPast(value, cs, order, inputs, cs[c]) {
      var k :| 0 <= k < |order| && cs[order[k]] == cs[c] && Runs(value, cs, order, inputs, k + 1);
      OneIndex(cs, order[k], c);
      OnePlace(order, k, p);
    }
  }

  lemma MovedGetsPast(value: Formulas, cs: seq<ConstraintDef>, ds: seq<ConstraintDef>, order: seq<nat>, inputs: Scope,
                      c: nat)
    requires Relisted(cs, ds) && OneProducer(cs) && DistinctIds(cs) && Topological(ds, order) && c < |cs|
    requires var there := Moved(cs, ds, order); Topological(cs, there) && Succeeds(value, cs, there, inputs, c)
    ensures GetsPast(value, ds, order, inputs, cs[c])
  {
    hide Runs, NeedsFirst, NoRepeats, OneProducer, DistinctIds, Moved, Relisted;
    var there := Moved(cs, ds, order);
    var p := Place(cs, there, c);
    MovedRuns(value, cs, ds, there, order, inputs, p + 1);
    assert ds[order[p]] == cs[c];
  }

  /** Where evaluation fails, the constraints that every order of every listing gets past before it fails are those
      that every constraint at which it can fail needs. */
  lemma ListedEvaluatedIff(value: Formulas, cs: seq<ConstraintDef>, order: seq<nat>, inputs: Scope, c: nat)
    requires OneProducer(cs) && DistinctIds(cs) && ReadsOnlyUses(value, cs) && Topological(cs, order) && c < |cs|
    requires EvaluateAll(value, cs, order, inputs).failed.Some?
    ensures (forall ds, other :: Relisted(cs, ds) && Topological(ds, other) ==>
             GetsPast(value, ds, other, inputs, cs[c]))
       <==> (forall f :: Fails(value, cs, inputs, f) ==> Forced(cs, c, f))
  {
    hide OneProducer, DistinctIds, ReadsOnlyUses, ReadsSettled, Topological, EvaluateAll, Fails, Forced, Relisted,
         Succeeds, GetsPast;
    OneProducerSettles(cs);
    AlwaysEvaluatedIff(value, cs, order, inputs, c);
    if forall f :: Fails(value, cs, inputs, f) ==> Forced(cs, c, f) {
      forall ds, other | Relisted(cs, ds) && Topological(ds, other)
        ensures GetsPast(value, ds, other, inputs, cs[c])
      {
        InRange(ds, other);
        MovedIsTopological(cs, ds, other);
        MovedGetsPast(value, cs, ds, other, inputs, c);
      }
    }
    if forall ds, other :: Relisted(cs, ds) && Topological(ds, other) ==> GetsPast(value, ds, other, inputs, cs[c]) {
      OwnListing(cs);
      forall other | Topological(cs, other)
        ensures Succeeds(value, cs, other, inputs, c)
      {
        OwnGetsPast(value, cs, other, inputs, c);
      }
    }
  }

  // ----- One listing settled, another circular -----

  /** The producer a symbol is taken from is the last in the list. */
  lemma ProducedByOneMore(cs: seq<ConstraintDef>, c: ConstraintDef)
    ensures ProducedBy(cs + [c]) == if c.produces.Some? then ProducedBy(cs)[c.produces.value := |cs|]
            else ProducedBy(cs)
  {
    assert (cs + [c])[..|cs|] == cs;
  }

  /** Three constraints, the first of which needs the second and the second the third. */
  lemma ThreeInOrder(cs: seq<ConstraintDef>)
    requires |cs| == 3 && NeedsOf(cs, 0) == [1] && NeedsOf(cs, 1) == [2] && NeedsOf(cs, 2) == []
    ensures Feeds(cs, 1, 0) && Feeds(cs, 2, 1) && Topological(cs, [2, 1, 0])
  {
    hide NeedsOf;
    var order: seq<nat> := [2, 1, 0];
    forall k, j | 0 <= k < |order| && Feeds(cs, j, order[k])
      ensures j in order[..k]
    {
      assert order[..1] == [2] && order[..2] == [2, 1];
    }
  }

  lemma ThreeNeeds(l: ConstraintDef, m: ConstraintDef, f: ConstraintDef)
    requires l.produces == f.produces == Some("x") && m.produces == Some("y")
    requires l.uses == ["y"] && m.uses == ["x"] && f.uses == []
    ensures var cs := [l, m, f]; NeedsOf(cs, 0) == [1] && NeedsOf(cs, 1) == [2] && NeedsOf(cs, 2) == []
  {
    hide ProducedBy;
    ProducedByOneMore([], l);
    ProducedByOneMore([l], m);
    ProducedByOneMore([l, m], f);
    assert [] + [l] == [l] && [l] + [m] == [l, m] && [l, m] + [f] == [l, m, f];
    var from := ProducedBy([l, m, f]);
    assert "x"[0] != "y"[0];
    assert from["x"] == 2 && from["y"] == 1;
    assert Needs(from, 0, []) == [] && Needs(from, 1, []) == [];
  }

  lemma ThreeInACircle(f: ConstraintDef, m: ConstraintDef, l: ConstraintDef)
    requires l.produces == f.produces == Some("x") && m.produces == Some("y")
    requires l.uses == ["y"] && m.uses == ["x"]
    ensures Circular([f, m, l])
  {
    hide ProducedBy;
    var ds := [f, m, l];
    ProducedByOneMore([f], m);
    ProducedByOneMore([f, m], l);
    assert [f] + [m] == [f, m] && [f, m] + [l] == ds;
    assert "x"[0] != "y"[0];
    UsesAreNeeds(ProducedBy(ds), 1, ["x"], "x");
    UsesAreNeeds(ProducedBy(ds), 2, ["y"], "y");
    assert Feeds(ds, 2, 1) && Feeds(ds, 1, 2);
    var walk := [1, 2, 1];
    assert Round(ds, walk);
  }

  lemma ThreeSettled(cs: seq<ConstraintDef>)
    requires |cs| == 3 && cs[0].produces == cs[2].produces == Some("x") && cs[1].produces == Some("y")
    requires cs[0].uses == ["y"] && cs[1].uses == ["x"] && cs[2].uses == []
    ensures Topological(cs, [2, 1, 0]) && Settled(cs)
  {
    hide Forced, Feeds, Topological, NeedsOf;
    ThreeNeeds(cs[0], cs[1], cs[2]);
    assert cs == [cs[0], cs[1], cs[2]];
    ThreeInOrder(cs);
    FeedingForces(cs, 1, 0);
    FeedingForces(cs, 2, 1);
    FeedingForcesOn(cs, 2, 1, 0);
    NotForcedBack(cs, [2, 1, 0], 1, 2);
    NotForcedBack(cs, [2, 1, 0], 0, 1);
    assert "x"[0] != "y"[0];
    assert forall s, j: nat :: Makes(cs, j, s) <==> (s == "x" && (j == 0 || j == 2)) || (s == "y" && j == 1);
    assert LastRival(cs, "y", 0, 1);
    assert LastRival(cs, "x", 1, 2);
    assert LastMaker(cs, "x", 0);
    assert LastMaker(cs, "y", 1);
  }

  lemma ListedTwoWays(cs: seq<ConstraintDef>, ds: seq<ConstraintDef>)
    requires Relisted(cs, ds) && !Circular(cs) && Circular(ds)
    ensures !ListingFree(cs)
  {
    hide Circular, AgreeOn, Topological;
    assert Relisted(cs, cs);
  }

  /** Three constraints that every order of one listing evaluates alike, and that another listing makes circular. */
  lemma OtherListingIsCircular(last: string, middle: string, first: string)
    ensures var l, m := ConstraintDef("l", last, ["y"], Some("x")), ConstraintDef("m", middle, ["x"], Some("y"));
            var f := ConstraintDef("f", first, [], Some("x"));
            && Topological([l, m, f], [2, 1, 0]) && Settled([l, m, f]) && OrderFree([l, m, f])
            && Relisted([l, m, f], [f, m, l]) && Circular([f, m, l])
            && !ListingFree([l, m, f])
  {
    hide Topological, Settled, OrderFree, Circular, ListingFree;
    var l, m := ConstraintDef("l", last, ["y"], Some("x")), ConstraintDef("m", middle, ["x"], Some("y"));
    var f := ConstraintDef("f", first, [], Some("x"));
    var cs, ds := [l, m, f], [f, m, l];
    ThreeSettled(cs);
    SettledIsOrderFree(cs);
    ThreeInACircle(f, m, l);
    OrderMeansNoCircle(cs, [2, 1, 0]);
    ListedTwoWays(cs, ds);
  }
}
