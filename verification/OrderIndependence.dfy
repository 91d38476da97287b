/** When the order of evaluation does not matter for one listing of the constraints: the exact condition on who
    produces and who uses what. */
module OrderIndependence {
  import opened SysmlModel
  import opened EvaluationOrder
  import opened ModelEvaluation

  // ----- What every order has in common -----

  /** A way along needs, from a constraint to one that cannot be evaluated before it. */
  ghost predicate Path(cs: seq<ConstraintDef>, walk: seq<nat>) {
    |walk| >= 2 && forall k :: 0 <= k < |walk| - 1 ==> Feeds(cs, walk[k], walk[k + 1])
  }

  /** `j` comes before `i` in every order. */
  ghost predicate Forced(cs: seq<ConstraintDef>, j: nat, i: nat) {
    exists walk :: Path(cs, walk) && walk[0] == j && walk[|walk| - 1] == i
  }

  lemma FeedingForces(cs: seq<ConstraintDef>, j: nat, i: nat)
    requires Feeds(cs, j, i)
    ensures Forced(cs, j, i)
  {
    hide Feeds;
    assert Path(cs, [j, i]);
  }

  lemma FeedingForcesOn(cs: seq<ConstraintDef>, x: nat, y: nat, z: nat)
    requires Feeds(cs, x, y) && Forced(cs, y, z)
    ensures Forced(cs, x, z)
  {
    hide Feeds;
    var walk :| Path(cs, walk) && walk[0] == y && walk[|walk| - 1] == z;
    var longer := [x] + walk;
    forall k | 0 <= k < |longer| - 1
      ensures Feeds(cs, longer[k], longer[k + 1])
    {
      if k > 0 {
        assert Feeds(cs, walk[k - 1], walk[k - 1 + 1]);
      }
    }
    assert Path(cs, longer);
  }

  lemma ForcedIsEarlier(cs: seq<ConstraintDef>, order: seq<nat>, j: nat, p: nat)
    requires Topological(cs, order) && p < |order| && Forced(cs, j, order[p])
    ensures exists q :: 0 <= q < p && order[q] == j
  {
    hide Feeds;
    var walk :| Path(cs, walk) && walk[0] == j && walk[|walk| - 1] == order[p];
    EarlierAlongWalk(cs, order, walk, |walk| - 1, p);
  }

  lemma ForcedInRange(cs: seq<ConstraintDef>, j: nat, i: nat)
    requires Forced(cs, j, i)
    ensures i < |cs| && j < |cs|
  {
    hide NeedsOf;
    var walk :| Path(cs, walk) && walk[0] == j && walk[|walk| - 1] == i;
    var k := |walk| - 2;
    assert Feeds(cs, walk[k], walk[k + 1]);
    assert Feeds(cs, walk[0], walk[0 + 1]);
    NeedIsConstraint(cs, walk[1], walk[0]);
  }

  /** Where a constraint stands in an order. */
  ghost function Place(cs: seq<ConstraintDef>, order: seq<nat>, i: nat): (p: nat)
    requires Topological(cs, order) && i < |cs|
    ensures p < |order| && order[p] == i
  {
    CoversAll(order, |cs|, i);
    var p :| 0 <= p < |order| && order[p] == i;
    p
  }

  lemma OnePlace(order: seq<nat>, p: nat, q: nat)
    requires NoRepeats(order) && p < |order| && q < |order| && order[p] == order[q]
    ensures p == q
  {
  }

  // ----- Rearranging an order -----

  function Keep(order: seq<nat>, kept: set<nat>): (r: seq<nat>)
    ensures forall x :: x in r <==> x in order && x in kept
  {
    if order == [] then []
    else
      var last := order[|order| - 1];
      assert order == order[..|order| - 1] + [last];
      Keep(order[..|order| - 1], kept) + if last in kept then [last] else []
  }

  /** What is kept stands behind just what was kept of what stood before it. */
  lemma {:induction false} KeptBehind(order: seq<nat>, kept: set<nat>, k: nat) returns (p: nat)
    requires k < |Keep(order, kept)|
    ensures p < |order| && order[p] == Keep(order, kept)[k] && Keep(order, kept)[..k] == Keep(order[..p], kept)
    decreases |order|
  {
    var init := order[..|order| - 1];
    var r := Keep(init, kept);
    if k < |r| {
      p := KeptBehind(init, kept, k);
      assert init[..p] == order[..p];
      assert Keep(order, kept)[..k] == r[..k];
    } else {
      p := |order| - 1;
      assert Keep(order, kept)[..k] == r;
    }
  }

  lemma {:induction false} KeepNoRepeats(order: seq<nat>, kept: set<nat>)
    requires NoRepeats(order)
    ensures NoRepeats(Keep(order, kept))
    decreases |order|
  {
    if order != [] {
      var init, last := order[..|order| - 1], order[|order| - 1];
      KeepNoRepeats(init, kept);
      assert last !in init;
    }
  }

  /** What has to come before some constraints. */
  ghost predicate Below(cs: seq<ConstraintDef>, low: set<nat>, mid: seq<nat>) {
    && (forall x, y :: Feeds(cs, x, y) && (y in low || y in mid) ==> x in low)
    && (forall x :: x in mid ==> x < |cs| && x !in low)
    && NoRepeats(mid)
  }

  function Rest(cs: seq<ConstraintDef>, low: set<nat>, mid: seq<nat>): set<nat> {
    set x: nat | x < |cs| && x !in low && x !in mid
  }

  function Arranged(cs: seq<ConstraintDef>, order: seq<nat>, low: set<nat>, mid: seq<nat>): seq<nat> {
    Keep(order, low) + (mid + Keep(order, Rest(cs, low, mid)))
  }

  lemma ArrangedElements(cs: seq<ConstraintDef>, order: seq<nat>, low: set<nat>, mid: seq<nat>)
    requires Topological(cs, order) && Below(cs, low, mid)
    ensures forall x :: x in Arranged(cs, order, low, mid) ==> x < |cs|
    ensures forall x :: 0 <= x < |cs| ==> x in Arranged(cs, order, low, mid)
    ensures NoRepeats(Arranged(cs, order, low, mid)) && |Arranged(cs, order, low, mid)| == |cs|
  {
    hide Feeds, NeedsFirst;
    var a, b := Keep(order, low), Keep(order, Rest(cs, low, mid));
    var all := Arranged(cs, order, low, mid);
    forall x | 0 <= x < |cs|
      ensures x in all
    {
      CoversAll(order, |cs|, x);
    }
    KeepNoRepeats(order, low);
    KeepNoRepeats(order, Rest(cs, low, mid));
    ThreeApart(a, mid, b);
    assert forall k :: 0 <= k < |all| ==> all[k] in all;
    NoRepeatsIsShort(all, |cs|);
    if |all| < |cs| {
      LeavesOneOut(all, |cs|);
    }
  }

  lemma ThreeApart(a: seq<nat>, mid: seq<nat>, b: seq<nat>)
    requires NoRepeats(a) && NoRepeats(mid) && NoRepeats(b)
    requires forall x :: x in a ==> x !in mid && x !in b
    requires forall x :: x in mid ==> x !in b
    ensures NoRepeats(a + (mid + b))
  {
    TwoApart(mid, b);
    TwoApart(a, mid + b);
  }

  lemma TwoApart(a: seq<nat>, b: seq<nat>)
    requires NoRepeats(a) && NoRepeats(b) && forall x :: x in a ==> x !in b
    ensures NoRepeats(a + b)
  {
    forall i, j | 0 <= i < j < |a + b|
      ensures (a + b)[i] != (a + b)[j]
    {
      if i < |a| <= j {
        assert a[i] in a && b[j - |a|] in b;
      }
    }
  }

  /** A rearranged order has every need of a constraint before it. */
  lemma NeedsStayFirst(cs: seq<ConstraintDef>, order: seq<nat>, low: set<nat>, mid: seq<nat>, k: nat, x: nat)
    requires Topological(cs, order) && Below(cs, low, mid)
    requires k < |Arranged(cs, order, low, mid)| && Feeds(cs, x, Arranged(cs, order, low, mid)[k])
    ensures x in Arranged(cs, order, low, mid)[..k]
  {
    hide Feeds, NoRepeats, Keep;
    var a, b := Keep(order, low), Keep(order, Rest(cs, low, mid));
    var all := Arranged(cs, order, low, mid);
    FeederInRange(cs, x, all[k]);
    CoversAll(order, |cs|, x);
    if k < |a| {
      var p := KeptBehind(order, low, k);
      assert all[k] in a;
      assert x in order[..p];
      assert all[..k] == a[..k];
    } else if k < |a| + |mid| {
      assert all[k] == mid[k - |a|];
      assert all[..k] == a + mid[..k - |a|];
    } else {
      var m := k - |a| - |mid|;
      assert all[k] == b[m];
      var p := KeptBehind(order, Rest(cs, low, mid), m);
      assert x in order[..p];
      assert all[..k] == a + (mid + b[..m]);
    }
  }

  /** An order may be rearranged so that just what has to comes before some constraints. */
  lemma ArrangedIsTopological(cs: seq<ConstraintDef>, order: seq<nat>, low: set<nat>, mid: seq<nat>)
    requires Topological(cs, order) && Below(cs, low, mid)
    ensures Topological(cs, Arranged(cs, order, low, mid))
  {
    hide Feeds, NoRepeats, Arranged, Below;
    var all := Arranged(cs, order, low, mid);
    ArrangedElements(cs, order, low, mid);
    forall k | 0 <= k < |all|
      ensures all[k] < |cs|
    {
      assert all[k] in all;
    }
    forall k, x | 0 <= k < |all| && Feeds(cs, x, all[k])
      ensures x in all[..k]
    {
      NeedsStayFirst(cs, order, low, mid, k, x);
    }
  }

  lemma FeederInRange(cs: seq<ConstraintDef>, x: nat, y: nat)
    requires Feeds(cs, x, y)
    ensures x < |cs| && y < |cs|
  {
    hide NeedsOf;
    NeedIsConstraint(cs, y, x);
  }

  /** What is forced before one of these. */
  ghost function Ancestors(cs: seq<ConstraintDef>, mid: seq<nat>): set<nat> {
    set x: nat | x < |cs| && ForcedBeforeOne(cs, x, mid)
  }

  ghost predicate ForcedBeforeOne(cs: seq<ConstraintDef>, x: nat, mid: seq<nat>) {
    exists m :: m in mid && Forced(cs, x, m)
  }

  lemma AncestorsAreBelow(cs: seq<ConstraintDef>, mid: seq<nat>)
    requires NoRepeats(mid) && (forall x :: x in mid ==> x < |cs|) && forall x, m :: x in mid && m in mid ==>
             !Forced(cs, x, m)
    ensures Below(cs, Ancestors(cs, mid), mid)
  {
    hide Feeds, Forced, NoRepeats;
    var low := Ancestors(cs, mid);
    forall x, y | Feeds(cs, x, y) && (y in low || y in mid)
      ensures x in low
    {
      FeederInRange(cs, x, y);
      if y in mid {
        FeedingForces(cs, x, y);
      } else {
        var m :| m in mid && Forced(cs, y, m);
        FeedingForcesOn(cs, x, y, m);
      }
    }
  }

  lemma NotForcedOnItself(cs: seq<ConstraintDef>, order: seq<nat>, i: nat)
    requires Topological(cs, order) && i < |cs|
    ensures !Forced(cs, i, i)
  {
    hide NeedsFirst, Forced;
    if Forced(cs, i, i) {
      ForcedIsEarlier(cs, order, i, Place(cs, order, i));
    }
  }

  /** Of two constraints that nothing forces apart, some order has one right before the other. */
  lemma OneBeforeOther(cs: seq<ConstraintDef>, order: seq<nat>, i: nat, j: nat) returns (a: seq<nat>, b: seq<nat>)
    requires Topological(cs, order) && i < |cs| && j < |cs| && i != j && !Forced(cs, i, j) && !Forced(cs, j, i)
    ensures Topological(cs, a + ([i, j] + b)) && Topological(cs, a + ([j, i] + b))
  {
    hide Forced, Topological, Feeds;
    NotForcedOnItself(cs, order, i);
    NotForcedOnItself(cs, order, j);
    TwoDiffer(i, j);
    AncestorsAreBelow(cs, [i, j]);
    AncestorsAreBelow(cs, [j, i]);
    assert Ancestors(cs, [i, j]) == Ancestors(cs, [j, i]);
    var low := Ancestors(cs, [i, j]);
    ArrangedIsTopological(cs, order, low, [i, j]);
    ArrangedIsTopological(cs, order, low, [j, i]);
    a, b := Keep(order, low), Keep(order, Rest(cs, low, [i, j]));
    assert Rest(cs, low, [i, j]) == Rest(cs, low, [j, i]);
  }

  lemma TwoDiffer(i: nat, j: nat)
    requires i != j
    ensures NoRepeats([i, j]) && NoRepeats([j, i])
  {
  }

  // ----- The condition -----

  predicate Makes(cs: seq<ConstraintDef>, j: nat, s: string) {
    j < |cs| && cs[j].produces == Some(s)
  }

  /** A producer that a reader of the symbol may find evaluated: another constraint, not forced after it. */
  ghost predicate Rival(cs: seq<ConstraintDef>, s: string, i: nat, j: nat) {
    Makes(cs, j, s) && j != i && !Forced(cs, i, j)
  }

  /** A rival forced before the reader, and after all other rivals. */
  ghost predicate LastRival(cs: seq<ConstraintDef>, s: string, i: nat, l: nat) {
    Rival(cs, s, i, l) && Forced(cs, l, i) && forall j :: Rival(cs, s, i, j) && j != l ==> Forced(cs, j, l)
  }

  /** A producer forced after all others. */
  ghost predicate LastMaker(cs: seq<ConstraintDef>, s: string, l: nat) {
    Makes(cs, l, s) && forall j :: Makes(cs, j, s) && j != l ==> Forced(cs, j, l)
  }

  /** What a constraint reads of a symbol is fixed: no rival, or one that is always the last. */
  ghost predicate ReadSettled(cs: seq<ConstraintDef>, s: string, i: nat) {
    (forall j :: !Rival(cs, s, i, j)) || exists l :: LastRival(cs, s, i, l)
  }

  /** What is left of a symbol is fixed: no producer, or one that is always the last. */
  ghost predicate ResultSettled(cs: seq<ConstraintDef>, s: string) {
    (forall j :: !Makes(cs, j, s)) || exists l :: LastMaker(cs, s, l)
  }

  ghost predicate ReadsSettled(cs: seq<ConstraintDef>) {
    forall i, s :: 0 <= i < |cs| && s in cs[i].uses ==> ReadSettled(cs, s, i)
  }

  ghost predicate Settled(cs: seq<ConstraintDef>) {
    ReadsSettled(cs) && forall s :: ResultSettled(cs, s)
  }

  // ----- Who wrote what is read -----

  /** The place of the last producer of a symbol among the first `k` of an order. */
  function WriterAt(cs: seq<ConstraintDef>, order: seq<nat>, k: nat, s: string): (w: Option<nat>)
    requires k <= |order|
    ensures w.Some? ==> w.value < k && Makes(cs, order[w.value], s) && forall q :: w.value < q < k ==>
            !Makes(cs, order[q], s)
    ensures w.None? ==> forall q :: 0 <= q < k ==> !Makes(cs, order[q], s)
  {
    if k == 0 then None
    else if Makes(cs, order[k - 1], s) then Some(k - 1)
    else WriterAt(cs, order, k - 1, s)
  }

  /** A reader whose reading is settled finds the same writer in every order. */
  lemma ReaderFinds(cs: seq<ConstraintDef>, order: seq<nat>, p: nat, s: string)
    requires Topological(cs, order) && p < |order|
    ensures (forall j :: !Rival(cs, s, order[p], j)) ==> WriterAt(cs, order, p, s) == None
    ensures forall l :: LastRival(cs, s, order[p], l) ==>
      var w := WriterAt(cs, order, p, s); w.Some? && order[w.value] == l
  {
    hide Forced, NeedsFirst;
    var i, w := order[p], WriterAt(cs, order, p, s);
    forall q | 0 <= q < p
      ensures order[q] != i && !Forced(cs, i, order[q])
    {
      NotForcedBack(cs, order, q, p);
    }
    assert w.Some? ==> Rival(cs, s, i, order[w.value]);
    forall l | LastRival(cs, s, i, l)
      ensures w.Some? && order[w.value] == l
    {
      ForcedIsEarlier(cs, order, l, p);
      var q :| 0 <= q < p && order[q] == l;
      assert w.Some? && q <= w.value;
      if q < w.value {
        NotForcedBack(cs, order, q, w.value);
      }
    }
  }

  lemma NoLaterPlace(order: seq<nat>, w: nat, q: nat)
    requires NoRepeats(order) && q < w < |order|
    ensures !exists r :: 0 <= r < q && order[r] == order[w]
  {
  }

  lemma NotForcedBack(cs: seq<ConstraintDef>, order: seq<nat>, q: nat, p: nat)
    requires Topological(cs, order) && q < p < |order|
    ensures order[q] != order[p] && !Forced(cs, order[p], order[q])
  {
    hide Forced, NeedsFirst;
    if Forced(cs, order[p], order[q]) {
      ForcedIsEarlier(cs, order, order[p], q);
      NoLaterPlace(order, p, q);
    }
  }

  lemma SameWriter(cs: seq<ConstraintDef>, one: seq<nat>, p: nat, other: seq<nat>, q: nat, s: string)
    requires Topological(cs, one) && Topological(cs, other) && p < |one| && q < |other| && one[p] == other[q]
    requires ReadSettled(cs, s, one[p])
    ensures var v, w := WriterAt(cs, one, p, s), WriterAt(cs, other, q, s);
            if v.None? then w.None? else w.Some? && one[v.value] == other[w.value]
  {
    hide Rival, LastRival, Topological;
    InRange(cs, one);
    InRange(cs, other);
    ReaderFinds(cs, one, p, s);
    ReaderFinds(cs, other, q, s);
  }

  /** A symbol whose result is settled has the same last writer in every order. */
  lemma LastWriter(cs: seq<ConstraintDef>, order: seq<nat>, s: string)
    requires Topological(cs, order)
    ensures (forall j :: !Makes(cs, j, s)) ==> WriterAt(cs, order, |order|, s) == None
    ensures forall l :: LastMaker(cs, s, l) ==>
      var w := WriterAt(cs, order, |order|, s); w.Some? && order[w.value] == l
  {
    hide Forced, NeedsFirst;
    var w := WriterAt(cs, order, |order|, s);
    forall l | LastMaker(cs, s, l)
      ensures w.Some? && order[w.value] == l
    {
      var q := Place(cs, order, l);
      assert w.Some? && q <= w.value;
      if q < w.value {
        NotForcedBack(cs, order, q, w.value);
      }
    }
  }

  lemma SameLastWriter(cs: seq<ConstraintDef>, one: seq<nat>, other: seq<nat>, s: string)
    requires Topological(cs, one) && Topological(cs, other) && ResultSettled(cs, s)
    ensures var v, w := WriterAt(cs, one, |one|, s), WriterAt(cs, other, |other|, s);
            if v.None? then w.None? else w.Some? && one[v.value] == other[w.value]
  {
    hide LastMaker, Topological, Makes;
    LastWriter(cs, one, s);
    LastWriter(cs, other, s);
  }

  // ----- What is read -----

  /** How far an evaluation has got without failing. */
  ghost predicate Runs(value: Formulas, cs: seq<ConstraintDef>, order: seq<nat>, inputs: Scope, k: nat)
    requires k <= |order| && forall i :: 0 <= i < |order| ==> order[i] < |cs|
  {
    EvaluateAll(value, cs, order[..k], inputs).failed.None?
  }

  /** A constraint's formula on the scope it is evaluated in. */
  ghost function ResultAt(value: Formulas, cs: seq<ConstraintDef>, order: seq<nat>, inputs: Scope, p: nat): Option<real>
    requires p < |order| && forall i :: 0 <= i < |order| ==> order[i] < |cs|
  {
    value(cs[order[p]].formula, EvaluateAll(value, cs, order[..p], inputs).scope)
  }

  lemma RunsOn(value: Formulas, cs: seq<ConstraintDef>, order: seq<nat>, inputs: Scope, k: nat)
    requires k < |order| && forall i :: 0 <= i < |order| ==> order[i] < |cs|
    ensures Runs(value, cs, order, inputs, k + 1) <==>
            Runs(value, cs, order, inputs, k) && ResultAt(value, cs, order, inputs, k).Some?
  {
    EvaluatedOneMore(value, cs, order, inputs, k);
  }

  lemma {:induction false} RanBefore(value: Formulas, cs: seq<ConstraintDef>, order: seq<nat>, inputs: Scope, j: nat,
                                     k: nat)
    requires j <= k <= |order| && (forall i :: 0 <= i < |order| ==> order[i] < |cs|) &&
             Runs(value, cs, order, inputs, k)
    ensures Runs(value, cs, order, inputs, j)
    ensures j < k ==> ResultAt(value, cs, order, inputs, j).Some?
    decreases k
  {
    hide Runs, ResultAt;
    if j < k {
      RunsOn(value, cs, order, inputs, k - 1);
      RanBefore(value, cs, order, inputs, j, k - 1);
    }
  }

  /** A symbol shows its last writer's result, or the input. */
  ghost predicate ShowsWriter(value: Formulas, cs: seq<ConstraintDef>, order: seq<nat>, inputs: Scope, k: nat,
                              s: string)
    requires k <= |order| && forall i :: 0 <= i < |order| ==> order[i] < |cs|
  {
    var e, w := EvaluateAll(value, cs, order[..k], inputs), WriterAt(cs, order, k, s);
    if w.None? then SameAt(e.scope, inputs, s) && s !in e.outputs
    else
      && ResultAt(value, cs, order, inputs, w.value).Some?
      && s in e.scope && e.scope[s] == ResultAt(value, cs, order, inputs, w.value).value
      && s in e.outputs && e.outputs[s] == e.scope[s]
  }

  lemma {:induction false} ScopeShowsWriters(value: Formulas, cs: seq<ConstraintDef>, order: seq<nat>, inputs: Scope,
                                             k: nat, s: string)
    requires k <= |order| && (forall i :: 0 <= i < |order| ==> order[i] < |cs|) && Runs(value, cs, order, inputs, k)
    ensures ShowsWriter(value, cs, order, inputs, k, s)
    decreases k
  {
    hide ResultAt, Runs, EvaluateAll, Evaluated, Makes;
    if k == 0 {
      NothingShown(value, cs, order, inputs, s);
    } else {
      RunsOn(value, cs, order, inputs, k - 1);
      ScopeShowsWriters(value, cs, order, inputs, k - 1, s);
      EvaluatedOneMore(value, cs, order, inputs, k - 1);
      ResultIs(value, cs, order, inputs, k - 1);
      NotFailed(value, cs, order, inputs, k - 1);
      EvaluatedShows(value, cs, order[k - 1], EvaluateAll(value, cs, order[..k - 1], inputs), s);
    }
  }

  lemma NotFailed(value: Formulas, cs: seq<ConstraintDef>, order: seq<nat>, inputs: Scope, k: nat)
    requires k <= |order| && (forall i :: 0 <= i < |order| ==> order[i] < |cs|) && Runs(value, cs, order, inputs, k)
    ensures EvaluateAll(value, cs, order[..k], inputs).failed.None?
  {
  }

  lemma NothingShown(value: Formulas, cs: seq<ConstraintDef>, order: seq<nat>, inputs: Scope, s: string)
    requires forall i :: 0 <= i < |order| ==> order[i] < |cs|
    ensures ShowsWriter(value, cs, order, inputs, 0, s)
  {
    assert order[..0] == [];
  }

  lemma EvaluatedShows(value: Formulas, cs: seq<ConstraintDef>, i: nat, e: Evaluation, s: string)
    requires i < |cs| && value(cs[i].formula, e.scope).Some?
    ensures var after := Evaluated(value, cs[i], e);
            if Makes(cs, i, s) then
              && s in after.scope && after.scope[s] == value(cs[i].formula, e.scope).value
              && s in after.outputs && after.outputs[s] == after.scope[s]
            else SameAt(after.scope, e.scope, s) && SameAt(after.outputs, e.outputs, s)
  {
  }

  lemma ResultIs(value: Formulas, cs: seq<ConstraintDef>, order: seq<nat>, inputs: Scope, p: nat)
    requires p < |order| && forall i :: 0 <= i < |order| ==> order[i] < |cs|
    ensures ResultAt(value, cs, order, inputs, p) ==
            value(cs[order[p]].formula, EvaluateAll(value, cs, order[..p], inputs).scope)
  {
  }

  /** A constraint that two orders both reach has the same result in both. */
  lemma {:induction false} SameResult(value: Formulas, cs: seq<ConstraintDef>, one: seq<nat>, p: nat, other: seq<nat>,
                                      q: nat, inputs: Scope)
    requires Topological(cs, one) && Topological(cs, other) && p < |one| && q < |other| && one[p] == other[q]
    requires ReadsSettled(cs) && ReadsOnlyUses(value, cs)
    requires Runs(value, cs, one, inputs, p) && Runs(value, cs, other, inputs, q)
    ensures ResultAt(value, cs, one, inputs, p) == ResultAt(value, cs, other, inputs, q)
    decreases p
  {
    hide NeedsFirst, NoRepeats, ReadSettled, EvaluateAll, Runs, ResultAt;
    var i := one[p];
    var s, t := EvaluateAll(value, cs, one[..p], inputs).scope, EvaluateAll(value, cs, other[..q], inputs).scope;
    forall u | u in cs[i].uses
      ensures SameAt(s, t, u)
    {
      SameWriter(cs, one, p, other, q, u);
      ScopeShowsWriters(value, cs, one, inputs, p, u);
      ScopeShowsWriters(value, cs, other, inputs, q, u);
      var v, w := WriterAt(cs, one, p, u), WriterAt(cs, other, q, u);
      if v.Some? {
        RanBefore(value, cs, one, inputs, v.value, p);
        RanBefore(value, cs, other, inputs, w.value, q);
        SameResult(value, cs, one, v.value, other, w.value, inputs);
      }
    }
    assert SameOn(s, t, cs[i].uses);
    ResultIs(value, cs, one, inputs, p);
    ResultIs(value, cs, other, inputs, q);
  }

  // ----- Enough -----

  ghost predicate SameOutcome(e: Evaluation, f: Evaluation) {
    && (e.failed.None? <==> f.failed.None?)
    && (e.failed.None? ==> e.outputs == f.outputs && e.scope == f.scope)
  }

  /** Every two orders have the same outcome, whatever the formulas compute and whatever the inputs. */
  ghost predicate OrderFree(cs: seq<ConstraintDef>) {
    forall value, one, other, inputs ::
      ReadsOnlyUses(value, cs) && Topological(cs, one) && Topological(cs, other) ==>
      SameOutcome(EvaluateAll(value, cs, one, inputs), EvaluateAll(value, cs, other, inputs))
  }

  lemma WholeRun(value: Formulas, cs: seq<ConstraintDef>, order: seq<nat>, inputs: Scope)
    requires forall i :: 0 <= i < |order| ==> order[i] < |cs|
    ensures Runs(value, cs, order, inputs, |order|) <==> EvaluateAll(value, cs, order, inputs).failed.None?
    ensures order[..|order|] == order
  {
    assert order[..|order|] == order;
  }

  lemma {:induction false} OtherRunsToo(value: Formulas, cs: seq<ConstraintDef>, one: seq<nat>, other: seq<nat>,
                                        inputs: Scope, k: nat)
    requires Topological(cs, one) && Topological(cs, other) && ReadsSettled(cs) && ReadsOnlyUses(value, cs)
    requires Runs(value, cs, one, inputs, |one|) && k <= |other|
    ensures Runs(value, cs, other, inputs, k)
    decreases k
  {
    hide NeedsFirst, NoRepeats, ReadsSettled, ReadsOnlyUses, ResultAt, Runs;
    if k == 0 {
      NothingRun(value, cs, other, inputs);
    } else {
      OtherRunsToo(value, cs, one, other, inputs, k - 1);
      var p := Place(cs, one, other[k - 1]);
      RanBefore(value, cs, one, inputs, p, |one|);
      SameResult(value, cs, one, p, other, k - 1, inputs);
      RunsOn(value, cs, other, inputs, k - 1);
    }
  }

  lemma NothingRun(value: Formulas, cs: seq<ConstraintDef>, order: seq<nat>, inputs: Scope)
    requires forall i :: 0 <= i < |order| ==> order[i] < |cs|
    ensures Runs(value, cs, order, inputs, 0)
  {
    assert order[..0] == [];
  }

  lemma SameAtTheEnd(value: Formulas, cs: seq<ConstraintDef>, one: seq<nat>, other: seq<nat>, inputs: Scope, s: string)
    requires Topological(cs, one) && Topological(cs, other) && ReadsSettled(cs) && ResultSettled(cs, s) &&
             ReadsOnlyUses(value, cs)
    requires Runs(value, cs, one, inputs, |one|) && Runs(value, cs, other, inputs, |other|)
    ensures var e, f := EvaluateAll(value, cs, one, inputs), EvaluateAll(value, cs, other, inputs);
            SameAt(e.outputs, f.outputs, s) && SameAt(e.scope, f.scope, s)
  {
    hide NeedsFirst, NoRepeats, ReadsSettled, ReadsOnlyUses, ResultAt, Runs, EvaluateAll, ResultSettled;
    WholeRun(value, cs, one, inputs);
    WholeRun(value, cs, other, inputs);
    SameLastWriter(cs, one, other, s);
    ScopeShowsWriters(value, cs, one, inputs, |one|, s);
    ScopeShowsWriters(value, cs, other, inputs, |other|, s);
    var v, w := WriterAt(cs, one, |one|, s), WriterAt(cs, other, |other|, s);
    if v.Some? {
      RanBefore(value, cs, one, inputs, v.value, |one|);
      RanBefore(value, cs, other, inputs, w.value, |other|);
      SameResult(value, cs, one, v.value, other, w.value, inputs);
    }
  }

  lemma SameEverywhere(s: Scope, t: Scope)
    requires forall u :: SameAt(s, t, u)
    ensures s == t
  {
    assert forall u :: u in s <==> u in t by {
      forall u ensures u in s <==> u in t { assert SameAt(s, t, u); }
    }
    forall u | u in s
      ensures s[u] == t[u]
    {
      assert SameAt(s, t, u);
    }
  }

  lemma SettledGivesSameOutcome(value: Formulas, cs: seq<ConstraintDef>, one: seq<nat>, other: seq<nat>, inputs: Scope)
    requires Settled(cs) && ReadsOnlyUses(value, cs) && Topological(cs, one) && Topological(cs, other)
    requires EvaluateAll(value, cs, one, inputs).failed.None?
    ensures var e, f := EvaluateAll(value, cs, one, inputs), EvaluateAll(value, cs, other, inputs);
            f.failed.None? && e.outputs == f.outputs && e.scope == f.scope
  {
    hide NeedsFirst, NoRepeats, ReadsSettled, ReadsOnlyUses, Runs, EvaluateAll, ResultSettled, SameAt;
    WholeRun(value, cs, one, inputs);
    WholeRun(value, cs, other, inputs);
    OtherRunsToo(value, cs, one, other, inputs, |other|);
    var e, f := EvaluateAll(value, cs, one, inputs), EvaluateAll(value, cs, other, inputs);
    forall s
      ensures SameAt(e.outputs, f.outputs, s) && SameAt(e.scope, f.scope, s)
    {
      SameAtTheEnd(value, cs, one, other, inputs, s);
    }
    SameEverywhere(e.outputs, f.outputs);
    SameEverywhere(e.scope, f.scope);
  }

  lemma SettledIsOrderFree(cs: seq<ConstraintDef>)
    requires Settled(cs)
    ensures OrderFree(cs)
  {
    hide Settled, ReadsOnlyUses, EvaluateAll, Topological;
    forall value, one, other, inputs | ReadsOnlyUses(value, cs) && Topological(cs, one) && Topological(cs, other)
      ensures InRangeOf(cs, one) && InRangeOf(cs, other)
      ensures SameOutcome(EvaluateAll(value, cs, one, inputs), EvaluateAll(value, cs, other, inputs))
    {
      InRange(cs, one);
      InRange(cs, other);
      if EvaluateAll(value, cs, one, inputs).failed.None? {
        SettledGivesSameOutcome(value, cs, one, other, inputs);
      } else if EvaluateAll(value, cs, other, inputs).failed.None? {
        SettledGivesSameOutcome(value, cs, other, one, inputs);
      }
    }
  }

  ghost predicate InRangeOf(cs: seq<ConstraintDef>, order: seq<nat>) {
    forall k :: 0 <= k < |order| ==> order[k] < |cs|
  }

  // ----- And no less -----

  ghost predicate DistinctFormulas(cs: seq<ConstraintDef>) {
    forall i, j :: 0 <= i < j < |cs| ==> cs[i].formula != cs[j].formula
  }

  function IndexOf(cs: seq<ConstraintDef>, formula: string): nat {
    if cs == [] then 0
    else if cs[|cs| - 1].formula == formula then |cs| - 1
    else IndexOf(cs[..|cs| - 1], formula)
  }

  lemma {:induction false} IndexOfFormula(cs: seq<ConstraintDef>, i: nat)
    requires DistinctFormulas(cs) && i < |cs|
    ensures IndexOf(cs, cs[i].formula) == i
    decreases |cs|
  {
    if i < |cs| - 1 {
      assert cs[i].formula != cs[|cs| - 1].formula;
      IndexOfFormula(cs[..|cs| - 1], i);
    }
  }

  /** Every constraint computes its own number, but one fails when it finds a given number. */
  function Probe(cs: seq<ConstraintDef>, i: nat, s: string, x: nat): Formulas
    requires i < |cs|
  {
    (formula, scope) =>
      if formula == cs[i].formula && s in scope && scope[s] == x as real then None
        else Some(IndexOf(cs, formula) as real)
  }

  /** Every constraint computes its own number. */
  function Numbers(cs: seq<ConstraintDef>): Formulas {
    (formula, scope) => Some(IndexOf(cs, formula) as real)
  }

  lemma ProbeReads(cs: seq<ConstraintDef>, i: nat, s: string, x: nat)
    requires DistinctFormulas(cs) && i < |cs| && s in cs[i].uses
    ensures ReadsOnlyUses(Probe(cs, i, s, x), cs)
  {
    hide IndexOf;
    var value := Probe(cs, i, s, x);
    forall k, a, b | 0 <= k < |cs| && SameOn(a, b, cs[k].uses)
      ensures value(cs[k].formula, a) == value(cs[k].formula, b)
    {
      if cs[k].formula == cs[i].formula {
        assert k == i;
        assert SameAt(a, b, s);
      }
    }
  }

  /** What a reader finds of a symbol. */
  ghost predicate Finds(cs: seq<ConstraintDef>, order: seq<nat>, i: nat, s: string, x: nat)
    requires Topological(cs, order) && i < |cs|
  {
    var w := WriterAt(cs, order, Place(cs, order, i), s);
    w.Some? && order[w.value] == x
  }

  lemma ProbeResult(cs: seq<ConstraintDef>, i: nat, s: string, x: nat, order: seq<nat>, p: nat)
    requires DistinctFormulas(cs) && Topological(cs, order) && i < |cs| && p < |order|
    requires Runs(Probe(cs, i, s, x), cs, order, map[], p)
    ensures ResultAt(Probe(cs, i, s, x), cs, order, map[], p).None? <==> order[p] == i && Finds(cs, order, i, s, x)
  {
    hide IndexOf, EvaluateAll, Runs, NeedsFirst, Makes;
    var value := Probe(cs, i, s, x);
    ScopeShowsWriters(value, cs, order, map[], p, s);
    IndexOfFormula(cs, order[p]);
    IndexOfFormula(cs, i);
    OnePlace(order, p, Place(cs, order, order[p]));
    var w := WriterAt(cs, order, p, s);
    if w.Some? {
      IndexOfFormula(cs, order[w.value]);
    }
  }

  lemma {:induction false} ProbeRuns(cs: seq<ConstraintDef>, i: nat, s: string, x: nat, order: seq<nat>, k: nat)
    requires DistinctFormulas(cs) && Topological(cs, order) && i < |cs| && k <= |order|
    ensures Runs(Probe(cs, i, s, x), cs, order, map[], k) <==> !(Place(cs, order, i) < k && Finds(cs, order, i, s, x))
    decreases k
  {
    hide Probe, Runs, NeedsFirst, Finds, ResultAt;
    if k == 0 {
      NothingRun(Probe(cs, i, s, x), cs, order, map[]);
    } else {
      ProbeRuns(cs, i, s, x, order, k - 1);
      RunsOn(Probe(cs, i, s, x), cs, order, map[], k - 1);
      if Runs(Probe(cs, i, s, x), cs, order, map[], k - 1) {
        ProbeResult(cs, i, s, x, order, k - 1);
        if order[k - 1] == i {
          OnePlace(order, k - 1, Place(cs, order, i));
        }
      }
    }
  }

  /** A probe fails exactly in the orders in which its reader finds its number. */
  lemma ProbeFailsIff(cs: seq<ConstraintDef>, i: nat, s: string, x: nat, order: seq<nat>)
    requires DistinctFormulas(cs) && Topological(cs, order) && i < |cs|
    ensures EvaluateAll(Probe(cs, i, s, x), cs, order, map[]).failed.None? <==> !Finds(cs, order, i, s, x)
  {
    hide Probe, Runs, NeedsFirst, Finds, EvaluateAll;
    ProbeRuns(cs, i, s, x, order, |order|);
    WholeRun(Probe(cs, i, s, x), cs, order, map[]);
  }

  /** Where a reading is not settled, two orders make the reader find different things. */
  lemma UnsettledReadShows(cs: seq<ConstraintDef>, order: seq<nat>, i: nat, s: string)
    returns (one: seq<nat>, other: seq<nat>, x: nat)
    requires Topological(cs, order) && i < |cs| && !ReadSettled(cs, s, i)
    ensures Topological(cs, one) && Topological(cs, other)
    ensures Finds(cs, one, i, s, x) && !Finds(cs, other, i, s, x)
  {
    hide Forced, Topological, LastRival;
    if j :| Rival(cs, s, i, j) && !Forced(cs, j, i) {
      var a, b := OneBeforeOther(cs, order, i, j);
      one, other, x := a + ([j, i] + b), a + ([i, j] + b), j;
      JustBefore(cs, a, b, i, j, s);
    } else {
      var j :| Rival(cs, s, i, j);
      x := ReadLast(cs, order, i, s, j);
      var k := NotAfter(cs, order, i, s, x);
      var a, b := OneBeforeOther(cs, order, x, k);
      one, other := order, a + ([x, k] + b);
      LaterHides(cs, a, b, i, x, k, s);
    }
  }

  lemma JustBefore(cs: seq<ConstraintDef>, a: seq<nat>, b: seq<nat>, i: nat, j: nat, s: string)
    requires Topological(cs, a + ([j, i] + b)) && Topological(cs, a + ([i, j] + b)) && i < |cs| && Makes(cs, j, s) &&
             i != j
    ensures Finds(cs, a + ([j, i] + b), i, s, j) && !Finds(cs, a + ([i, j] + b), i, s, j)
  {
    hide NeedsFirst;
    var one, other := a + ([j, i] + b), a + ([i, j] + b);
    assert one[|a|] == j && one[|a| + 1] == i && other[|a|] == i && other[|a| + 1] == j;
    OnePlace(one, |a| + 1, Place(cs, one, i));
    OnePlace(other, |a|, Place(cs, other, i));
    var w := WriterAt(cs, other, |a|, s);
    if w.Some? {
      assert other[w.value] != other[|a| + 1];
    }
  }

  /** The last rival before a reader, where all rivals are forced before it. */
  lemma ReadLast(cs: seq<ConstraintDef>, order: seq<nat>, i: nat, s: string, j: nat) returns (x: nat)
    requires Topological(cs, order) && i < |cs| && Rival(cs, s, i, j)
    requires forall j :: Rival(cs, s, i, j) ==> Forced(cs, j, i)
    ensures Finds(cs, order, i, s, x) && Rival(cs, s, i, x)
  {
    hide Forced, NeedsFirst;
    var p := Place(cs, order, i);
    ForcedIsEarlier(cs, order, j, p);
    var w := WriterAt(cs, order, p, s);
    x := order[w.value];
    NotForcedBack(cs, order, w.value, p);
  }

  /** A rival that is not forced before the one found, nor behind it. */
  lemma NotAfter(cs: seq<ConstraintDef>, order: seq<nat>, i: nat, s: string, x: nat) returns (k: nat)
    requires Topological(cs, order) && i < |cs| && Finds(cs, order, i, s, x) && Rival(cs, s, i, x)
    requires !ReadSettled(cs, s, i) && forall j :: Rival(cs, s, i, j) ==> Forced(cs, j, i)
    ensures Rival(cs, s, i, k) && k != x && !Forced(cs, k, x) && !Forced(cs, x, k) && Forced(cs, k, i)
  {
    hide Forced, NeedsFirst;
    assert !LastRival(cs, s, i, x);
    k :| Rival(cs, s, i, k) && k != x && !Forced(cs, k, x);
    var p := Place(cs, order, i);
    ForcedIsEarlier(cs, order, k, p);
    var q :| 0 <= q < p && order[q] == k;
    var w := WriterAt(cs, order, p, s);
    assert q < w.value;
    NotForcedBack(cs, order, q, w.value);
  }

  /** A writer with another right behind it, before the reader, is not found. */
  lemma LaterHides(cs: seq<ConstraintDef>, a: seq<nat>, b: seq<nat>, i: nat, x: nat, k: nat, s: string)
    requires Topological(cs, a + ([x, k] + b)) && i < |cs| && Makes(cs, k, s) && Forced(cs, k, i)
    ensures !Finds(cs, a + ([x, k] + b), i, s, x)
  {
    hide NeedsFirst, Forced;
    var order := a + ([x, k] + b);
    assert order[|a|] == x && order[|a| + 1] == k;
    var p := Place(cs, order, i);
    ForcedIsEarlier(cs, order, k, p);
    var q :| 0 <= q < p && order[q] == k;
    OnePlace(order, q, |a| + 1);
    var w := WriterAt(cs, order, p, s);
    assert order[w.value] != order[|a|];
  }

  lemma ReadsMustSettle(cs: seq<ConstraintDef>, order: seq<nat>, i: nat, s: string)
    requires OrderFree(cs) && DistinctFormulas(cs) && Topological(cs, order) && i < |cs| && s in cs[i].uses
    ensures ReadSettled(cs, s, i)
  {
    hide ReadSettled, Topological, DistinctFormulas, ReadsOnlyUses, EvaluateAll, Probe, Finds;
    if !ReadSettled(cs, s, i) {
      var one, other, x := UnsettledReadShows(cs, order, i, s);
      ProbeReads(cs, i, s, x);
      ProbeFailsIff(cs, i, s, x, one);
      ProbeFailsIff(cs, i, s, x, other);
      InRange(cs, one);
      InRange(cs, other);
      Compared(cs, Probe(cs, i, s, x), one, other);
    }
  }

  lemma Compared(cs: seq<ConstraintDef>, value: Formulas, one: seq<nat>, other: seq<nat>)
    requires OrderFree(cs) && ReadsOnlyUses(value, cs) && Topological(cs, one) && Topological(cs, other)
    ensures SameOutcome(EvaluateAll(value, cs, one, map[]), EvaluateAll(value, cs, other, map[]))
  {
    hide ReadsOnlyUses, EvaluateAll, SameOutcome;
  }

  // ----- Results -----

  lemma NumbersRead(names: seq<ConstraintDef>, cs: seq<ConstraintDef>)
    ensures ReadsOnlyUses(Numbers(names), cs)
  {
  }

  lemma {:induction false} NumbersRun(names: seq<ConstraintDef>, cs: seq<ConstraintDef>, order: seq<nat>, k: nat)
    requires k <= |order| && forall i :: 0 <= i < |order| ==> order[i] < |cs|
    ensures Runs(Numbers(names), cs, order, map[], k)
    decreases k
  {
    hide IndexOf, EvaluateAll;
    if k == 0 {
      NothingRun(Numbers(names), cs, order, map[]);
    } else {
      NumbersRun(names, cs, order, k - 1);
      RunsOn(Numbers(names), cs, order, map[], k - 1);
    }
  }

  lemma NumbersShow(names: seq<ConstraintDef>, cs: seq<ConstraintDef>, order: seq<nat>, s: string)
    requires Topological(cs, order) && WriterAt(cs, order, |order|, s).Some?
    ensures var e := EvaluateAll(Numbers(names), cs, order, map[]);
            var last := cs[order[WriterAt(cs, order, |order|, s).value]];
            e.failed.None? && s in e.outputs && e.outputs[s] == IndexOf(names, last.formula) as real
  {
    hide IndexOf, EvaluateAll, Makes, NeedsFirst;
    NumbersRun(names, cs, order, |order|);
    WholeRun(Numbers(names), cs, order, map[]);
    ScopeShowsWriters(Numbers(names), cs, order, map[], |order|, s);
  }

  lemma OwnNumbersShow(cs: seq<ConstraintDef>, order: seq<nat>, s: string)
    requires DistinctFormulas(cs) && Topological(cs, order) && WriterAt(cs, order, |order|, s).Some?
    ensures var e := EvaluateAll(Numbers(cs), cs, order, map[]);
            e.failed.None? && s in e.outputs && e.outputs[s] == order[WriterAt(cs, order, |order|, s).value] as real
  {
    hide IndexOf, EvaluateAll, Makes, NeedsFirst;
    NumbersShow(cs, cs, order, s);
    IndexOfFormula(cs, order[WriterAt(cs, order, |order|, s).value]);
  }

  /** Where a result is not settled, two orders leave different results. */
  lemma UnsettledResultShows(cs: seq<ConstraintDef>, order: seq<nat>, s: string) returns (other: seq<nat>)
    requires Topological(cs, order) && !ResultSettled(cs, s)
    ensures Topological(cs, other)
    ensures var v, w := WriterAt(cs, order, |order|, s), WriterAt(cs, other, |other|, s);
            v.Some? && w.Some? && order[v.value] != other[w.value]
  {
    hide Forced, NeedsFirst;
    var j :| Makes(cs, j, s);
    var p := Place(cs, order, j);
    var v := WriterAt(cs, order, |order|, s);
    var x := order[v.value];
    assert !LastMaker(cs, s, x);
    var k :| Makes(cs, k, s) && k != x && !Forced(cs, k, x);
    var q := Place(cs, order, k);
    NotForcedBack(cs, order, q, v.value);
    var a, b := OneBeforeOther(cs, order, x, k);
    other := a + ([x, k] + b);
    assert other[|a|] == x && other[|a| + 1] == k;
    var w := WriterAt(cs, other, |other|, s);
    assert w.Some? && w.value >= |a| + 1;
    assert other[|a|] != other[w.value];
  }

  lemma ResultsMustSettle(cs: seq<ConstraintDef>, order: seq<nat>, s: string)
    requires OrderFree(cs) && DistinctFormulas(cs) && Topological(cs, order)
    ensures ResultSettled(cs, s)
  {
    hide ResultSettled, Topological, DistinctFormulas, ReadsOnlyUses, EvaluateAll, Numbers, Makes;
    if !ResultSettled(cs, s) {
      var other := UnsettledResultShows(cs, order, s);
      NumbersRead(cs, cs);
      OwnNumbersShow(cs, order, s);
      OwnNumbersShow(cs, other, s);
      InRange(cs, order);
      InRange(cs, other);
      Compared(cs, Numbers(cs), order, other);
    }
  }

  /** For one listing of constraints that can be evaluated at all and whose formulas are their own, the order does
      not matter for any formulas and inputs if and only if every reading and every result is settled. */
  lemma OrderFreeIff(cs: seq<ConstraintDef>, order: seq<nat>)
    requires Topological(cs, order) && DistinctFormulas(cs)
    ensures OrderFree(cs) <==> Settled(cs)
  {
    hide OrderFree, Topological, DistinctFormulas, ReadSettled, ResultSettled;
    if Settled(cs) {
      SettledIsOrderFree(cs);
    }
    if OrderFree(cs) {
      forall i, s | 0 <= i < |cs| && s in cs[i].uses
        ensures ReadSettled(cs, s, i)
      {
        ReadsMustSettle(cs, order, i, s);
      }
      forall s
        ensures ResultSettled(cs, s)
      {
        ResultsMustSettle(cs, order, s);
      }
    }
  }
}
