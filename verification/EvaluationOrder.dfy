/** The order in which a reusable model's constraints are evaluated: Kahn's algorithm over who produces
    what the others use. */
module EvaluationOrder {
  import opened SysmlModel

  datatype ConstraintDef = ConstraintDef(id: Id, formula: string, uses: seq<string>, produces: Option<string>)

  /** The constraint that produces each symbol; the last one listed wins. */
  function ProducedBy(cs: seq<ConstraintDef>): (m: map<string, nat>)
    ensures forall s :: s in m ==> m[s] < |cs| && cs[m[s]].produces == Some(s)
    ensures forall i :: 0 <= i < |cs| && cs[i].produces.Some? ==> cs[i].produces.value in m
  {
    if cs == [] then map[]
    else
      var last := |cs| - 1;
      var m := ProducedBy(cs[..last]);
      if cs[last].produces.Some? then m[cs[last].produces.value := last] else m
  }

  /** The producers of the first `k` symbols the `i`th constraint uses, itself left out; one is listed as
      often as its symbol is. */
  function Needs(producedBy: map<string, nat>, i: nat, uses: seq<string>): seq<nat> {
    if uses == [] then []
    else
      var u := uses[|uses| - 1];
      Needs(producedBy, i, uses[..|uses| - 1]) + if u in producedBy && producedBy[u] != i then [producedBy[u]] else []
  }

  function NeedsOf(cs: seq<ConstraintDef>, i: nat): seq<nat>
    requires i < |cs|
  {
    Needs(ProducedBy(cs), i, cs[i].uses)
  }

  predicate Feeds(cs: seq<ConstraintDef>, j: nat, i: nat) {
    i < |cs| && j in NeedsOf(cs, i)
  }

  /** A round of constraints, each needing the one before it. */
  ghost predicate Round(cs: seq<ConstraintDef>, walk: seq<nat>) {
    && |walk| >= 2 && walk[0] == walk[|walk| - 1]
    && forall k :: 0 <= k < |walk| - 1 ==> Feeds(cs, walk[k], walk[k + 1])
  }

  ghost predicate Circular(cs: seq<ConstraintDef>) {
    exists walk :: Round(cs, walk)
  }

  ghost predicate NoRepeats(s: seq<nat>) {
    forall i, j :: 0 <= i < j < |s| ==> s[i] != s[j]
  }

  /** Each constraint occurs once, after all it needs. */
  ghost predicate Topological(cs: seq<ConstraintDef>, order: seq<nat>) {
    && |order| == |cs| && NoRepeats(order)
    && (forall k :: 0 <= k < |order| ==> order[k] < |cs|)
    && NeedsFirst(cs, order)
  }

  ghost predicate NeedsFirst(cs: seq<ConstraintDef>, order: seq<nat>) {
    forall k, j :: 0 <= k < |order| && Feeds(cs, j, order[k]) ==> j in order[..k]
  }

  // ----- Counting -----

  function Count(s: seq<nat>, x: nat): nat {
    if s == [] then 0 else Count(s[..|s| - 1], x) + if s[|s| - 1] == x then 1 else 0
  }

  /** How many entries are still to be evaluated. */
  function Pending(s: seq<nat>, done: set<nat>): nat {
    if s == [] then 0 else Pending(s[..|s| - 1], done) + if s[|s| - 1] in done then 0 else 1
  }

  lemma {:induction false} PendingFalls(s: seq<nat>, done: set<nat>, x: nat)
    requires x !in done
    ensures Pending(s, done) == Pending(s, done + {x}) + Count(s, x)
  {
    if s != [] {
      PendingFalls(s[..|s| - 1], done, x);
    }
  }

  lemma {:induction false} NonePending(s: seq<nat>, done: set<nat>)
    ensures Pending(s, done) == 0 <==> forall x :: x in s ==> x in done
  {
    if s != [] {
      NonePending(s[..|s| - 1], done);
      assert s == s[..|s| - 1] + [s[|s| - 1]];
    }
  }

  lemma {:induction false} CountPrefix(s: seq<nat>, k: nat)
    requires k < |s|
    ensures Count(s[..k], s[k]) < Count(s, s[k])
  {
    CountGrows(s, s[k], k + 1);
    assert s[..k + 1][..k] == s[..k];
  }

  lemma {:induction false} CountGrows(s: seq<nat>, x: nat, k: nat)
    requires k <= |s|
    ensures Count(s[..k], x) <= Count(s, x)
  {
    if k < |s| {
      CountGrows(s[..|s| - 1], x, k);
      assert s[..|s| - 1][..k] == s[..k];
    } else {
      assert s[..k] == s;
    }
  }

  lemma {:induction false} CountIsIn(s: seq<nat>, x: nat)
    ensures Count(s, x) > 0 <==> x in s
  {
    if s != [] {
      CountIsIn(s[..|s| - 1], x);
      assert s == s[..|s| - 1] + [s[|s| - 1]];
    }
  }

  lemma {:induction false} NeedsAreConstraints(producedBy: map<string, nat>, i: nat, uses: seq<string>, n: nat)
    requires forall s :: s in producedBy ==> producedBy[s] < n
    ensures forall j :: j in Needs(producedBy, i, uses) ==> j < n && j != i
  {
    if uses != [] {
      NeedsAreConstraints(producedBy, i, uses[..|uses| - 1], n);
    }
  }

  // ----- Circular dependencies -----

  lemma {:induction false} LongListRepeats(s: seq<nat>, n: nat)
    requires |s| > n && forall k :: 0 <= k < |s| ==> s[k] < n
    ensures exists i, j :: 0 <= i < j < |s| && s[i] == s[j]
  {
    if !exists i, j :: 0 <= i < j < |s| && s[i] == s[j] {
      NoRepeatsIsShort(s, n);
    }
  }

  lemma {:induction false} NoRepeatsIsShort(s: seq<nat>, n: nat)
    requires forall k :: 0 <= k < |s| ==> s[k] < n
    requires NoRepeats(s)
    ensures |s| <= n
    decreases n
  {
    assert s != [] ==> s[0] < n;
    if n > 0 {
      if i :| 0 <= i < |s| && s[i] == n - 1 {
        var rest := s[..i] + s[i + 1..];
        forall k | 0 <= k < |rest|
          ensures rest[k] == s[if k < i then k else k + 1] && rest[k] < n - 1
        {
          assert s[if k < i then k else k + 1] != s[i];
        }
        NoRepeatsIsShort(rest, n - 1);
      } else {
        NoRepeatsIsShort(s, n - 1);
      }
    }
  }

  ghost predicate NeedsAnother(cs: seq<ConstraintDef>, stuck: set<nat>, i: nat) {
    i < |cs| && exists j :: j in stuck && Feeds(cs, j, i)
  }

  lemma Another(cs: seq<ConstraintDef>, stuck: set<nat>, i: nat) returns (j: nat)
    requires NeedsAnother(cs, stuck, i)
    ensures i < |cs| && j in stuck && Feeds(cs, j, i)
  {
    j :| j in stuck && Feeds(cs, j, i);
  }

  /** Constraints that each need another of them go round in a circle. */
  lemma StuckIsCircular(cs: seq<ConstraintDef>, stuck: set<nat>)
    requires stuck != {} && forall i :: i in stuck ==> NeedsAnother(cs, stuck, i)
    ensures Circular(cs)
  {
    hide Feeds, NeedsAnother;
    var walk := BackWalk(cs, stuck, |cs|);
    forall i | i in stuck
      ensures i < |cs|
    {
      var j := Another(cs, stuck, i);
    }
    LongListRepeats(walk, |cs|);
    var i, j :| 0 <= i < j < |walk| && walk[i] == walk[j];
    var round := walk[i..j + 1];
    assert Round(cs, round);
  }

  lemma {:induction false} BackWalk(cs: seq<ConstraintDef>, stuck: set<nat>, n: nat) returns (walk: seq<nat>)
    requires stuck != {} && forall i :: i in stuck ==> NeedsAnother(cs, stuck, i)
    ensures |walk| == n + 1 && forall k :: 0 <= k < |walk| ==> walk[k] in stuck
    ensures forall k :: 0 <= k < |walk| - 1 ==> Feeds(cs, walk[k], walk[k + 1])
  {
    hide Feeds, NeedsAnother;
    if n == 0 {
      var i :| i in stuck;
      walk := [i];
    } else {
      var rest := BackWalk(cs, stuck, n - 1);
      var j := Another(cs, stuck, rest[0]);
      walk := [j] + rest;
    }
  }

  /** An order can exist only where there is no circle. */
  lemma OrderMeansNoCircle(cs: seq<ConstraintDef>, order: seq<nat>)
    requires Topological(cs, order)
    ensures !Circular(cs)
  {
    forall walk
      ensures !Round(cs, walk)
    {
      if Round(cs, walk) {
        var last := |walk| - 1;
        assert Feeds(cs, walk[last - 1], walk[last - 1 + 1]);
        CoversAll(order, |cs|, walk[last]);
        var p :| 0 <= p < |order| && order[p] == walk[last];
        EarlierAlongWalk(cs, order, walk, last, p);
      }
    }
  }

  /** A list of `n` different numbers below `n` leaves none out. */
  lemma CoversAll(order: seq<nat>, n: nat, x: nat)
    requires |order| == n && NoRepeats(order) && x < n && forall k :: 0 <= k < |order| ==> order[k] < n
    ensures x in order
  {
    if x !in order {
      NoRepeatsIsShort(order + [x], n);
    }
  }

  lemma {:induction false} EarlierAlongWalk(cs: seq<ConstraintDef>, order: seq<nat>, walk: seq<nat>, k: nat, p: nat)
    requires NeedsFirst(cs, order) && 0 < k < |walk| && p < |order| && order[p] == walk[k]
    requires forall i :: 0 <= i < k ==> Feeds(cs, walk[i], walk[i + 1])
    ensures exists q :: 0 <= q < p && order[q] == walk[0]
    decreases k
  {
    assert Feeds(cs, walk[k - 1], walk[k - 1 + 1]);
    assert walk[k - 1] in order[..p];
    var q :| 0 <= q < p && order[q] == walk[k - 1];
    if k > 1 {
      EarlierAlongWalk(cs, order, walk, k - 1, q);
    }
  }

  lemma {:induction false} LeavesOneOut(order: seq<nat>, n: nat)
    requires |order| < n
    ensures exists x :: 0 <= x < n && x !in order
    decreases n
  {
    var last := n - 1;
    if last in order {
      var i :| 0 <= i < |order| && order[i] == last;
      var rest := order[..i] + order[i + 1..];
      LeavesOneOut(rest, last);
      var x :| 0 <= x < last && x !in rest;
      assert order == order[..i] + [last] + order[i + 1..];
      assert x !in order;
    }
  }

  // ----- Kahn's algorithm -----

  /** Each constraint still waits for as many of its needs as are not done. */
  ghost predicate Waiting(cs: seq<ConstraintDef>, inDegree: seq<nat>, done: seq<nat>) {
    |inDegree| == |cs| && forall d :: 0 <= d < |cs| ==> inDegree[d] == Pending(NeedsOf(cs, d), Done(done))
  }

  function Done(order: seq<nat>): set<nat> {
    set x | x in order
  }

  /** The lists of dependents are the needs, read the other way round. */
  ghost predicate Mirrored(cs: seq<ConstraintDef>, dependents: seq<seq<nat>>) {
    && |dependents| == |cs|
    && forall j, i :: 0 <= j < |cs| && 0 <= i < |cs| ==> Count(dependents[j], i) == Count(NeedsOf(cs, i), j)
  }

  /** Just the constraints that wait for nothing have been evaluated or queued, none twice. */
  ghost predicate Scheduled(inDegree: seq<nat>, listed: seq<nat>) {
    && NoRepeats(listed)
    && (forall x :: x in listed ==> x < |inDegree| && inDegree[x] == 0)
    && (forall x :: 0 <= x < |inDegree| && inDegree[x] == 0 ==> x in listed)
  }

  lemma NextIsReady(cs: seq<ConstraintDef>, inDegree: seq<nat>, order: seq<nat>, i: nat)
    requires Waiting(cs, inDegree, order) && i < |cs| && inDegree[i] == 0 && NeedsFirst(cs, order)
    ensures NeedsFirst(cs, order + [i])
  {
    hide NeedsOf, Pending;
    NonePending(NeedsOf(cs, i), Done(order));
    var longer := order + [i];
    forall k, j | 0 <= k < |longer| && Feeds(cs, j, longer[k])
      ensures j in longer[..k]
    {
      if k < |order| {
        assert longer[..k] == order[..k];
      } else {
        assert longer[..k] == order;
        assert j in Done(order);
      }
    }
  }

  /** Releasing one dependent is possible: it still waits for the constraint being done. */
  lemma StillWaits(cs: seq<ConstraintDef>, dependents: seq<seq<nat>>, done: set<nat>, i: nat, k: nat)
    requires Mirrored(cs, dependents) && i < |cs| && i !in done && k < |dependents[i]| && dependents[i][k] < |cs|
    ensures Count(dependents[i][..k], dependents[i][k]) < Pending(NeedsOf(cs, dependents[i][k]), done)
  {
    hide NeedsOf, Pending, Count;
    var d := dependents[i][k];
    CountPrefix(dependents[i], k);
    PendingFalls(NeedsOf(cs, d), done, i);
  }

  lemma AllReleased(cs: seq<ConstraintDef>, dependents: seq<seq<nat>>, inDegree: seq<nat>, order: seq<nat>, i: nat)
    requires Mirrored(cs, dependents) && i < |cs| && i !in order && |inDegree| == |cs|
    requires forall d :: 0 <= d < |cs| ==>
      inDegree[d] + Count(dependents[i], d) == Pending(NeedsOf(cs, d), Done(order))
    ensures Waiting(cs, inDegree, order + [i])
  {
    hide NeedsOf, Pending, Count;
    assert Done(order + [i]) == Done(order) + {i};
    forall d | 0 <= d < |cs|
      ensures inDegree[d] == Pending(NeedsOf(cs, d), Done(order + [i]))
    {
      PendingFalls(NeedsOf(cs, d), Done(order), i);
    }
  }

  lemma StuckOnes(cs: seq<ConstraintDef>, inDegree: seq<nat>, order: seq<nat>)
    requires Waiting(cs, inDegree, order) && Scheduled(inDegree, order) && |order| < |cs|
    ensures Circular(cs)
  {
    hide NeedsOf, Pending, Circular;
    LeavesOneOut(order, |cs|);
    var left :| 0 <= left < |cs| && left !in order;
    var stuck := set x | 0 <= x < |cs| && x !in order;
    assert left in stuck;
    forall i | i in stuck
      ensures NeedsAnother(cs, stuck, i)
    {
      NonePending(NeedsOf(cs, i), Done(order));
      var j :| j in NeedsOf(cs, i) && j !in Done(order);
      NeedIsConstraint(cs, i, j);
      assert j in stuck && Feeds(cs, j, i);
    }
    StuckIsCircular(cs, stuck);
  }

  lemma NeedIsConstraint(cs: seq<ConstraintDef>, i: nat, j: nat)
    requires i < |cs| && j in NeedsOf(cs, i)
    ensures j < |cs| && j != i
  {
    NeedsAreConstraints(ProducedBy(cs), i, cs[i].uses, |cs|);
  }

  lemma StartScheduled(inDegree: seq<nat>, queue: seq<nat>)
    requires NoRepeats(queue) && forall x :: x in queue <==> 0 <= x < |inDegree| && inDegree[x] == 0
    ensures Scheduled(inDegree, queue)
  {
  }

  lemma NothingFirst(cs: seq<ConstraintDef>)
    ensures NeedsFirst(cs, [])
  {
  }

  lemma ScheduledFacts(inDegree: seq<nat>, order: seq<nat>, queue: seq<nat>, n: nat)
    requires Scheduled(inDegree, order + queue) && |inDegree| == n
    ensures NoRepeats(order) && forall k :: 0 <= k < |order| ==> order[k] < n
    ensures queue != [] ==> queue[0] < n && inDegree[queue[0]] == 0
  {
    var listed := order + queue;
    forall k | 0 <= k < |order|
      ensures order[k] < n
    {
      assert listed[k] in listed;
    }
    forall i, j | 0 <= i < j < |order|
      ensures order[i] != order[j]
    {
      assert listed[i] != listed[j];
    }
    assert queue != [] ==> listed[|order|] in listed;
  }

  /** An order that respects every dependency; none exactly when they go round in a circle. */
  method TopologicalOrder(cs: seq<ConstraintDef>) returns (r: Option<seq<nat>>)
    ensures r.Some? ==> Topological(cs, r.value)
    ensures r.None? <==> Circular(cs)
  {
    hide NeedsOf, Circular, Feeds, Scheduled, Mirrored, Waiting, NeedsFirst;
    var inDegree, dependents := CountNeeds(cs);
    var queue: seq<nat> := [];
    for i := 0 to |cs|
      invariant NoRepeats(queue)
      invariant forall x :: x in queue <==> 0 <= x < i && inDegree[x] == 0
    {
      if inDegree[i] == 0 {
        queue := queue + [i];
      }
    }
    var order: seq<nat> := [];
    assert order + queue == queue;
    StartScheduled(inDegree[..], queue);
    NothingFirst(cs);
    while queue != []
      invariant Waiting(cs, inDegree[..], order)
      invariant Scheduled(inDegree[..], order + queue)
      invariant Mirrored(cs, dependents[..]) && forall j :: 0 <= j < |cs| ==> forall d :: d in dependents[j] ==>
                d < |cs|
      invariant NeedsFirst(cs, order)
      invariant |order| <= |cs| && inDegree.Length == |cs| && dependents.Length == |cs|
      decreases |cs| - |order|
    {
      var i := queue[0];
      assert order + queue == (order + [i]) + queue[1..];
      ScheduledFacts(inDegree[..], order, queue, |cs|);
      NextIsReady(cs, inDegree[..], order, i);
      queue := Release(cs, dependents[..], inDegree, order, i, dependents[i], queue[1..]);
      order := order + [i];
      ScheduledFacts(inDegree[..], order, queue, |cs|);
      NoRepeatsIsShort(order, |cs|);
    }
    assert order + queue == order;
    ScheduledFacts(inDegree[..], order, queue, |cs|);
    if |order| != |cs| {
      StuckOnes(cs, inDegree[..], order);
      return None;
    }
    OrderMeansNoCircle(cs, order);
    return Some(order);
  }

  lemma OneLess(before: seq<nat>, d: nat, listed: seq<nat>)
    requires Scheduled(before, listed) && d < |before| && before[d] > 0
    ensures var after := before[d := before[d] - 1];
            Scheduled(after, if after[d] == 0 then listed + [d] else listed)
  {
  }

  /** A constraint is done: what waited for it waits for one thing less, and joins the queue if for nothing. */
  method Release(cs: seq<ConstraintDef>, ghost dependents: seq<seq<nat>>, inDegree: array<nat>, ghost order: seq<nat>,
                 i: nat, mine: seq<nat>, waiting: seq<nat>) returns (queue: seq<nat>)
    requires Mirrored(cs, dependents) && inDegree.Length == |cs| && i < |cs| && mine == dependents[i]
    requires Waiting(cs, inDegree[..], order) && Scheduled(inDegree[..], (order + [i]) + waiting)
    requires forall d :: d in mine ==> d < |cs|
    modifies inDegree
    ensures Waiting(cs, inDegree[..], order + [i]) && Scheduled(inDegree[..], (order + [i]) + queue)
  {
    hide NeedsOf, Pending, Count, Scheduled, Mirrored;
    queue := waiting;
    ghost var done := Done(order);
    NotDoneYet(order, i, waiting, inDegree[..]);
    NothingCounted();
    for k := 0 to |mine|
      invariant forall d :: 0 <= d < |cs| ==> inDegree[d] + Count(mine[..k], d) == Pending(NeedsOf(cs, d), done)
      invariant Scheduled(inDegree[..], (order + [i]) + queue)
    {
      var d := mine[k];
      assert d in mine;
      StillWaits(cs, dependents, done, i, k);
      OneLess(inDegree[..], d, (order + [i]) + queue);
      CountOneMore(mine, k);
      ghost var before := inDegree[..];
      inDegree[d] := inDegree[d] - 1;
      assert inDegree[..] == before[d := before[d] - 1];
      if inDegree[d] == 0 {
        assert (order + [i]) + (queue + [d]) == ((order + [i]) + queue) + [d];
        queue := queue + [d];
      }
    }
    assert mine[..|mine|] == mine;
    AllReleased(cs, dependents, inDegree[..], order, i);
  }

  lemma NotDoneYet(order: seq<nat>, i: nat, waiting: seq<nat>, inDegree: seq<nat>)
    requires Scheduled(inDegree, (order + [i]) + waiting)
    ensures i !in order
  {
    var listed := (order + [i]) + waiting;
    forall k | 0 <= k < |order|
      ensures order[k] != i
    {
      assert listed[k] != listed[|order|];
    }
  }

  lemma NothingCounted()
    ensures forall d :: Count([], d) == 0
  {
  }

  lemma CountOneMore(s: seq<nat>, k: nat)
    requires k < |s|
    ensures forall x :: Count(s[..k + 1], x) == Count(s[..k], x) + if s[k] == x then 1 else 0
  {
    assert s[..k + 1][..k] == s[..k];
  }

  /** How many needs each constraint has, and who needs it. */
  method CountNeeds(cs: seq<ConstraintDef>) returns (inDegree: array<nat>, dependents: array<seq<nat>>)
    ensures fresh(inDegree) && fresh(dependents) && inDegree.Length == |cs| && dependents.Length == |cs|
    ensures Waiting(cs, inDegree[..], [])
    ensures Mirrored(cs, dependents[..]) && forall j :: 0 <= j < |cs| ==> forall d :: d in dependents[j] ==> d < |cs|
  {
    hide Needs, Count, Pending, Counted;
    var producedBy: map<string, nat> := map[];
    for i := 0 to |cs|
      invariant producedBy == ProducedBy(cs[..i])
    {
      assert cs[..i + 1][..i] == cs[..i];
      if cs[i].produces.Some? {
        producedBy := producedBy[cs[i].produces.value := i];
      }
    }
    assert cs[..|cs|] == cs;
    inDegree := new nat[|cs|](_ => 0);
    dependents := new seq<nat>[|cs|](_ => []);
    StartCounted(cs, inDegree[..], dependents[..]);
    for i := 0 to |cs|
      invariant inDegree.Length == |cs| && dependents.Length == |cs|
      invariant Counted(cs, inDegree[..], dependents[..], i, [])
    {
      NoNeeds(cs, i);
      for k := 0 to |cs[i].uses|
        invariant inDegree.Length == |cs| && dependents.Length == |cs|
        invariant Counted(cs, inDegree[..], dependents[..], i, Needs(producedBy, i, cs[i].uses[..k]))
      {
        var used := cs[i].uses[k];
        NeedsOneMore(producedBy, i, cs[i].uses, k);
        if used in producedBy && producedBy[used] != i {
          AddNeed(cs, inDegree, dependents, i, producedBy[used], Needs(producedBy, i, cs[i].uses[..k]));
        }
      }
      assert cs[i].uses[..|cs[i].uses|] == cs[i].uses;
      NextConstraint(cs, inDegree[..], dependents[..], i);
    }
    AllCounted(cs, inDegree[..], dependents[..]);
  }

  /** The needs of the constraints before the `i`th are counted, and these needs of the `i`th. */
  ghost predicate Counted(cs: seq<ConstraintDef>, inDegree: seq<nat>, dependents: seq<seq<nat>>, i: nat,
                          needs: seq<nat>) {
    && |inDegree| == |cs| && |dependents| == |cs|
    && (forall d :: 0 <= d < |cs| ==> inDegree[d] == |Listed(cs, i, needs, d)|)
    && (forall j, d :: 0 <= j < |cs| && 0 <= d < |cs| ==> Count(dependents[j], d) == Count(Listed(cs, i, needs, d), j))
    && (forall j :: 0 <= j < |cs| ==> forall d :: d in dependents[j] ==> d < |cs|)
  }

  function Listed(cs: seq<ConstraintDef>, i: nat, needs: seq<nat>, d: nat): seq<nat>
    requires d < |cs|
  {
    if d < i then NeedsOf(cs, d) else if d == i then needs else []
  }

  method AddNeed(cs: seq<ConstraintDef>, inDegree: array<nat>, dependents: array<seq<nat>>, i: nat, dep: nat,
                 ghost needs: seq<nat>)
    requires inDegree.Length == |cs| && dependents.Length == |cs| && i < |cs| && dep < |cs|
    requires Counted(cs, inDegree[..], dependents[..], i, needs)
    modifies inDegree, dependents
    ensures Counted(cs, inDegree[..], dependents[..], i, needs + [dep])
  {
    hide Counted;
    OneMoreNeed(cs, inDegree[..], dependents[..], i, needs, dep);
    ghost var inDegree0, dependents0 := inDegree[..], dependents[..];
    dependents[dep] := dependents[dep] + [i];
    assert dependents[..] == dependents0[dep := dependents0[dep] + [i]];
    inDegree[i] := inDegree[i] + 1;
    assert inDegree[..] == inDegree0[i := inDegree0[i] + 1];
  }

  lemma StartCounted(cs: seq<ConstraintDef>, inDegree: seq<nat>, dependents: seq<seq<nat>>)
    requires |inDegree| == |cs| && |dependents| == |cs|
    requires forall i :: 0 <= i < |cs| ==> inDegree[i] == 0 && dependents[i] == []
    ensures Counted(cs, inDegree, dependents, 0, [])
  {
  }

  lemma NoNeeds(cs: seq<ConstraintDef>, i: nat)
    requires i < |cs|
    ensures cs[i].uses[..0] == [] && Needs(ProducedBy(cs), i, []) == []
  {
  }

  lemma NeedsOneMore(producedBy: map<string, nat>, i: nat, uses: seq<string>, k: nat)
    requires k < |uses|
    ensures var before := Needs(producedBy, i, uses[..k]);
            Needs(producedBy, i, uses[..k + 1])
            == if uses[k] in producedBy && producedBy[uses[k]] != i then before + [producedBy[uses[k]]] else before
  {
    assert uses[..k + 1][..k] == uses[..k];
  }

  lemma CountSnoc(s: seq<nat>, y: nat)
    ensures forall x :: Count(s + [y], x) == Count(s, x) + if y == x then 1 else 0
  {
    assert (s + [y])[..|s|] == s;
  }

  lemma OneMoreNeed(cs: seq<ConstraintDef>, inDegree: seq<nat>, dependents: seq<seq<nat>>, i: nat, needs: seq<nat>,
                    dep: nat)
    requires Counted(cs, inDegree, dependents, i, needs) && i < |cs| && dep < |cs|
    ensures Counted(cs, inDegree[i := inDegree[i] + 1], dependents[dep := dependents[dep] + [i]], i, needs + [dep])
  {
    hide NeedsOf, Count;
    CountSnoc(needs, dep);
    CountSnoc(dependents[dep], i);
    var after := dependents[dep := dependents[dep] + [i]];
    forall j, d | 0 <= j < |cs| && 0 <= d < |cs|
      ensures Count(after[j], d) == Count(Listed(cs, i, needs + [dep], d), j)
    {
      assert Count(dependents[j], d) == Count(Listed(cs, i, needs, d), j);
    }
  }

  lemma NextConstraint(cs: seq<ConstraintDef>, inDegree: seq<nat>, dependents: seq<seq<nat>>, i: nat)
    requires i < |cs| && Counted(cs, inDegree, dependents, i, NeedsOf(cs, i))
    ensures Counted(cs, inDegree, dependents, i + 1, [])
  {
    hide NeedsOf, Count;
    forall d | 0 <= d < |cs|
      ensures Listed(cs, i + 1, [], d) == Listed(cs, i, NeedsOf(cs, i), d)
    {
    }
    forall j, d | 0 <= j < |cs| && 0 <= d < |cs|
      ensures Count(dependents[j], d) == Count(Listed(cs, i + 1, [], d), j)
    {
      assert Count(dependents[j], d) == Count(Listed(cs, i, NeedsOf(cs, i), d), j);
    }
  }

  lemma AllCounted(cs: seq<ConstraintDef>, inDegree: seq<nat>, dependents: seq<seq<nat>>)
    requires Counted(cs, inDegree, dependents, |cs|, [])
    ensures Waiting(cs, inDegree, []) && Mirrored(cs, dependents)
    ensures forall j :: 0 <= j < |cs| ==> forall d :: d in dependents[j] ==> d < |cs|
  {
    hide NeedsOf, Count, Pending;
    forall d | 0 <= d < |cs|
      ensures inDegree[d] == Pending(NeedsOf(cs, d), Done([]))
    {
      AllPending(NeedsOf(cs, d));
    }
  }

  lemma {:induction false} AllPending(s: seq<nat>)
    ensures Pending(s, Done([])) == |s|
  {
    if s != [] {
      AllPending(s[..|s| - 1]);
    }
  }
}
