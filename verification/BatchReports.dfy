/** What a refused batch is answered with: for each operation what stands against it, given the operations before
    it that nothing stands against. */
module BatchReports {
  import opened SysmlModel
  import opened Scanning
  import opened Containment
  import opened GraphOps
  import opened TextDiff
  import opened DiffTheorems
  import opened GraphStore
  import opened StoreTheorems

  /** The operations among the first `k` that pass. */
  ghost function Passing(contains: seq<Edge>, existing: set<Id>, uuids: nat -> Id, ops: seq<GraphOp>,
                         k: nat): seq<GraphOp>
    requires k <= |ops|
  {
    if k == 0 then []
    else
      Passing(contains, existing, uuids, ops, k - 1) +
      if Checks(contains, existing, uuids, ops[..k]).errors == Checks(contains, existing, uuids, ops[..k - 1]).errors
      then [ops[k - 1]] else []
  }

  /** What stands against an operation: for a renaming a missing element or a blank name, for a creation a missing
      parent, for a move a missing element, a missing parent or a new parent at or below the element, where what is
      there is what the passing operations before it have left. A parent is named by its real id, as far as it has
      got one. */
  ghost function Complaint(s: Snapshot, passing: seq<GraphOp>, known: map<Id, Id>, op: GraphOp): Option<Problem> {
    var now := ApplyOps(s, passing);
    match op
    case Rename(id, name) =>
      if id !in s.elements then Some(NoSuchElement(id))
      else if forall i :: 0 <= i < |name| ==> IsWhitespace(name[i]) then Some(EmptyName)
      else None
    case Create(_, _, _, parent) =>
      if parent.Some? && parent.value !in now.elements then Some(NoSuchParent(Renamed(known, parent.value))) else None
    case Reparent(id, parent) =>
      if id !in s.elements then Some(NoSuchElement(id))
      else if parent.Some? && parent.value !in now.elements then Some(NoSuchParent(Renamed(known, parent.value)))
      else if parent.Some? && (id == parent.value || Descends(now.edges, id, parent.value))
      then Some(WouldCycle(id, Renamed(known, parent.value)))
      else None
  }

  // ----- The check of the passing operations is the check of all -----

  lemma CheckedIs(plan: Plan, existing: set<Id>, uuids: nat -> Id, index: nat, op: GraphOp)
    ensures var after := Checked(plan, existing, uuids, index, op);
            if after.errors == plan.errors then
              after == Checked(plan.(errors := []), existing, uuids, 0, op).(errors := plan.errors)
            else
              && after == plan.(errors := after.errors) && |after.errors| == |plan.errors| + 1
              && plan.errors <= after.errors
    ensures Checked(plan, existing, uuids, index, op).errors == plan.errors <==>
            Checked(plan.(errors := []), existing, uuids, 0, op).errors == []
  {
    hide Blank, Known, IsBelow, ParentEdge;
  }

  lemma NoErrorsAnyIndex(plan: Plan, existing: set<Id>, uuids: nat -> Id, i: nat, j: nat, op: GraphOp)
    requires plan.errors == [] && Checked(plan, existing, uuids, i, op).errors == []
    ensures Checked(plan, existing, uuids, j, op) == Checked(plan, existing, uuids, i, op)
  {
    hide Blank, Known, IsBelow, ParentEdge;
  }

  lemma {:induction false} PassingIsChecked(contains: seq<Edge>, existing: set<Id>, uuids: nat -> Id, ops: seq<GraphOp>,
                                            k: nat)
    requires k <= |ops|
    ensures Checks(contains, existing, uuids, Passing(contains, existing, uuids, ops, k)) ==
            Checks(contains, existing, uuids, ops[..k]).(errors := [])
    decreases k
  {
    hide Checks, Checked;
    if k == 0 {
      NothingChecked(contains, existing, uuids);
      assert ops[..0] == [];
      StartHasNoErrors(contains);
    } else {
      PassingIsChecked(contains, existing, uuids, ops, k - 1);
      ChecksOneMore(contains, existing, uuids, ops, k - 1);
      var before := Passing(contains, existing, uuids, ops, k - 1);
      var plan := Checks(contains, existing, uuids, ops[..k - 1]);
      CheckedIs(plan, existing, uuids, k - 1, ops[k - 1]);
      if Checks(contains, existing, uuids, ops[..k]).errors == plan.errors {
        var more := before + [ops[k - 1]];
        ChecksOneMore(contains, existing, uuids, more, |before|);
        assert more[..|before|] == before && more[..|before| + 1] == more;
        NoErrorsAnyIndex(plan.(errors := []), existing, uuids, 0, |before|, ops[k - 1]);
      } else {
        assert before + [] == before;
      }
    }
  }

  lemma StartHasNoErrors(contains: seq<Edge>)
    ensures StartPlan(contains).errors == []
  {
  }

  lemma {:induction false} PassingAreOps(contains: seq<Edge>, existing: set<Id>, uuids: nat -> Id, ops: seq<GraphOp>,
                                         k: nat)
    requires k <= |ops|
    ensures forall op :: op in Passing(contains, existing, uuids, ops, k) ==> op in ops[..k]
    decreases k
  {
    hide Checks;
    if k > 0 {
      PassingAreOps(contains, existing, uuids, ops, k - 1);
      assert ops[..k] == ops[..k - 1] + [ops[k - 1]];
    }
  }

  lemma OwnTempsSnoc(ops: seq<GraphOp>, op: GraphOp, existing: set<Id>)
    requires OwnTemps(ops, existing)
    requires op.Create? ==> op.tempId !in existing && forall o :: o in ops && o.Create? ==> o.tempId != op.tempId
    ensures OwnTemps(ops + [op], existing)
  {
    var all := ops + [op];
    forall i, j | 0 <= i < j < |all| && all[i].Create? && all[j].Create?
      ensures all[i].tempId != all[j].tempId
    {
      assert all[i] == ops[i] && ops[i] in ops;
      if j < |ops| {
        assert all[j] == ops[j];
      }
    }
  }

  lemma EarlierTemps(ops: seq<GraphOp>, existing: set<Id>, k: nat, o: GraphOp)
    requires OwnTemps(ops, existing) && k < |ops| && o in ops[..k] && o.Create? && ops[k].Create?
    ensures o.tempId != ops[k].tempId
  {
    var i :| 0 <= i < k && ops[..k][i] == o;
    assert ops[i] == o;
  }

  lemma {:induction false} PassingOwnTemps(contains: seq<Edge>, existing: set<Id>, uuids: nat -> Id, ops: seq<GraphOp>,
                                           k: nat, taken: set<Id>)
    requires k <= |ops| && OwnTemps(ops, taken)
    ensures OwnTemps(Passing(contains, existing, uuids, ops, k), taken)
    ensures k < |ops| ==> OwnTemps(Passing(contains, existing, uuids, ops, k) + [ops[k]], taken)
    decreases k
  {
    hide Checks, OwnTemps;
    if k == 0 {
      NoTemps1(taken);
    } else {
      PassingOwnTemps(contains, existing, uuids, ops, k - 1, taken);
      var before := Passing(contains, existing, uuids, ops, k - 1);
      assert before + [] == before;
    }
    if k < |ops| {
      PassingAreOps(contains, existing, uuids, ops, k);
      OldTemp(ops, taken, k);
      var passing := Passing(contains, existing, uuids, ops, k);
      forall o | o in passing && o.Create? && ops[k].Create?
        ensures o.tempId != ops[k].tempId
      {
        EarlierTemps(ops, taken, k, o);
      }
      OwnTempsSnoc(passing, ops[k], taken);
    }
  }

  lemma NoTemps1(taken: set<Id>)
    ensures OwnTemps([], taken)
  {
  }

  lemma OldTemp(ops: seq<GraphOp>, taken: set<Id>, k: nat)
    requires OwnTemps(ops, taken) && k < |ops|
    ensures ops[k].Create? ==> ops[k].tempId !in taken
  {
  }

  /** The passing operations with the next one are again a batch the store can tell apart. */
  lemma PassingIsReady(s: Snapshot, contains: seq<Edge>, uuids: nat -> Id, ops: seq<GraphOp>, k: nat)
    requires Ready(s, contains, uuids, ops) && k < |ops|
    ensures Ready(s, contains, uuids, Passing(contains, s.elements.Keys, uuids, ops, k) + [ops[k]])
  {
    hide Passing, OwnTemps, Stored, Acyclic, SnapshotIds, Mentions;
    var existing := s.elements.Keys;
    PassingAreOps(contains, existing, uuids, ops, k);
    PassingOwnTemps(contains, existing, uuids, ops, k, SnapshotIds(s));
    var batch := Passing(contains, existing, uuids, ops, k) + [ops[k]];
    forall op | op in batch
      ensures op in ops
    {
      assert op in ops[..k] ==> op in ops;
    }
  }

  // ----- What stands against an operation -----

  /** Where the check of an operation stands, after those that pass. */
  lemma StandingNext(s: Snapshot, contains: seq<Edge>, uuids: nat -> Id, ops: seq<GraphOp>, k: nat)
    returns (m: map<Id, Id>, minted: nat, live: Snapshot)
    requires Ready(s, contains, uuids, ops) && k < |ops|
    ensures var passing := Passing(contains, s.elements.Keys, uuids, ops, k);
            var plan := Checks(contains, s.elements.Keys, uuids, ops[..k]).(errors := []);
            Standing(plan, s.elements.Keys, uuids, m, minted, ApplyOps(s, passing), live, ops[k])
  {
    hide Checks, Passing, ApplyOps, Ready, Standing, Acyclic, WrittenAll;
    var existing := s.elements.Keys;
    var passing := Passing(contains, existing, uuids, ops, k);
    var batch := passing + [ops[k]];
    PassingIsReady(s, contains, uuids, ops, k);
    PassingIsChecked(contains, existing, uuids, ops, k);
    assert batch[..|passing|] == passing && batch[|passing|] == ops[k];
    PrefixPasses(s, contains, uuids, batch, |passing|);
    StandingAt(s, contains, uuids, batch, |passing|);
    var plan := Checks(contains, existing, uuids, batch);
    m, minted := plan.idMap, plan.minted;
    live := WrittenAll(s, m, batch[..|passing|]);
  }

  lemma NowIsAcyclic(plan: Plan, existing: set<Id>, uuids: nat -> Id, m: map<Id, Id>, minted: nat, now: Snapshot,
                     live: Snapshot, op: GraphOp)
    requires Standing(plan, existing, uuids, m, minted, now, live, op)
    ensures Acyclic(now.edges)
  {
    hide Agree, Acyclic, SnapshotIds, Mentions, ElementsRenamed, BodiesRenamed;
    var ids := SnapshotIds(now);
    NarrowInjective(m, SnapshotIds(now) + Mentions(op), ids);
    EndsAreIds(now, ids);
    RenamingKeepsCycles(m, now.edges, ids);
  }

  lemma BelowAgrees(plan: Plan, existing: set<Id>, uuids: nat -> Id, m: map<Id, Id>, minted: nat, now: Snapshot,
                    live: Snapshot, op: GraphOp)
    requires Standing(plan, existing, uuids, m, minted, now, live, op)
    requires op.Reparent? && op.id in existing && op.newParentId.Some? && op.newParentId.value in now.elements
    ensures IsBelow(plan.links, op.id, Renamed(plan.idMap, op.newParentId.value)) <==>
            IsBelow(now.edges, op.id, op.newParentId.value)
  {
    hide Agree, Acyclic, Extends, SoundMap, FreshIds, IsRenaming, InjectiveOn, SnapshotIds, Mentions, Descends, Known,
         WithoutParents;
    var id, p := op.id, op.newParentId.value;
    TargetIsThere(plan, existing, uuids, m, minted, now, live, op);
    InMentions(op);
    RefIsThere(plan, existing, uuids, m, minted, now, live, op, op.newParentId);
    NowIsAcyclic(plan, existing, uuids, m, minted, now, live, op);
    CyclesMatch(plan, existing, uuids, m, minted, now, live, op);
    MoveIsAcyclic(now.edges, id, p);
    MoveIsAcyclic(live.edges, id, Renamed(m, p));
    LinksOf(plan, existing, live);
    SameWalks(live.edges, id, Renamed(m, p));
    assert ParentEdge(Some(p), id) == {Edge(p, id, Contains)};
    assert ParentEdge(Some(Renamed(m, p)), id) == {Edge(Renamed(m, p), id, Contains)};
  }

  lemma InMentions(op: GraphOp)
    ensures op.Reparent? ==> RefIds(op.newParentId) <= Mentions(op)
    ensures op.Create? ==> RefIds(op.parentId) <= Mentions(op)
  {
  }

  lemma ChecksComplain(plan: Plan, existing: set<Id>, uuids: nat -> Id, index: nat, m: map<Id, Id>, minted: nat,
                       s: Snapshot, passing: seq<GraphOp>, live: Snapshot, op: GraphOp)
    requires plan.errors == [] && existing == s.elements.Keys
    requires Standing(plan, existing, uuids, m, minted, ApplyOps(s, passing), live, op)
    ensures var c := Complaint(s, passing, plan.idMap, op);
            Checked(plan, existing, uuids, index, op).errors == if c.Some? then [OpError(index, c.value)] else []
  {
    hide ApplyOps, Standing, Known, Descends, ParentEdge;
    var now := ApplyOps(s, passing);
    InMentions(op);
    match op {
      case Rename(id, name) =>
        BlankIs(name);
      case Create(_, _, _, parent) =>
        RefIsThere(plan, existing, uuids, m, minted, now, live, op, parent);
      case Reparent(id, parent) =>
        RefIsThere(plan, existing, uuids, m, minted, now, live, op, parent);
        if id in existing && parent.Some? && parent.value in now.elements {
          BelowAgrees(plan, existing, uuids, m, minted, now, live, op);
        }
    }
  }

  lemma BlankIs(name: string)
    ensures Blank(name) <==> forall i :: 0 <= i < |name| ==> IsWhitespace(name[i])
  {
  }

  lemma SameComplaint(plan: Plan, existing: set<Id>, uuids: nat -> Id, index: nat, op: GraphOp)
    ensures Checked(plan, existing, uuids, index, op).errors ==
            plan.errors + Checked(plan.(errors := []), existing, uuids, index, op).errors
  {
    hide Blank, Known, IsBelow, ParentEdge;
    assert plan.errors + [] == plan.errors;
  }

  /** The check of a batch adds, operation by operation, what stands against it, and what passes is just what nothing
      stands against. */
  lemma EachIsAnswered(s: Snapshot, contains: seq<Edge>, uuids: nat -> Id, ops: seq<GraphOp>, k: nat)
    requires Ready(s, contains, uuids, ops) && k < |ops|
    ensures var existing := s.elements.Keys;
            var passing := Passing(contains, existing, uuids, ops, k);
            var c := Complaint(s, passing, Checks(contains, existing, uuids, ops[..k]).idMap, ops[k]);
            && Checks(contains, existing, uuids, ops[..k + 1]).errors ==
               Checks(contains, existing, uuids, ops[..k]).errors + (if c.Some? then [OpError(k, c.value)] else [])
            && Passing(contains, existing, uuids, ops, k + 1) == passing + if c.Some? then [] else [ops[k]]
  {
    hide Checks, Checked, Ready, Complaint, Standing;
    var existing := s.elements.Keys;
    var plan := Checks(contains, existing, uuids, ops[..k]);
    var passing := Passing(contains, existing, uuids, ops, k);
    var m, minted, live := StandingNext(s, contains, uuids, ops, k);
    ChecksComplain(plan.(errors := []), existing, uuids, k, m, minted, s, passing, live, ops[k]);
    SameComplaint(plan, existing, uuids, k, ops[k]);
    ChecksOneMore(contains, existing, uuids, ops, k);
  }

  /** The answer to a whole batch: the real ids given so far, the operations that pass, and the errors. */
  datatype Answer = Answer(known: map<Id, Id>, passing: seq<GraphOp>, errors: seq<OpError>)

  /** Told from the batch alone: each operation in turn either passes, a creation getting the next new id, or has its
      complaint added under its place. */
  ghost function Answered(s: Snapshot, uuids: nat -> Id, ops: seq<GraphOp>, k: nat): Answer
    requires k <= |ops|
  {
    if k == 0 then Answer(map[], [], [])
    else
      var before, op := Answered(s, uuids, ops, k - 1), ops[k - 1];
      var c := Complaint(s, before.passing, before.known, op);
      if c.Some? then before.(errors := before.errors + [OpError(k - 1, c.value)])
      else
        Answer(if op.Create? then before.known[op.tempId := uuids(|Creations(before.passing)|)] else before.known,
               before.passing + [op], before.errors)
  }

  function Creations(ops: seq<GraphOp>): seq<GraphOp> {
    if ops == [] then []
    else Creations(ops[..|ops| - 1]) + if ops[|ops| - 1].Create? then [ops[|ops| - 1]] else []
  }

  lemma CreationsSnoc(ops: seq<GraphOp>, op: GraphOp)
    ensures Creations(ops + [op]) == Creations(ops) + if op.Create? then [op] else []
  {
    assert (ops + [op])[..|ops|] == ops;
  }

  lemma StepRealIds(plan: Plan, existing: set<Id>, uuids: nat -> Id, index: nat, op: GraphOp)
    ensures var after := Checked(plan, existing, uuids, index, op);
            if after.errors == plan.errors && op.Create? then
              after.idMap == plan.idMap[op.tempId := uuids(plan.minted)] && after.minted == plan.minted + 1
            else after.idMap == plan.idMap && after.minted == plan.minted
  {
    hide Blank, Known, IsBelow, ParentEdge;
  }

  /** The check of a batch answers as told from the batch. */
  lemma {:induction false} BatchIsAnswered(s: Snapshot, contains: seq<Edge>, uuids: nat -> Id, ops: seq<GraphOp>,
                                           k: nat)
    requires Ready(s, contains, uuids, ops) && k <= |ops|
    ensures var plan, a := Checks(contains, s.elements.Keys, uuids, ops[..k]), Answered(s, uuids, ops, k);
            && plan.idMap == a.known && plan.errors == a.errors && plan.minted == |Creations(a.passing)|
            && a.passing == Passing(contains, s.elements.Keys, uuids, ops, k)
    decreases k
  {
    hide Checks, Checked, Ready, Complaint, Creations;
    var existing := s.elements.Keys;
    if k == 0 {
      assert ops[..0] == [];
      NothingChecked(contains, existing, uuids);
      NothingCreated(contains);
    } else {
      BatchIsAnswered(s, contains, uuids, ops, k - 1);
      EachIsAnswered(s, contains, uuids, ops, k - 1);
      ChecksOneMore(contains, existing, uuids, ops, k - 1);
      StepRealIds(Checks(contains, existing, uuids, ops[..k - 1]), existing, uuids, k - 1, ops[k - 1]);
      CreationsSnoc(Answered(s, uuids, ops, k - 1).passing, ops[k - 1]);
    }
  }

  lemma NothingCreated(contains: seq<Edge>)
    ensures Creations([]) == [] && StartPlan(contains).minted == 0 && StartPlan(contains).errors == []
  {
  }
}
