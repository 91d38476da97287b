/** What an edit on a branch does, and what goes wrong when the branch is main. */
module BranchEdits {
  import opened SysmlModel
  import opened GraphOps
  import opened TextDiff
  import opened GraphStore
  import opened StoreTheorems
  import opened Versioning
  import opened VersionTheorems

  /** A property's value; one that is not there counts as null. */
  function Property(body: Body, key: string): string {
    if key in body.properties then body.properties[key] else JsonNull
  }

  function Keys(properties: seq<(string, string)>): set<string> {
    set p | p in properties :: p.0
  }

  ghost predicate DistinctKeys(properties: seq<(string, string)>) {
    forall i, j :: 0 <= i < j < |properties| ==> properties[i].0 != properties[j].0
  }

  /** Only this element's body differs between the two. */
  ghost predicate SameBut(id: Id, s: Snapshot, t: Snapshot) {
    s.elements == t.elements && s.edges == t.edges && s.bodies - {id} == t.bodies - {id}
  }

  lemma {:induction false} DiffsConcat(s: Snapshot, a: seq<DiffEntry>, b: seq<DiffEntry>)
    ensures ApplyDiffs(s, a + b) == ApplyDiffs(ApplyDiffs(s, a), b)
    decreases |b|
  {
    hide ApplyDiff;
    if b == [] {
      assert a + [] == a;
    } else {
      assert (a + b)[..|a + b| - 1] == a + b[..|b| - 1];
      DiffsConcat(s, a, b[..|b| - 1]);
    }
  }

  lemma OneDiff(s: Snapshot, d: DiffEntry)
    ensures ApplyDiffs(s, [d]) == ApplyDiff(s, d)
  {
    hide ApplyDiff;
    assert [d][..0] == [];
  }

  lemma PropertyIsSet(s: Snapshot, id: Id, key: string, was: string, value: string)
    ensures var t := ApplyDiff(s, PropertyChanged(id, key, was, value));
            && SameBut(id, s, t)
            && BodyOf(t, id).rationale == BodyOf(s, id).rationale
            && Property(BodyOf(t, id), key) == value
            && forall k :: k != key ==> Property(BodyOf(t, id), k) == Property(BodyOf(s, id), k)
  {
  }

  /** From `s` to `t` the listed properties took the listed values; nothing else changed. */
  ghost predicate PropertiesSet(s: Snapshot, t: Snapshot, id: Id, properties: seq<(string, string)>) {
    && SameBut(id, s, t)
    && BodyOf(t, id).rationale == BodyOf(s, id).rationale
    && (forall p :: p in properties ==> Property(BodyOf(t, id), p.0) == p.1)
    && (forall k :: k !in Keys(properties) ==> Property(BodyOf(t, id), k) == Property(BodyOf(s, id), k))
  }

  lemma {:induction false} PropertiesAreSet(s: Snapshot, id: Id, properties: seq<(string, string)>)
    requires DistinctKeys(properties)
    ensures PropertiesSet(s, ApplyDiffs(s, PropertyChanges(BodyOf(s, id), id, properties)), id, properties)
    decreases |properties|
  {
    hide ApplyDiff, BodyOf, Property, ApplyDiffs, PropertiesSet, Keys;
    if properties == [] {
      NoChanges(s, id);
    } else {
      var init, last := properties[..|properties| - 1], properties[|properties| - 1];
      PropertiesAreSet(s, id, init);
      var before := PropertyChanges(BodyOf(s, id), id, init);
      var mid := ApplyDiffs(s, before);
      var change := PropertyChanged(id, last.0, Property(BodyOf(s, id), last.0), last.1);
      ChangesOneMore(BodyOf(s, id), id, properties);
      DiffsConcat(s, before, [change]);
      OneDiff(mid, change);
      assert before + [] == before;
      OneMoreSet(s, mid, id, properties);
    }
  }

  lemma OneMoreSet(s: Snapshot, mid: Snapshot, id: Id, properties: seq<(string, string)>)
    requires properties != [] && DistinctKeys(properties)
    requires PropertiesSet(s, mid, id, properties[..|properties| - 1])
    ensures var last := properties[|properties| - 1];
            var was := Property(BodyOf(s, id), last.0);
            PropertiesSet(s, if was == last.1 then mid else ApplyDiff(mid, PropertyChanged(id, last.0, was, last.1)),
                          id, properties)
  {
    hide ApplyDiff, BodyOf, Property, Keys;
    var init, last := properties[..|properties| - 1], properties[|properties| - 1];
    LastKey(properties);
    PropertyIsSet(mid, id, last.0, Property(BodyOf(s, id), last.0), last.1);
    assert forall p :: p in properties ==> p in init || p == last;
  }

  lemma NoChanges(s: Snapshot, id: Id)
    ensures PropertiesSet(s, ApplyDiffs(s, PropertyChanges(BodyOf(s, id), id, [])), id, [])
  {
  }

  lemma ChangesOneMore(body: Body, id: Id, properties: seq<(string, string)>)
    requires properties != []
    ensures var last := properties[|properties| - 1];
            PropertyChanges(body, id, properties)
            == PropertyChanges(body, id, properties[..|properties| - 1]) +
               if Property(body, last.0) != last.1 then [PropertyChanged(id, last.0, Property(body, last.0), last.1)]
                 else []
  {
  }

  lemma LastKey(properties: seq<(string, string)>)
    requires properties != [] && DistinctKeys(properties)
    ensures var init, last := properties[..|properties| - 1], properties[|properties| - 1];
            && DistinctKeys(init) && last.0 !in Keys(init)
            && (forall p :: p in init ==> p.0 != last.0)
            && Keys(properties) == Keys(init) + {last.0}
  {
    assert properties == properties[..|properties| - 1] + [properties[|properties| - 1]];
  }

  /** An edit of a body, applied: the body then shows what was asked for, and all else is as it was. */
  lemma EditTakesEffect(s: Snapshot, id: Id, properties: seq<(string, string)>, rationale: Option<string>)
    requires DistinctKeys(properties)
    ensures var t := ApplyDiffs(s, BodyDiff(BodyOf(s, id), id, properties, rationale));
            && SameBut(id, s, t)
            && BodyOf(t, id).rationale == rationale
            && (forall p :: p in properties ==> Property(BodyOf(t, id), p.0) == p.1)
            && forall k :: k !in Keys(properties) ==> Property(BodyOf(t, id), k) == Property(BodyOf(s, id), k)
  {
    hide ApplyDiff, PropertyChanges, BodyOf, Property, ApplyDiffs;
    var body := BodyOf(s, id);
    PropertiesAreSet(s, id, properties);
    if rationale != body.rationale {
      var changes := PropertyChanges(body, id, properties);
      var change := RationaleChanged(id, body.rationale, rationale);
      DiffsConcat(s, changes, [change]);
      OneDiff(ApplyDiffs(s, changes), change);
      RationaleIsSet(ApplyDiffs(s, changes), id, body.rationale, rationale);
    } else {
      assert PropertyChanges(body, id, properties) + [] == PropertyChanges(body, id, properties);
    }
  }

  lemma RationaleIsSet(s: Snapshot, id: Id, was: Option<string>, rationale: Option<string>)
    ensures var t := ApplyDiff(s, RationaleChanged(id, was, rationale));
            && SameBut(id, s, t)
            && BodyOf(t, id).rationale == rationale
            && forall k :: Property(BodyOf(t, id), k) == Property(BodyOf(s, id), k)
  {
  }

  /** What is recorded is never idle: replaying it changes the model, unless nothing was recorded. */
  lemma EditIsEffective(s: Snapshot, id: Id, properties: seq<(string, string)>, rationale: Option<string>)
    requires DistinctKeys(properties)
    ensures var diff := BodyDiff(BodyOf(s, id), id, properties, rationale);
            ApplyDiffs(s, diff) == s <==> diff == []
  {
    hide ApplyDiffs, BodyOf;
    EditTakesEffect(s, id, properties, rationale);
    var diff := BodyDiff(BodyOf(s, id), id, properties, rationale);
    if diff == [] {
      NothingApplied(s);
    } else {
      SomethingChanged(BodyOf(s, id), id, properties);
    }
  }

  lemma NothingApplied(s: Snapshot)
    ensures ApplyDiffs(s, []) == s
  {
  }

  lemma {:induction false} SomethingChanged(body: Body, id: Id, properties: seq<(string, string)>)
    ensures PropertyChanges(body, id, properties) != [] ==> exists p :: p in properties && Property(body, p.0) != p.1
    decreases |properties|
  {
    if properties != [] {
      SomethingChanged(body, id, properties[..|properties| - 1]);
      ChangesOneMore(body, id, properties);
    }
  }

  /** The body already shows what an edit asks for. */
  ghost predicate Shows(body: Body, properties: seq<(string, string)>, rationale: Option<string>) {
    rationale == body.rationale && forall p :: p in properties ==> Property(body, p.0) == p.1
  }

  lemma {:induction false} NothingToChange(body: Body, id: Id, properties: seq<(string, string)>)
    requires forall p :: p in properties ==> Property(body, p.0) == p.1
    ensures PropertyChanges(body, id, properties) == []
    decreases |properties|
  {
    hide Property;
    if properties != [] {
      NothingToChange(body, id, properties[..|properties| - 1]);
      ChangesOneMore(body, id, properties);
    }
  }

  /** An edit records nothing exactly when the body already shows what it asks for. */
  lemma NothingIsRecordedIff(body: Body, id: Id, properties: seq<(string, string)>, rationale: Option<string>)
    requires DistinctKeys(properties)
    ensures BodyDiff(body, id, properties, rationale) == [] <==> Shows(body, properties, rationale)
  {
    hide Property;
    if BodyDiff(body, id, properties, rationale) == [] {
      NoneDiffers(body, id, properties);
    }
    if Shows(body, properties, rationale) {
      NothingToChange(body, id, properties);
    }
  }

  lemma {:induction false} NoneDiffers(body: Body, id: Id, properties: seq<(string, string)>)
    requires PropertyChanges(body, id, properties) == []
    ensures forall p :: p in properties ==> Property(body, p.0) == p.1
    decreases |properties|
  {
    hide Property;
    if properties != [] {
      var init, last := properties[..|properties| - 1], properties[|properties| - 1];
      ChangesOneMore(body, id, properties);
      NoneDiffers(body, id, init);
      assert properties == init + [last];
    }
  }

  /** Editing main as though it were a branch leaves the live graph what main's history replays to exactly
      when the live body already shows what the edit asks for. */
  lemma EditingMainDesynchronises(r: Repo, id: Id, properties: seq<(string, string)>, rationale: Option<string>)
    requires Sound(r) && DistinctKeys(properties)
    requires BranchEdited(r, MainBranch, id, properties, rationale).Ok?
    ensures var after := BranchEdited(r, MainBranch, id, properties, rationale).value;
            && Ordered(after) && HasMain(after.branches)
            && (Synchronised(after) <==> Shows(BodyOf(r.live, id), properties, rationale))
  {
    hide ApplyDiffs, Restricted, FullReplay, BodyDiff, InLine, WellForked, BodyOnly, FindBranch, Shows;
    MainIsFirst(r.branches);
    var head := r.branches[0].head.value;
    ResolveIsReplay(r, head);
    assert Resolve(r, head) == Ok(Restricted(r.live));
    SameBodies(r.live, id);
    var diff := BodyDiff(BodyOf(r.live, id), id, properties, rationale);
    CommittedIsOrdered(r, diff);
    NewReplay(r, 0, diff);
    EditIsEffective(r.live, id, properties, rationale);
    NothingIsRecordedIff(BodyOf(r.live, id), id, properties, rationale);
  }

  /** One write and one edit of main are enough. */
  lemma EditedMainIsLost()
    ensures var diff := [ElementCreated("a", Element, "A")];
            var edit := EditBranch(MainBranch, "a", [("mass", "1")], None);
            var written := Next(NewProject(), Write(ApplyDiffs(EmptySnapshot(), diff), diff));
            && Sound(written) && Ordered(Next(written, edit)) && HasMain(Next(written, edit).branches)
            && Next(written, edit) != written && !Synchronised(Next(written, edit))
  {
    var diff := [ElementCreated("a", Element, "A")];
    var written := Next(NewProject(), Write(ApplyDiffs(EmptySnapshot(), diff), diff));
    NewProjectIsSound();
    NextKeepsSound(NewProject(), Write(ApplyDiffs(EmptySnapshot(), diff), diff));
    FirstWrite(diff);
    hide Sound, ApplyDiffs, Synchronised, Shaped;
    MainCanBeEdited(written, "a", [("mass", "1")], None);
    EditingMainDesynchronises(written, "a", [("mass", "1")], None);
    OneDiff(EmptySnapshot(), ElementCreated("a", Element, "A"));
    assert !Shows(BodyOf(written.live, "a"), [("mass", "1")], None) by {
      assert ("mass", "1") in [("mass", "1")];
      assert Property(Body(None, map[]), "mass") == JsonNull;
    }
  }

  lemma MainCanBeEdited(r: Repo, id: Id, properties: seq<(string, string)>, rationale: Option<string>)
    requires Sound(r) && r.branches[0].head.Some?
    ensures BranchEdited(r, MainBranch, id, properties, rationale).Ok?
    ensures Next(r, EditBranch(MainBranch, id, properties, rationale)) ==
            BranchEdited(r, MainBranch, id, properties, rationale).value
    ensures Next(r, EditBranch(MainBranch, id, properties, rationale)) != r
  {
    hide FindBranch, Resolve, BodyDiff, FullReplay, Restricted, InLine, WellForked, BodyOnly;
    MainIsFirst(r.branches);
    ResolveIsReplay(r, r.branches[0].head.value);
  }

  lemma SameBodies(s: Snapshot, id: Id)
    ensures BodyOf(Restricted(s), id) == BodyOf(s, id)
  {
  }

  lemma CommittedIsOrdered(r: Repo, diff: seq<DiffEntry>)
    requires Shaped(r)
    ensures Ordered(Committed(r, 0, diff)) && HasMain(Committed(r, 0, diff).branches)
    ensures ParentsBefore(Committed(r, 0, diff).commits)
  {
    hide BodyOnly;
    CommittedIsShaped(r, 0, diff);
  }

  /** A text edit is an exact write: the commit recorded for it, its operations under real ids, replays
      to what the store then holds. */
  lemma TextEditIsExact(r: Repo, contains: seq<Edge>, uuids: nat -> Id, ops: seq<GraphOp>)
    requires Ready(r.live, contains, uuids, ops) && Checks(contains, r.live.elements.Keys, uuids, ops).errors == []
    ensures var m := Checks(contains, r.live.elements.Keys, uuids, ops).idMap;
            Legitimate(r, Write(WrittenAll(r.live, m, ops), [TextModelApplied(ResolveOpsToRealIds(ops, m))]))
  {
    hide Ready, Checks, WrittenAll, ApplyOps, ResolveOpsToRealIds, ApplyDiffs;
    AppliedBatchIsReplayed(r.live, contains, uuids, ops);
    var m := Checks(contains, r.live.elements.Keys, uuids, ops).idMap;
    OneDiff(r.live, TextModelApplied(ResolveOpsToRealIds(ops, m)));
  }
}
