/** Commits that store only their changes, branches, and how a commit's snapshot is rebuilt from them. */
module Versioning {
  import opened SysmlModel
  import opened GraphOps

  /** A commit the store minted, or an id from elsewhere that names none of its commits. */
  datatype CommitRef = Minted(n: nat) | Foreign(text: string)

  datatype DiffEntry =
    | PropertyChanged(elementId: Id, property: string, oldValue: string, newValue: string)
    | RationaleChanged(elementId: Id, oldRationale: Option<string>, newRationale: Option<string>)
    | ElementRenamed(elementId: Id, oldName: string, newName: string)
    | ElementCreated(elementId: Id, kind: NodeKind, name: string)
    | ElementDeleted(elementId: Id, kind: NodeKind, name: string)
    | ElementActiveChanged(elementId: Id, active: bool)
    | ElementOriginChanged(elementId: Id, origin: Origin)
    | EdgeCreated(source: Id, target: Id, edgeKind: EdgeKind)
    | EdgeDeleted(source: Id, target: Id, edgeKind: EdgeKind)
    | TextModelApplied(ops: seq<GraphOp>)
    | AutonomyLevelChanged(scope: string, oldLevel: Option<string>, newLevel: string)

  datatype Commit = Commit(branch: nat, parent: Option<CommitRef>, diff: seq<DiffEntry>)

  /** A branch goes by its place in the list; where it was forked from never changes. */
  datatype Branch = Branch(name: string, fork: Option<CommitRef>, head: Option<CommitRef>)

  datatype Repo = Repo(commits: seq<Commit>, branches: seq<Branch>, live: Snapshot)

  datatype RequestError = CommitNotFound | NoSuchBranch | NoCommitsYet | NameTaken

  datatype Result<+T> = Ok(value: T) | Err(error: RequestError)

  const MainBranch := "main"

  /** The text of the JSON value a missing property counts as. */
  const JsonNull := "null"

  function EmptySnapshot(): Snapshot {
    Snapshot(map[], {}, map[])
  }

  // ----- Replaying changes -----

  function BodyOf(s: Snapshot, id: Id): Body {
    if id in s.bodies then s.bodies[id] else Body(None, map[])
  }

  function ApplyDiff(s: Snapshot, d: DiffEntry): Snapshot {
    match d
    case PropertyChanged(id, property, _, value) =>
      var body := BodyOf(s, id);
      s.(bodies := s.bodies[id := body.(properties := body.properties[property := value])])
    case RationaleChanged(id, _, value) =>
      s.(bodies := s.bodies[id := BodyOf(s, id).(rationale := value)])
    case ElementRenamed(id, _, name) =>
      if id in s.elements then s.(elements := s.elements[id := s.elements[id].(name := name)]) else s
    case ElementCreated(id, kind, name) =>
      if id in s.elements then s else s.(elements := s.elements[id := ModelElement(id, kind, name, true, Human)])
    case ElementDeleted(id, _, _) =>
      Snapshot(s.elements - {id}, (set e | e in s.edges && e.source != id && e.target != id), s.bodies - {id})
    case ElementActiveChanged(id, active) =>
      if id in s.elements then s.(elements := s.elements[id := s.elements[id].(active := active)]) else s
    case ElementOriginChanged(id, origin) =>
      if id in s.elements then s.(elements := s.elements[id := s.elements[id].(origin := origin)]) else s
    case EdgeCreated(source, target, kind) => s.(edges := s.edges + {Edge(source, target, kind)})
    case EdgeDeleted(source, target, kind) => s.(edges := s.edges - {Edge(source, target, kind)})
    case TextModelApplied(ops) => ApplyOps(s, ops)
    case AutonomyLevelChanged(_, _, _) => s
  }

  function ApplyDiffs(s: Snapshot, diff: seq<DiffEntry>): Snapshot {
    if diff == [] then s else ApplyDiff(ApplyDiffs(s, diff[..|diff| - 1]), diff[|diff| - 1])
  }

  function ApplyCommits(s: Snapshot, commits: seq<Commit>): Snapshot {
    if commits == [] then s else ApplyDiffs(ApplyCommits(s, commits[..|commits| - 1]), commits[|commits| - 1].diff)
  }

  // ----- Resolving a commit -----

  /** The kinds of edge a snapshot of the live graph reads. */
  predicate Snapshotted(kind: EdgeKind) {
    kind in {Contains, Satisfy, Verify, Refine, Causes, MitigatedBy, ValidatedBy, Suspect, Concerns}
  }

  function Restricted(s: Snapshot): Snapshot {
    s.(edges := set e | e in s.edges && Snapshotted(e.kind))
  }

  function FindBranch(branches: seq<Branch>, name: string): (b: Option<nat>)
    ensures b.Some? ==> b.value < |branches| && branches[b.value].name == name
    ensures b.None? ==> forall i :: 0 <= i < |branches| ==> branches[i].name != name
  {
    if branches == [] then None
    else if branches[|branches| - 1].name == name then Some(|branches| - 1)
    else FindBranch(branches[..|branches| - 1], name)
  }

  function HeadOf(r: Repo, name: string): Option<CommitRef> {
    var b := FindBranch(r.branches, name);
    if b.Some? then r.branches[b.value].head else None
  }

  /** Every commit is on a branch, after its parent and after the commit its branch was forked from. */
  predicate Ordered(r: Repo) {
    forall n :: 0 <= n < |r.commits| ==>
      var c := r.commits[n];
      && c.branch < |r.branches|
      && Before(c.parent, n)
      && Before(r.branches[c.branch].fork, n)
  }

  predicate Before(ref: Option<CommitRef>, n: nat) {
    ref.Some? && ref.value.Minted? ==> ref.value.n < n
  }

  predicate Exists(r: Repo, ref: CommitRef) {
    ref.Minted? && ref.n < |r.commits|
  }

  /** The commits of one branch up to the `n`th commit, oldest first, following parents until one belongs
      to another branch; nothing if a parent is missing. */
  function Chain(r: Repo, n: nat): (chain: Option<seq<Commit>>)
    requires Ordered(r) && n < |r.commits|
    decreases n
  {
    var c := r.commits[n];
    match c.parent
    case None => Some([c])
    case Some(Foreign(_)) => None
    case Some(Minted(p)) =>
      if r.commits[p].branch != c.branch then Some([c])
      else
        var before := Chain(r, p);
        if before.Some? then Some(before.value + [c]) else None
  }

  /** A commit's snapshot: the live graph's for the head of main, else the fork point's with the branch's
      own commits replayed on top. */
  function Resolve(r: Repo, ref: CommitRef): Result<Snapshot>
    requires Ordered(r)
    decreases if ref.Minted? then ref.n + 1 else 0
  {
    if HeadOf(r, MainBranch) == Some(ref) then Ok(Restricted(r.live))
    else if !Exists(r, ref) then Err(CommitNotFound)
    else
      var fork := r.branches[r.commits[ref.n].branch].fork;
      var base := if fork.Some? then Resolve(r, fork.value) else Ok(EmptySnapshot());
      var chain := Chain(r, ref.n);
      if base.Ok? && chain.Some? then Ok(ApplyCommits(base.value, chain.value)) else Err(CommitNotFound)
  }

  // ----- Requests -----

  function Committed(r: Repo, b: nat, diff: seq<DiffEntry>): Repo
    requires b < |r.branches|
  {
    var ref := Minted(|r.commits|);
    r.(commits := r.commits + [Commit(b, r.branches[b].head, diff)],
       branches := r.branches[b := r.branches[b].(head := Some(ref))])
  }

  /** A write to the live graph, recorded on main unless it changed nothing. */
  function Recorded(r: Repo, after: Snapshot, diff: seq<DiffEntry>): Repo {
    var r' := r.(live := after);
    var main := FindBranch(r.branches, MainBranch);
    if diff == [] || main.None? then r' else Committed(r', main.value, diff)
  }

  function Branched(r: Repo, name: string, from: Option<CommitRef>): Result<Repo> {
    var head := if from.Some? then from else HeadOf(r, MainBranch);
    if FindBranch(r.branches, name).Some? then Err(NameTaken)
    else Ok(r.(branches := r.branches + [Branch(name, head, head)]))
  }

  function PropertyChanges(body: Body, id: Id, properties: seq<(string, string)>): seq<DiffEntry> {
    if properties == [] then []
    else
      var (key, value) := properties[|properties| - 1];
      var was := if key in body.properties then body.properties[key] else JsonNull;
      PropertyChanges(body, id, properties[..|properties| - 1]) +
      if was != value then [PropertyChanged(id, key, was, value)] else []
  }

  /** What an edit of an element's body changes, against the body it has. */
  function BodyDiff(body: Body, id: Id, properties: seq<(string, string)>, rationale: Option<string>): seq<DiffEntry> {
    PropertyChanges(body, id, properties) +
    if rationale != body.rationale then [RationaleChanged(id, body.rationale, rationale)] else []
  }

  function BranchEdited(r: Repo, name: string, id: Id, properties: seq<(string, string)>,
                        rationale: Option<string>): Result<Repo>
    requires Ordered(r)
  {
    var b := FindBranch(r.branches, name);
    if b.None? then Err(NoSuchBranch)
    else
      var head := r.branches[b.value].head;
      if head.None? then Err(NoCommitsYet)
      else
        match Resolve(r, head.value)
        case Err(e) => Err(e)
        case Ok(s) => Ok(Committed(r, b.value, BodyDiff(BodyOf(s, id), id, properties, rationale)))
  }

  // ----- The service as the program runs it -----

  class Service {
    var commits: seq<Commit>
    var branches: seq<Branch>
    var live: Snapshot

    function State(): Repo
      reads this
    {
      Repo(commits, branches, live)
    }

    /** A new project: main, with no commits. */
    constructor ()
      ensures State() == NewProject()
    {
      commits, branches, live := [], [Branch(MainBranch, None, None)], EmptySnapshot();
    }

    method GetBranch(name: string) returns (b: Option<nat>)
      ensures b == FindBranch(branches, name)
    {
      var i: nat := |branches|;
      assert branches[..i] == branches;
      while i > 0
        invariant i <= |branches| && FindBranch(branches[..i], name) == FindBranch(branches, name)
      {
        assert branches[..i][..i - 1] == branches[..i - 1];
        i := i - 1;
        if branches[i].name == name {
          return Some(i);
        }
      }
      return None;
    }

    method CommitDiff(b: nat, diff: seq<DiffEntry>)
      requires b < |branches|
      modifies this
      ensures State() == Committed(old(State()), b, diff)
    {
      var id := Minted(|commits|);
      commits := commits + [Commit(b, branches[b].head, diff)];
      branches := branches[b := branches[b].(head := Some(id))];
    }

    /** Without a main branch a write that changed something is an error, and stays written. */
    method RecordWrite(after: Snapshot, diff: seq<DiffEntry>) returns (error: Option<RequestError>)
      modifies this
      ensures State() == Recorded(old(State()), after, diff)
      ensures error == if diff != [] && FindBranch(old(branches), MainBranch).None? then Some(NoSuchBranch) else None
    {
      live := after;
      if diff == [] {
        return None;
      }
      var main := GetBranch(MainBranch);
      if main.None? {
        return Some(NoSuchBranch);
      }
      CommitDiff(main.value, diff);
      return None;
    }

    method CreateBranch(name: string, from: Option<CommitRef>) returns (r: Result<nat>)
      modifies this
      ensures match Branched(old(State()), name, from)
              case Err(e) => r == Err(e) && State() == old(State())
              case Ok(after) => r == Ok(|old(branches)|) && State() == after
    {
      var taken := GetBranch(name);
      var main := GetBranch(MainBranch);
      var head := if from.Some? then from else if main.Some? then branches[main.value].head else None;
      if taken.Some? {
        return Err(NameTaken);
      }
      branches := branches + [Branch(name, head, head)];
      return Ok(|branches| - 1);
    }

    method BranchUpdateElementBody(name: string, id: Id, properties: seq<(string, string)>, rationale: Option<string>)
      returns (r: Result<seq<DiffEntry>>)
      requires Ordered(State())
      modifies this
      ensures match BranchEdited(old(State()), name, id, properties, rationale)
              case Err(e) => r == Err(e) && State() == old(State())
              case Ok(after) => State() == after && r == Ok(after.commits[|after.commits| - 1].diff)
    {
      var branch := GetBranch(name);
      if branch.None? {
        return Err(NoSuchBranch);
      }
      var head := branches[branch.value].head;
      if head.None? {
        return Err(NoCommitsYet);
      }
      var snapshot := ResolveSnapshot(head.value);
      if snapshot.Err? {
        return Err(snapshot.error);
      }
      var diff := CompareBody(BodyOf(snapshot.value, id), id, properties, rationale);
      CommitDiff(branch.value, diff);
      return Ok(diff);
    }

    method BuildSnapshot() returns (s: Snapshot)
      ensures s == Restricted(live)
    {
      var edges: set<Edge> := {};
      var kinds := [Contains, Satisfy, Verify, Refine, Causes, MitigatedBy, ValidatedBy, Suspect, Concerns];
      for i := 0 to |kinds|
        invariant edges == set e | e in live.edges && e.kind in kinds[..i]
      {
        edges := edges + EdgesOfKind(kinds[i]);
      }
      assert kinds[..|kinds|] == kinds;
      return Snapshot(live.elements, edges, live.bodies);
    }

    function EdgesOfKind(kind: EdgeKind): set<Edge>
      reads this
    {
      set e | e in live.edges && e.kind == kind
    }

    method ResolveSnapshot(ref: CommitRef) returns (r: Result<Snapshot>)
      requires Ordered(State())
      ensures r == Resolve(State(), ref)
      decreases if ref.Minted? then ref.n + 1 else 0
    {
      var main := GetBranch(MainBranch);
      if main.Some? && branches[main.value].head == Some(ref) {
        var s := BuildSnapshot();
        return Ok(s);
      }
      if !Exists(State(), ref) {
        return Err(CommitNotFound);
      }
      var branch := commits[ref.n].branch;
      var base := Ok(EmptySnapshot());
      if branches[branch].fork.Some? {
        base := ResolveSnapshot(branches[branch].fork.value);
        if base.Err? {
          return base;
        }
      }
      var chain := GrowChain(ref.n);
      if chain.None? {
        return Err(CommitNotFound);
      }
      var s := ReplayChain(base.value, chain.value);
      return Ok(s);
    }

    /** The chain is collected newest first, then turned round. */
    method GrowChain(n: nat) returns (r: Option<seq<Commit>>)
      requires Ordered(State()) && n < |commits|
      ensures r == Chain(State(), n)
    {
      var last: nat := n;
      var chain := [commits[n]];
      NoneNewer(Chain(State(), n), commits[n]);
      while true
        invariant last < |commits| && chain != [] && chain[|chain| - 1] == commits[last]
        invariant commits[last].branch == commits[n].branch
        invariant WithNewer(Chain(State(), last), chain) == Chain(State(), n)
        decreases last
      {
        var parent := commits[last].parent;
        if parent.None? {
          break;
        }
        if !Exists(State(), parent.value) {
          return None;
        }
        if commits[parent.value.n].branch != commits[n].branch {
          break;
        }
        last := parent.value.n;
        OneOlder(Chain(State(), last), chain, commits[last]);
        chain := chain + [commits[last]];
      }
      var forwards := Reversed(chain);
      return Some(forwards);
    }
  }

  /** A chain's older commits, followed by those collected after them. */
  ghost function WithNewer(upTo: Option<seq<Commit>>, newestFirst: seq<Commit>): Option<seq<Commit>>
    requires newestFirst != []
  {
    if upTo.None? then None else Some(upTo.value + Reversed(newestFirst[..|newestFirst| - 1]))
  }

  lemma NoneNewer(upTo: Option<seq<Commit>>, c: Commit)
    ensures WithNewer(upTo, [c]) == upTo
  {
    assert [c][..0] == [];
    if upTo.Some? {
      assert upTo.value + [] == upTo.value;
    }
  }

  lemma OneOlder(upTo: Option<seq<Commit>>, newestFirst: seq<Commit>, older: Commit)
    requires newestFirst != []
    ensures WithNewer(upTo, newestFirst + [older])
         == WithNewer(if upTo.Some? then Some(upTo.value + [newestFirst[|newestFirst| - 1]]) else None, newestFirst)
  {
    var last, rest := newestFirst[|newestFirst| - 1], Reversed(newestFirst[..|newestFirst| - 1]);
    assert (newestFirst + [older])[..|newestFirst|] == newestFirst;
    if upTo.Some? {
      assert upTo.value + ([last] + rest) == (upTo.value + [last]) + rest;
    }
  }

  function Reversed<T>(s: seq<T>): (r: seq<T>)
    ensures |r| == |s|
  {
    if s == [] then [] else [s[|s| - 1]] + Reversed(s[..|s| - 1])
  }

  method CompareBody(body: Body, id: Id, properties: seq<(string, string)>, rationale: Option<string>)
    returns (diff: seq<DiffEntry>)
    ensures diff == BodyDiff(body, id, properties, rationale)
  {
    diff := [];
    for i := 0 to |properties|
      invariant diff == PropertyChanges(body, id, properties[..i])
    {
      assert properties[..i + 1][..i] == properties[..i];
      var (key, value) := properties[i];
      var was := if key in body.properties then body.properties[key] else JsonNull;
      if was != value {
        diff := diff + [PropertyChanged(id, key, was, value)];
      }
    }
    assert properties[..|properties|] == properties;
    if rationale != body.rationale {
      diff := diff + [RationaleChanged(id, body.rationale, rationale)];
    }
  }

  method ReplayChain(base: Snapshot, chain: seq<Commit>) returns (s: Snapshot)
    ensures s == ApplyCommits(base, chain)
  {
    s := base;
    for i := 0 to |chain|
      invariant s == ApplyCommits(base, chain[..i])
    {
      assert chain[..i + 1][..i] == chain[..i];
      s := Replay(s, chain[i].diff);
    }
    assert chain[..|chain|] == chain;
  }

  method Replay(s: Snapshot, diff: seq<DiffEntry>) returns (r: Snapshot)
    ensures r == ApplyDiffs(s, diff)
  {
    r := s;
    for i := 0 to |diff|
      invariant r == ApplyDiffs(s, diff[..i])
    {
      assert diff[..i + 1][..i] == diff[..i];
      r := ApplyDiff(r, diff[i]);
    }
    assert diff[..|diff|] == diff;
  }

  function NewProject(): Repo {
    Repo([], [Branch(MainBranch, None, None)], EmptySnapshot())
  }
}
