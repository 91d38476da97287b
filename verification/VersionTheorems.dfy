/** Resolving a commit, by whichever shortcut, is replaying its whole history. */
module VersionTheorems {
  import opened SysmlModel
  import opened GraphOps
  import opened Versioning

  predicate ParentsBefore(commits: seq<Commit>) {
    forall n :: 0 <= n < |commits| ==> Before(commits[n].parent, n)
  }

  /** The plain meaning of a commit: every change from the first commit on, along its parents. */
  function FullReplay(commits: seq<Commit>, ref: CommitRef): Option<Snapshot>
    requires ParentsBefore(commits)
    decreases if ref.Minted? then ref.n + 1 else 0
  {
    if ref.Minted? && ref.n < |commits| then
      var c := commits[ref.n];
      var before := if c.parent.Some? then FullReplay(commits, c.parent.value) else Some(EmptySnapshot());
      if before.Some? then Some(ApplyDiffs(before.value, c.diff)) else None
    else None
  }

  predicate BodyOnly(diff: seq<DiffEntry>) {
    forall d :: d in diff ==> d.PropertyChanged? || d.RationaleChanged?
  }

  /** A branch's commits follow one another, the first of them the commit it was forked from. */
  predicate InLine(r: Repo, n: nat)
    requires Ordered(r) && n < |r.commits|
  {
    var c := r.commits[n];
    || c.parent == r.branches[c.branch].fork
    || (c.parent.Some? && c.parent.value.Minted? && r.commits[c.parent.value.n].branch == c.branch)
  }

  /** A branch was forked from a commit of an older branch, and its head is its own last commit, or that one. */
  predicate WellForked(r: Repo, b: nat)
    requires Ordered(r) && b < |r.branches|
  {
    var br := r.branches[b];
    && (br.fork.Some? && br.fork.value.Minted? ==>
        br.fork.value.n < |r.commits| && r.commits[br.fork.value.n].branch < b)
    && (br.head == br.fork ||
        (br.head.Some? && Exists(r, br.head.value) && r.commits[br.head.value.n].branch == b))
  }

  predicate HasMain(branches: seq<Branch>) {
    && branches != [] && branches[0].name == MainBranch && branches[0].fork == None
    && forall b :: 0 < b < |branches| ==> branches[b].name != MainBranch
  }

  predicate Shaped(r: Repo) {
    && Ordered(r) && HasMain(r.branches)
    && (forall n :: 0 <= n < |r.commits| ==> InLine(r, n))
    && (forall b :: 0 <= b < |r.branches| ==> WellForked(r, b))
    && (forall n :: 0 <= n < |r.commits| && r.commits[n].branch != 0 ==> BodyOnly(r.commits[n].diff))
  }

  /** The live graph is what main's history replays to. */
  predicate Synchronised(r: Repo)
    requires Ordered(r) && HasMain(r.branches)
  {
    ReplayOf(r, r.branches[0].head) == Some(r.live)
  }

  function ReplayOf(r: Repo, head: Option<CommitRef>): Option<Snapshot>
    requires Ordered(r)
  {
    if head.Some? then FullReplay(r.commits, head.value) else Some(EmptySnapshot())
  }

  predicate Sound(r: Repo) {
    Shaped(r) && Synchronised(r)
  }

  lemma MainIsFirst(branches: seq<Branch>)
    requires HasMain(branches)
    ensures FindBranch(branches, MainBranch) == Some(0)
  {
  }

  // ----- Resolving -----

  /** The answer comes, at once or through the fork points, from the live graph. */
  predicate FromLive(r: Repo, ref: CommitRef)
    requires Ordered(r) && HasMain(r.branches)
    decreases if ref.Minted? then ref.n + 1 else 0
  {
    || r.branches[0].head == Some(ref)
    || (Exists(r, ref) &&
        var fork := r.branches[r.commits[ref.n].branch].fork;
        fork.Some? && FromLive(r, fork.value))
  }

  lemma {:induction false} ChainIsHistory(r: Repo, n: nat)
    requires Shaped(r) && n < |r.commits|
    ensures var base := ReplayOf(r, r.branches[r.commits[n].branch].fork);
            && (base.Some? ==> Chain(r, n).Some?)
            && FullReplay(r.commits, Minted(n))
            == if base.Some? then Some(ApplyCommits(base.value, Chain(r, n).value)) else None
    ensures Chain(r, n).Some? ==> forall c :: c in Chain(r, n).value ==>
            c in r.commits && c.branch == r.commits[n].branch
    decreases n
  {
    hide ApplyDiffs, BodyOnly;
    var c := r.commits[n];
    assert InLine(r, n) && WellForked(r, c.branch);
    if c.parent == r.branches[c.branch].fork {
      OneCommit(c);
    } else {
      var p := c.parent.value.n;
      ChainIsHistory(r, p);
    }
  }

  lemma OneCommit(c: Commit)
    ensures forall s :: ApplyCommits(s, [c]) == ApplyDiffs(s, c.diff)
  {
    assert [c][..0] == [];
  }

  lemma RestrictedTwice(s: Snapshot, d: DiffEntry)
    requires d.PropertyChanged? || d.RationaleChanged?
    ensures ApplyDiff(Restricted(s), d) == Restricted(ApplyDiff(s, d))
    ensures ApplyDiff(s, d).edges == s.edges && ApplyDiff(s, d).elements == s.elements
  {
  }

  /** Changes to bodies leave the edges alone. */
  lemma {:induction false} BodyChangesKeepEdges(s: Snapshot, diff: seq<DiffEntry>)
    requires BodyOnly(diff)
    ensures ApplyDiffs(Restricted(s), diff) == Restricted(ApplyDiffs(s, diff))
    ensures ApplyDiffs(s, diff).edges == s.edges
  {
    hide ApplyDiff, Restricted;
    if diff != [] {
      var init := diff[..|diff| - 1];
      BodyChangesKeepEdges(s, init);
      RestrictedTwice(ApplyDiffs(s, init), diff[|diff| - 1]);
    }
  }

  lemma {:induction false} BodyCommitsKeepEdges(s: Snapshot, chain: seq<Commit>)
    requires forall c :: c in chain ==> BodyOnly(c.diff)
    ensures ApplyCommits(Restricted(s), chain) == Restricted(ApplyCommits(s, chain))
  {
    hide ApplyDiffs, Restricted, BodyOnly;
    if chain != [] {
      var init := chain[..|chain| - 1];
      BodyCommitsKeepEdges(s, init);
      BodyChangesKeepEdges(ApplyCommits(s, init), chain[|chain| - 1].diff);
    }
  }

  function Answer(r: Repo, ref: CommitRef): Result<Snapshot>
    requires Ordered(r) && HasMain(r.branches)
  {
    match FullReplay(r.commits, ref)
    case None => Err(CommitNotFound)
    case Some(s) => Ok(if FromLive(r, ref) then Restricted(s) else s)
  }

  /** Every commit resolves to its full replay, except that an answer drawn from the live graph lacks the
      edges of the kinds a live snapshot does not read; it fails exactly when the history leads to a
      commit that is not there. */
  lemma {:induction false} ResolveIsReplay(r: Repo, ref: CommitRef)
    requires Sound(r)
    ensures Resolve(r, ref) == Answer(r, ref)
    decreases if ref.Minted? then ref.n + 1 else 0
  {
    hide ApplyCommits, Restricted, FindBranch, BodyOnly, ApplyDiffs;
    MainIsFirst(r.branches);
    if r.branches[0].head != Some(ref) && Exists(r, ref) {
      var n := ref.n;
      var c := r.commits[n];
      var fork := r.branches[c.branch].fork;
      ChainIsHistory(r, n);
      if fork.Some? {
        ResolveIsReplay(r, fork.value);
        assert c.branch != 0;
        var base := FullReplay(r.commits, fork.value);
        if base.Some? {
          BranchCommitsAreBodyOnly(r, n);
          BodyCommitsKeepEdges(base.value, Chain(r, n).value);
        }
      }
    }
  }

  lemma BranchCommitsAreBodyOnly(r: Repo, n: nat)
    requires Shaped(r) && n < |r.commits| && r.commits[n].branch != 0 && Chain(r, n).Some?
    ensures forall c :: c in Chain(r, n).value ==> BodyOnly(c.diff)
  {
    hide BodyOnly, InLine, WellForked;
    ChainIsHistory(r, n);
  }

  predicate Plain(s: Snapshot) {
    forall e :: e in s.edges ==> Snapshotted(e.kind)
  }

  lemma RestrictedIsSame(s: Snapshot)
    ensures Restricted(s) == s <==> Plain(s)
  {
    assert forall e :: e in s.edges ==> (e in Restricted(s).edges <==> Snapshotted(e.kind));
    if Plain(s) {
      assert Restricted(s).edges == s.edges;
    }
  }

  lemma {:induction false} ChainKeepsEdges(s: Snapshot, chain: seq<Commit>)
    requires forall c :: c in chain ==> BodyOnly(c.diff)
    ensures ApplyCommits(s, chain).edges == s.edges
  {
    hide ApplyDiffs, BodyOnly;
    if chain != [] {
      var init := chain[..|chain| - 1];
      ChainKeepsEdges(s, init);
      BodyChangesKeepEdges(ApplyCommits(s, init), chain[|chain| - 1].diff);
    }
  }

  /** What is drawn from the live graph replays, and its edges are the live graph's. */
  lemma {:induction false} LiveEdges(r: Repo, ref: CommitRef)
    requires Sound(r) && FromLive(r, ref)
    ensures FullReplay(r.commits, ref).Some? && FullReplay(r.commits, ref).value.edges == r.live.edges
    decreases if ref.Minted? then ref.n + 1 else 0
  {
    hide ApplyCommits, BodyOnly, ApplyDiffs;
    if r.branches[0].head != Some(ref) {
      var c := r.commits[ref.n];
      var fork := r.branches[c.branch].fork;
      ChainIsHistory(r, ref.n);
      LiveEdges(r, fork.value);
      assert c.branch != 0;
      BranchCommitsAreBodyOnly(r, ref.n);
      ChainKeepsEdges(FullReplay(r.commits, fork.value).value, Chain(r, ref.n).value);
    }
  }

  lemma SameEdgesSamePlain(s: Snapshot, t: Snapshot)
    requires s.edges == t.edges
    ensures Plain(s) <==> Plain(t)
  {
  }

  /** The shortcut through the live graph is exact exactly when the live graph holds only edges of the kinds
      its snapshot reads. */
  lemma ShortcutIsExactIff(r: Repo, ref: CommitRef)
    requires Sound(r) && FullReplay(r.commits, ref).Some?
    ensures Resolve(r, ref) == Ok(FullReplay(r.commits, ref).value) <==> FromLive(r, ref) ==> Plain(r.live)
  {
    hide FromLive, FullReplay, Restricted, Plain, Resolve;
    ResolveIsReplay(r, ref);
    RestrictedIsSame(FullReplay(r.commits, ref).value);
    if FromLive(r, ref) {
      LiveEdges(r, ref);
      SameEdgesSamePlain(FullReplay(r.commits, ref).value, r.live);
    }
  }

  // ----- Histories -----

  datatype Request =
    | Write(after: Snapshot, diff: seq<DiffEntry>)
    | NewBranch(name: string, from: Option<CommitRef>)
    | EditBranch(name: string, id: Id, properties: seq<(string, string)>, rationale: Option<string>)

  function Next(r: Repo, request: Request): Repo
    requires Ordered(r)
  {
    match request
    case Write(after, diff) => Recorded(r, after, diff)
    case NewBranch(name, from) =>
      var made := Branched(r, name, from);
      if made.Ok? then made.value else r
    case EditBranch(name, id, properties, rationale) =>
      var edited := BranchEdited(r, name, id, properties, rationale);
      if edited.Ok? then edited.value else r
  }

  /** What the program assumes of a request: a write's recorded change is what it did; an id given to fork
      from is that of a commit, or of none there will ever be; main is not edited as a branch. */
  predicate Legitimate(r: Repo, request: Request) {
    match request
    case Write(after, diff) => after == ApplyDiffs(r.live, diff)
    case NewBranch(_, from) => from.Some? && from.value.Minted? ==> from.value.n < |r.commits|
    case EditBranch(name, _, _, _) => name != MainBranch
  }

  /** A request adds commits and branches; it alters no commit and no fork, and main's head stays or moves
      to a new commit. */
  ghost predicate Extends(before: Repo, after: Repo) {
    && before.commits <= after.commits && |before.branches| <= |after.branches|
    && (forall b :: 0 <= b < |before.branches| ==> after.branches[b].fork == before.branches[b].fork)
    && (before.branches != [] ==>
          after.branches[0].head == before.branches[0].head || IsLater(after.branches[0].head, |before.commits|))
  }

  predicate IsLater(head: Option<CommitRef>, n: nat) {
    head.Some? && head.value.Minted? && head.value.n >= n
  }

  lemma {:induction false} ReplayIsStable(before: seq<Commit>, after: seq<Commit>, ref: CommitRef)
    requires ParentsBefore(before) && ParentsBefore(after) && before <= after
    requires ref.Minted? ==> ref.n < |before|
    ensures FullReplay(after, ref) == FullReplay(before, ref)
    decreases if ref.Minted? then ref.n + 1 else 0
  {
    hide ApplyDiffs;
    if ref.Minted? && before[ref.n].parent.Some? {
      ReplayIsStable(before, after, before[ref.n].parent.value);
    }
  }

  lemma {:induction false} SomeBodyChanges(body: Body, id: Id, properties: seq<(string, string)>)
    ensures BodyOnly(PropertyChanges(body, id, properties))
  {
    if properties != [] {
      SomeBodyChanges(body, id, properties[..|properties| - 1]);
    }
  }

  lemma CommittedIsShaped(r: Repo, b: nat, diff: seq<DiffEntry>)
    requires Shaped(r) && b < |r.branches| && (b != 0 ==> BodyOnly(diff))
    ensures Shaped(Committed(r, b, diff))
  {
    hide BodyOnly;
    var r' := Committed(r, b, diff);
    assert WellForked(r, b);
    forall n | 0 <= n < |r'.commits|
      ensures var c := r'.commits[n];
              c.branch < |r'.branches| && Before(c.parent, n) && Before(r'.branches[c.branch].fork, n)
      ensures r'.commits[n].branch != 0 ==> BodyOnly(r'.commits[n].diff)
    {
      if n < |r.commits| {
        assert r'.commits[n] == r.commits[n];
      }
    }
    forall n | 0 <= n < |r'.commits|
      ensures InLine(r', n)
    {
      if n < |r.commits| {
        assert InLine(r, n) && r'.commits[n] == r.commits[n];
      }
    }
    forall k | 0 <= k < |r'.branches|
      ensures WellForked(r', k)
    {
      assert WellForked(r, k);
    }
  }

  lemma NewReplay(r: Repo, b: nat, diff: seq<DiffEntry>)
    requires Shaped(r) && b < |r.branches|
    requires ParentsBefore(Committed(r, b, diff).commits)
    ensures var before := ReplayOf(r, r.branches[b].head);
            FullReplay(Committed(r, b, diff).commits, Minted(|r.commits|))
            == if before.Some? then Some(ApplyDiffs(before.value, diff)) else None
  {
    hide ApplyDiffs, BodyOnly;
    assert WellForked(r, b);
    var after := Committed(r, b, diff).commits;
    assert after[|r.commits|] == Commit(b, r.branches[b].head, diff);
    if r.branches[b].head.Some? {
      ReplayIsStable(r.commits, after, r.branches[b].head.value);
    }
  }

  /** A legitimate request keeps main's history and the live graph together. */
  lemma NextKeepsSound(r: Repo, request: Request)
    requires Sound(r) && Legitimate(r, request)
    ensures Sound(Next(r, request)) && Extends(r, Next(r, request))
  {
    hide ApplyDiffs, BodyOnly, FindBranch, Resolve, BodyDiff, InLine, WellForked, FullReplay, Committed;
    match request {
      case Write(after, diff) =>
        WriteKeepsSound(r, after, diff);
      case NewBranch(name, from) =>
        if Branched(r, name, from).Ok? {
          NewBranchKeepsSound(r, name, from);
        }
      case EditBranch(name, id, properties, rationale) =>
        var b := FindBranch(r.branches, name);
        if BranchEdited(r, name, id, properties, rationale).Ok? {
          var diff := BodyDiff(BodyOf(Resolve(r, r.branches[b.value].head.value).value, id), id, properties, rationale);
          BodyDiffIsBodyOnly(BodyOf(Resolve(r, r.branches[b.value].head.value).value, id), id, properties, rationale);
          NotMain(r, b.value);
          BranchCommitKeepsSound(r, b.value, diff);
        }
    }
  }

  lemma NotMain(r: Repo, b: nat)
    requires Shaped(r) && b < |r.branches| && r.branches[b].name != MainBranch
    ensures b != 0
  {
    hide InLine, WellForked, BodyOnly;
  }

  lemma BodyDiffIsBodyOnly(body: Body, id: Id, properties: seq<(string, string)>, rationale: Option<string>)
    ensures BodyOnly(BodyDiff(body, id, properties, rationale))
  {
    SomeBodyChanges(body, id, properties);
  }

  lemma BranchCommitKeepsSound(r: Repo, b: nat, diff: seq<DiffEntry>)
    requires Sound(r) && 0 < b < |r.branches| && BodyOnly(diff)
    ensures Sound(Committed(r, b, diff)) && Extends(r, Committed(r, b, diff))
  {
    hide BodyOnly, ApplyDiffs, InLine;
    var r' := Committed(r, b, diff);
    CommittedIsShaped(r, b, diff);
    assert WellForked(r, 0);
    if r.branches[0].head.Some? {
      ReplayIsStable(r.commits, r'.commits, r.branches[0].head.value);
    }
  }

  lemma WriteKeepsSound(r: Repo, after: Snapshot, diff: seq<DiffEntry>)
    requires Sound(r) && after == ApplyDiffs(r.live, diff)
    ensures Sound(Recorded(r, after, diff)) && Extends(r, Recorded(r, after, diff))
  {
    hide BodyOnly, InLine, FindBranch;
    MainIsFirst(r.branches);
    if diff != [] {
      CommittedIsShaped(r, 0, diff);
      NewReplay(r, 0, diff);
      LiveIsNoCommit(r, after, diff);
    }
  }

  lemma LiveIsNoCommit(r: Repo, after: Snapshot, diff: seq<DiffEntry>)
    requires Shaped(r) && Shaped(Committed(r, 0, diff))
    ensures Shaped(Committed(r.(live := after), 0, diff))
  {
    hide BodyOnly;
    var a, b := Committed(r, 0, diff), Committed(r.(live := after), 0, diff);
    assert a.commits == b.commits && a.branches == b.branches;
    forall n | 0 <= n < |b.commits|
      ensures InLine(b, n)
    {
      assert InLine(a, n);
    }
    forall k | 0 <= k < |b.branches|
      ensures WellForked(b, k)
    {
      assert WellForked(a, k);
    }
  }

  lemma NewBranchKeepsSound(r: Repo, name: string, from: Option<CommitRef>)
    requires Sound(r) && (from.Some? && from.value.Minted? ==> from.value.n < |r.commits|)
    requires Branched(r, name, from).Ok?
    ensures Sound(Branched(r, name, from).value) && Extends(r, Branched(r, name, from).value)
  {
    hide BodyOnly, FindBranch, FullReplay;
    MainIsFirst(r.branches);
    var r' := Branched(r, name, from).value;
    assert WellForked(r, 0);
    NewNameIsNew(r, name);
    forall n | 0 <= n < |r'.commits|
      ensures InLine(r', n)
    {
      assert InLine(r, n);
    }
    forall b | 0 <= b < |r'.branches|
      ensures WellForked(r', b)
    {
      if b < |r.branches| {
        assert WellForked(r, b);
      }
    }
  }

  lemma NewNameIsNew(r: Repo, name: string)
    requires HasMain(r.branches) && FindBranch(r.branches, name).None?
    ensures name != MainBranch
  {
    assert r.branches[0].name != name;
  }

  function Run(requests: seq<Request>): Repo
  {
    if requests == [] then NewProject()
    else
      var before := Run(requests[..|requests| - 1]);
      if Ordered(before) then Next(before, requests[|requests| - 1]) else before
  }

  ghost predicate LegitimateRun(requests: seq<Request>) {
    forall k :: 0 <= k < |requests| ==> Legitimate(Run(requests[..k]), requests[k])
  }

  lemma NewProjectIsSound()
    ensures Sound(NewProject())
  {
    assert forall b :: 0 <= b < |NewProject().branches| ==> WellForked(NewProject(), b);
  }

  lemma NothingRun()
    ensures Run([]) == NewProject()
  {
  }

  lemma RunOneMore(requests: seq<Request>, k: nat)
    requires k < |requests| && Sound(Run(requests[..k]))
    ensures Ordered(Run(requests[..k])) && Run(requests[..k + 1]) == Next(Run(requests[..k]), requests[k])
  {
    hide Next, Shaped;
    SoundIsOrdered(Run(requests[..k]));
    assert requests[..k + 1][..k] == requests[..k];
  }

  lemma {:induction false} EveryRunIsSound(requests: seq<Request>, k: nat)
    requires LegitimateRun(requests) && k <= |requests|
    ensures Sound(Run(requests[..k]))
    decreases k
  {
    hide Sound, Next, Legitimate, Run;
    if k == 0 {
      NewProjectIsSound();
      NothingRun();
      assert requests[..0] == [];
    } else {
      EveryRunIsSound(requests, k - 1);
      RunOneMore(requests, k - 1);
      NextKeepsSound(Run(requests[..k - 1]), requests[k - 1]);
    }
  }

  lemma SoundIsOrdered(r: Repo)
    requires Sound(r)
    ensures Ordered(r) && HasMain(r.branches) && ParentsBefore(r.commits)
  {
  }

  lemma {:induction false} LaterExtends(requests: seq<Request>, j: nat, k: nat)
    requires LegitimateRun(requests) && j <= k <= |requests|
    ensures Extends(Run(requests[..j]), Run(requests[..k]))
    decreases k
  {
    hide Sound, Next, Legitimate, Run;
    if j < k {
      LaterExtends(requests, j, k - 1);
      EveryRunIsSound(requests, k - 1);
      RunOneMore(requests, k - 1);
      NextKeepsSound(Run(requests[..k - 1]), requests[k - 1]);
    }
  }

  /** What is drawn from the live graph later was so before; and stays so as long as main gets no commit. */
  lemma {:induction false} LiveOnlyEnds(before: Repo, after: Repo, ref: CommitRef)
    requires Shaped(before) && Shaped(after) && Extends(before, after)
    requires ref.Minted? ==> ref.n < |before.commits|
    ensures FromLive(after, ref) <==> FromLive(before, ref) && after.branches[0].head == before.branches[0].head
    decreases if ref.Minted? then ref.n + 1 else 0
  {
    hide InLine, BodyOnly;
    if ref.Minted? {
      var b := before.commits[ref.n].branch;
      assert WellForked(before, b) && WellForked(before, 0);
      var fork := before.branches[b].fork;
      if fork.Some? {
        LiveOnlyEnds(before, after, fork.value);
      }
    } else {
      assert WellForked(before, 0);
      assert WellForked(after, 0);
    }
  }

  /** Whatever happens later, a commit's full history stays what it was, and so does the answer for it:
      unless it came from the live graph, main has got a commit since, and the live graph then held edges
      its snapshot does not read. */
  lemma AnswersNeverChange(requests: seq<Request>, j: nat, k: nat, ref: CommitRef)
    requires LegitimateRun(requests) && j <= k <= |requests|
    requires ref.Minted? ==> ref.n < |Run(requests[..j]).commits|
    ensures var then_, now := Run(requests[..j]), Run(requests[..k]);
            && Sound(then_) && Sound(now)
            && FullReplay(now.commits, ref) == FullReplay(then_.commits, ref)
            && (Resolve(now, ref) == Resolve(then_, ref) <==>
                (FromLive(then_, ref) && now.branches[0].head != then_.branches[0].head ==> Plain(then_.live)))
  {
    hide Run, LegitimateRun, Restricted, Plain, FromLive, FullReplay, Resolve, Extends;
    var then_, now := Run(requests[..j]), Run(requests[..k]);
    EveryRunIsSound(requests, j);
    EveryRunIsSound(requests, k);
    LaterExtends(requests, j, k);
    AnswerStaysIff(then_, now, ref);
  }

  lemma AnswerStaysIff(then_: Repo, now: Repo, ref: CommitRef)
    requires Sound(then_) && Sound(now) && Extends(then_, now)
    requires ref.Minted? ==> ref.n < |then_.commits|
    ensures FullReplay(now.commits, ref) == FullReplay(then_.commits, ref)
    ensures Resolve(now, ref) == Resolve(then_, ref) <==>
            (FromLive(then_, ref) && now.branches[0].head != then_.branches[0].head ==> Plain(then_.live))
  {
    hide Restricted, Plain, FromLive, FullReplay, Resolve, Synchronised, InLine, WellForked, BodyOnly;
    ReplayIsStable(then_.commits, now.commits, ref);
    ResolveIsReplay(then_, ref);
    ResolveIsReplay(now, ref);
    LiveOnlyEnds(then_, now, ref);
    if FullReplay(now.commits, ref).Some? {
      RestrictedIsSame(FullReplay(now.commits, ref).value);
    }
    if FromLive(then_, ref) {
      LiveEdges(then_, ref);
      SameEdgesSamePlain(FullReplay(then_.commits, ref).value, then_.live);
    }
  }

  /** A first write with a change gives main its first commit. */
  lemma FirstWrite(diff: seq<DiffEntry>)
    requires diff != []
    ensures var after := ApplyDiffs(EmptySnapshot(), diff);
            Next(NewProject(), Write(after, diff))
            == Repo([Commit(0, None, diff)], [Branch(MainBranch, None, Some(Minted(0)))], after)
  {
    hide ApplyDiffs;
    NewProjectIsSound();
    MainIsFirst(NewProject().branches);
  }

  function WriteOf(r: Repo, diff: seq<DiffEntry>): Request {
    Write(ApplyDiffs(r.live, diff), diff)
  }

  /** Two writes are enough: the first commit is answered without its edge, and answered otherwise after
      the second. */
  lemma UnreadEdgeIsLost()
    ensures var first := Next(NewProject(), WriteOf(NewProject(), [EdgeCreated("c", "p", Uses)]));
            && Ordered(first) && ParentsBefore(first.commits)
            && FullReplay(first.commits, Minted(0)).Some?
            && Resolve(first, Minted(0)) != Ok(FullReplay(first.commits, Minted(0)).value)
            && var second := Next(first, WriteOf(first, [ElementCreated("a", Element, "A")]));
            && Ordered(second) && Resolve(second, Minted(0)) != Resolve(first, Minted(0))
  {
    var edge, more := [EdgeCreated("c", "p", Uses)], [ElementCreated("a", Element, "A")];
    var first := Next(NewProject(), WriteOf(NewProject(), edge));
    NewProjectIsSound();
    FirstWrite(edge);
    NextKeepsSound(NewProject(), WriteOf(NewProject(), edge));
    NextKeepsSound(first, WriteOf(first, more));
    var second := Next(first, WriteOf(first, more));
    hide Sound, ApplyDiffs, FullReplay, Resolve, Synchronised, Next, Extends, Snapshotted, Plain, Restricted, FromLive;
    SoundIsOrdered(first);
    SoundIsOrdered(second);
    HeadIsLive(first);
    LiveEdges(first, Minted(0));
    NotPlain(EmptySnapshot(), "c", "p", Uses);
    ShortcutIsExactIff(first, Minted(0));
    HeadMoves(first, more);
    AnswerStaysIff(first, second, Minted(0));
  }

  lemma HeadIsLive(r: Repo)
    requires Ordered(r) && HasMain(r.branches) && r.branches[0].head.Some?
    ensures FromLive(r, r.branches[0].head.value)
  {
  }

  lemma NotPlain(s: Snapshot, source: Id, target: Id, kind: EdgeKind)
    requires !Snapshotted(kind)
    ensures !Plain(ApplyDiffs(s, [EdgeCreated(source, target, kind)]))
  {
    assert [EdgeCreated(source, target, kind)][..0] == [];
    var after := ApplyDiffs(s, [EdgeCreated(source, target, kind)]);
    assert Edge(source, target, kind) in after.edges;
  }

  lemma HeadMoves(r: Repo, diff: seq<DiffEntry>)
    requires Shaped(r) && diff != []
    ensures Next(r, WriteOf(r, diff)).branches != [] &&
            Next(r, WriteOf(r, diff)).branches[0].head == Some(Minted(|r.commits|))
    ensures r.branches[0].head != Some(Minted(|r.commits|))
  {
    hide ApplyDiffs, InLine, BodyOnly;
    MainIsFirst(r.branches);
    assert WellForked(r, 0);
  }
}
