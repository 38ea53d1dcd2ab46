/** How gitall/main.go moves branch tips. */
module BranchUpdates {
  import opened Wrappers

  // A commit is its content, as git names it by content: parents, tree, message and
  // author. So the commit graph has no cycles, and re-creating a commit yields the
  // same commit. Every answer of a git subprocess is an input (Replies); an
  // update-ref either happens or fails whole.

  type Branch = string

  datatype Commit = Commit(parents: seq<Commit>, tree: nat, message: string, author: string)

  /** a is reachable from d over parents; every commit reaches itself. */
  predicate Ancestor(a: Commit, d: Commit) {
    a == d || exists i | 0 <= i < |d.parents| :: Ancestor(a, d.parents[i])
  }

  lemma {:induction false} AncestorTransitive(a: Commit, b: Commit, c: Commit)
    requires Ancestor(a, b) && Ancestor(b, c)
    ensures Ancestor(a, c)
    decreases c
  {
    if b != c {
      var i :| 0 <= i < |c.parents| && Ancestor(b, c.parents[i]);
      AncestorTransitive(a, b, c.parents[i]);
    }
  }

  function Depth(c: Commit): nat {
    1 + DepthOfAll(c.parents)
  }

  function DepthOfAll(cs: seq<Commit>): nat {
    if cs == [] then 0 else DepthOfAll(cs[1..]) + Depth(cs[0])
  }

  lemma {:induction false} ParentShallower(cs: seq<Commit>, i: nat)
    requires i < |cs|
    ensures Depth(cs[i]) <= DepthOfAll(cs)
  {
    if i > 0 { ParentShallower(cs[1..], i - 1); }
  }

  // ----- git's answers

  /** merge-base --is-ancestor exits with its verdict, or breaks; then rev-parse says whether both revisions exist. */
  datatype AncestryReply = Verdict | Broken(revisionsExist: bool)

  datatype TreeReply = TreeFailed | Merged(tree: nat, conflicts: seq<string>)

  /** The answers for one replayed commit, in the order they are asked for. */
  datatype ReplayReply = ReplayReply(parentFound: bool, merge: TreeReply, message: bool, author: bool, committed: bool)

  datatype Replies = Replies(
    tipFound: bool,
    theirs: Option<Commit>,
    theirsInOurs: AncestryReply,
    oursInTheirs: AncestryReply,
    merge: TreeReply,
    stripped: Option<nat>,        // tree without the conflicted lock files
    committed: bool,
    listed: Option<seq<Commit>>,  // rev-list --reverse theirs..ours
    replays: nat -> ReplayReply,
    refUpdated: bool)

  datatype Settings = Settings(dryRun: bool, allowMerge: bool, rebase: bool, message: string, committer: string)

  datatype Outcome = Failed | Updated(moved: bool)

  // ----- specification

  datatype Check = CheckFailed | Checked(yes: bool)

  function IsAncestor(a: Commit, d: Commit, reply: AncestryReply): Check {
    match reply
    case Verdict => Checked(Ancestor(a, d))
    case Broken(exist) => if exist then Checked(false) else CheckFailed
  }

  const LOCK_FILE := "Cargo.lock"

  function WithoutSlashes(path: string): string {
    if path != "" && path[|path| - 1] == '/' then WithoutSlashes(path[..|path| - 1]) else path
  }

  function AfterSlash(path: string): string {
    if path == "" || path[|path| - 1] == '/' then "" else AfterSlash(path[..|path| - 1]) + [path[|path| - 1]]
  }

  /** filepath.Base, on a system whose separator is a slash. */
  function BaseName(path: string): string {
    var rest := WithoutSlashes(path);
    if path == "" then "." else if rest == "" then "/" else AfterSlash(rest)
  }

  predicate OnlyLockFiles(conflicts: seq<string>) {
    forall i :: 0 <= i < |conflicts| ==> BaseName(conflicts[i]) == LOCK_FILE
  }

  /** The tree of the merge commit, if the merge can be made. */
  function MergeTree(r: Replies): Option<nat> {
    match r.merge
    case TreeFailed => None
    case Merged(tree, conflicts) =>
      if conflicts == [] then Some(tree)
      else if OnlyLockFiles(conflicts) then r.stripped
      else None
  }

  /** Replays the listed commits onto a base, each on top of the previous one. */
  function Replay(commits: seq<Commit>, replies: nat -> ReplayReply, onto: Commit): Option<Commit> {
    if commits == [] then Some(onto)
    else
      var n := |commits| - 1;
      var c, r := commits[n], replies(n);
      match Replay(commits[..n], replies, onto)
      case None => None
      case Some(tip) =>
        if !r.parentFound || c.parents == [] || r.merge.TreeFailed? || r.merge.conflicts != [] || !r.message || !r.author || !r.committed then None
        else Some(Commit([tip], r.merge.tree, c.message, c.author))
  }

  /** The commit that an update moves the branch to, if it moves it. */
  datatype Plan = Stop(outcome: Outcome) | MoveTo(tip: Commit)

  function PlanUpdate(ours: Commit, s: Settings, r: Replies): Plan {
    if !r.tipFound || r.theirs.None? then Stop(Failed)
    else
      var theirs := r.theirs.value;
      if ours == theirs then Stop(Updated(false))
      else
        match IsAncestor(theirs, ours, r.theirsInOurs)
        case CheckFailed => Stop(Failed)
        case Checked(true) => Stop(Updated(false))
        case Checked(false) =>
          match IsAncestor(ours, theirs, r.oursInTheirs)
          case CheckFailed => Stop(Failed)
          case Checked(true) => if s.dryRun then Stop(Updated(true)) else MoveTo(theirs)
          case Checked(false) =>
            if s.rebase then PlanRebase(theirs, s, r)
            else if !s.allowMerge then Stop(Updated(false))
            else PlanMerge(ours, theirs, s, r)
  }

  function PlanRebase(theirs: Commit, s: Settings, r: Replies): Plan {
    if s.dryRun then Stop(Updated(true))
    else if r.listed.None? then Stop(Failed)
    else
      match Replay(r.listed.value, r.replays, theirs)
      case None => Stop(Failed)
      case Some(tip) => MoveTo(tip)
  }

  function PlanMerge(ours: Commit, theirs: Commit, s: Settings, r: Replies): Plan {
    if s.dryRun then Stop(Updated(true))
    else if MergeTree(r).None? || !r.committed then Stop(Failed)
    else MoveTo(Commit([ours, theirs], MergeTree(r).value, s.message, s.committer))
  }

  /** One update of a branch: the new tip and what is returned. */
  function Update(ours: Commit, s: Settings, r: Replies): (Commit, Outcome) {
    match PlanUpdate(ours, s, r)
    case Stop(o) => (ours, o)
    case MoveTo(tip) => if r.refUpdated then (tip, Updated(true)) else (ours, Failed)
  }

  // ----- when an update moves the branch, and to which commit

  /** "Cargo.lock", or a path that ends in "/Cargo.lock"; slashes may follow. */
  predicate IsLockPath(path: string) {
    exists k: nat :: k <= |path| && EndsInLock(path[..k]) && forall i :: k <= i < |path| ==> path[i] == '/'
  }

  predicate EndsInLock(path: string) {
    path == "Cargo.lock" || (|path| > 10 && path[|path| - 11..] == "/Cargo.lock")
  }

  lemma {:induction false} WithoutSlashesIs(path: string)
    ensures var rest := WithoutSlashes(path);
            && |rest| <= |path| && rest == path[..|rest|] && (forall i :: |rest| <= i < |path| ==> path[i] == '/')
            && (rest != "" ==> rest[|rest| - 1] != '/')
  {
    if path != "" && path[|path| - 1] == '/' { WithoutSlashesIs(path[..|path| - 1]); }
  }

  lemma {:induction false} AfterSlashIs(path: string)
    ensures var n := |path| - |AfterSlash(path)|;
            && 0 <= n && path[n..] == AfterSlash(path) && (n > 0 ==> path[n - 1] == '/') && '/' !in AfterSlash(path)
  {
    if path != "" && path[|path| - 1] != '/' { AfterSlashIs(path[..|path| - 1]); }
  }

  lemma {:induction false} AfterSlashUnique(path: string, n: nat)
    requires n <= |path| && (n > 0 ==> path[n - 1] == '/') && forall i :: n <= i < |path| ==> path[i] != '/'
    ensures AfterSlash(path) == path[n..]
  {
    if n < |path| {
      var front := path[..|path| - 1];
      AfterSlashUnique(front, n);
      assert front[n..] + [path[|path| - 1]] == path[n..];
    }
  }

  lemma NoSlashInLock()
    ensures |LOCK_FILE| == 10 && forall i :: 0 <= i < 10 ==> LOCK_FILE[i] != '/'
  {
  }

  lemma LockAtEnd(path: string)
    requires EndsInLock(path)
    ensures AfterSlash(path) == LOCK_FILE
  {
    NoSlashInLock();
    var n := |path| - 10;
    assert path[n..] == LOCK_FILE && (n > 0 ==> path[n - 1] == '/') by {
      if path != LOCK_FILE {
        var tail := path[n - 1..];
        assert tail == "/" + LOCK_FILE;
        assert tail[0] == path[n - 1] && tail[1..] == path[n..];
      }
    }
    assert forall i :: n <= i < |path| ==> path[i] == path[n..][i - n];
    AfterSlashUnique(path, n);
  }

  lemma EndsInLockIff(path: string)
    ensures AfterSlash(path) == LOCK_FILE <==> EndsInLock(path)
  {
    if EndsInLock(path) { LockAtEnd(path); }
    AfterSlashIs(path);
    var n := |path| - |AfterSlash(path)|;
    if n > 0 { assert path[n - 1..] == [path[n - 1]] + path[n..]; }
  }

  lemma SlashesFollow(path: string, k: nat)
    requires k <= |path| && EndsInLock(path[..k]) && forall i :: k <= i < |path| ==> path[i] == '/'
    ensures WithoutSlashes(path) == path[..k]
  {
    WithoutSlashesIs(path);
    var q := path[..k];
    assert q[k - 1] == 'k' by { if q != LOCK_FILE { assert q[|q| - 11..][10] == q[k - 1]; } }
  }

  /** The file name test passes exactly for paths of lock files. */
  lemma LockPathIff(path: string)
    ensures BaseName(path) == LOCK_FILE <==> IsLockPath(path)
  {
    var rest := WithoutSlashes(path);
    WithoutSlashesIs(path);
    EndsInLockIff(rest);
    if IsLockPath(path) {
      var k: nat :| k <= |path| && EndsInLock(path[..k]) && forall i :: k <= i < |path| ==> path[i] == '/';
      SlashesFollow(path, k);
    } else {
      assert !EndsInLock(path[..|rest|]);
    }
  }

  lemma AllLockPaths(conflicts: seq<string>)
    ensures OnlyLockFiles(conflicts) <==> forall path :: path in conflicts ==> IsLockPath(path)
  {
    forall path | path in conflicts ensures BaseName(path) == LOCK_FILE <==> IsLockPath(path) { LockPathIff(path); }
  }

  /** A merge moves the branch: it was made, only lock files conflict, and what follows works. */
  ghost predicate MergeMoves(r: Replies) {
    && r.merge.Merged? && (forall path :: path in r.merge.conflicts ==> IsLockPath(path))
    && (r.merge.conflicts != [] ==> r.stripped.Some?) && r.committed && r.refUpdated
  }

  /** The merge commit: the merged tree, without the lock files if these conflict. */
  function MergeCommit(ours: Commit, theirs: Commit, s: Settings, r: Replies): Commit
    requires r.merge.Merged? && (r.merge.conflicts != [] ==> r.stripped.Some?)
  {
    Commit([ours, theirs], if r.merge.conflicts == [] then r.merge.tree else r.stripped.value, s.message, s.committer)
  }

  /** A conflict outside lock files stops a merge. */
  lemma PlanMergeMoves(ours: Commit, theirs: Commit, s: Settings, r: Replies)
    requires !s.dryRun
    ensures PlanMerge(ours, theirs, s, r).MoveTo? && r.refUpdated <==> MergeMoves(r)
    ensures MergeMoves(r) ==> PlanMerge(ours, theirs, s, r) == MoveTo(MergeCommit(ours, theirs, s, r))
    ensures PlanMerge(ours, theirs, s, r).Stop? ==> PlanMerge(ours, theirs, s, r) == Stop(Failed)
  {
    if r.merge.Merged? { AllLockPaths(r.merge.conflicts); }
  }

  /** A commit can be replayed: it has a parent, it does not conflict, and every call works. */
  ghost predicate Replayable(c: Commit, r: ReplayReply) {
    && r.parentFound && c.parents != [] && r.merge.Merged? && r.merge.conflicts == []
    && r.message && r.author && r.committed
  }

  ghost predicate AllReplayable(commits: seq<Commit>, replies: nat -> ReplayReply) {
    forall k :: 0 <= k < |commits| ==> Replayable(commits[k], replies(k))
  }

  /** After base, the k-th commit has the k-th merged tree and the message and author of the k-th listed one, and stands on the one before it. */
  ghost predicate Chain(copies: seq<Commit>, listed: seq<Commit>, replies: nat -> ReplayReply, base: Commit) {
    && |copies| == |listed| + 1 && copies[0] == base
    && forall k :: 0 <= k < |listed| ==> IsCopy(copies[k + 1], copies[k], listed[k], replies(k))
  }

  ghost predicate IsCopy(copy: Commit, onto: Commit, c: Commit, r: ReplayReply) {
    r.merge.Merged? && r.merge.conflicts == [] && copy == Commit([onto], r.merge.tree, c.message, c.author)
  }

  ghost predicate Rebased(tip: Commit, listed: seq<Commit>, replies: nat -> ReplayReply, base: Commit) {
    exists copies :: Chain(copies, listed, replies, base) && tip == copies[|listed|]
  }

  lemma AddCopy(copies: seq<Commit>, listed: seq<Commit>, replies: nat -> ReplayReply, base: Commit, copy: Commit)
    requires listed != [] && Chain(copies, listed[..|listed| - 1], replies, base)
    requires IsCopy(copy, copies[|listed| - 1], listed[|listed| - 1], replies(|listed| - 1))
    ensures Chain(copies + [copy], listed, replies, base)
  {
    var front := listed[..|listed| - 1];
    forall k | 0 <= k < |listed| ensures IsCopy((copies + [copy])[k + 1], (copies + [copy])[k], listed[k], replies(k)) {
      if k < |front| { assert IsCopy(copies[k + 1], copies[k], front[k], replies(k)); }
    }
  }

  lemma FrontReplayable(commits: seq<Commit>, replies: nat -> ReplayReply)
    requires commits != []
    ensures AllReplayable(commits, replies) <==>
            AllReplayable(commits[..|commits| - 1], replies) && Replayable(commits[|commits| - 1], replies(|commits| - 1))
  {
    var front := commits[..|commits| - 1];
    if AllReplayable(front, replies) && Replayable(commits[|commits| - 1], replies(|commits| - 1)) {
      forall k | 0 <= k < |commits| ensures Replayable(commits[k], replies(k)) {
        if k < |front| { assert Replayable(front[k], replies(k)); }
      }
    }
    if AllReplayable(commits, replies) {
      forall k | 0 <= k < |front| ensures Replayable(front[k], replies(k)) { assert Replayable(commits[k], replies(k)); }
    }
  }

  /** The replay succeeds exactly when every listed commit can be replayed, and makes a chain of copies. */
  lemma {:induction false} ReplayIff(commits: seq<Commit>, replies: nat -> ReplayReply, onto: Commit)
    ensures Replay(commits, replies, onto).Some? <==> AllReplayable(commits, replies)
    ensures AllReplayable(commits, replies) ==> Rebased(Replay(commits, replies, onto).value, commits, replies, onto)
  {
    if commits == [] {
      assert Chain([onto], commits, replies, onto);
    } else {
      var n := |commits| - 1;
      ReplayIff(commits[..n], replies, onto);
      FrontReplayable(commits, replies);
      if AllReplayable(commits, replies) {
        var front := Replay(commits[..n], replies, onto).value;
        var copies :| Chain(copies, commits[..n], replies, onto) && front == copies[n];
        AddCopy(copies, commits, replies, onto, Replay(commits, replies, onto).value);
      }
    }
  }

  lemma {:induction false} PrefixFails(commits: seq<Commit>, n: nat, replies: nat -> ReplayReply, onto: Commit)
    requires n <= |commits|
    ensures Replay(commits[..n], replies, onto).None? ==> Replay(commits, replies, onto).None?
    decreases |commits|
  {
    if n < |commits| {
      var front := commits[..|commits| - 1];
      PrefixFails(front, n, replies, onto);
      assert front[..n] == commits[..n];
    } else {
      assert commits[..n] == commits;
    }
  }

  /** A rebase moves the branch. */
  ghost predicate RebaseMoves(r: Replies) {
    r.listed.Some? && AllReplayable(r.listed.value, r.replays) && r.refUpdated
  }

  lemma PlanRebaseMoves(theirs: Commit, s: Settings, r: Replies)
    requires !s.dryRun
    ensures PlanRebase(theirs, s, r).MoveTo? && r.refUpdated <==> RebaseMoves(r)
    ensures PlanRebase(theirs, s, r).MoveTo? ==> Rebased(PlanRebase(theirs, s, r).tip, r.listed.value, r.replays, theirs)
    ensures PlanRebase(theirs, s, r).Stop? ==> PlanRebase(theirs, s, r) == Stop(Failed)
  {
    if r.listed.Some? { ReplayIff(r.listed.value, r.replays, theirs); }
  }

  /** git finds both tips, and each question about their ancestry that it cannot answer is about revisions that exist. */
  ghost predicate Answered(theirs: Commit, r: Replies) {
    r.tipFound && r.theirs == Some(theirs) && r.theirsInOurs != Broken(false) && r.oursInTheirs != Broken(false)
  }

  /** git says that a is an ancestor. */
  ghost predicate Says(a: Commit, d: Commit, reply: AncestryReply) {
    reply == Verdict && Ancestor(a, d)
  }

  ghost predicate Behind(theirs: Commit, ours: Commit, r: Replies) {
    ours == theirs || Says(theirs, ours, r.theirsInOurs)
  }

  /** When one tip has the other, the branch stays or moves forward to the remote tip. */
  lemma UpdateInLine(ours: Commit, theirs: Commit, s: Settings, r: Replies)
    requires Answered(theirs, r)
    ensures Behind(theirs, ours, r) ==> Update(ours, s, r) == (ours, Updated(false))
    ensures !Behind(theirs, ours, r) && Says(ours, theirs, r.oursInTheirs) ==>
              Update(ours, s, r) == if s.dryRun then (ours, Updated(true)) else if r.refUpdated then (theirs, Updated(true)) else (ours, Failed)
  {
  }

  /** Without these answers nothing moves. */
  lemma UpdateUnanswered(ours: Commit, s: Settings, r: Replies)
    ensures !r.tipFound || r.theirs == None ==> Update(ours, s, r) == (ours, Failed)
    ensures r.tipFound && r.theirs.Some? && ours != r.theirs.value && r.theirsInOurs == Broken(false) ==> Update(ours, s, r) == (ours, Failed)
    ensures r.tipFound && r.theirs.Some? && !Behind(r.theirs.value, ours, r) && r.oursInTheirs == Broken(false) ==> Update(ours, s, r) == (ours, Failed)
  {
  }

  /** When neither has the other, the branch is merged, rebased or left alone. */
  lemma UpdateDiverged(ours: Commit, theirs: Commit, s: Settings, r: Replies)
    requires Answered(theirs, r) && !Behind(theirs, ours, r) && !Says(ours, theirs, r.oursInTheirs)
    ensures s.dryRun ==> Update(ours, s, r) == (ours, Updated(s.rebase || s.allowMerge))
    ensures !s.rebase && !s.allowMerge ==> Update(ours, s, r) == (ours, Updated(false))
    ensures !s.rebase && s.allowMerge && !s.dryRun ==>
              Update(ours, s, r) == if MergeMoves(r) then (MergeCommit(ours, theirs, s, r), Updated(true)) else (ours, Failed)
    ensures s.rebase && !s.dryRun ==>
              if RebaseMoves(r) then Rebased(Update(ours, s, r).0, r.listed.value, r.replays, theirs) && Update(ours, s, r).1 == Updated(true)
              else Update(ours, s, r) == (ours, Failed)
  {
    if !s.dryRun {
      PlanMergeMoves(ours, theirs, s, r);
      PlanRebaseMoves(theirs, s, r);
    }
  }

  // ----- the methods

  class Repository {
    var tips: map<Branch, Commit>

    constructor (tips: map<Branch, Commit>)
      ensures this.tips == tips
    {
      this.tips := tips;
    }

    method UpdateRef(branch: Branch, tip: Commit, works: bool) returns (ok: bool)
      modifies this
      ensures ok == works
      ensures tips == if works then old(tips)[branch := tip] else old(tips)
    {
      if works { tips := tips[branch := tip]; }
      return works;
    }

    method MergeUpdateBranch(branch: Branch, ours: Commit, theirs: Commit, s: Settings, r: Replies) returns (ok: bool)
      modifies this
      ensures var plan := PlanMerge(ours, theirs, s, r);
              && ok == ((plan.Stop? && plan.outcome != Failed) || (plan.MoveTo? && r.refUpdated))
              && tips == if plan.MoveTo? && r.refUpdated then old(tips)[branch := plan.tip] else old(tips)
      ensures !ok ==> tips == old(tips)
      ensures !s.dryRun ==> (ok <==> MergeMoves(r)) && (ok ==> tips == old(tips)[branch := MergeCommit(ours, theirs, s, r)])
    {
      if s.dryRun { return true; }
      PlanMergeMoves(ours, theirs, s, r);
      if r.merge.TreeFailed? { return false; }
      var tree := r.merge.tree;
      var conflicts := r.merge.conflicts;
      if |conflicts| > 0 {
        for i := 0 to |conflicts|
          invariant forall j :: 0 <= j < i ==> BaseName(conflicts[j]) == LOCK_FILE
        {
          if BaseName(conflicts[i]) != LOCK_FILE { return false; }
        }
        if r.stripped.None? { return false; }
        tree := r.stripped.value;
      }
      if !r.committed { return false; }
      ok := UpdateRef(branch, Commit([ours, theirs], tree, s.message, s.committer), r.refUpdated);
    }

    method RebaseUpdateBranch(branch: Branch, theirs: Commit, s: Settings, r: Replies) returns (ok: bool)
      modifies this
      ensures var plan := PlanRebase(theirs, s, r);
              && ok == ((plan.Stop? && plan.outcome != Failed) || (plan.MoveTo? && r.refUpdated))
              && tips == if plan.MoveTo? && r.refUpdated then old(tips)[branch := plan.tip] else old(tips)
      ensures !ok ==> tips == old(tips)
      ensures !s.dryRun ==> (ok <==> RebaseMoves(r))
      ensures !s.dryRun && ok ==> branch in tips && Rebased(tips[branch], r.listed.value, r.replays, theirs)
    {
      if s.dryRun { return true; }
      PlanRebaseMoves(theirs, s, r);
      if r.listed.None? { return false; }
      var commits := r.listed.value;
      var onto := theirs;
      for i := 0 to |commits|
        invariant Replay(commits[..i], r.replays, theirs) == Some(onto) && tips == old(tips)
      {
        var c, reply := commits[i], r.replays(i);
        PrefixFails(commits, i + 1, r.replays, theirs);
        assert commits[..i + 1][..i] == commits[..i];
        if !reply.parentFound || c.parents == [] { return false; }
        if reply.merge.TreeFailed? { return false; }
        if reply.merge.conflicts != [] { return false; }
        if !reply.message { return false; }
        if !reply.author { return false; }
        if !reply.committed { return false; }
        onto := Commit([onto], reply.merge.tree, c.message, c.author);
      }
      assert commits[..|commits|] == commits;
      ok := UpdateRef(branch, onto, r.refUpdated);
    }

    method UpdateBranchFromRemote(branch: Branch, s: Settings, r: Replies) returns (o: Outcome)
      requires branch in tips
      modifies this
      ensures o == Update(old(tips[branch]), s, r).1
      ensures tips == old(tips)[branch := Update(old(tips[branch]), s, r).0]
      ensures o == Failed ==> tips == old(tips)
    {
      var ours := tips[branch];
      if !r.tipFound || r.theirs.None? { return Failed; }
      var theirs := r.theirs.value;
      if ours == theirs { return Updated(false); }
      var behind := IsAncestor(theirs, ours, r.theirsInOurs);
      if behind.CheckFailed? { return Failed; }
      if behind.yes { return Updated(false); }
      var ahead := IsAncestor(ours, theirs, r.oursInTheirs);
      if ahead.CheckFailed? { return Failed; }
      var ok;
      if ahead.yes {
        if s.dryRun { return Updated(true); }
        ok := UpdateRef(branch, theirs, r.refUpdated);
      } else if s.rebase {
        ok := RebaseUpdateBranch(branch, theirs, s, r);
      } else if !s.allowMerge {
        return Updated(false);
      } else {
        ok := MergeUpdateBranch(branch, ours, theirs, s, r);
      }
      return if ok then Updated(true) else Failed;
    }
  }

  // ----- properties of one update

  lemma MergedReachesBoth(ours: Commit, theirs: Commit, tree: nat, message: string, author: string)
    ensures Ancestor(ours, Commit([ours, theirs], tree, message, author))
    ensures Ancestor(theirs, Commit([ours, theirs], tree, message, author))
  {
    var c := Commit([ours, theirs], tree, message, author);
    assert Ancestor(ours, c.parents[0]) && Ancestor(theirs, c.parents[1]);
  }

  /** Without rebase the old tip stays reachable, whatever git answers. */
  lemma UpdateKeepsHistory(ours: Commit, s: Settings, r: Replies)
    requires !s.rebase
    ensures Ancestor(ours, Update(ours, s, r).0)
  {
    var plan := PlanUpdate(ours, s, r);
    if plan.MoveTo? && MergeTree(r).Some? {
      MergedReachesBoth(ours, r.theirs.value, MergeTree(r).value, s.message, s.committer);
    }
  }

  /** A merge-enabled update that reports success also reaches the remote tip: exactly when it is not a dry run, or nothing had to move. */
  lemma MergeReachesRemote(ours: Commit, s: Settings, r: Replies)
    requires s.allowMerge && !s.rebase && r.theirs.Some?
    requires Update(ours, s, r).1 != Failed
    ensures Ancestor(r.theirs.value, Update(ours, s, r).0) <==> !s.dryRun || Ancestor(r.theirs.value, ours)
  {
    var plan, theirs := PlanUpdate(ours, s, r), r.theirs.value;
    if plan.MoveTo? && plan.tip != theirs {
      MergedReachesBoth(ours, theirs, MergeTree(r).value, s.message, s.committer);
    }
  }

  /** When a reported move is a real one: outside dry runs, or where nothing is reported. */
  predicate ReportsTruly(ours: Commit, theirs: Commit, s: Settings, r: Replies) {
    || !s.dryRun
    || ours == theirs
    || IsAncestor(theirs, ours, r.theirsInOurs) == Checked(true)
    || (IsAncestor(ours, theirs, r.oursInTheirs) == Checked(false) && !s.rebase && !s.allowMerge)
  }

  /** "The tip moved" is reported truthfully exactly under that condition; a rebase must not start on a wrong answer of merge-base. */
  lemma MovedIsTruthful(ours: Commit, s: Settings, r: Replies)
    requires r.theirs.Some? && Update(ours, s, r).1 != Failed
    requires s.rebase ==> r.theirsInOurs == Verdict || !Ancestor(r.theirs.value, ours)
    ensures var (tip, o) := Update(ours, s, r);
            (o.moved <==> tip != ours) <==> ReportsTruly(ours, r.theirs.value, s, r)
  {
    var plan, theirs := PlanUpdate(ours, s, r), r.theirs.value;
    if plan.MoveTo? && plan.tip != theirs {
      if s.rebase {
        RebaseBuildsChain(ours, s, r);
      } else {
        ParentShallower(plan.tip.parents, 0);
        assert Depth(ours) < Depth(plan.tip);
      }
    }
  }

  lemma {:induction false} ChainReachesBase(copies: seq<Commit>, listed: seq<Commit>, replies: nat -> ReplayReply, base: Commit, n: nat)
    requires Chain(copies, listed, replies, base) && n <= |listed|
    ensures Ancestor(base, copies[n])
  {
    if n > 0 {
      ChainReachesBase(copies, listed, replies, base, n - 1);
      assert IsCopy(copies[n - 1 + 1], copies[n - 1], listed[n - 1], replies(n - 1));
      assert Ancestor(base, copies[n].parents[0]);
    }
  }

  /** A rebase of diverged histories moves the branch to a chain of exactly one new commit per listed commit, on the remote tip. */
  lemma RebaseBuildsChain(ours: Commit, s: Settings, r: Replies)
    requires s.rebase && !s.dryRun && Update(ours, s, r).1 == Updated(true)
    ensures var tip, theirs := Update(ours, s, r).0, r.theirs.value;
            && Ancestor(theirs, tip)
            && ((tip == theirs && Ancestor(ours, theirs)) || (r.listed.Some? && Rebased(tip, r.listed.value, r.replays, theirs)))
  {
    var plan, theirs := PlanUpdate(ours, s, r), r.theirs.value;
    if IsAncestor(ours, theirs, r.oursInTheirs) == Checked(false) {
      PlanRebaseMoves(theirs, s, r);
      var copies :| Chain(copies, r.listed.value, r.replays, theirs) && plan.tip == copies[|r.listed.value|];
      ChainReachesBase(copies, r.listed.value, r.replays, theirs, |r.listed.value|);
    }
  }

  /** The commits below a chain are those below its base and the chain itself. */
  lemma {:induction false} BelowChain(a: Commit, copies: seq<Commit>, listed: seq<Commit>, replies: nat -> ReplayReply, base: Commit, n: nat)
    requires Chain(copies, listed, replies, base) && n <= |listed| && Ancestor(a, copies[n])
    ensures Ancestor(a, base) || Ancestor(base, a)
  {
    if a == copies[n] {
      ChainReachesBase(copies, listed, replies, base, n);
    } else if n > 0 {
      assert IsCopy(copies[n - 1 + 1], copies[n - 1], listed[n - 1], replies(n - 1));
      BelowChain(a, copies, listed, replies, base, n - 1);
    }
  }

  /** A rebase that moves the branch keeps the old tip in its history exactly when the remote tip already had it. */
  lemma RebaseKeepsTipIff(ours: Commit, s: Settings, r: Replies)
    requires s.rebase && !s.dryRun && Update(ours, s, r).1 == Updated(true)
    requires r.theirsInOurs == Verdict && r.oursInTheirs == Verdict
    ensures Ancestor(ours, Update(ours, s, r).0) <==> Ancestor(ours, r.theirs.value)
  {
    var tip, theirs := Update(ours, s, r).0, r.theirs.value;
    RebaseBuildsChain(ours, s, r);
    if Ancestor(ours, theirs) {
      AncestorTransitive(ours, theirs, tip);
    } else if Ancestor(ours, tip) {
      var copies :| Chain(copies, r.listed.value, r.replays, theirs) && tip == copies[|r.listed.value|];
      BelowChain(ours, copies, r.listed.value, r.replays, theirs, |r.listed.value|);
    }
  }

  /** With an honest rev-list every commit of the old tip is still reachable or stands copied in the chain. */
  lemma RebaseAccountsForAll(ours: Commit, s: Settings, r: Replies, c: Commit)
    requires s.rebase && !s.dryRun && Update(ours, s, r).1 == Updated(true) && r.listed.Some?
    requires forall x :: Ancestor(x, ours) ==> Ancestor(x, r.theirs.value) || x in r.listed.value
    requires Ancestor(c, ours)
    ensures Ancestor(c, Update(ours, s, r).0) || c in r.listed.value
  {
    RebaseBuildsChain(ours, s, r);
    if Ancestor(c, r.theirs.value) {
      AncestorTransitive(c, r.theirs.value, Update(ours, s, r).0);
    }
  }

  // ----- whole runs

  datatype Request = Request(branch: Branch, settings: Settings, replies: Replies)

  /** The tips after a sequence of updates; a request for an unknown branch finds no tip and fails. */
  function Run(tips: map<Branch, Commit>, requests: seq<Request>): map<Branch, Commit> {
    if requests == [] then tips
    else
      var q := requests[0];
      var next := if q.branch in tips then tips[q.branch := Update(tips[q.branch], q.settings, q.replies).0] else tips;
      Run(next, requests[1..])
  }

  /** The requests that succeed, each in the state it finds. */
  function Successes(tips: map<Branch, Commit>, requests: seq<Request>): seq<Request> {
    if requests == [] then []
    else
      var q := requests[0];
      if q.branch !in tips then Successes(tips, requests[1..])
      else
        var (tip, outcome) := Update(tips[q.branch], q.settings, q.replies);
        if outcome == Failed then Successes(tips, requests[1..])
        else [q] + Successes(tips[q.branch := tip], requests[1..])
  }

  /** A run with failures ends where the run of its successful requests ends: failed updates leave no trace. */
  lemma {:induction false} FailureMovesNothing(tips: map<Branch, Commit>, requests: seq<Request>)
    ensures Run(tips, Successes(tips, requests)) == Run(tips, requests)
    decreases |requests|
  {
    if requests != [] {
      var q := requests[0];
      if q.branch in tips {
        var (tip, outcome) := Update(tips[q.branch], q.settings, q.replies);
        var next := tips[q.branch := tip];
        FailureMovesNothing(next, requests[1..]);
        if outcome == Failed {
          assert next == tips;
        } else {
          assert ([q] + Successes(next, requests[1..]))[1..] == Successes(next, requests[1..]);
        }
      } else {
        FailureMovesNothing(tips, requests[1..]);
      }
    }
  }

  /** No commit is lost: over any sequence of non-rebase updates every old tip stays an ancestor of its branch's tip. */
  lemma {:induction false} NoCommitLost(tips: map<Branch, Commit>, requests: seq<Request>, b: Branch)
    requires b in tips
    requires forall i :: 0 <= i < |requests| ==> !requests[i].settings.rebase
    ensures b in Run(tips, requests) && Ancestor(tips[b], Run(tips, requests)[b])
  {
    if requests != [] {
      var q := requests[0];
      var next := if q.branch in tips then tips[q.branch := Update(tips[q.branch], q.settings, q.replies).0] else tips;
      NoCommitLost(next, requests[1..], b);
      if q.branch == b {
        UpdateKeepsHistory(tips[b], q.settings, q.replies);
        AncestorTransitive(tips[b], next[b], Run(next, requests[1..])[b]);
      }
    }
  }

  /** A rebase can drop the old tip: only its listed commits come back, as copies. */
  lemma RebaseCanLoseCommits() returns (ours: Commit, s: Settings, r: Replies)
    ensures s.rebase && Update(ours, s, r).1 == Updated(true) && !Ancestor(ours, Update(ours, s, r).0)
  {
    var root := Commit([], 0, "", "");
    ours := Commit([root], 1, "ours", "");
    var theirs := Commit([root], 2, "theirs", "");
    s := Settings(false, false, true, "", "");
    r := Replies(true, Some(theirs), Verdict, Verdict, TreeFailed, None, false, Some([ours]),
                 n => ReplayReply(true, Merged(3, []), true, true, true), true);
    var tip := Commit([theirs], 3, "ours", "");
    assert !Ancestor(theirs, root) && !Ancestor(ours, root);
    assert !Ancestor(theirs, ours) && !Ancestor(ours, theirs);
    assert [ours][..0] == [];
    assert Replay([ours], r.replays, theirs) == Some(tip);
    assert !Ancestor(ours, tip);
  }
}
