/**
 Where a pull of gitall/main.go reads a local remote without its mutex.

 pullRepo fetches from each remote in turn while it holds the mutexes of a walk from
 a root, so the fetch from a local remote that is not on the walk is unguarded. A
 push pulls the local remotes of its roots first, and those alone: deeper down it
 skips that phase. Pulls never wait in their fetches, so every such fetch is
 reached; the invariant says that there are no others.
 */
module LockFetches {
  import opened LockProtocol
  import opened LockDescent
  import opened LockDeadlock
  import opened LockExposure

  /** A goroutine is about to run one of the commands on t, in no critical section of t. */
  predicate Loose(p: Process, t: Repo, commands: set<Command>) {
    match p
    case Git(u, c) => u == t && c in commands
    case Hold(r, b) => r != t && Loose(b, t, commands)
    case Then(a, _) => Loose(a, t, commands)
    case Both(a, b) => Loose(a, t, commands) || Loose(b, t, commands)
    case _ => false
  }

  /** A recursion in this mode with this walk ends in a pull: the walk is one of pulls, or leaves the root of a push. */
  predicate Pulled(mode: Mode, w: seq<Repo>) {
    mode == Pull || (mode == Push(false) && |w| > 1)
  }

  /** A recursion from r, below the repositories in stack, can get to a fetch from t outside t's critical sections. */
  ghost predicate FetchesFrom(g: Graph, r: Repo, mode: Mode, stack: set<Repo>, t: Repo) {
    exists w :: && Walk(g, true, w) && w[0] == r && Distinct(w) && Avoids(w, stack) && t !in w
                && Pulled(mode, w) && Local(t) in RemotesOf(g, Last(w))
  }

  /** Some walk without a repetition, not over t, leads from a root to a pulled repository with the local remote t. */
  ghost predicate Fetched(g: Graph, roots: seq<Repo>, mode: Mode, t: Repo) {
    exists r :: r in roots && FetchesFrom(g, r, mode, {}, t)
  }

  // ----- no other fetches

  /** p, under the mutexes of path, may still fetch from t. */
  ghost predicate MayFetch(g: Graph, p: Process, path: set<Repo>, t: Repo) {
    match p
    case Done => false
    case Operate(r, mode, stack) => t !in path && FetchesFrom(g, r, mode, stack, t)
    case Enter(r, mode, stack) => t !in path && FetchesFrom(g, r, mode, stack, t)
    case Git(u, c) => t !in path && u == t && c == Fetch
    case Wait(r, b) => MayFetch(g, b, path + {r}, t)
    case Hold(r, b) => MayFetch(g, b, path + {r}, t)
    case Then(a, b) => MayFetch(g, a, path, t) || MayFetch(g, b, path, t)
    case Both(a, b) => MayFetch(g, a, path, t) || MayFetch(g, b, path, t)
  }

  lemma {:induction false} OperateAllFetches(g: Graph, remotes: seq<Remote>, mode: Mode, stack: set<Repo>, path: set<Repo>, t: Repo) returns (c: Repo)
    requires MayFetch(g, OperateAll(remotes, mode, stack), path, t)
    ensures t !in path && Local(c) in remotes && FetchesFrom(g, c, mode, stack, t)
  {
    if remotes[0].Local? && MayFetch(g, Operate(remotes[0].path, mode, stack), path, t) {
      c := remotes[0].path;
    } else {
      c := OperateAllFetches(g, remotes[1..], mode, stack, path, t);
    }
  }

  lemma {:induction false} PullAllFetches(g: Graph, r: Repo, remotes: seq<Remote>, path: set<Repo>, t: Repo)
    requires MayFetch(g, PullAll(r, remotes), path, t)
    ensures t !in path && Local(t) in remotes
  {
    var rest := PullAll(r, remotes[1..]);
    assert !MayFetch(g, Git(r, Own), path, t);
    assert MayFetch(g, Then(Git(r, Own), rest), path, t) ==> MayFetch(g, rest, path, t);
    if remotes[0].Local? && MayFetch(g, Git(remotes[0].path, Fetch), path, t) {
      assert remotes[0] == Local(t);
    } else {
      PullAllFetches(g, r, remotes[1..], path, t);
    }
  }

  lemma SyncOneFetchesNothing(g: Graph, r: Repo, remote: Remote, path: set<Repo>, t: Repo)
    ensures !MayFetch(g, SyncOne(r, remote), path, t)
  {
    if remote.Local? {
      var c := remote.path;
      assert !MayFetch(g, Git(r, Own), path + {c}, t) && !MayFetch(g, Git(c, Sync), path + {c}, t);
      assert !MayFetch(g, SyncWith(r, c), path + {c}, t);
      assert !MayFetch(g, Wait(c, SyncWith(r, c)), path, t) && !MayFetch(g, Git(c, CheckoutHead), path, t);
      assert !MayFetch(g, Then(Wait(c, SyncWith(r, c)), Git(c, CheckoutHead)), path, t);
    }
  }

  lemma {:induction false} SyncAllFetchesNothing(g: Graph, r: Repo, remotes: seq<Remote>, path: set<Repo>, t: Repo)
    ensures !MayFetch(g, SyncAll(r, remotes), path, t)
  {
    if remotes != [] {
      SyncOneFetchesNothing(g, r, remotes[0], path, t);
      SyncAllFetchesNothing(g, r, remotes[1..], path, t);
    }
  }

  lemma FetchesHere(g: Graph, r: Repo, stack: set<Repo>, t: Repo)
    requires r !in stack && r != t && Local(t) in RemotesOf(g, r)
    ensures FetchesFrom(g, r, Pull, stack, t)
  {
    var w := [r];
    assert Walk(g, true, w) && Distinct(w) && Avoids(w, stack) && Last(w) == r && t !in w;
  }

  lemma FetchesAbove(g: Graph, r: Repo, c: Repo, mode: Mode, stack: set<Repo>, t: Repo)
    requires r !in stack && r != t && Local(c) in RemotesOf(g, r) && mode in {Pull, Push(false)}
    requires FetchesFrom(g, c, Pull, stack + {r}, t)
    ensures FetchesFrom(g, r, mode, stack, t)
  {
    var v :| Walk(g, true, v) && v[0] == c && Distinct(v) && Avoids(v, stack + {r}) && t !in v && Local(t) in RemotesOf(g, Last(v));
    PrependToWalk(g, r, v, stack);
    assert Last([r] + v) == Last(v) && Pulled(mode, [r] + v) && t !in [r] + v;
  }

  lemma BodyFetches(g: Graph, r: Repo, mode: Mode, stack: set<Repo>, clean: bool, path: set<Repo>, t: Repo)
    requires r !in stack && stack + {r} <= path && MayFetch(g, Body(g, r, mode, stack, clean), path, t)
    ensures t !in path && FetchesFrom(g, r, mode, stack, t)
  {
    var remotes := RemotesOf(g, r);
    var pulls := OperateAll(remotes, Pull, stack + {r});
    match mode
    case Pull =>
      if MayFetch(g, pulls, path, t) {
        var c := OperateAllFetches(g, remotes, Pull, stack + {r}, path, t);
        FetchesAbove(g, r, c, Pull, stack, t);
      } else {
        PullAllFetches(g, r, remotes, path, t);
        FetchesHere(g, r, stack, t);
      }
    case Push(skip) =>
      PushBodyFetches(g, r, skip, stack, clean, path, t);
      var c := OperateAllFetches(g, remotes, Pull, stack + {r}, path, t);
      FetchesAbove(g, r, c, mode, stack, t);
  }

  /** Only the pull phase of a push fetches. */
  lemma PushBodyFetches(g: Graph, r: Repo, skip: bool, stack: set<Repo>, clean: bool, path: set<Repo>, t: Repo)
    requires MayFetch(g, Body(g, r, Push(skip), stack, clean), path, t)
    ensures !skip && MayFetch(g, OperateAll(RemotesOf(g, r), Pull, stack + {r}), path, t)
  {
    var remotes := RemotesOf(g, r);
    var sync, pushes := if clean then SyncAll(r, remotes) else Done, OperateAll(remotes, Push(true), stack + {r});
    SyncAllFetchesNothing(g, r, remotes, path, t);
    if MayFetch(g, pushes, path, t) {
      var c := OperateAllFetches(g, remotes, Push(true), stack + {r}, path, t);
      assert false;
    }
    assert !MayFetch(g, Then(sync, pushes), path, t);
  }

  /** A step opens no new way to fetch from t. */
  lemma {:induction false} StepFetches(g: Graph, p: Process, p': Process, path: set<Repo>, held: multiset<Repo>, t: Repo)
    requires Placed(p, path) && Step(g, p, p', held) && MayFetch(g, p', path, t)
    ensures MayFetch(g, p, path, t)
  {
    match p
    case Operate(r, mode, stack) => assert MayFetch(g, Enter(r, mode, stack), path + {r}, t);
    case Enter(r, mode, stack) =>
      if p' == Body(g, r, mode, stack, true) {
        BodyFetches(g, r, mode, stack, true, path, t);
      } else {
        BodyFetches(g, r, mode, stack, false, path, t);
      }
    case Hold(r, b) => StepFetches(g, b, p'.body, path + {r}, held, t);
    case Then(a, b) =>
      if !(a == Done && p' == b) && MayFetch(g, p'.first, path, t) { StepFetches(g, a, p'.first, path, held, t); }
    case Both(a, b) =>
      if p'.right == b && Step(g, a, p'.left, held) {
        if MayFetch(g, p'.left, path, t) { StepFetches(g, a, p'.left, path, held, t); }
      } else {
        if MayFetch(g, p'.right, path, t) { StepFetches(g, b, p'.right, path, held, t); }
      }
    case _ =>
  }

  lemma {:induction false} RunFetches(g: Graph, run: seq<Process>, k: nat, t: Repo)
    requires Run(g, run, NONE) && Placed(run[0], {}) && k < |run| && MayFetch(g, run[k], {}, t)
    ensures MayFetch(g, run[0], {}, t)
    decreases k
  {
    if k > 0 {
      RunTouches(g, run, k - 1, t);
      assert Next(g, run[k - 1], run[k - 1 + 1], NONE);
      StepFetches(g, run[k - 1], run[k], {}, NONE + Locks(run[k - 1]), t);
      RunFetches(g, run, k - 1, t);
    }
  }

  lemma {:induction false} LooseMayFetch(g: Graph, p: Process, path: set<Repo>, t: Repo)
    requires Loose(p, t, {Fetch}) && t !in path
    ensures MayFetch(g, p, path, t)
  {
    match p
    case Hold(r, b) => LooseMayFetch(g, b, path + {r}, t);
    case Then(a, b) => LooseMayFetch(g, a, path, t);
    case Both(a, b) => if Loose(a, t, {Fetch}) { LooseMayFetch(g, a, path, t); } else { LooseMayFetch(g, b, path, t); }
    case _ =>
  }

  // ----- every such fetch is reached

  lemma {:induction false} LooseInside(fs: seq<Frame>, p: Process, t: Repo, commands: set<Command>)
    requires Loose(p, t, commands) && t !in AllLocks(fs)
    ensures Loose(PlugAll(fs, p), t, commands)
  {
    if fs != [] { LooseInside(fs[1..], p, t, commands); }
  }

  /** pullRepo can get to its k-th remote. */
  lemma {:induction false} PullAllReaches(g: Graph, r: Repo, remotes: seq<Remote>, k: nat, held: multiset<Repo>)
    requires k <= |remotes|
    ensures Leads(g, PullAll(r, remotes), PullAll(r, remotes[k..]), held)
  {
    if k == 0 {
      assert remotes[0..] == remotes;
      LeadsItself(g, PullAll(r, remotes), held);
    } else {
      PullAllReaches(g, r, remotes, k - 1, held);
      PullNext(g, r, remotes, k - 1, held);
      LeadsOn(g, PullAll(r, remotes), PullAll(r, remotes[k - 1..]), PullAll(r, remotes[k..]), held);
    }
  }

  lemma PullNext(g: Graph, r: Repo, remotes: seq<Remote>, k: nat, held: multiset<Repo>)
    requires k < |remotes|
    ensures Leads(g, PullAll(r, remotes[k..]), PullAll(r, remotes[k + 1..]), held)
  {
    PullOneEnds(g, r, remotes[k..], held);
    assert remotes[k..][1..] == remotes[k + 1..];
  }

  lemma PullOneEnds(g: Graph, r: Repo, remotes: seq<Remote>, held: multiset<Repo>)
    requires remotes != []
    ensures Leads(g, PullAll(r, remotes), PullAll(r, remotes[1..]), held)
  {
    var rest := PullAll(r, remotes[1..]);
    PullAllFresh(r, remotes[1..], {r});
    GitEnds(g, r, Own, held);
    ThenEnds(g, Git(r, Own), rest, held);
    if remotes[0].Local? {
      FreshThen(Git(r, Own), rest, {r});
      GitEnds(g, remotes[0].path, Fetch, held);
      ThenEnds(g, Git(remotes[0].path, Fetch), Then(Git(r, Own), rest), held);
      LeadsOn(g, PullAll(r, remotes), Then(Git(r, Own), rest), rest, held);
    }
  }

  /** The pull of the last repository of a walk. */
  function LastPull(g: Graph, w: seq<Repo>): Process
    requires w != []
  {
    PullAll(Last(w), RemotesOf(g, Last(w)))
  }

  lemma PullReachesOwn(g: Graph, r: Repo, stack: set<Repo>, held: multiset<Repo>)
    requires r !in stack && Within(held, stack)
    ensures Leads(g, Operate(r, Pull, stack), PlugAll([InHold(r)], PullAll(r, RemotesOf(g, r))), held)
    ensures AllLocks([InHold(r)]) == multiset{r}
  {
    var remotes, inner := RemotesOf(g, r), held + multiset{r};
    var pulls, own := OperateAll(remotes, Pull, stack + {r}), PullAll(r, remotes);
    OperateStarts(g, r, Pull, stack, true, held);
    OperateAllEnds(g, remotes, Pull, stack + {r}, inner);
    PullAllFresh(r, remotes, {r});
    ThenEnds(g, pulls, own, inner);
    PlugLeads(g, InHold(r), Then(pulls, own), own, held);
    LeadsOn(g, Operate(r, Pull, stack), Hold(r, Then(pulls, own)), Hold(r, own), held);
    PlugOne(InHold(r), own);
  }

  /** A goroutine of the pull phase of r moves alone; later is what r does after that phase. */
  lemma PhaseMoves(g: Graph, r: Repo, c: Repo, mode: Mode, stack: set<Repo>, later: Process, q: Process, held: multiset<Repo>) returns (fs: seq<Frame>)
    requires r !in stack && r !in held && Local(c) in RemotesOf(g, r) && Locks(later) == NONE
    requires Body(g, r, mode, stack, true) == Then(OperateAll(RemotesOf(g, r), Pull, stack + {r}), later)
    requires Leads(g, Operate(c, Pull, stack + {r}), q, held + multiset{r})
    ensures Leads(g, Operate(r, mode, stack), PlugAll(fs, q), held)
    ensures AllLocks(fs) == multiset{r}
  {
    var remotes, inner := RemotesOf(g, r), held + multiset{r};
    var pulls := OperateAll(remotes, Pull, stack + {r});
    OperateStarts(g, r, mode, stack, true, held);
    var child := ChildMoves(g, remotes, c, Pull, stack + {r}, q, inner);
    assert inner + FrameLocks(InFirst(later)) == inner;
    PlugLeads(g, InFirst(later), pulls, PlugAll(child, q), inner);
    PlugLeads(g, InHold(r), Then(pulls, later), Then(PlugAll(child, q), later), held);
    LeadsOn(g, Operate(r, mode, stack), Hold(r, Then(pulls, later)), Hold(r, Then(PlugAll(child, q), later)), held);
    fs := [InHold(r), InFirst(later)] + child;
    PlugAllAppend([InHold(r), InFirst(later)], child, q);
    PlugTwo(InHold(r), InFirst(later), PlugAll(child, q));
  }

  /** A pull can recurse along any walk without a repetition, up to the pull of its last repository, holding exactly the walk's mutexes. */
  lemma {:induction false} PullDescends(g: Graph, w: seq<Repo>, stack: set<Repo>, held: multiset<Repo>) returns (fs: seq<Frame>)
    requires Walk(g, true, w) && Distinct(w) && Avoids(w, stack) && Within(held, stack)
    ensures Leads(g, Operate(w[0], Pull, stack), PlugAll(fs, LastPull(g, w)), held)
    ensures AllLocks(fs) == multiset(w)
    decreases |w|
  {
    var r := w[0];
    HeadAndTail(w);
    if |w| == 1 {
      PullReachesOwn(g, r, stack, held);
      fs := [InHold(r)];
    } else {
      var rest := w[1..];
      TailOfWalk(g, w, stack);
      var deep := PullDescends(g, rest, stack + {r}, held + multiset{r});
      assert Link(g, true, w[0], w[0 + 1]);
      PullAllFresh(r, RemotesOf(g, r), {r});
      var outer := PhaseMoves(g, r, rest[0], Pull, stack, PullAll(r, RemotesOf(g, r)), PlugAll(deep, LastPull(g, rest)), held);
      PlugAllAppend(outer, deep, LastPull(g, rest));
      fs := outer + deep;
    }
  }

  /** So can a push, after its root. */
  lemma PushDescendsInPulls(g: Graph, w: seq<Repo>) returns (fs: seq<Frame>)
    requires Walk(g, true, w) && Distinct(w) && |w| > 1
    ensures Leads(g, Operate(w[0], Push(false), {}), PlugAll(fs, LastPull(g, w)), NONE)
    ensures AllLocks(fs) == multiset(w)
  {
    var r, rest := w[0], w[1..];
    HeadAndTail(w);
    TailOfWalk(g, w, {});
    var deep := PullDescends(g, rest, {} + {r}, NONE + multiset{r});
    assert Link(g, true, w[0], w[0 + 1]);
    AfterPullsUnlocked(g, r, {}, true);
    var outer := PhaseMoves(g, r, rest[0], Push(false), {}, AfterPulls(g, r, {}, true), PlugAll(deep, LastPull(g, rest)), NONE);
    PlugAllAppend(outer, deep, LastPull(g, rest));
    fs := outer + deep;
  }

  lemma FetchIsLoose(r: Repo, t: Repo, remotes: seq<Remote>)
    requires remotes != [] && remotes[0] == Local(t)
    ensures Loose(PullAll(r, remotes), t, {Fetch})
  {
    assert Loose(Git(t, Fetch), t, {Fetch});
  }

  /** The last pull of a walk gets to its fetch from t. */
  lemma WalkFetches(g: Graph, w: seq<Repo>, mode: Mode, t: Repo) returns (q: Process)
    requires Walk(g, true, w) && Distinct(w) && t !in w && Pulled(mode, w) && Local(t) in RemotesOf(g, Last(w))
    ensures Leads(g, Operate(w[0], mode, {}), q, NONE) && Loose(q, t, {Fetch})
  {
    var r, remotes := Last(w), RemotesOf(g, Last(w));
    var k :| 0 <= k < |remotes| && remotes[k] == Local(t);
    var fs;
    if mode == Pull { fs := PullDescends(g, w, {}, NONE); } else { fs := PushDescendsInPulls(g, w); }
    var inner := PullAll(r, remotes[k..]);
    PullAllReaches(g, r, remotes, k, NONE + AllLocks(fs));
    PlugAllLeads(g, fs, LastPull(g, w), inner, NONE);
    q := PlugAll(fs, inner);
    LeadsOn(g, Operate(w[0], mode, {}), PlugAll(fs, LastPull(g, w)), q, NONE);
    FetchIsLoose(r, t, remotes[k..]);
    LooseInside(fs, inner, t, {Fetch});
  }

  /** Some run fetches from t outside t's critical sections. */
  ghost predicate LooselyFetched(g: Graph, roots: seq<Repo>, mode: Mode, t: Repo) {
    exists p :: Reaches(g, Start(roots, mode), p) && Loose(p, t, {Fetch})
  }

  lemma FetchIsReached(g: Graph, roots: seq<Repo>, mode: Mode, t: Repo)
    requires Fetched(g, roots, mode, t)
    ensures LooselyFetched(g, roots, mode, t)
  {
    var r :| r in roots && FetchesFrom(g, r, mode, {}, t);
    var w :| Walk(g, true, w) && w[0] == r && Distinct(w) && Avoids(w, {}) && t !in w && Pulled(mode, w) && Local(t) in RemotesOf(g, Last(w));
    var q := WalkFetches(g, w, mode, t);
    var out := RootMoves(g, roots, r, mode, q);
    LooseInside(out, q, t, {Fetch});
  }

  lemma {:induction false} StartFetches(g: Graph, roots: seq<Repo>, mode: Mode, t: Repo)
    requires MayFetch(g, Start(roots, mode), {}, t)
    ensures Fetched(g, roots, mode, t)
  {
    if !MayFetch(g, Operate(roots[0], mode, {}), {}, t) {
      StartFetches(g, roots[1..], mode, t);
      var r :| r in roots[1..] && FetchesFrom(g, r, mode, {}, t);
      assert r in roots;
    }
  }
}
