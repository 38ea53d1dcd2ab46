/** What holds of the goroutines of gitall/main.go, for every graph of local remotes. */
module LockTheorems {
  import opened LockProtocol
  import opened LockDescent
  import opened LockDeadlock
  import opened LockPulls
  import opened LockExposure
  import opened LockFetches

  // ----- mutual exclusion and termination

  /** At most one goroutine pulls, syncs or pushes a repository at any time, and only while its mutex is held. */
  lemma OneWorkerPerRepository(g: Graph, roots: seq<Repo>, mode: Mode, p: Process, target: Repo)
    requires Reaches(g, Start(roots, mode), p)
    ensures Active(p, target, LOCKED) <= Locks(p)[target] <= 1
  {
    ReachableIsGood(g, roots, mode, p);
    ActiveUnderLocks(p, target, {});
  }

  /** Termination: on every graph, no run takes more steps than the work announced at its start. */
  lemma {:induction false} RunsAreBounded(g: Graph, run: seq<Process>, held: multiset<Repo>)
    requires Run(g, run, held)
    ensures |run| - 1 + Work(g, run[|run| - 1]) <= Work(g, run[0])
  {
    var n := |run| - 1;
    if n > 0 {
      assert Next(g, run[n - 1], run[n - 1 + 1], held);
      StepReducesWork(g, run[n - 1], run[n], held + Locks(run[n - 1]));
      RunsAreBounded(g, run[..n], held);
    }
  }

  // ----- deadlock

  /** Deadlock freedom: when no cycle can be reached from the roots, every reachable state is finished or can take a step. */
  lemma DeadlockFree(g: Graph, roots: seq<Repo>, mode: Mode, p: Process)
    requires !Cyclic(g, mode.Push?, roots) && Reaches(g, Start(roots, mode), p)
    ensures p == Done || !Stuck(g, p)
  {
    var selves := mode.Push?;
    ReachableIsGood(g, roots, mode, p);
    var run :| Run(g, run, NONE) && run[0] == Start(roots, mode) && run[|run| - 1] == p;
    assert roots[0..] == roots;
    StartOrdered(g, roots, mode, 0);
    RunKeepsOrder(g, selves, roots, run, |run| - 1);
    if p != Done {
      var held, next := NONE + Locks(p), Done;
      if Locks(p) == multiset{} {
        next := FreeCanStep(g, selves, p, held);
      } else {
        var m := Lowest(g, selves, Locks(p));
        next := LowestHolderCanStep(g, selves, roots, p, held, {}, m);
      }
      assert Next(g, p, next, NONE);
    }
  }

  /** Pushing can deadlock exactly when a cycle of local remotes can be reached from the roots. */
  lemma PushDeadlockIff(g: Graph, roots: seq<Repo>, skip: bool)
    ensures Deadlocks(g, roots, Push(skip)) <==> Cyclic(g, true, roots)
  {
    if Cyclic(g, true, roots) {
      PushBlocks(g, roots, skip);
    } else if Deadlocks(g, roots, Push(skip)) {
      var p :| Reaches(g, Start(roots, Push(skip)), p) && p != Done && Stuck(g, p);
      DeadlockFree(g, roots, Push(skip), p);
    }
  }

  /** Pulling can deadlock exactly when there is a gridlock of walks from the roots. */
  lemma PullDeadlockExactly(g: Graph, roots: seq<Repo>)
    ensures Deadlocks(g, roots, Pull) <==> exists walks :: Gridlock(g, roots, walks)
  {
    if Deadlocks(g, roots, Pull) {
      var p :| Reaches(g, Start(roots, Pull), p) && p != Done && Stuck(g, p);
      DeadlockIsGridlock(g, roots, p);
    }
    if walks :| Gridlock(g, roots, walks) { GridlockBlocks(g, roots, walks); }
  }

  /** From one root, along single local remotes, pulling never deadlocks, also on a cycle: the recursion meets its own stack first. */
  lemma SingleRootPulls(g: Graph, root: Repo)
    requires Single(g)
    ensures !Deadlocks(g, [root], Pull)
  {
    PullDeadlockExactly(g, [root]);
    if walks :| Gridlock(g, [root], walks) { SingleHasNoGridlock(g, root, walks); }
  }

  /** When the roots include all their local remotes, pulling can deadlock exactly when two or more of them form a cycle. */
  lemma PullDeadlockIff(g: Graph, roots: seq<Repo>)
    requires Closed(g, roots)
    ensures Deadlocks(g, roots, Pull) <==> Cyclic(g, false, roots)
  {
    if Cyclic(g, false, roots) {
      PullBlocks(g, roots);
    } else if Deadlocks(g, roots, Pull) {
      var p :| Reaches(g, Start(roots, Pull), p) && p != Done && Stuck(g, p);
      DeadlockFree(g, roots, Pull, p);
    }
  }

  /** Two repositories that are each other's local remote block each other, in either mode. */
  lemma CyclicRemotesCanDeadlock(a: Repo, b: Repo, skip: bool)
    requires a != b
    ensures var g := Graph(map[a := [Local(b)], b := [Local(a)]]);
            Deadlocks(g, [a, b], Pull) && Deadlocks(g, [a], Push(skip))
  {
    var g := Graph(map[a := [Local(b)], b := [Local(a)]]);
    var w := [a, b, a];
    assert Link(g, false, a, b) && Link(g, false, b, a) && Link(g, true, a, b) && Link(g, true, b, a);
    assert w[0] == w[2] && !Distinct(w);
    assert WalkFrom(g, false, [a, b], w) && WalkFrom(g, true, [a], w);
    PullDeadlockIff(g, [a, b]);
    PushDeadlockIff(g, [a], skip);
  }

  // ----- what runs outside the mutexes

  /** A repository is changed without its mutex exactly by pushes, and exactly when the sync phase of a repository on a walk from a root gets to it; pulls never do that. */
  lemma UnguardedIff(g: Graph, roots: seq<Repo>, mode: Mode, t: Repo)
    ensures Unguarded(g, roots, mode, t) <==> mode.Push? && Exposed(g, roots, t)
  {
    if mode.Push? && Exposed(g, roots, t) {
      var r :| r in roots && ExposesFrom(g, r, {}, t);
      PushRunsUnguarded(g, roots, r, mode.skipPullFirst, t);
    }
    if Unguarded(g, roots, mode, t) {
      var p :| Reaches(g, Start(roots, mode), p) && Active(p, t, UNLOCKED_WRITES) > 0;
      var run :| Run(g, run, NONE) && run[0] == Start(roots, mode) && run[|run| - 1] == p;
      StartPlaced(roots, mode);
      StartTouches(g, roots, mode, t);
      RunTouches(g, run, |run| - 1, t);
      ActiveTouches(g, p, {}, t);
    }
  }

  /** Without a reachable cycle those are all the local remotes reached from the roots; with one they are some of them. */
  lemma ExposedAreMirrors(g: Graph, roots: seq<Repo>, t: Repo)
    ensures Exposed(g, roots, t) ==> Mirror(g, roots, t)
    ensures Mirror(g, roots, t) && !Cyclic(g, true, roots) ==> Exposed(g, roots, t)
  {
    if Exposed(g, roots, t) {
      var r :| r in roots && ExposesFrom(g, r, {}, t);
      var w :| Walk(g, true, w) && w[0] == r && Distinct(w) && Avoids(w, {}) && Opens(RemotesOf(g, Last(w)), {} + Path(w), t);
      assert WalkFrom(g, true, roots, w);
      assert Reached(g, true, roots, Last(w));
    }
    if Mirror(g, roots, t) && !Cyclic(g, true, roots) {
      var r :| Reached(g, true, roots, r) && Local(t) in RemotesOf(g, r);
      MirrorIsExposed(g, roots, r, t);
    }
  }

  /** Pushing from r checks out its local remote c while another goroutine works on c. */
  lemma PushesOverlap(g: Graph, r: Repo, c: Repo, skip: bool)
    requires r != c && Opens(RemotesOf(g, r), {r}, c) && RemotesOf(g, c) == [Network]
    ensures Overlap(g, [r, c], Push(skip), c, CheckoutHead)
  {
    var q := PushChecksOut(g, r, c, skip);
    PushStarts(g, c, skip, {}, true, multiset{r});
    var s := Hold(c, AfterPulls(g, c, {}, true));
    BothMove(g, r, c, Push(skip), q, s);
    assert RemotesOf(g, c)[0] == Network;
    assert Active(SyncAll(c, RemotesOf(g, c)), c, {Own}) == 1;
    assert Active(s, c, {Own}) == 1 && c in Locks(s);
    Overlaps(q, s, c, CheckoutHead);
  }

  /** A local remote is read without its mutex exactly when a walk from a root without a repetition, and not over it, ends in a pulled repository that has it as a local remote. */
  lemma LooselyFetchedIff(g: Graph, roots: seq<Repo>, mode: Mode, t: Repo)
    ensures LooselyFetched(g, roots, mode, t) <==> Fetched(g, roots, mode, t)
  {
    if Fetched(g, roots, mode, t) { FetchIsReached(g, roots, mode, t); }
    if LooselyFetched(g, roots, mode, t) {
      var p :| Reaches(g, Start(roots, mode), p) && Loose(p, t, {Fetch});
      var run :| Run(g, run, NONE) && run[0] == Start(roots, mode) && run[|run| - 1] == p;
      StartPlaced(roots, mode);
      LooseMayFetch(g, p, {}, t);
      RunFetches(g, run, |run| - 1, t);
      StartFetches(g, roots, mode, t);
    }
  }

  /** Pulling into r reads its local remote c while another goroutine works on c. */
  lemma PullsOverlap(g: Graph, r: Repo, c: Repo)
    requires r != c && RemotesOf(g, r) != [] && RemotesOf(g, r)[0] == Local(c) && RemotesOf(g, c) == [Network]
    ensures Overlap(g, [r, c], Pull, c, Fetch)
  {
    var q := PullReaches(g, r, NONE);
    var s := PullReaches(g, c, multiset{r});
    BothMove(g, r, c, Pull, q, s);
    PullAllFirst(r, RemotesOf(g, r));
    PullAllFirst(c, RemotesOf(g, c));
    assert Active(q, c, {Fetch}) == Active(q.body, c, {Fetch});
    assert Active(s, c, {Own}) == Active(s.body, c, {Own});
    Overlaps(q, s, c, Fetch);
  }
}
