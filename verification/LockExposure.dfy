/**
 Where gitall/main.go runs git on a repository without its mutex.

 The sync phase of a push configures a local remote before it waits for its mutex and
 checks it out afterwards. A sync phase that waits for a mutex of its own goroutine
 never gets to the remotes after that one, so what can be reached depends on the
 order of the remotes; the invariant carries both, what a term may still change
 and whether it is sealed by such a wait.
 */
module LockExposure {
  import opened LockProtocol
  import opened LockDescent
  import opened LockDeadlock

  /** A sync phase under the mutexes of path gets to its remote t: none of the local remotes before it is in path. */
  ghost predicate Opens(remotes: seq<Remote>, path: set<Repo>, t: Repo) {
    exists k :: 0 <= k < |remotes| && remotes[k] == Local(t) && OpenUpTo(remotes, k, path)
  }

  /** A push recursion from r, below the repositories in stack, can get to a sync phase that reaches t. */
  ghost predicate ExposesFrom(g: Graph, r: Repo, stack: set<Repo>, t: Repo) {
    exists w :: && Walk(g, true, w) && w[0] == r && Distinct(w) && Avoids(w, stack)
                && Opens(RemotesOf(g, Last(w)), stack + Path(w), t)
  }

  /** Some walk without a repetition leads from a root to a repository whose sync phase reaches t. */
  ghost predicate Exposed(g: Graph, roots: seq<Repo>, t: Repo) {
    exists r :: r in roots && ExposesFrom(g, r, {}, t)
  }

  // ----- what a term may still do

  /** p can never end while the mutexes of path are held: somewhere it will wait for one of them. */
  predicate Sealed(p: Process, path: set<Repo>) {
    match p
    case Wait(r, _) => r in path
    case Hold(r, b) => Sealed(b, path + {r})
    case Then(a, b) => Sealed(a, path) || Sealed(b, path)
    case Both(a, b) => Sealed(a, path) || Sealed(b, path)
    case _ => false
  }

  /** p, under the mutexes of path, may still change t without its mutex. */
  ghost predicate Touches(g: Graph, p: Process, path: set<Repo>, t: Repo) {
    match p
    case Done => false
    case Operate(r, mode, stack) => mode.Push? && ExposesFrom(g, r, stack, t)
    case Enter(r, mode, stack) => mode.Push? && ExposesFrom(g, r, stack, t)
    case Git(c, command) => c == t && command in UNLOCKED_WRITES
    case Wait(r, b) => Touches(g, b, path + {r}, t)
    case Hold(r, b) => Touches(g, b, path + {r}, t)
    case Then(a, b) => Touches(g, a, path, t) || (!Sealed(a, path) && Touches(g, b, path, t))
    case Both(a, b) => Touches(g, a, path, t) || Touches(g, b, path, t)
  }

  /** The recursion stacks in p name only repositories whose mutexes are held above. */
  predicate Placed(p: Process, path: set<Repo>) {
    match p
    case Operate(_, _, stack) => stack <= path
    case Enter(r, _, stack) => r !in stack && stack + {r} <= path
    case Wait(r, b) => Placed(b, path + {r})
    case Hold(r, b) => Placed(b, path + {r})
    case Then(a, b) => Placed(a, path) && Placed(b, path)
    case Both(a, b) => Placed(a, path) && Placed(b, path)
    case _ => true
  }

  lemma {:induction false} OperateAllPlaced(remotes: seq<Remote>, mode: Mode, stack: set<Repo>, path: set<Repo>)
    requires stack <= path
    ensures Placed(OperateAll(remotes, mode, stack), path)
  {
    if remotes != [] { OperateAllPlaced(remotes[1..], mode, stack, path); }
  }

  lemma {:induction false} PullAllPlaced(r: Repo, remotes: seq<Remote>, path: set<Repo>)
    ensures Placed(PullAll(r, remotes), path)
  {
    if remotes != [] {
      PullAllPlaced(r, remotes[1..], path);
      assert Placed(Then(Git(r, Own), PullAll(r, remotes[1..])), path);
    }
  }

  lemma {:induction false} SyncAllPlaced(r: Repo, remotes: seq<Remote>, path: set<Repo>)
    ensures Placed(SyncAll(r, remotes), path)
  {
    if remotes != [] {
      SyncAllPlaced(r, remotes[1..], path);
      SyncOnePlaced(r, remotes[0], path);
    }
  }

  lemma SyncOnePlaced(r: Repo, remote: Remote, path: set<Repo>)
    ensures Placed(SyncOne(r, remote), path)
  {
    if remote.Local? {
      var c := remote.path;
      assert Placed(Git(r, Own), path + {c}) && Placed(Git(c, Sync), path + {c});
      assert Placed(SyncWith(r, c), path + {c});
      assert Placed(Wait(c, SyncWith(r, c)), path);
      assert Placed(Then(Wait(c, SyncWith(r, c)), Git(c, CheckoutHead)), path);
    }
  }

  lemma BodyPlaced(g: Graph, r: Repo, mode: Mode, stack: set<Repo>, clean: bool, path: set<Repo>)
    requires stack + {r} <= path
    ensures Placed(Body(g, r, mode, stack, clean), path)
  {
    var remotes := RemotesOf(g, r);
    OperateAllPlaced(remotes, Pull, stack + {r}, path);
    match mode
    case Pull => PullAllPlaced(r, remotes, path);
    case Push(skip) =>
      OperateAllPlaced(remotes, Push(true), stack + {r}, path);
      SyncAllPlaced(r, remotes, path);
      assert Placed(Then(if clean then SyncAll(r, remotes) else Done, OperateAll(remotes, Push(true), stack + {r})), path);
  }

  lemma {:induction false} PullsTouchNothing(g: Graph, remotes: seq<Remote>, stack: set<Repo>, path: set<Repo>, t: Repo)
    ensures !Touches(g, OperateAll(remotes, Pull, stack), path, t)
  {
    if remotes != [] { PullsTouchNothing(g, remotes[1..], stack, path, t); }
  }

  lemma {:induction false} PullAllTouchesNothing(g: Graph, r: Repo, remotes: seq<Remote>, path: set<Repo>, t: Repo)
    ensures !Touches(g, PullAll(r, remotes), path, t)
  {
    if remotes != [] {
      PullAllTouchesNothing(g, r, remotes[1..], path, t);
      assert !Touches(g, Then(Git(r, Own), PullAll(r, remotes[1..])), path, t);
    }
  }

  lemma {:induction false} PushesTouchBelow(g: Graph, remotes: seq<Remote>, stack: set<Repo>, path: set<Repo>, t: Repo) returns (c: Repo)
    requires Touches(g, OperateAll(remotes, Push(true), stack), path, t)
    ensures Local(c) in remotes && ExposesFrom(g, c, stack, t)
  {
    if remotes[0].Local? && ExposesFrom(g, remotes[0].path, stack, t) {
      c := remotes[0].path;
    } else {
      c := PushesTouchBelow(g, remotes[1..], stack, path, t);
    }
  }

  lemma SyncOneTouches(g: Graph, r: Repo, c: Repo, path: set<Repo>, t: Repo)
    ensures Touches(g, SyncOne(r, Local(c)), path, t) ==> c == t
    ensures Sealed(SyncOne(r, Local(c)), path) <==> c in path
  {
    var sync, checkout := Wait(c, SyncWith(r, c)), Git(c, CheckoutHead);
    assert !Touches(g, Git(r, Own), path + {c}, t) && !Touches(g, Git(c, Sync), path + {c}, t);
    assert !Touches(g, SyncWith(r, c), path + {c}, t);
    assert !Touches(g, sync, path, t);
    assert Touches(g, Git(c, EnsurePushable), path, t) ==> c == t;
    assert Touches(g, checkout, path, t) ==> c == t;
    assert Touches(g, Then(sync, checkout), path, t) ==> c == t;
    assert Sealed(sync, path) <==> c in path;
    assert Sealed(Then(sync, checkout), path) <==> c in path;
  }

  lemma OpensLater(remotes: seq<Remote>, path: set<Repo>, t: Repo)
    requires remotes != [] && Opens(remotes[1..], path, t)
    requires remotes[0].Local? ==> remotes[0].path !in path
    ensures Opens(remotes, path, t)
  {
    var rest := remotes[1..];
    var k :| 0 <= k < |rest| && rest[k] == Local(t) && OpenUpTo(rest, k, path);
    forall j | 0 <= j < k + 1 && remotes[j].Local? ensures remotes[j].path !in path {
      if j > 0 { assert remotes[j] == rest[j - 1]; }
    }
    assert remotes[k + 1] == Local(t) && OpenUpTo(remotes, k + 1, path);
  }

  lemma {:induction false} SyncAllTouches(g: Graph, r: Repo, remotes: seq<Remote>, path: set<Repo>, above: set<Repo>, t: Repo)
    requires Touches(g, SyncAll(r, remotes), above, t) && path <= above
    ensures Opens(remotes, path, t)
  {
    var rest := SyncAll(r, remotes[1..]);
    match remotes[0]
    case Network =>
      SyncAllTouches(g, r, remotes[1..], path, above, t);
      OpensLater(remotes, path, t);
    case Local(c) =>
      SyncOneTouches(g, r, c, above, t);
      if c == t {
        assert remotes[0] == Local(t) && OpenUpTo(remotes, 0, path);
      } else {
        SyncAllTouches(g, r, remotes[1..], path, above, t);
        OpensLater(remotes, path, t);
      }
  }

  lemma ExposesHere(g: Graph, r: Repo, stack: set<Repo>, t: Repo)
    requires r !in stack && Opens(RemotesOf(g, r), stack + {r}, t)
    ensures ExposesFrom(g, r, stack, t)
  {
    var w := [r];
    assert Path(w) == {r};
    assert Walk(g, true, w) && Distinct(w) && Avoids(w, stack) && Last(w) == r;
  }

  lemma PrependToWalk(g: Graph, r: Repo, v: seq<Repo>, stack: set<Repo>)
    requires Walk(g, true, v) && Distinct(v) && Avoids(v, stack + {r})
    requires r !in stack && Local(v[0]) in RemotesOf(g, r)
    ensures Walk(g, true, [r] + v) && Distinct([r] + v) && Avoids([r] + v, stack)
  {
    var w := [r] + v;
    forall i | 0 <= i < |w| - 1 ensures Link(g, true, w[i], w[i + 1]) {
      if i > 0 { assert Link(g, true, v[i - 1], v[i - 1 + 1]); }
    }
    forall j | 0 < j < |w| ensures w[j] !in stack && w[j] != r {
      assert w[j] == v[j - 1] && v[j - 1] !in stack + {r};
    }
  }

  lemma ExposesAbove(g: Graph, r: Repo, c: Repo, stack: set<Repo>, t: Repo)
    requires r !in stack && Local(c) in RemotesOf(g, r) && ExposesFrom(g, c, stack + {r}, t)
    ensures ExposesFrom(g, r, stack, t)
  {
    var v :| Walk(g, true, v) && v[0] == c && Distinct(v) && Avoids(v, stack + {r}) && Opens(RemotesOf(g, Last(v)), stack + {r} + Path(v), t);
    PrependToWalk(g, r, v, stack);
    assert stack + {r} + Path(v) == stack + Path([r] + v) && Last([r] + v) == Last(v);
  }

  lemma BodyTouches(g: Graph, r: Repo, mode: Mode, stack: set<Repo>, clean: bool, path: set<Repo>, t: Repo)
    requires r !in stack && stack + {r} <= path && Touches(g, Body(g, r, mode, stack, clean), path, t)
    ensures mode.Push? && ExposesFrom(g, r, stack, t)
  {
    var remotes := RemotesOf(g, r);
    PullsTouchNothing(g, remotes, stack + {r}, path, t);
    match mode
    case Pull => PullAllTouchesNothing(g, r, remotes, path, t);
    case Push(skip) =>
      var sync, pushes := if clean then SyncAll(r, remotes) else Done, OperateAll(remotes, Push(true), stack + {r});
      assert Touches(g, Then(sync, pushes), path, t);
      if Touches(g, sync, path, t) {
        SyncAllTouches(g, r, remotes, stack + {r}, path, t);
        ExposesHere(g, r, stack, t);
      } else {
        var c := PushesTouchBelow(g, remotes, stack + {r}, path, t);
        ExposesAbove(g, r, c, stack, t);
      }
  }

  // ----- steps

  /** held includes the mutexes of path and those that p holds. */
  predicate Covers(held: multiset<Repo>, path: set<Repo>, p: Process) {
    (forall r :: r in path ==> r in held) && Locks(p) <= held
  }

  lemma {:induction false} StaysSealed(g: Graph, p: Process, p': Process, path: set<Repo>, held: multiset<Repo>)
    requires Sealed(p, path) && Step(g, p, p', held) && Covers(held, path, p)
    ensures Sealed(p', path)
  {
    match p
    case Hold(r, b) => StaysSealed(g, b, p'.body, path + {r}, held);
    case Then(a, b) =>
      if a != Done && Sealed(a, path) { StaysSealed(g, a, p'.first, path, held); }
    case Both(a, b) =>
      if p'.right == b && Step(g, a, p'.left, held) {
        if Sealed(a, path) { StaysSealed(g, a, p'.left, path, held); }
      } else {
        if Sealed(b, path) { StaysSealed(g, b, p'.right, path, held); }
      }
  }

  lemma {:induction false} StepPlaced(g: Graph, p: Process, p': Process, path: set<Repo>, held: multiset<Repo>)
    requires Placed(p, path) && Step(g, p, p', held)
    ensures Placed(p', path)
  {
    match p
    case Enter(r, mode, stack) =>
      BodyPlaced(g, r, mode, stack, true, path);
      BodyPlaced(g, r, mode, stack, false, path);
    case Hold(r, b) =>
      if p' != Done { StepPlaced(g, b, p'.body, path + {r}, held); }
    case Then(a, b) =>
      if !(a == Done && p' == b) { StepPlaced(g, a, p'.first, path, held); }
    case Both(a, b) =>
      if a == Done && b == Done && p' == Done {
      } else if p'.right == b && Step(g, a, p'.left, held) {
        StepPlaced(g, a, p'.left, path, held);
      } else {
        StepPlaced(g, b, p'.right, path, held);
      }
    case _ =>
  }

  /** A step opens no new way to t. */
  lemma {:induction false} StepTouches(g: Graph, p: Process, p': Process, path: set<Repo>, held: multiset<Repo>, t: Repo)
    requires Placed(p, path) && Step(g, p, p', held) && Covers(held, path, p) && Touches(g, p', path, t)
    ensures Touches(g, p, path, t)
  {
    match p
    case Operate(r, mode, stack) => OperateTouches(g, r, mode, stack, path, t);
    case Enter(r, mode, stack) =>
      if p' == Body(g, r, mode, stack, true) {
        BodyTouches(g, r, mode, stack, true, path, t);
      } else {
        BodyTouches(g, r, mode, stack, false, path, t);
      }
    case Hold(r, b) => StepTouches(g, b, p'.body, path + {r}, held, t);
    case Then(a, b) =>
      if !(a == Done && p' == b) {
        if Touches(g, p'.first, path, t) {
          StepTouches(g, a, p'.first, path, held, t);
        } else if Sealed(a, path) {
          StaysSealed(g, a, p'.first, path, held);
        }
      }
    case Both(a, b) =>
      if p'.right == b && Step(g, a, p'.left, held) {
        if Touches(g, p'.left, path, t) { StepTouches(g, a, p'.left, path, held, t); }
      } else {
        if Touches(g, p'.right, path, t) { StepTouches(g, b, p'.right, path, held, t); }
      }
    case _ =>
  }

  lemma OperateTouches(g: Graph, r: Repo, mode: Mode, stack: set<Repo>, path: set<Repo>, t: Repo)
    ensures Touches(g, Wait(r, Enter(r, mode, stack)), path, t) ==> Touches(g, Operate(r, mode, stack), path, t)
  {
    assert Touches(g, Enter(r, mode, stack), path + {r}, t) <==> mode.Push? && ExposesFrom(g, r, stack, t);
  }

  lemma {:induction false} RunTouches(g: Graph, run: seq<Process>, k: nat, t: Repo)
    requires Run(g, run, NONE) && Placed(run[0], {}) && k < |run|
    ensures Placed(run[k], {})
    ensures Touches(g, run[k], {}, t) ==> Touches(g, run[0], {}, t)
  {
    if k > 0 {
      RunTouches(g, run, k - 1, t);
      assert Next(g, run[k - 1], run[k - 1 + 1], NONE);
      var held := NONE + Locks(run[k - 1]);
      StepPlaced(g, run[k - 1], run[k], {}, held);
      if Touches(g, run[k], {}, t) { StepTouches(g, run[k - 1], run[k], {}, held, t); }
    }
  }

  lemma {:induction false} StartPlaced(roots: seq<Repo>, mode: Mode)
    ensures Placed(Start(roots, mode), {})
  {
    if roots != [] { StartPlaced(roots[1..], mode); }
  }

  lemma {:induction false} StartTouches(g: Graph, roots: seq<Repo>, mode: Mode, t: Repo)
    ensures Touches(g, Start(roots, mode), {}, t) ==> mode.Push? && Exposed(g, roots, t)
  {
    if roots != [] && Touches(g, Start(roots, mode), {}, t) && !(mode.Push? && ExposesFrom(g, roots[0], {}, t)) {
      assert Touches(g, Start(roots[1..], mode), {}, t) by { assert !Touches(g, Operate(roots[0], mode, {}), {}, t); }
      StartTouches(g, roots[1..], mode, t);
      var r :| r in roots[1..] && ExposesFrom(g, r, {}, t);
      assert r in roots;
    }
  }

  lemma {:induction false} ActiveTouches(g: Graph, p: Process, path: set<Repo>, t: Repo)
    requires Active(p, t, UNLOCKED_WRITES) > 0
    ensures Touches(g, p, path, t)
  {
    match p
    case Hold(r, b) => ActiveTouches(g, b, path + {r}, t);
    case Then(a, b) => ActiveTouches(g, a, path, t);
    case Both(a, b) =>
      if Active(a, t, UNLOCKED_WRITES) > 0 { ActiveTouches(g, a, path, t); } else { ActiveTouches(g, b, path, t); }
    case _ =>
  }

  lemma {:induction false} ActiveInside(fs: seq<Frame>, p: Process, t: Repo, commands: set<Command>)
    ensures Active(PlugAll(fs, p), t, commands) >= Active(p, t, commands)
  {
    if fs != [] { ActiveInside(fs[1..], p, t, commands); }
  }

  // ----- when it happens

  /** Some run changes t without its mutex. */
  ghost predicate Unguarded(g: Graph, roots: seq<Repo>, mode: Mode, t: Repo) {
    exists p :: Reaches(g, Start(roots, mode), p) && Active(p, t, UNLOCKED_WRITES) > 0
  }

  lemma SyncIsActive(r: Repo, t: Repo, rest: Process)
    ensures Active(Then(SyncOne(r, Local(t)), rest), t, UNLOCKED_WRITES) == 1
  {
    assert Active(Git(t, EnsurePushable), t, UNLOCKED_WRITES) == 1;
    assert Active(SyncOne(r, Local(t)), t, UNLOCKED_WRITES) == 1;
  }

  /** A push runs down a walk and gets to t. */
  lemma PushGetsTo(g: Graph, w: seq<Repo>, skip: bool, k: nat, t: Repo) returns (fs: seq<Frame>, q: Process)
    requires Walk(g, true, w) && Distinct(w)
    requires k < |RemotesOf(g, Last(w))| && RemotesOf(g, Last(w))[k] == Local(t) && OpenUpTo(RemotesOf(g, Last(w)), k, Path(w))
    ensures Leads(g, Operate(w[0], Push(skip), {}), PlugAll(fs, q), NONE)
    ensures Active(q, t, UNLOCKED_WRITES) > 0
  {
    var last, remotes := Last(w), RemotesOf(g, Last(w));
    fs := Descend(g, w, skip, {}, NONE);
    var held, sync := NONE + AllLocks(fs), SyncOne(last, Local(t));
    q := Then(sync, SyncAll(last, remotes[k + 1..]));
    LeadsItself(g, sync, held);
    SyncIsActive(last, t, SyncAll(last, remotes[k + 1..]));
    SyncAllReaches(g, last, remotes, k, Path(w), sync, held);
    PlugAllLeads(g, fs, LastSync(g, w), q, NONE);
    LeadsOn(g, Operate(w[0], Push(skip), {}), PlugAll(fs, LastSync(g, w)), PlugAll(fs, q), NONE);
  }

  lemma PushRunsUnguarded(g: Graph, roots: seq<Repo>, r: Repo, skip: bool, t: Repo)
    requires r in roots && ExposesFrom(g, r, {}, t)
    ensures Unguarded(g, roots, Push(skip), t)
  {
    var w :| Walk(g, true, w) && w[0] == r && Distinct(w) && Avoids(w, {}) && Opens(RemotesOf(g, Last(w)), {} + Path(w), t);
    assert {} + Path(w) == Path(w);
    var k :| 0 <= k < |RemotesOf(g, Last(w))| && RemotesOf(g, Last(w))[k] == Local(t) && OpenUpTo(RemotesOf(g, Last(w)), k, Path(w));
    var fs, q := PushGetsTo(g, w, skip, k, t);
    var out := RootMoves(g, roots, r, Push(skip), PlugAll(fs, q));
    ActiveInside(fs, q, t, UNLOCKED_WRITES);
    ActiveInside(out, PlugAll(fs, q), t, UNLOCKED_WRITES);
  }

  /** t is a local remote of a repository reached from the roots. */
  ghost predicate Mirror(g: Graph, roots: seq<Repo>, t: Repo) {
    exists r :: Reached(g, true, roots, r) && Local(t) in RemotesOf(g, r)
  }

  lemma MirrorIsExposed(g: Graph, roots: seq<Repo>, r: Repo, t: Repo)
    requires Reached(g, true, roots, r) && Local(t) in RemotesOf(g, r) && !Cyclic(g, true, roots)
    ensures Exposed(g, roots, t)
  {
    var remotes := RemotesOf(g, r);
    var w :| WalkFrom(g, true, roots, w) && Last(w) == r;
    var k :| 0 <= k < |remotes| && remotes[k] == Local(t);
    assert Distinct(w);
    forall j | 0 <= j < k && remotes[j].Local? ensures remotes[j].path !in {} + Path(w) {
      NoWayBack(g, roots, w, remotes[j].path);
    }
    assert OpenUpTo(remotes, k, {} + Path(w));
    assert ExposesFrom(g, w[0], {}, t);
  }

  lemma NoWayBack(g: Graph, roots: seq<Repo>, w: seq<Repo>, c: Repo)
    requires !Cyclic(g, true, roots) && WalkFrom(g, true, roots, w) && Local(c) in RemotesOf(g, Last(w))
    ensures c !in w
  {
    var longer := w + [c];
    forall i | 0 <= i < |longer| - 1 ensures Link(g, true, longer[i], longer[i + 1]) {
      if i < |w| - 1 { assert Link(g, true, w[i], w[i + 1]); }
    }
    assert WalkFrom(g, true, roots, longer);
    DistinctSnoc(w, c);
  }

  // ----- two goroutines in one repository

  lemma RootsOfTwo(r: Repo, c: Repo, mode: Mode)
    ensures Start([r, c], mode) == Both(Operate(r, mode, {}), Both(Operate(c, mode, {}), Done))
  {
    var two, one: seq<Repo> := [r, c], [c];
    assert two[1..] == one && one[1..] == [];
    assert Start(one, mode) == Both(Operate(c, mode, {}), Done);
  }

  /** Two goroutines of main move, one after the other. */
  lemma BothMove(g: Graph, r: Repo, c: Repo, mode: Mode, q: Process, s: Process)
    requires Leads(g, Operate(r, mode, {}), q, NONE)
    requires Leads(g, Operate(c, mode, {}), s, Locks(q))
    ensures Reaches(g, Start([r, c], mode), Both(q, Both(s, Done)))
  {
    var first, second, rest := Operate(r, mode, {}), Operate(c, mode, {}), Both(Operate(c, mode, {}), Done);
    RootsOfTwo(r, c, mode);
    assert Locks(second) == NONE;
    assert FrameLocks(InLeft(rest)) == NONE && FrameLocks(InLeft(Done)) == NONE;
    assert NONE + NONE == NONE && Locks(q) + NONE == Locks(q) && NONE + Locks(q) == Locks(q);
    PlugLeads(g, InLeft(rest), first, q, NONE);
    PlugLeads(g, InLeft(Done), second, s, Locks(q));
    PlugLeads(g, InRight(q), rest, Both(s, Done), NONE);
    LeadsOn(g, Start([r, c], mode), Both(q, rest), Both(q, Both(s, Done)), NONE);
  }

  /** One goroutine works on c under its mutex while another one runs the command there without it. */
  ghost predicate Overlap(g: Graph, roots: seq<Repo>, mode: Mode, c: Repo, command: Command) {
    exists p :: && Reaches(g, Start(roots, mode), p)
                && c in Locks(p) && Active(p, c, {Own}) > 0 && Active(p, c, {command}) > 0
  }

  lemma CheckoutNext(r: Repo, c: Repo, rest: seq<Remote>)
    ensures var p := Then(Git(c, CheckoutHead), SyncAll(r, rest));
            Locks(p) == NONE && Active(p, c, {CheckoutHead}) == 1
  {
    SyncAllFresh(r, rest, {r});
    assert Active(Git(c, CheckoutHead), c, {CheckoutHead}) == 1;
  }

  lemma PushChecksOut(g: Graph, r: Repo, c: Repo, skip: bool) returns (q: Process)
    requires r != c && Opens(RemotesOf(g, r), {r}, c)
    ensures Leads(g, Operate(r, Push(skip), {}), q, NONE)
    ensures Locks(q) == multiset{r} && Active(q, c, {CheckoutHead}) > 0
  {
    var remotes := RemotesOf(g, r);
    var k :| 0 <= k < |remotes| && remotes[k] == Local(c) && OpenUpTo(remotes, k, {r});
    var fs := PushReachesSync(g, r, skip, {}, NONE);
    var held, inner := NONE + AllLocks(fs), Then(Git(c, CheckoutHead), SyncAll(r, remotes[k + 1..]));
    SyncChecksOut(g, r, c, held);
    SyncAllReaches(g, r, remotes, k, {r}, Git(c, CheckoutHead), held);
    PlugAllLeads(g, fs, SyncAll(r, remotes), inner, NONE);
    q := PlugAll(fs, inner);
    LeadsOn(g, Operate(r, Push(skip), {}), PlugAll(fs, SyncAll(r, remotes)), q, NONE);
    AllLocksOf(fs, inner);
    CheckoutNext(r, c, remotes[k + 1..]);
    ActiveInside(fs, inner, c, {CheckoutHead});
  }

  lemma Overlaps(q: Process, s: Process, c: Repo, command: Command)
    requires Active(q, c, {command}) > 0 && Active(s, c, {Own}) > 0 && c in Locks(s)
    ensures var p := Both(q, Both(s, Done));
            c in Locks(p) && Active(p, c, {Own}) > 0 && Active(p, c, {command}) > 0
  {
    var rest := Both(s, Done);
    assert c in Locks(rest) && Active(rest, c, {Own}) > 0;
  }

  lemma PullAllFirst(r: Repo, remotes: seq<Remote>)
    requires remotes != []
    ensures remotes[0].Local? ==> Active(PullAll(r, remotes), remotes[0].path, {Fetch}) == 1
    ensures remotes[0].Network? ==> Active(PullAll(r, remotes), r, {Own}) == 1
  {
  }

  lemma PullReaches(g: Graph, r: Repo, held: multiset<Repo>) returns (q: Process)
    requires r !in held && Clear(RemotesOf(g, r), {r}, held + multiset{r})
    ensures q == Hold(r, PullAll(r, RemotesOf(g, r))) && Locks(q) == multiset{r}
    ensures Leads(g, Operate(r, Pull, {}), q, held)
  {
    var remotes, stack := RemotesOf(g, r), {} + {r};
    var pulls, own := OperateAll(remotes, Pull, stack), PullAll(r, remotes);
    OperateStarts(g, r, Pull, {}, true, held);
    OperateAllEnds(g, remotes, Pull, stack, held + multiset{r});
    PullAllFresh(r, remotes, {r});
    ThenEnds(g, pulls, own, held + multiset{r});
    PlugLeads(g, InHold(r), Then(pulls, own), own, held);
    q := Hold(r, own);
    LeadsOn(g, Operate(r, Pull, {}), Hold(r, Then(pulls, own)), q, held);
  }
}
