/**
 The goroutines of gitall/main.go as a step system. LockTheorems says what holds of
 it; LockDeadlock, LockPulls and LockExposure prove that.

 A process term is what is left to do: operate calls waiting for a repository's
 mutex, critical sections, git commands, and the joins that wait for child
 goroutines. One step is one action of one goroutine; the mutexes held are those
 of the Hold nodes in the term, and a mutex is not re-entrant.
 */
module LockProtocol {
  type Repo = string

  /** A remote is a network URL or resolves to a local repository. */
  datatype Remote = Network | Local(path: Repo)

  datatype Graph = Graph(remotes: map<Repo, seq<Remote>>)

  datatype Mode = Pull | Push(skipPullFirst: bool)

  datatype Command =
    | Own             // pull, sync and push of the repository itself
    | Sync            // fetch from and push into a local remote
    | Fetch           // read a local remote while pulling from it
    | EnsurePushable  // configure a local remote before its lock is taken
    | CheckoutHead    // refresh a local remote after its lock is released

  /** The commands that run under the mutex of their repository. */
  const LOCKED := {Own, Sync}

  /** The commands that change a repository without its mutex. */
  const UNLOCKED_WRITES := {EnsurePushable, CheckoutHead}

  datatype Process =
    | Done
    | Operate(repo: Repo, mode: Mode, stack: set<Repo>)
    | Enter(repo: Repo, mode: Mode, stack: set<Repo>)
    | Git(target: Repo, command: Command)
    | Wait(repo: Repo, body: Process)
    | Hold(repo: Repo, body: Process)
    | Then(first: Process, second: Process)
    | Both(left: Process, right: Process)

  function RemotesOf(g: Graph, r: Repo): seq<Remote> {
    if r in g.remotes then g.remotes[r] else []
  }

  // ----- the program

  /** operateAll: one goroutine for each local remote, joined. */
  function OperateAll(remotes: seq<Remote>, mode: Mode, stack: set<Repo>): Process {
    if remotes == [] then Done
    else if remotes[0].Local? then Both(Operate(remotes[0].path, mode, stack), OperateAll(remotes[1..], mode, stack))
    else OperateAll(remotes[1..], mode, stack)
  }

  /** pullRepo: each remote in turn is fetched from, and the own branches are updated. */
  function PullAll(r: Repo, remotes: seq<Remote>): Process {
    if remotes == [] then Done
    else if remotes[0].Local? then Then(Git(remotes[0].path, Fetch), Then(Git(r, Own), PullAll(r, remotes[1..])))
    else Then(Git(r, Own), PullAll(r, remotes[1..]))
  }

  /** syncAndPushRemote with a local remote: fetch from it and merge, then push into it. */
  function SyncWith(r: Repo, c: Repo): Process { Then(Git(r, Own), Git(c, Sync)) }

  /** One remote of syncAndPushRepo; a local one is synchronised under its own mutex. */
  function SyncOne(r: Repo, remote: Remote): Process {
    match remote
    case Network => Git(r, Own)
    case Local(c) => Then(Git(c, EnsurePushable), Then(Wait(c, SyncWith(r, c)), Git(c, CheckoutHead)))
  }

  /** syncAndPushRepo: each remote in turn. */
  function SyncAll(r: Repo, remotes: seq<Remote>): Process {
    if remotes == [] then Done else Then(SyncOne(r, remotes[0]), SyncAll(r, remotes[1..]))
  }

  /** operateLocked past its early error returns; an unclean repository skips its own pull or sync. */
  function Body(g: Graph, r: Repo, mode: Mode, stack: set<Repo>, clean: bool): Process {
    var remotes := RemotesOf(g, r);
    var path := stack + {r};
    match mode
    case Pull =>
      Then(OperateAll(remotes, Pull, path), if clean then PullAll(r, remotes) else Done)
    case Push(skip) =>
      Then(if skip then Done else OperateAll(remotes, Pull, path),
           Then(if clean then SyncAll(r, remotes) else Done,
                OperateAll(remotes, Push(true), path)))
  }

  /** main: one goroutine for each discovered repository, each with an empty recursion stack. */
  function Start(roots: seq<Repo>, mode: Mode): Process {
    if roots == [] then Done else Both(Operate(roots[0], mode, {}), Start(roots[1..], mode))
  }

  // ----- steps

  function Locks(p: Process): multiset<Repo> {
    match p
    case Hold(r, b) => multiset{r} + Locks(b)
    case Wait(r, b) => Locks(b)
    case Then(a, b) => Locks(a) + Locks(b)
    case Both(a, b) => Locks(a) + Locks(b)
    case _ => multiset{}
  }

  /** One goroutine of p takes one step to p', while the mutexes in held are taken. */
  predicate Step(g: Graph, p: Process, p': Process, held: multiset<Repo>) {
    match p
    case Done => false
    case Operate(r, mode, stack) =>
      p' == if r in stack then Done else Wait(r, Enter(r, mode, stack))
    case Enter(r, mode, stack) =>
      p' == Done || p' == Body(g, r, mode, stack, true) || p' == Body(g, r, mode, stack, false)
    case Git(t, c) => p' == Done
    case Wait(r, b) => r !in held && p' == Hold(r, b)
    case Hold(r, b) =>
      || (b == Done && p' == Done)
      || (p'.Hold? && p'.repo == r && Step(g, b, p'.body, held))
    case Then(a, b) =>
      || (a == Done && p' == b)
      || (p'.Then? && p'.second == b && Step(g, a, p'.first, held))
    case Both(a, b) =>
      || (a == Done && b == Done && p' == Done)
      || (p'.Both? && p'.right == b && Step(g, a, p'.left, held))
      || (p'.Both? && p'.left == a && Step(g, b, p'.right, held))
  }

  /** A step of p next to other goroutines that hold the mutexes in held. */
  predicate Next(g: Graph, p: Process, p': Process, held: multiset<Repo>) {
    Step(g, p, p', held + Locks(p))
  }

  predicate Run(g: Graph, run: seq<Process>, held: multiset<Repo>) {
    && run != []
    && forall i :: 0 <= i < |run| - 1 ==> Next(g, run[i], run[i + 1], held)
  }

  /** p can get to q while the other goroutines, which hold the mutexes in held, do not move. */
  ghost predicate Leads(g: Graph, p: Process, q: Process, held: multiset<Repo>) {
    exists run :: Run(g, run, held) && run[0] == p && run[|run| - 1] == q
  }

  const NONE: multiset<Repo> := multiset{}

  /** q is a reachable state of the whole program p. */
  ghost predicate Reaches(g: Graph, p: Process, q: Process) {
    Leads(g, p, q, NONE)
  }

  ghost predicate Stuck(g: Graph, p: Process) {
    forall p' :: !Next(g, p, p', NONE)
  }

  lemma LeadsItself(g: Graph, p: Process, held: multiset<Repo>)
    ensures Leads(g, p, p, held)
  {
    var run := [p];
    assert Run(g, run, held) && run[0] == p && run[|run| - 1] == p;
  }

  lemma LeadsOn(g: Graph, p: Process, q: Process, r: Process, held: multiset<Repo>)
    requires Leads(g, p, q, held) && Leads(g, q, r, held)
    ensures Leads(g, p, r, held)
  {
    var a :| Run(g, a, held) && a[0] == p && a[|a| - 1] == q;
    var b :| Run(g, b, held) && b[0] == q && b[|b| - 1] == r;
    var c := a + b[1..];
    forall i | 0 <= i < |c| - 1 ensures Next(g, c[i], c[i + 1], held) {
      if i < |a| - 1 {
        assert Next(g, a[i], a[i + 1], held);
      } else {
        assert Next(g, b[i - |a| + 1], b[i - |a| + 1 + 1], held);
      }
    }
    assert Run(g, c, held) && c[0] == p && c[|c| - 1] == r;
  }

  lemma LeadsNext(g: Graph, p: Process, q: Process, held: multiset<Repo>)
    requires Next(g, p, q, held)
    ensures Leads(g, p, q, held)
  {
    var run := [p, q];
    assert Run(g, run, held) && run[0] == p && run[|run| - 1] == q;
  }

  // ----- goroutines inside others

  /** The place of a goroutine in a term. */
  datatype Frame = InHold(repo: Repo) | InFirst(second: Process) | InLeft(right: Process) | InRight(left: Process)

  function Plug(f: Frame, p: Process): Process {
    match f
    case InHold(r) => Hold(r, p)
    case InFirst(b) => Then(p, b)
    case InLeft(b) => Both(p, b)
    case InRight(a) => Both(a, p)
  }

  function FrameLocks(f: Frame): multiset<Repo> {
    match f
    case InHold(r) => multiset{r}
    case InFirst(b) => Locks(b)
    case InLeft(b) => Locks(b)
    case InRight(a) => Locks(a)
  }

  lemma PlugLocks(f: Frame, p: Process)
    ensures Locks(Plug(f, p)) == FrameLocks(f) + Locks(p)
  {
  }

  lemma PlugStep(g: Graph, f: Frame, p: Process, q: Process, held: multiset<Repo>)
    requires Step(g, p, q, held)
    ensures Step(g, Plug(f, p), Plug(f, q), held)
  {
  }

  lemma PlugNext(g: Graph, f: Frame, p: Process, q: Process, held: multiset<Repo>)
    requires Next(g, p, q, held + FrameLocks(f))
    ensures Next(g, Plug(f, p), Plug(f, q), held)
  {
    PlugLocks(f, p);
    var all := held + Locks(Plug(f, p));
    assert held + FrameLocks(f) + Locks(p) == all;
    PlugStep(g, f, p, q, all);
  }

  /** What a goroutine can do alone it can do in its place. */
  lemma PlugLeads(g: Graph, f: Frame, p: Process, q: Process, held: multiset<Repo>)
    requires Leads(g, p, q, held + FrameLocks(f))
    ensures Leads(g, Plug(f, p), Plug(f, q), held)
  {
    var run :| Run(g, run, held + FrameLocks(f)) && run[0] == p && run[|run| - 1] == q;
    var outer := seq(|run|, i requires 0 <= i < |run| => Plug(f, run[i]));
    forall i | 0 <= i < |outer| - 1 ensures Next(g, outer[i], outer[i + 1], held) {
      assert Next(g, run[i], run[i + 1], held + FrameLocks(f));
      PlugNext(g, f, run[i], run[i + 1], held);
    }
    assert Run(g, outer, held) && outer[0] == Plug(f, p) && outer[|outer| - 1] == Plug(f, q);
  }

  // ----- the shape of terms

  /**
   The shape every reachable term keeps: only started code holds mutexes, and locked
   commands on a repository stand in the sequential code of its own critical section
   (mine names those around), never in the goroutines that code has started.
   */
  predicate Shaped(p: Process, mine: set<Repo>) {
    match p
    case Done => true
    case Operate(r, _, _) => true
    case Enter(r, _, _) => r in mine
    case Git(t, c) => c in LOCKED ==> t in mine
    case Wait(r, b) => Locks(b) == multiset{} && Shaped(b, mine + {r})
    case Hold(r, b) => Shaped(b, mine + {r})
    case Then(a, b) => Shaped(a, mine) && Shaped(b, mine) && Locks(b) == multiset{}
    case Both(a, b) => Shaped(a, {}) && Shaped(b, {})
  }

  /** Code that has not started. */
  predicate Fresh(p: Process, mine: set<Repo>) {
    Shaped(p, mine) && Locks(p) == multiset{}
  }

  lemma FreshThen(a: Process, b: Process, mine: set<Repo>)
    requires Fresh(a, mine) && Fresh(b, mine)
    ensures Fresh(Then(a, b), mine)
  {
  }

  lemma FreshWait(r: Repo, b: Process, mine: set<Repo>)
    requires Fresh(b, mine + {r})
    ensures Fresh(Wait(r, b), mine)
  {
  }

  lemma {:induction false} OperateAllFresh(remotes: seq<Remote>, mode: Mode, stack: set<Repo>, mine: set<Repo>)
    ensures Fresh(OperateAll(remotes, mode, stack), mine)
    ensures Fresh(OperateAll(remotes, mode, stack), {})
  {
    if remotes != [] { OperateAllFresh(remotes[1..], mode, stack, mine); }
  }

  lemma {:induction false} PullAllFresh(r: Repo, remotes: seq<Remote>, mine: set<Repo>)
    requires r in mine
    ensures Fresh(PullAll(r, remotes), mine)
  {
    if remotes != [] {
      var rest := PullAll(r, remotes[1..]);
      PullAllFresh(r, remotes[1..], mine);
      FreshThen(Git(r, Own), rest, mine);
      if remotes[0].Local? { FreshThen(Git(remotes[0].path, Fetch), Then(Git(r, Own), rest), mine); }
    }
  }

  lemma SyncWithUnlocked(r: Repo, c: Repo)
    ensures Locks(SyncWith(r, c)) == NONE && Locks(Wait(c, SyncWith(r, c))) == NONE
  {
    assert Locks(Git(r, Own)) == NONE && Locks(Git(c, Sync)) == NONE;
    assert Locks(SyncWith(r, c)) == NONE;
  }

  lemma SyncOneFresh(r: Repo, remote: Remote, mine: set<Repo>)
    requires r in mine
    ensures Fresh(SyncOne(r, remote), mine)
  {
    if remote.Local? {
      var c := remote.path;
      FreshThen(Git(r, Own), Git(c, Sync), mine + {c});
      FreshWait(c, SyncWith(r, c), mine);
      FreshThen(Wait(c, SyncWith(r, c)), Git(c, CheckoutHead), mine);
      FreshThen(Git(c, EnsurePushable), Then(Wait(c, SyncWith(r, c)), Git(c, CheckoutHead)), mine);
    }
  }

  lemma {:induction false} SyncAllFresh(r: Repo, remotes: seq<Remote>, mine: set<Repo>)
    requires r in mine
    ensures Fresh(SyncAll(r, remotes), mine)
  {
    if remotes != [] {
      SyncOneFresh(r, remotes[0], mine);
      SyncAllFresh(r, remotes[1..], mine);
      FreshThen(SyncOne(r, remotes[0]), SyncAll(r, remotes[1..]), mine);
    }
  }

  lemma BodyFresh(g: Graph, r: Repo, mode: Mode, stack: set<Repo>, clean: bool, mine: set<Repo>)
    requires r in mine
    ensures Fresh(Body(g, r, mode, stack, clean), mine)
  {
    var remotes := RemotesOf(g, r);
    var pulls := OperateAll(remotes, Pull, stack + {r});
    OperateAllFresh(remotes, Pull, stack + {r}, mine);
    match mode
    case Pull =>
      PullAllFresh(r, remotes, mine);
      FreshThen(pulls, if clean then PullAll(r, remotes) else Done, mine);
    case Push(skip) =>
      var sync, pushes := if clean then SyncAll(r, remotes) else Done, OperateAll(remotes, Push(true), stack + {r});
      OperateAllFresh(remotes, Push(true), stack + {r}, mine);
      SyncAllFresh(r, remotes, mine);
      FreshThen(sync, pushes, mine);
      FreshThen(if skip then Done else pulls, Then(sync, pushes), mine);
  }

  lemma {:induction false} StartFresh(roots: seq<Repo>, mode: Mode)
    ensures Fresh(Start(roots, mode), {})
  {
    if roots != [] { StartFresh(roots[1..], mode); }
  }

  /** A step keeps the shape. */
  lemma {:induction false} StepKeepsShape(g: Graph, p: Process, p': Process, held: multiset<Repo>, mine: set<Repo>)
    requires Shaped(p, mine) && Step(g, p, p', held)
    ensures Shaped(p', mine)
  {
    match p
    case Enter(r, mode, stack) =>
      BodyFresh(g, r, mode, stack, true, mine);
      BodyFresh(g, r, mode, stack, false, mine);
    case Hold(r, b) =>
      if p' != Done { StepKeepsShape(g, b, p'.body, held, mine + {r}); }
    case Then(a, b) =>
      if !(a == Done && p' == b) { StepKeepsShape(g, a, p'.first, held, mine); }
    case Both(a, b) =>
      if a == Done && b == Done && p' == Done {
      } else if p'.right == b && Step(g, a, p'.left, held) {
        StepKeepsShape(g, a, p'.left, held, {});
      } else {
        StepKeepsShape(g, b, p'.right, held, {});
      }
    case _ =>
  }

  // ----- who holds what

  /** a' is a, after releasing some mutexes or after taking a free one. */
  ghost predicate LocksMove(a: multiset<Repo>, a': multiset<Repo>, held: multiset<Repo>) {
    a' <= a || exists r :: r !in held && a' == a + multiset{r}
  }

  /** A step takes at most one mutex, and only a free one. */
  lemma {:induction false} StepMovesLocks(g: Graph, p: Process, p': Process, held: multiset<Repo>)
    requires Step(g, p, p', held)
    ensures LocksMove(Locks(p), Locks(p'), held)
  {
    match p
    case Enter(r, mode, stack) =>
      BodyFresh(g, r, mode, stack, true, {r});
      BodyFresh(g, r, mode, stack, false, {r});
    case Wait(r, b) =>
      assert Locks(p') == Locks(p) + multiset{r};
    case Hold(r, b) =>
      if p' != Done {
        StepMovesLocks(g, b, p'.body, held);
        LiftLocks(Locks(b), Locks(p'.body), multiset{r}, held);
      }
    case Then(a, b) =>
      if !(a == Done && p' == b) {
        StepMovesLocks(g, a, p'.first, held);
        LiftLocks(Locks(a), Locks(p'.first), Locks(b), held);
      }
    case Both(a, b) =>
      if a == Done && b == Done && p' == Done {
      } else if p'.right == b && Step(g, a, p'.left, held) {
        StepMovesLocks(g, a, p'.left, held);
        LiftLocks(Locks(a), Locks(p'.left), Locks(b), held);
      } else {
        StepMovesLocks(g, b, p'.right, held);
        LiftLocks(Locks(b), Locks(p'.right), Locks(a), held);
      }
    case _ =>
  }

  lemma LiftLocks(a: multiset<Repo>, a': multiset<Repo>, rest: multiset<Repo>, held: multiset<Repo>)
    requires LocksMove(a, a', held)
    ensures LocksMove(a + rest, a' + rest, held) && LocksMove(rest + a, rest + a', held)
  {
    if !(a' <= a) {
      var r :| r !in held && a' == a + multiset{r};
      assert rest + a' == rest + a + multiset{r} && a' + rest == a + rest + multiset{r};
    }
  }

  predicate Exclusive(p: Process) {
    forall r :: r in Locks(p) ==> Locks(p)[r] == 1
  }

  lemma MovedLocksExclusive(a: multiset<Repo>, a': multiset<Repo>)
    requires (forall r :: r in a ==> a[r] == 1) && LocksMove(a, a', a)
    ensures forall r :: r in a' ==> a'[r] == 1
  {
    if !(a' <= a) {
      var t :| t !in a && a' == a + multiset{t};
    }
  }

  ghost predicate Good(p: Process) {
    Shaped(p, {}) && Exclusive(p)
  }

  lemma NextKeepsGood(g: Graph, p: Process, p': Process)
    requires Good(p) && Next(g, p, p', NONE)
    ensures Good(p')
  {
    assert NONE + Locks(p) == Locks(p);
    StepKeepsShape(g, p, p', Locks(p), {});
    StepMovesLocks(g, p, p', Locks(p));
    MovedLocksExclusive(Locks(p), Locks(p'));
  }

  lemma {:induction false} RunKeepsGood(g: Graph, run: seq<Process>, k: nat)
    requires Run(g, run, NONE) && Good(run[0]) && k < |run|
    ensures Good(run[k])
  {
    if k > 0 {
      RunKeepsGood(g, run, k - 1);
      assert Next(g, run[k - 1], run[k - 1 + 1], NONE);
      NextKeepsGood(g, run[k - 1], run[k]);
    }
  }

  lemma ReachableIsGood(g: Graph, roots: seq<Repo>, mode: Mode, p: Process)
    requires Reaches(g, Start(roots, mode), p)
    ensures Good(p)
  {
    var run :| Run(g, run, NONE) && run[0] == Start(roots, mode) && run[|run| - 1] == p;
    StartFresh(roots, mode);
    RunKeepsGood(g, run, |run| - 1);
  }

  // ----- where git runs

  /** How many goroutines of p are about to run one of the commands on target. */
  function Active(p: Process, target: Repo, commands: set<Command>): nat {
    match p
    case Git(t, c) => if t == target && c in commands then 1 else 0
    case Hold(r, b) => Active(b, target, commands)
    case Then(a, b) => Active(a, target, commands)
    case Both(a, b) => Active(a, target, commands) + Active(b, target, commands)
    case _ => 0
  }

  lemma {:induction false} ActiveUnderLocks(p: Process, target: Repo, mine: set<Repo>)
    requires Shaped(p, mine)
    ensures Active(p, target, LOCKED) <= Locks(p)[target] + if target in mine then 1 else 0
  {
    match p
    case Hold(r, b) => ActiveUnderLocks(b, target, mine + {r});
    case Then(a, b) => ActiveUnderLocks(a, target, mine);
    case Both(a, b) =>
      ActiveUnderLocks(a, target, {});
      ActiveUnderLocks(b, target, {});
    case _ =>
  }

  // ----- termination

  function Max(a: nat, b: nat): nat { if a < b then b else a }

  /** The repositories that a recursion with this stack may still enter. */
  function Unvisited(g: Graph, stack: set<Repo>): set<Repo> {
    g.remotes.Keys - stack
  }

  /** Bounds the recursion depth that is still ahead of p. */
  function Height(g: Graph, p: Process): nat {
    match p
    case Operate(_, _, stack) => |Unvisited(g, stack)| + 1
    case Enter(_, _, stack) => |Unvisited(g, stack)| + 2
    case Wait(_, b) => Height(g, b)
    case Hold(_, b) => Height(g, b)
    case Then(a, b) => Max(Height(g, a), Height(g, b))
    case Both(a, b) => Max(Height(g, a), Height(g, b))
    case _ => 0
  }

  lemma {:induction false} OperateAllHeight(g: Graph, remotes: seq<Remote>, mode: Mode, stack: set<Repo>)
    ensures Height(g, OperateAll(remotes, mode, stack)) <= if remotes == [] then 0 else |Unvisited(g, stack)| + 1
  {
    if remotes != [] { OperateAllHeight(g, remotes[1..], mode, stack); }
  }

  lemma {:induction false} PullAllHeight(g: Graph, r: Repo, remotes: seq<Remote>)
    ensures Height(g, PullAll(r, remotes)) == 0
  {
    if remotes != [] {
      PullAllHeight(g, r, remotes[1..]);
      assert Height(g, Then(Git(r, Own), PullAll(r, remotes[1..]))) == 0;
    }
  }

  lemma SyncOneHeight(g: Graph, r: Repo, remote: Remote)
    ensures Height(g, SyncOne(r, remote)) == 0
  {
    if remote.Local? {
      var c := remote.path;
      assert Height(g, SyncWith(r, c)) == 0;
      assert Height(g, Wait(c, SyncWith(r, c))) == 0;
      assert Height(g, Then(Wait(c, SyncWith(r, c)), Git(c, CheckoutHead))) == 0;
    }
  }

  lemma {:induction false} SyncAllHeight(g: Graph, r: Repo, remotes: seq<Remote>)
    ensures Height(g, SyncAll(r, remotes)) == 0
  {
    if remotes != [] {
      SyncOneHeight(g, r, remotes[0]);
      SyncAllHeight(g, r, remotes[1..]);
    }
  }

  lemma ChildrenHeight(g: Graph, r: Repo, mode: Mode, stack: set<Repo>)
    ensures Height(g, OperateAll(RemotesOf(g, r), mode, stack + {r})) <= |Unvisited(g, stack)| + if r in stack then 1 else 0
  {
    VisitingShrinks(g, stack, r);
    OperateAllHeight(g, RemotesOf(g, r), mode, stack + {r});
  }

  lemma ThenHeight(g: Graph, a: Process, b: Process, bound: nat)
    requires Height(g, a) <= bound && Height(g, b) <= bound
    ensures Height(g, Then(a, b)) <= bound
  {
  }

  /** The recursion ends on every graph: the body of a repository that is not on the stack has one repository less to visit. */
  lemma BodyHeight(g: Graph, r: Repo, mode: Mode, stack: set<Repo>, clean: bool)
    ensures Height(g, Body(g, r, mode, stack, clean)) <= |Unvisited(g, stack)| + if r in stack then 1 else 0
  {
    var remotes := RemotesOf(g, r);
    var bound := |Unvisited(g, stack)| + if r in stack then 1 else 0;
    var pulls := OperateAll(remotes, Pull, stack + {r});
    ChildrenHeight(g, r, Pull, stack);
    match mode
    case Pull =>
      PullAllHeight(g, r, remotes);
      ThenHeight(g, pulls, if clean then PullAll(r, remotes) else Done, bound);
    case Push(skip) =>
      var sync, pushes := if clean then SyncAll(r, remotes) else Done, OperateAll(remotes, Push(true), stack + {r});
      ChildrenHeight(g, r, Push(true), stack);
      SyncAllHeight(g, r, remotes);
      ThenHeight(g, sync, pushes, bound);
      ThenHeight(g, if skip then Done else pulls, Then(sync, pushes), bound);
  }

  lemma VisitingShrinks(g: Graph, stack: set<Repo>, r: Repo)
    ensures |Unvisited(g, stack + {r})| <= |Unvisited(g, stack)|
    ensures r in g.remotes && r !in stack ==> |Unvisited(g, stack + {r})| < |Unvisited(g, stack)|
  {
    assert Unvisited(g, stack + {r}) == Unvisited(g, stack) - {r};
  }

  /** An upper bound on the steps p can still take. */
  ghost function Work(g: Graph, p: Process): nat
    decreases Height(g, p), p
  {
    match p
    case Done => 0
    case Operate(r, mode, stack) =>
      BodyHeight(g, r, mode, stack, true);
      BodyHeight(g, r, mode, stack, false);
      if r in stack then 1
      else 4 + Work(g, Body(g, r, mode, stack, true)) + Work(g, Body(g, r, mode, stack, false))
    case Enter(r, mode, stack) =>
      BodyHeight(g, r, mode, stack, true);
      BodyHeight(g, r, mode, stack, false);
      1 + Work(g, Body(g, r, mode, stack, true)) + Work(g, Body(g, r, mode, stack, false))
    case Git(_, _) => 1
    case Wait(_, b) => 2 + Work(g, b)
    case Hold(_, b) => 1 + Work(g, b)
    case Then(a, b) => 1 + Work(g, a) + Work(g, b)
    case Both(a, b) => 1 + Work(g, a) + Work(g, b)
  }

  lemma {:induction false} StepReducesWork(g: Graph, p: Process, p': Process, held: multiset<Repo>)
    requires Step(g, p, p', held)
    ensures Work(g, p') < Work(g, p)
  {
    match p
    case Hold(r, b) =>
      if p' != Done { StepReducesWork(g, b, p'.body, held); }
    case Then(a, b) =>
      if !(a == Done && p' == b) { StepReducesWork(g, a, p'.first, held); }
    case Both(a, b) =>
      if a == Done && b == Done && p' == Done {
      } else if p'.right == b && Step(g, a, p'.left, held) {
        StepReducesWork(g, a, p'.left, held);
      } else {
        StepReducesWork(g, b, p'.right, held);
      }
    case _ =>
  }

  /** Every state has a stuck one ahead, where all is finished or nothing can move. */
  lemma {:induction false} RunsEnd(g: Graph, p: Process) returns (q: Process)
    ensures Reaches(g, p, q) && Stuck(g, q)
    decreases Work(g, p)
  {
    if Stuck(g, p) {
      LeadsItself(g, p, NONE);
      q := p;
    } else {
      var p' :| Next(g, p, p', NONE);
      StepReducesWork(g, p, p', NONE + Locks(p));
      q := RunsEnd(g, p');
      LeadsNext(g, p, p', NONE);
      LeadsOn(g, p, p', q, NONE);
    }
  }
}
