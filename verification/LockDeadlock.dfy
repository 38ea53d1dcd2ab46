/**
 When the goroutines of gitall/main.go can block each other for ever.

 Without a reachable cycle of local remotes, repositories can be ranked so that every
 critical section asks only for mutexes ranked below its own: then the holder of the
 lowest one can move. With a cycle, a push runs into a mutex of its own, and pulls
 from all repositories of the cycle run into each other's; such a knot stays for
 ever, and since every run ends, it ends in a state where nothing can move.
 */
module LockDeadlock {
  import opened LockProtocol
  import opened LockDescent

  /** Some walk from a root comes back to a repository. A pull never waits for itself, so a repository that is its own remote counts only for pushes (selves). */
  ghost predicate Cyclic(g: Graph, selves: bool, roots: seq<Repo>) {
    exists w :: WalkFrom(g, selves, roots, w) && !Distinct(w)
  }

  /** Some run ends with unfinished goroutines that all wait. */
  ghost predicate Deadlocks(g: Graph, roots: seq<Repo>, mode: Mode) {
    exists p :: Reaches(g, Start(roots, mode), p) && p != Done && Stuck(g, p)
  }

  // ----- ranks

  ghost predicate Reached(g: Graph, selves: bool, roots: seq<Repo>, r: Repo) {
    exists w :: WalkFrom(g, selves, roots, w) && Last(w) == r
  }

  ghost predicate Linked(g: Graph, selves: bool, r: Repo, x: Repo) {
    exists w :: Walk(g, selves, w) && |w| >= 2 && w[0] == r && Last(w) == x
  }

  function Repos(g: Graph): set<Repo> {
    set r, i | r in g.remotes && 0 <= i < |g.remotes[r]| && g.remotes[r][i].Local? :: g.remotes[r][i].path
  }

  /** The repositories further down from r. */
  ghost function Below(g: Graph, selves: bool, r: Repo): set<Repo> {
    set x | x in Repos(g) && Linked(g, selves, r, x)
  }

  ghost function Rank(g: Graph, selves: bool, r: Repo): nat {
    |Below(g, selves, r)|
  }

  lemma JoinWalks(g: Graph, selves: bool, v: seq<Repo>, w: seq<Repo>)
    requires Walk(g, selves, v) && Walk(g, selves, w) && Last(v) == w[0]
    ensures Walk(g, selves, v + w[1..]) && (v + w[1..])[0] == v[0] && Last(v + w[1..]) == Last(w)
  {
    var j := v + w[1..];
    forall i | 0 <= i < |j| - 1 ensures Link(g, selves, j[i], j[i + 1]) {
      if i < |v| - 1 {
        assert Link(g, selves, v[i], v[i + 1]);
      } else {
        assert Link(g, selves, w[i - |v| + 1], w[i - |v| + 1 + 1]);
      }
    }
  }

  lemma LinkIsWalk(g: Graph, selves: bool, r: Repo, c: Repo)
    requires Link(g, selves, r, c)
    ensures Walk(g, selves, [r, c]) && Linked(g, selves, r, c) && c in Repos(g)
  {
    var w := [r, c];
    assert Walk(g, selves, w) && w[0] == r && Last(w) == c;
    var i :| 0 <= i < |RemotesOf(g, r)| && RemotesOf(g, r)[i] == Local(c);
    assert g.remotes[r][i].path == c;
  }

  lemma ReachedNext(g: Graph, selves: bool, roots: seq<Repo>, r: Repo, c: Repo)
    requires Reached(g, selves, roots, r) && Link(g, selves, r, c)
    ensures Reached(g, selves, roots, c)
  {
    var w :| WalkFrom(g, selves, roots, w) && Last(w) == r;
    LinkIsWalk(g, selves, r, c);
    JoinWalks(g, selves, w, [r, c]);
    assert WalkFrom(g, selves, roots, w + [r, c][1..]);
  }

  lemma BelowNext(g: Graph, selves: bool, r: Repo, c: Repo)
    requires Link(g, selves, r, c)
    ensures Below(g, selves, c) <= Below(g, selves, r)
  {
    LinkIsWalk(g, selves, r, c);
    forall x | x in Below(g, selves, c) ensures x in Below(g, selves, r) {
      var w :| Walk(g, selves, w) && |w| >= 2 && w[0] == c && Last(w) == x;
      JoinWalks(g, selves, [r, c], w);
    }
  }

  lemma LoopIsCycle(g: Graph, selves: bool, roots: seq<Repo>, c: Repo)
    requires Reached(g, selves, roots, c) && Linked(g, selves, c, c)
    ensures Cyclic(g, selves, roots)
  {
    var v :| WalkFrom(g, selves, roots, v) && Last(v) == c;
    var w :| Walk(g, selves, w) && |w| >= 2 && w[0] == c && Last(w) == c;
    JoinWalks(g, selves, v, w);
    var j := v + w[1..];
    assert WalkFrom(g, selves, roots, j);
    assert j[|v| - 1] == c && j[|j| - 1] == c && |v| - 1 < |j| - 1;
    assert !Distinct(j);
  }

  /** Without a cycle, local remotes rank lower. */
  lemma LinkLowersRank(g: Graph, selves: bool, roots: seq<Repo>, r: Repo, c: Repo)
    requires !Cyclic(g, selves, roots) && Reached(g, selves, roots, r) && Link(g, selves, r, c)
    ensures Reached(g, selves, roots, c) && Rank(g, selves, c) < Rank(g, selves, r)
  {
    ReachedNext(g, selves, roots, r, c);
    BelowNext(g, selves, r, c);
    if Linked(g, selves, c, c) { LoopIsCycle(g, selves, roots, c); }
    LinkIsWalk(g, selves, r, c);
    var low, high := Below(g, selves, c), Below(g, selves, r);
    assert c in high && low <= high - {c};
    SubsetSize(low, high - {c});
  }

  lemma {:induction false} SubsetSize(a: set<Repo>, b: set<Repo>)
    requires a <= b
    ensures |a| <= |b|
  {
    if a != {} {
      var x :| x in a;
      SubsetSize(a - {x}, b - {x});
    }
  }

  // ----- the order in which mutexes are taken

  /** One more than the highest rank of a mutex that p may still take or holds. */
  ghost function Top(g: Graph, selves: bool, p: Process): nat {
    match p
    case Done => 0
    case Operate(r, _, stack) => if r in stack then 0 else Rank(g, selves, r) + 1
    case Enter(r, _, _) => Rank(g, selves, r)
    case Git(_, _) => 0
    case Wait(r, b) => Max(Rank(g, selves, r) + 1, Top(g, selves, b))
    case Hold(r, b) => Max(Rank(g, selves, r) + 1, Top(g, selves, b))
    case Then(a, b) => Max(Top(g, selves, a), Top(g, selves, b))
    case Both(a, b) => Max(Top(g, selves, a), Top(g, selves, b))
  }

  /** A critical section only takes mutexes ranked below its own; without selves there are no pushes. */
  ghost predicate Ordered(g: Graph, selves: bool, roots: seq<Repo>, p: Process) {
    match p
    case Operate(r, mode, _) => Reached(g, selves, roots, r) && (mode.Push? ==> selves)
    case Enter(r, mode, _) => Reached(g, selves, roots, r) && (mode.Push? ==> selves)
    case Wait(r, b) => Top(g, selves, b) <= Rank(g, selves, r) && Ordered(g, selves, roots, b)
    case Hold(r, b) => Top(g, selves, b) <= Rank(g, selves, r) && Ordered(g, selves, roots, b)
    case Then(a, b) => Ordered(g, selves, roots, a) && Ordered(g, selves, roots, b)
    case Both(a, b) => Ordered(g, selves, roots, a) && Ordered(g, selves, roots, b)
    case _ => true
  }

  /** Code that may run in a critical section of rank bound. */
  ghost predicate Fits(g: Graph, selves: bool, roots: seq<Repo>, p: Process, bound: nat) {
    Ordered(g, selves, roots, p) && Top(g, selves, p) <= bound
  }

  lemma FitsThen(g: Graph, selves: bool, roots: seq<Repo>, a: Process, b: Process, bound: nat)
    requires Fits(g, selves, roots, a, bound) && Fits(g, selves, roots, b, bound)
    ensures Fits(g, selves, roots, Then(a, b), bound) && Fits(g, selves, roots, Both(a, b), bound)
  {
  }

  lemma ChildFits(g: Graph, selves: bool, roots: seq<Repo>, r: Repo, c: Repo, mode: Mode, stack: set<Repo>)
    requires !Cyclic(g, selves, roots) && Reached(g, selves, roots, r) && r in stack && (mode.Push? ==> selves)
    requires Local(c) in RemotesOf(g, r)
    ensures Fits(g, selves, roots, Operate(c, mode, stack), Rank(g, selves, r))
  {
    if c != r { LinkLowersRank(g, selves, roots, r, c); }
  }

  predicate PartOf(remotes: seq<Remote>, all: seq<Remote>) {
    forall i :: 0 <= i < |remotes| ==> remotes[i] in all
  }

  lemma {:induction false} OperateAllFits(g: Graph, selves: bool, roots: seq<Repo>, r: Repo, remotes: seq<Remote>, mode: Mode, stack: set<Repo>)
    requires !Cyclic(g, selves, roots) && Reached(g, selves, roots, r) && r in stack && (mode.Push? ==> selves)
    requires PartOf(remotes, RemotesOf(g, r))
    ensures Fits(g, selves, roots, OperateAll(remotes, mode, stack), Rank(g, selves, r))
  {
    if remotes != [] {
      OperateAllFits(g, selves, roots, r, remotes[1..], mode, stack);
      if remotes[0].Local? {
        ChildFits(g, selves, roots, r, remotes[0].path, mode, stack);
        FitsThen(g, selves, roots, Operate(remotes[0].path, mode, stack), OperateAll(remotes[1..], mode, stack), Rank(g, selves, r));
      }
    }
  }

  lemma {:induction false} PullAllFits(g: Graph, selves: bool, roots: seq<Repo>, r: Repo, remotes: seq<Remote>, bound: nat)
    ensures Fits(g, selves, roots, PullAll(r, remotes), bound)
  {
    if remotes != [] {
      var rest := PullAll(r, remotes[1..]);
      PullAllFits(g, selves, roots, r, remotes[1..], bound);
      FitsThen(g, selves, roots, Git(r, Own), rest, bound);
      if remotes[0].Local? { FitsThen(g, selves, roots, Git(remotes[0].path, Fetch), Then(Git(r, Own), rest), bound); }
    }
  }

  lemma SyncOneFits(g: Graph, roots: seq<Repo>, r: Repo, remote: Remote)
    requires !Cyclic(g, true, roots) && Reached(g, true, roots, r) && remote in RemotesOf(g, r)
    ensures Fits(g, true, roots, SyncOne(r, remote), Rank(g, true, r))
  {
    if remote.Local? {
      var c, bound := remote.path, Rank(g, true, r);
      LinkLowersRank(g, true, roots, r, c);
      FitsThen(g, true, roots, Git(r, Own), Git(c, Sync), 0);
      assert Top(g, true, SyncWith(r, c)) == 0 && Top(g, true, Wait(c, SyncWith(r, c))) <= bound;
      assert Fits(g, true, roots, Wait(c, SyncWith(r, c)), bound);
      FitsThen(g, true, roots, Wait(c, SyncWith(r, c)), Git(c, CheckoutHead), bound);
      FitsThen(g, true, roots, Git(c, EnsurePushable), Then(Wait(c, SyncWith(r, c)), Git(c, CheckoutHead)), bound);
    }
  }

  lemma {:induction false} SyncAllFits(g: Graph, roots: seq<Repo>, r: Repo, remotes: seq<Remote>)
    requires !Cyclic(g, true, roots) && Reached(g, true, roots, r) && PartOf(remotes, RemotesOf(g, r))
    ensures Fits(g, true, roots, SyncAll(r, remotes), Rank(g, true, r))
  {
    if remotes != [] {
      SyncOneFits(g, roots, r, remotes[0]);
      SyncAllFits(g, roots, r, remotes[1..]);
      FitsThen(g, true, roots, SyncOne(r, remotes[0]), SyncAll(r, remotes[1..]), Rank(g, true, r));
    }
  }

  lemma BodyFits(g: Graph, selves: bool, roots: seq<Repo>, r: Repo, mode: Mode, stack: set<Repo>, clean: bool)
    requires !Cyclic(g, selves, roots) && Reached(g, selves, roots, r) && (mode.Push? ==> selves)
    ensures Fits(g, selves, roots, Body(g, r, mode, stack, clean), Rank(g, selves, r))
  {
    var remotes, bound := RemotesOf(g, r), Rank(g, selves, r);
    var pulls := OperateAll(remotes, Pull, stack + {r});
    OperateAllFits(g, selves, roots, r, remotes, Pull, stack + {r});
    match mode
    case Pull =>
      PullAllFits(g, selves, roots, r, remotes, bound);
      FitsThen(g, selves, roots, pulls, if clean then PullAll(r, remotes) else Done, bound);
    case Push(skip) =>
      var sync, pushes := if clean then SyncAll(r, remotes) else Done, OperateAll(remotes, Push(true), stack + {r});
      OperateAllFits(g, selves, roots, r, remotes, Push(true), stack + {r});
      SyncAllFits(g, roots, r, remotes);
      FitsThen(g, selves, roots, sync, pushes, bound);
      FitsThen(g, selves, roots, if skip then Done else pulls, Then(sync, pushes), bound);
  }

  lemma {:induction false} StartOrdered(g: Graph, roots: seq<Repo>, mode: Mode, k: nat)
    requires k <= |roots|
    ensures Ordered(g, mode.Push?, roots, Start(roots[k..], mode))
    decreases |roots| - k
  {
    if k < |roots| {
      StartOrdered(g, roots, mode, k + 1);
      assert roots[k..][1..] == roots[k + 1..];
      var w := [roots[k]];
      assert WalkFrom(g, mode.Push?, roots, w) && Last(w) == roots[k];
    }
  }

  lemma OperateFits(g: Graph, selves: bool, roots: seq<Repo>, r: Repo, mode: Mode, stack: set<Repo>)
    requires Ordered(g, selves, roots, Operate(r, mode, stack))
    ensures Fits(g, selves, roots, Wait(r, Enter(r, mode, stack)), Rank(g, selves, r) + 1)
  {
    var enter := Enter(r, mode, stack);
    assert Top(g, selves, enter) == Rank(g, selves, r) && Ordered(g, selves, roots, enter);
  }

  lemma HoldFits(g: Graph, selves: bool, roots: seq<Repo>, r: Repo, b: Process, b': Process)
    requires Ordered(g, selves, roots, Hold(r, b)) && Fits(g, selves, roots, b', Top(g, selves, b))
    ensures Fits(g, selves, roots, Hold(r, b'), Top(g, selves, Hold(r, b)))
  {
  }

  /** A step keeps the order and announces no mutex ranked above the ones announced before. */
  lemma {:induction false} StepKeepsOrder(g: Graph, selves: bool, roots: seq<Repo>, p: Process, p': Process, held: multiset<Repo>)
    requires !Cyclic(g, selves, roots) && Ordered(g, selves, roots, p) && Step(g, p, p', held)
    ensures Fits(g, selves, roots, p', Top(g, selves, p))
  {
    var bound := Top(g, selves, p);
    match p
    case Operate(r, mode, stack) => OperateFits(g, selves, roots, r, mode, stack);
    case Enter(r, mode, stack) =>
      BodyFits(g, selves, roots, r, mode, stack, true);
      BodyFits(g, selves, roots, r, mode, stack, false);
    case Hold(r, b) =>
      if p' != Done {
        StepKeepsOrder(g, selves, roots, b, p'.body, held);
        HoldFits(g, selves, roots, r, b, p'.body);
      }
    case Then(a, b) =>
      if !(a == Done && p' == b) {
        StepKeepsOrder(g, selves, roots, a, p'.first, held);
        FitsThen(g, selves, roots, p'.first, b, bound);
      }
    case Both(a, b) =>
      if a == Done && b == Done && p' == Done {
      } else if p'.right == b && Step(g, a, p'.left, held) {
        StepKeepsOrder(g, selves, roots, a, p'.left, held);
        FitsThen(g, selves, roots, p'.left, b, bound);
      } else {
        StepKeepsOrder(g, selves, roots, b, p'.right, held);
        FitsThen(g, selves, roots, a, p'.right, bound);
      }
    case _ =>
  }

  lemma {:induction false} RunKeepsOrder(g: Graph, selves: bool, roots: seq<Repo>, run: seq<Process>, k: nat)
    requires !Cyclic(g, selves, roots) && Run(g, run, NONE) && Ordered(g, selves, roots, run[0]) && k < |run|
    ensures Ordered(g, selves, roots, run[k])
  {
    if k > 0 {
      RunKeepsOrder(g, selves, roots, run, k - 1);
      assert Next(g, run[k - 1], run[k - 1 + 1], NONE);
      StepKeepsOrder(g, selves, roots, run[k - 1], run[k], NONE + Locks(run[k - 1]));
    }
  }

  // ----- deadlock freedom

  /** A process whose announced mutexes are all free can move. */
  lemma {:induction false} FreeCanStep(g: Graph, selves: bool, p: Process, held: multiset<Repo>) returns (p': Process)
    requires p != Done && forall r :: r in held ==> Rank(g, selves, r) >= Top(g, selves, p)
    ensures Step(g, p, p', held)
  {
    match p
    case Operate(r, mode, stack) => p' := if r in stack then Done else Wait(r, Enter(r, mode, stack));
    case Enter(_, _, _) => p' := Done;
    case Git(_, _) => p' := Done;
    case Wait(r, b) => p' := Hold(r, b);
    case Hold(r, b) =>
      if b == Done { p' := Done; }
      else { var b' := FreeCanStep(g, selves, b, held); p' := Hold(r, b'); }
    case Then(a, b) =>
      if a == Done { p' := b; }
      else { var a' := FreeCanStep(g, selves, a, held); p' := Then(a', b); }
    case Both(a, b) =>
      if a != Done { var a' := FreeCanStep(g, selves, a, held); p' := Both(a', b); }
      else if b != Done { var b' := FreeCanStep(g, selves, b, held); p' := Both(a, b'); }
      else { p' := Done; }
  }

  /** The critical section of the lowest-ranked held mutex can move: everything it waits for is free. */
  lemma {:induction false} LowestHolderCanStep(g: Graph, selves: bool, roots: seq<Repo>, p: Process, held: multiset<Repo>, mine: set<Repo>, m: Repo) returns (p': Process)
    requires Ordered(g, selves, roots, p) && Shaped(p, mine) && m in Locks(p)
    requires forall r :: r in held ==> Rank(g, selves, m) <= Rank(g, selves, r)
    ensures Step(g, p, p', held)
  {
    match p
    case Hold(r, b) =>
      if m in Locks(b) {
        var b' := LowestHolderCanStep(g, selves, roots, b, held, mine + {r}, m);
        p' := Hold(r, b');
      } else if b == Done {
        p' := Done;
      } else {
        assert m == r;
        var b' := FreeCanStep(g, selves, b, held);
        p' := Hold(r, b');
      }
    case Wait(r, b) =>
    case Then(a, b) =>
      var a' := LowestHolderCanStep(g, selves, roots, a, held, mine, m);
      p' := Then(a', b);
    case Both(a, b) =>
      if m in Locks(a) {
        var a' := LowestHolderCanStep(g, selves, roots, a, held, {}, m);
        p' := Both(a', b);
      } else {
        var b' := LowestHolderCanStep(g, selves, roots, b, held, {}, m);
        p' := Both(a, b');
      }
  }

  lemma {:induction false} Lowest(g: Graph, selves: bool, held: multiset<Repo>) returns (m: Repo)
    requires held != multiset{}
    ensures m in held && forall r :: r in held ==> Rank(g, selves, m) <= Rank(g, selves, r)
    decreases |held|
  {
    m :| m in held;
    var rest := held[m := 0];
    if rest != multiset{} {
      assert rest < held;
      assert |held| == |rest| + held[m] by { assert held == rest + multiset{}[m := held[m]]; }
      var n := Lowest(g, selves, rest);
      forall r | r in held && r != m ensures r in rest { }
      if Rank(g, selves, n) < Rank(g, selves, m) { m := n; }
    } else {
      forall r | r in held ensures r == m { assert r == m || r in rest; }
    }
  }

  // ----- knots

  /** A goroutine of p waits for the mutex of a repository in c. */
  predicate Waits(p: Process, c: set<Repo>) {
    match p
    case Wait(r, _) => r in c
    case Hold(_, b) => Waits(b, c)
    case Then(a, _) => Waits(a, c)
    case Both(a, b) => Waits(a, c) || Waits(b, c)
    case _ => false
  }

  /** The critical section of r cannot end before a mutex of c is free. */
  predicate Holder(p: Process, r: Repo, c: set<Repo>) {
    match p
    case Hold(s, b) => (s == r && Waits(b, c)) || Holder(b, r, c)
    case Then(a, _) => Holder(a, r, c)
    case Both(a, b) => Holder(a, r, c) || Holder(b, r, c)
    case _ => false
  }

  /** The repositories of c wait for each other. */
  predicate Knot(p: Process, c: set<Repo>) {
    c != {} && forall r :: r in c ==> Holder(p, r, c)
  }

  predicate AllHeld(c: set<Repo>, held: multiset<Repo>) {
    forall r :: r in c ==> r in held
  }

  lemma {:induction false} WaitsOn(g: Graph, p: Process, p': Process, c: set<Repo>, held: multiset<Repo>)
    requires Waits(p, c) && Step(g, p, p', held) && AllHeld(c, held)
    ensures Waits(p', c)
  {
    match p
    case Hold(r, b) => WaitsOn(g, b, p'.body, c, held);
    case Then(a, b) => WaitsOn(g, a, p'.first, c, held);
    case Both(a, b) =>
      if p'.right == b && Step(g, a, p'.left, held) {
        if Waits(a, c) { WaitsOn(g, a, p'.left, c, held); }
      } else {
        if Waits(b, c) { WaitsOn(g, b, p'.right, c, held); }
      }
  }

  lemma {:induction false} HoldsOn(g: Graph, p: Process, p': Process, r: Repo, c: set<Repo>, held: multiset<Repo>)
    requires Holder(p, r, c) && Step(g, p, p', held) && AllHeld(c, held)
    ensures Holder(p', r, c)
  {
    match p
    case Hold(s, b) =>
      if s == r && Waits(b, c) { WaitsOn(g, b, p'.body, c, held); } else { HoldsOn(g, b, p'.body, r, c, held); }
    case Then(a, b) => HoldsOn(g, a, p'.first, r, c, held);
    case Both(a, b) =>
      if p'.right == b && Step(g, a, p'.left, held) {
        if Holder(a, r, c) { HoldsOn(g, a, p'.left, r, c, held); }
      } else {
        if Holder(b, r, c) { HoldsOn(g, b, p'.right, r, c, held); }
      }
  }

  lemma {:induction false} HolderHolds(p: Process, r: Repo, c: set<Repo>)
    requires Holder(p, r, c)
    ensures r in Locks(p)
  {
    match p
    case Hold(s, b) => if Holder(b, r, c) { HolderHolds(b, r, c); }
    case Then(a, b) => HolderHolds(a, r, c);
    case Both(a, b) => if Holder(a, r, c) { HolderHolds(a, r, c); } else { HolderHolds(b, r, c); }
  }

  /** A knot stays for ever. */
  lemma KnotStays(g: Graph, p: Process, p': Process, c: set<Repo>)
    requires Knot(p, c) && Next(g, p, p', NONE)
    ensures Knot(p', c)
  {
    var held := NONE + Locks(p);
    forall r | r in c ensures r in held { HolderHolds(p, r, c); }
    forall r | r in c ensures Holder(p', r, c) { HoldsOn(g, p, p', r, c, held); }
  }

  lemma {:induction false} KnotStaysInRun(g: Graph, run: seq<Process>, k: nat, c: set<Repo>)
    requires Run(g, run, NONE) && Knot(run[0], c) && k < |run|
    ensures Knot(run[k], c)
  {
    if k > 0 {
      KnotStaysInRun(g, run, k - 1, c);
      assert Next(g, run[k - 1], run[k - 1 + 1], NONE);
      KnotStays(g, run[k - 1], run[k], c);
    }
  }

  /** A reachable knot is a deadlock. */
  lemma KnotDeadlocks(g: Graph, roots: seq<Repo>, mode: Mode, p: Process, c: set<Repo>)
    requires Reaches(g, Start(roots, mode), p) && Knot(p, c)
    ensures Deadlocks(g, roots, mode)
  {
    var q := RunsEnd(g, p);
    var run :| Run(g, run, NONE) && run[0] == p && run[|run| - 1] == q;
    KnotStaysInRun(g, run, |run| - 1, c);
    var r :| r in c;
    assert Holder(q, r, c);
    LeadsOn(g, Start(roots, mode), p, q, NONE);
  }

  lemma {:induction false} WaitsInside(fs: seq<Frame>, p: Process, c: set<Repo>)
    requires Waits(p, c)
    ensures Waits(PlugAll(fs, p), c)
  {
    if fs != [] { WaitsInside(fs[1..], p, c); }
  }

  lemma {:induction false} HolderInside(fs: seq<Frame>, r: Repo, p: Process, c: set<Repo>)
    requires InHold(r) in fs && Waits(p, c)
    ensures Holder(PlugAll(fs, p), r, c)
  {
    if fs[0] == InHold(r) {
      WaitsInside(fs[1..], p, c);
    } else {
      HolderInside(fs[1..], r, p, c);
    }
  }

  // ----- walks with a repetition

  lemma DistinctSnoc(w: seq<Repo>, r: Repo)
    ensures Distinct(w + [r]) <==> Distinct(w) && r !in w
  {
    var longer := w + [r];
    if Distinct(longer) {
      forall i, j | 0 <= i < j < |w| ensures w[i] != w[j] { assert longer[i] != longer[j]; }
      forall i | 0 <= i < |w| ensures w[i] != r { assert longer[i] != longer[|w|]; }
    }
  }

  /** A walk with a repetition has a part without one that leads back into itself. */
  lemma {:induction false} Lasso(g: Graph, selves: bool, w: seq<Repo>) returns (v: seq<Repo>, k: nat)
    requires Walk(g, selves, w) && !Distinct(w)
    ensures Walk(g, selves, v) && Distinct(v) && v[0] == w[0]
    ensures k < |v| && Link(g, selves, Last(v), v[k])
    decreases |w|
  {
    var init := w[..|w| - 1];
    forall i | 0 <= i < |init| - 1 ensures Link(g, selves, init[i], init[i + 1]) {
      assert Link(g, selves, w[i], w[i + 1]);
    }
    assert w == init + [Last(w)];
    DistinctSnoc(init, Last(w));
    if Distinct(init) {
      assert |init| > 0 && Link(g, selves, w[|w| - 2], w[|w| - 2 + 1]);
      v := init;
      k :| k < |v| && v[k] == Last(w);
    } else {
      v, k := Lasso(g, selves, init);
    }
  }

  lemma {:induction false} StartIsOperateAll(roots: seq<Repo>, mode: Mode)
    ensures Start(roots, mode) == OperateAll(Locals(roots), mode, {})
  {
    if roots != [] {
      StartIsOperateAll(roots[1..], mode);
      assert Locals(roots)[1..] == Locals(roots[1..]);
    }
  }

  function Locals(roots: seq<Repo>): seq<Remote> {
    seq(|roots|, i requires 0 <= i < |roots| => Local(roots[i]))
  }

  /** One of the goroutines of main moves alone. */
  lemma RootMoves(g: Graph, roots: seq<Repo>, r: Repo, mode: Mode, q: Process) returns (fs: seq<Frame>)
    requires r in roots && Leads(g, Operate(r, mode, {}), q, NONE)
    ensures Reaches(g, Start(roots, mode), PlugAll(fs, q)) && AllLocks(fs) == NONE
  {
    StartIsOperateAll(roots, mode);
    var i :| 0 <= i < |roots| && roots[i] == r;
    assert Locals(roots)[i] == Local(r);
    fs := ChildMoves(g, Locals(roots), r, mode, {}, q, NONE);
  }

  // ----- pushes

  lemma FirstOnPath(remotes: seq<Remote>, path: set<Repo>, u: Repo) returns (k: nat)
    requires Local(u) in remotes && u in path
    ensures k < |remotes| && remotes[k].Local? && remotes[k].path in path && OpenUpTo(remotes, k, path)
  {
    var i :| 0 <= i < |remotes| && remotes[i] == Local(u);
    k := 0;
    while !(remotes[k].Local? && remotes[k].path in path)
      invariant k <= i && OpenUpTo(remotes, k, path)
      decreases i - k
    {
      k := k + 1;
    }
  }

  /** The sync phase waits for ever at a remote whose mutex is held above it. */
  lemma SyncAllBlocks(g: Graph, r: Repo, remotes: seq<Remote>, path: set<Repo>, u: Repo, held: multiset<Repo>) returns (q: Process, c: Repo)
    requires Local(u) in remotes && u in path && Within(held, path)
    ensures Leads(g, SyncAll(r, remotes), q, held) && c in path && Waits(q, {c})
  {
    var k := FirstOnPath(remotes, path, u);
    c := remotes[k].path;
    var tail := Then(Wait(c, SyncWith(r, c)), Git(c, CheckoutHead));
    SyncWithUnlocked(r, c);
    GitEnds(g, c, EnsurePushable, held);
    ThenEnds(g, Git(c, EnsurePushable), tail, held);
    SyncAllReaches(g, r, remotes, k, path, tail, held);
    q := Then(tail, SyncAll(r, remotes[k + 1..]));
    assert Waits(tail, {c});
  }

  /** A push runs down a walk that leads back into itself and waits there for one of its own mutexes. */
  lemma PushTiesKnot(g: Graph, v: seq<Repo>, k: nat, skip: bool) returns (fs: seq<Frame>, q: Process, c: Repo)
    requires Walk(g, true, v) && Distinct(v) && k < |v| && Link(g, true, Last(v), v[k])
    ensures Leads(g, Operate(v[0], Push(skip), {}), PlugAll(fs, q), NONE)
    ensures InHold(c) in fs && Waits(q, {c})
  {
    fs := Descend(g, v, skip, {}, NONE);
    q, c := SyncAllBlocks(g, Last(v), RemotesOf(g, Last(v)), Path(v), v[k], NONE + AllLocks(fs));
    PlugAllLeads(g, fs, LastSync(g, v), q, NONE);
    LeadsOn(g, Operate(v[0], Push(skip), {}), PlugAll(fs, LastSync(g, v)), PlugAll(fs, q), NONE);
  }

  lemma PushBlocks(g: Graph, roots: seq<Repo>, skip: bool)
    requires Cyclic(g, true, roots)
    ensures Deadlocks(g, roots, Push(skip))
  {
    var w :| WalkFrom(g, true, roots, w) && !Distinct(w);
    var v, k := Lasso(g, true, w);
    var fs, q, c := PushTiesKnot(g, v, k, skip);
    var out := RootMoves(g, roots, v[0], Push(skip), PlugAll(fs, q));
    PlugAllAppend(out, fs, q);
    HolderInside(out + fs, c, q, {c});
    KnotDeadlocks(g, roots, Push(skip), PlugAll(out + fs, q), {c});
  }

  // ----- pulls

  /** All local remotes of the roots are roots. */
  ghost predicate Closed(g: Graph, roots: seq<Repo>) {
    forall r, c :: r in roots && Local(c) in RemotesOf(g, r) ==> c in roots
  }

  /** Another repository of c is a local remote of r. */
  ghost predicate AsksIn(g: Graph, r: Repo, c: set<Repo>) {
    exists s :: s in c && Link(g, false, r, s)
  }

  ghost predicate Ring(g: Graph, c: set<Repo>) {
    forall r :: r in c ==> AsksIn(g, r, c)
  }

  lemma {:induction false} WalkStaysInRoots(g: Graph, roots: seq<Repo>, w: seq<Repo>, k: nat)
    requires Closed(g, roots) && WalkFrom(g, false, roots, w) && k < |w|
    ensures w[k] in roots
  {
    if k > 0 {
      WalkStaysInRoots(g, roots, w, k - 1);
      assert Link(g, false, w[k - 1], w[k - 1 + 1]);
    }
  }

  lemma RingOfRoots(g: Graph, roots: seq<Repo>) returns (c: set<Repo>)
    requires Closed(g, roots) && Cyclic(g, false, roots)
    ensures c != {} && Ring(g, c) && forall r :: r in c ==> r in roots
  {
    var w :| WalkFrom(g, false, roots, w) && !Distinct(w);
    var v, k := Lasso(g, false, w);
    c := set i | k <= i < |v| :: v[i];
    assert v[k] in c;
    forall r | r in c ensures r in roots && AsksIn(g, r, c) {
      var i :| k <= i < |v| && v[i] == r;
      WalkStaysInRoots(g, roots, v, i);
      var s := if i < |v| - 1 then v[i + 1] else v[k];
      assert s in c && Link(g, false, r, s);
    }
  }

  lemma AsksFor(g: Graph, s: Repo, stack: set<Repo>, held: multiset<Repo>)
    requires s !in stack
    ensures Leads(g, Operate(s, Pull, stack), Wait(s, Enter(s, Pull, stack)), held)
  {
    assert Step(g, Operate(s, Pull, stack), Wait(s, Enter(s, Pull, stack)), held + Locks(Operate(s, Pull, stack)));
    LeadsNext(g, Operate(s, Pull, stack), Wait(s, Enter(s, Pull, stack)), held);
  }

  /** A goroutine of main takes its own mutex and asks for that of a local remote. */
  lemma PullAsks(g: Graph, r: Repo, s: Repo, c: set<Repo>, held: multiset<Repo>) returns (q: Process)
    requires Link(g, false, r, s) && s in c && r !in held
    ensures Leads(g, Operate(r, Pull, {}), q, held)
    ensures Locks(q) == multiset{r} && Holder(q, r, c)
  {
    var remotes, stack, inner := RemotesOf(g, r), {} + {r}, held + multiset{r};
    var pulls, own := OperateAll(remotes, Pull, stack), PullAll(r, remotes);
    var asks := Wait(s, Enter(s, Pull, stack));
    OperateStarts(g, r, Pull, {}, true, held);
    AsksFor(g, s, stack, inner);
    var fs := ChildMoves(g, remotes, s, Pull, stack, asks, inner);
    PullAllFresh(r, remotes, {r});
    assert inner + FrameLocks(InFirst(own)) == inner;
    PlugLeads(g, InFirst(own), pulls, PlugAll(fs, asks), inner);
    PlugLeads(g, InHold(r), Then(pulls, own), Then(PlugAll(fs, asks), own), held);
    q := Hold(r, Then(PlugAll(fs, asks), own));
    LeadsOn(g, Operate(r, Pull, {}), Hold(r, Then(pulls, own)), q, held);
    AllLocksOf(fs, asks);
    WaitsInside(fs, asks, c);
  }

  lemma {:induction false} AllLocksOf(fs: seq<Frame>, p: Process)
    ensures Locks(PlugAll(fs, p)) == AllLocks(fs) + Locks(p)
  {
    if fs != [] {
      AllLocksOf(fs[1..], p);
      PlugLocks(fs[0], PlugAll(fs[1..], p));
    }
  }

  lemma FirstRootMoves(g: Graph, roots: seq<Repo>, q: Process, held: multiset<Repo>)
    requires roots != [] && Leads(g, Operate(roots[0], Pull, {}), q, held)
    ensures Leads(g, Start(roots, Pull), Both(q, Start(roots[1..], Pull)), held)
  {
    var rest := Start(roots[1..], Pull);
    StartFresh(roots[1..], Pull);
    assert held + FrameLocks(InLeft(rest)) == held;
    PlugLeads(g, InLeft(rest), Operate(roots[0], Pull, {}), q, held);
  }

  /** The first goroutine of main asks, if it has to. */
  lemma FirstRootAsks(g: Graph, roots: seq<Repo>, todo: set<Repo>, c: set<Repo>, held: multiset<Repo>) returns (q: Process)
    requires roots != [] && todo <= c && Ring(g, c) && Avoided(todo, held)
    ensures Leads(g, Start(roots, Pull), Both(q, Start(roots[1..], Pull)), held)
    ensures Locks(q) == if roots[0] in todo then multiset{roots[0]} else NONE
    ensures roots[0] in todo ==> Holder(q, roots[0], c)
  {
    var r := roots[0];
    if r in todo {
      assert AsksIn(g, r, c);
      var s :| s in c && Link(g, false, r, s);
      q := PullAsks(g, r, s, c, held);
    } else {
      q := Operate(r, Pull, {});
      LeadsItself(g, q, held);
    }
    FirstRootMoves(g, roots, q, held);
  }

  predicate Avoided(todo: set<Repo>, held: multiset<Repo>) {
    forall r :: r in todo ==> r !in held
  }

  predicate Holders(p: Process, roots: seq<Repo>, todo: set<Repo>, c: set<Repo>) {
    forall r :: r in todo && r in roots ==> Holder(p, r, c)
  }

  lemma BothHold(roots: seq<Repo>, todo: set<Repo>, c: set<Repo>, first: Process, others: Process)
    requires roots != [] && (roots[0] in todo ==> Holder(first, roots[0], c))
    requires Holders(others, roots[1..], todo - {roots[0]}, c)
    ensures Holders(Both(first, others), roots, todo, c)
  {
    HeadAndTail(roots);
  }

  /** Each root in todo takes its own mutex and asks for one in c. */
  lemma {:induction false} RootsAsk(g: Graph, roots: seq<Repo>, todo: set<Repo>, c: set<Repo>, held: multiset<Repo>) returns (q: Process)
    requires todo <= c && Ring(g, c) && Avoided(todo, held)
    ensures Leads(g, Start(roots, Pull), q, held)
    ensures Holders(q, roots, todo, c)
    decreases |roots|
  {
    if roots == [] {
      LeadsItself(g, Done, held);
      q := Done;
    } else {
      var rest := Start(roots[1..], Pull);
      var first := FirstRootAsks(g, roots, todo, c, held);
      var others := RootsAsk(g, roots[1..], todo - {roots[0]}, c, held + Locks(first));
      q := Both(first, others);
      PlugLeads(g, InRight(first), rest, others, held);
      LeadsOn(g, Start(roots, Pull), Both(first, rest), q, held);
      BothHold(roots, todo, c, first, others);
    }
  }

  lemma PullBlocks(g: Graph, roots: seq<Repo>)
    requires Closed(g, roots) && Cyclic(g, false, roots)
    ensures Deadlocks(g, roots, Pull)
  {
    var c := RingOfRoots(g, roots);
    var q := RootsAsk(g, roots, c, c, NONE);
    assert Knot(q, c);
    KnotDeadlocks(g, roots, Pull, q, c);
  }
}
