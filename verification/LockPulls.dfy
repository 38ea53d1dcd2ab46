/**
 When pulling with gitall/main.go can deadlock, for any roots.

 A goroutine that pulls holds the mutexes of a walk from a root. In a deadlock these
 walks form a gridlock: they do not meet, and each that goes no further asks for a
 mutex that another one holds. Conversely the goroutines can be driven, one after
 the other, along the walks of any gridlock, each up to the mutexes it asks for;
 none is in another's way before that, because the walks do not meet.
 */
module LockPulls {
  import opened LockProtocol
  import opened LockDescent
  import opened LockDeadlock

  /** No walk of the set goes on from w. */
  ghost predicate Leaf(walks: set<seq<Repo>>, w: seq<Repo>) {
    forall x: Repo :: w + [x] !in walks
  }

  /** What w goes on from is in the set as well. */
  predicate HasPrefix(walks: set<seq<Repo>>, w: seq<Repo>) {
    |w| > 1 ==> w[..|w| - 1] in walks
  }

  function Ends(walks: set<seq<Repo>>): set<Repo> {
    set w | w in walks && w != [] :: w[|w| - 1]
  }

  /** The last repository of w has a local remote that is not on w but at the end of another walk. */
  ghost predicate AsksHeld(g: Graph, walks: set<seq<Repo>>, w: seq<Repo>)
    requires w != []
  {
    exists s :: s in Ends(walks) && Link(g, false, Last(w), s) && s !in w
  }

  /**
   Walks from roots without repetition, closed under prefixes, no two of which end
   in the same repository, such that each one that goes no further asks for a
   repository where another one ends.
   */
  ghost predicate Gridlock(g: Graph, roots: seq<Repo>, walks: set<seq<Repo>>) {
    && walks != {}
    && (forall w :: w in walks ==> WalkFrom(g, true, roots, w) && Distinct(w))
    && (forall w {:trigger HasPrefix(walks, w)} :: w in walks ==> HasPrefix(walks, w))
    && (forall v, w :: v in walks && w in walks && Last(v) == Last(w) ==> v == w)
    && (forall w {:trigger Leaf(walks, w)} :: w in walks && Leaf(walks, w) ==> AsksHeld(g, walks, w))
  }

  // ----- the walks of a deadlock

  /** A goroutine for r is started by the code that holds the mutexes of v. */
  predicate Child(g: Graph, roots: seq<Repo>, v: seq<Repo>, r: Repo) {
    if v == [] then r in roots else Link(g, true, Last(v), r)
  }

  /** p is code of a pull that runs under the mutexes of v. */
  predicate Pulling(g: Graph, roots: seq<Repo>, p: Process, v: seq<Repo>) {
    match p
    case Operate(r, mode, stack) => mode == Pull && stack == Path(v) && Child(g, roots, v, r)
    case Enter(r, mode, stack) => mode == Pull && v != [] && Last(v) == r && stack + {r} == Path(v)
    case Wait(r, b) => r !in v && Child(g, roots, v, r) && Pulling(g, roots, b, v + [r])
    case Hold(r, b) => r !in v && Child(g, roots, v, r) && Pulling(g, roots, b, v + [r])
    case Then(a, b) => Pulling(g, roots, a, v) && Pulling(g, roots, b, v)
    case Both(a, b) => Pulling(g, roots, a, v) && Pulling(g, roots, b, v)
    case _ => true
  }

  lemma PathSnoc(v: seq<Repo>, r: Repo)
    ensures Path(v + [r]) == Path(v) + {r} && Last(v + [r]) == r
  {
  }

  lemma {:induction false} OperateAllPulls(g: Graph, roots: seq<Repo>, remotes: seq<Remote>, v: seq<Repo>)
    requires forall i :: 0 <= i < |remotes| && remotes[i].Local? ==> Child(g, roots, v, remotes[i].path)
    ensures Pulling(g, roots, OperateAll(remotes, Pull, Path(v)), v)
  {
    if remotes != [] { OperateAllPulls(g, roots, remotes[1..], v); }
  }

  lemma {:induction false} PullAllPulls(g: Graph, roots: seq<Repo>, r: Repo, remotes: seq<Remote>, v: seq<Repo>)
    ensures Pulling(g, roots, PullAll(r, remotes), v)
  {
    if remotes != [] {
      PullAllPulls(g, roots, r, remotes[1..], v);
      assert Pulling(g, roots, Then(Git(r, Own), PullAll(r, remotes[1..])), v);
    }
  }

  lemma BodyPulls(g: Graph, roots: seq<Repo>, r: Repo, stack: set<Repo>, clean: bool, v: seq<Repo>)
    requires v != [] && Last(v) == r && stack + {r} == Path(v)
    ensures Pulling(g, roots, Body(g, r, Pull, stack, clean), v)
  {
    OperateAllPulls(g, roots, RemotesOf(g, r), v);
    PullAllPulls(g, roots, r, RemotesOf(g, r), v);
  }

  lemma {:induction false} StepPulls(g: Graph, roots: seq<Repo>, p: Process, p': Process, v: seq<Repo>, held: multiset<Repo>)
    requires Pulling(g, roots, p, v) && Step(g, p, p', held)
    ensures Pulling(g, roots, p', v)
  {
    match p
    case Operate(r, mode, stack) =>
      PathSnoc(v, r);
      assert Pulling(g, roots, Enter(r, mode, stack), v + [r]);
    case Enter(r, mode, stack) =>
      BodyPulls(g, roots, r, stack, true, v);
      BodyPulls(g, roots, r, stack, false, v);
    case Hold(r, b) =>
      if p' != Done { StepPulls(g, roots, b, p'.body, v + [r], held); }
    case Then(a, b) =>
      if !(a == Done && p' == b) { StepPulls(g, roots, a, p'.first, v, held); }
    case Both(a, b) =>
      if a == Done && b == Done && p' == Done {
      } else if p'.right == b && Step(g, a, p'.left, held) {
        StepPulls(g, roots, a, p'.left, v, held);
      } else {
        StepPulls(g, roots, b, p'.right, v, held);
      }
    case _ =>
  }

  lemma {:induction false} RunPulls(g: Graph, roots: seq<Repo>, run: seq<Process>, k: nat)
    requires Run(g, run, NONE) && Pulling(g, roots, run[0], []) && k < |run|
    ensures Pulling(g, roots, run[k], [])
  {
    if k > 0 {
      RunPulls(g, roots, run, k - 1);
      assert Next(g, run[k - 1], run[k - 1 + 1], NONE);
      StepPulls(g, roots, run[k - 1], run[k], [], NONE + Locks(run[k - 1]));
    }
  }

  lemma StartPulls(g: Graph, roots: seq<Repo>)
    ensures Pulling(g, roots, Start(roots, Pull), [])
  {
    StartIsOperateAll(roots, Pull);
    assert Path([]) == {};
    OperateAllPulls(g, roots, Locals(roots), []);
  }

  /** The walks whose mutexes are held in p, below v. */
  function HeldWalks(p: Process, v: seq<Repo>): set<seq<Repo>> {
    match p
    case Hold(r, b) => {v + [r]} + HeldWalks(b, v + [r])
    case Then(a, _) => HeldWalks(a, v)
    case Both(a, b) => HeldWalks(a, v) + HeldWalks(b, v)
    case _ => {}
  }

  /** v is empty or a walk from a root without a repetition. */
  predicate Trail(g: Graph, roots: seq<Repo>, v: seq<Repo>) {
    v == [] || (WalkFrom(g, true, roots, v) && Distinct(v))
  }

  lemma TrailSnoc(g: Graph, roots: seq<Repo>, v: seq<Repo>, r: Repo)
    requires Trail(g, roots, v) && Child(g, roots, v, r) && r !in v
    ensures Trail(g, roots, v + [r])
  {
    var w := v + [r];
    forall i | 0 <= i < |w| - 1 ensures Link(g, true, w[i], w[i + 1]) {
      if i < |v| - 1 { assert Link(g, true, v[i], v[i + 1]); }
    }
    DistinctSnoc(v, r);
  }

  /** What every held walk satisfies. */
  lemma {:induction false} HeldAreTrails(g: Graph, roots: seq<Repo>, p: Process, v: seq<Repo>, w: seq<Repo>)
    requires Pulling(g, roots, p, v) && Trail(g, roots, v) && w in HeldWalks(p, v)
    ensures |w| > |v| && v <= w && WalkFrom(g, true, roots, w) && Distinct(w)
    ensures w[..|w| - 1] == v || w[..|w| - 1] in HeldWalks(p, v)
    ensures Last(w) in Locks(p)
  {
    match p
    case Hold(r, b) =>
      TrailSnoc(g, roots, v, r);
      if w != v + [r] { HeldAreTrails(g, roots, b, v + [r], w); }
    case Then(a, b) => HeldAreTrails(g, roots, a, v, w);
    case Both(a, b) =>
      if w in HeldWalks(a, v) { HeldAreTrails(g, roots, a, v, w); } else { HeldAreTrails(g, roots, b, v, w); }
  }

  lemma {:induction false} LocksHaveWalks(p: Process, v: seq<Repo>, mine: set<Repo>, x: Repo) returns (w: seq<Repo>)
    requires Shaped(p, mine) && x in Locks(p)
    ensures w in HeldWalks(p, v) && w != [] && Last(w) == x
  {
    match p
    case Hold(r, b) =>
      if x in Locks(b) { w := LocksHaveWalks(b, v + [r], mine + {r}, x); } else { w := v + [r]; }
    case Wait(r, b) =>
    case Then(a, b) => w := LocksHaveWalks(a, v, mine, x);
    case Both(a, b) =>
      if x in Locks(a) { w := LocksHaveWalks(a, v, {}, x); } else { w := LocksHaveWalks(b, v, {}, x); }
  }

  /** Held walks that end alike are the same, since a mutex is held once. */
  lemma {:induction false} HeldEndsDiffer(g: Graph, roots: seq<Repo>, p: Process, v: seq<Repo>, w: seq<Repo>, u: seq<Repo>)
    requires Pulling(g, roots, p, v) && Trail(g, roots, v)
    requires w in HeldWalks(p, v) && u in HeldWalks(p, v) && w != [] && u != [] && Last(w) == Last(u)
    requires Locks(p)[Last(w)] <= 1
    ensures w == u
  {
    match p
    case Hold(r, b) =>
      TrailSnoc(g, roots, v, r);
      if w in HeldWalks(b, v + [r]) { HeldAreTrails(g, roots, b, v + [r], w); }
      if u in HeldWalks(b, v + [r]) { HeldAreTrails(g, roots, b, v + [r], u); }
      if w in HeldWalks(b, v + [r]) && u in HeldWalks(b, v + [r]) { HeldEndsDiffer(g, roots, b, v + [r], w, u); }
    case Then(a, b) => HeldEndsDiffer(g, roots, a, v, w, u);
    case Both(a, b) =>
      if w in HeldWalks(a, v) { HeldAreTrails(g, roots, a, v, w); } else { HeldAreTrails(g, roots, b, v, w); }
      if u in HeldWalks(a, v) { HeldAreTrails(g, roots, a, v, u); } else { HeldAreTrails(g, roots, b, v, u); }
      if w in HeldWalks(a, v) && u in HeldWalks(a, v) { HeldEndsDiffer(g, roots, a, v, w, u); }
      if w in HeldWalks(b, v) && u in HeldWalks(b, v) { HeldEndsDiffer(g, roots, b, v, w, u); }
  }

  ghost predicate NoStep(g: Graph, p: Process, held: multiset<Repo>) {
    forall q :: !Step(g, p, q, held)
  }

  /** The outermost action of p is possible. */
  predicate Ready(p: Process, held: multiset<Repo>) {
    match p
    case Done => false
    case Wait(r, _) => r !in held
    case Hold(_, b) => b == Done
    case Then(a, _) => a == Done
    case Both(a, b) => a == Done && b == Done
    case _ => true
  }

  lemma ReadySteps(g: Graph, p: Process, held: multiset<Repo>)
    requires Ready(p, held)
    ensures !NoStep(g, p, held)
  {
    var q := match p
             case Operate(r, mode, stack) => if r in stack then Done else Wait(r, Enter(r, mode, stack))
             case Wait(r, b) => Hold(r, b)
             case Then(_, b) => b
             case _ => Done;
    assert Step(g, p, q, held);
  }

  /** Unfinished code that holds nothing and cannot move waits for a held mutex. */
  lemma {:induction false} StuckAsks(g: Graph, roots: seq<Repo>, p: Process, v: seq<Repo>, held: multiset<Repo>) returns (s: Repo)
    requires Pulling(g, roots, p, v) && p != Done && NoStep(g, p, held) && HeldWalks(p, v) == {}
    ensures s in held && s !in v && Child(g, roots, v, s)
  {
    if Ready(p, held) {
      ReadySteps(g, p, held);
      assert false;
    }
    match p
    case Wait(r, b) => s := r;
    case Then(a, b) =>
      ThenNoStep(g, a, b, held);
      s := StuckAsks(g, roots, a, v, held);
    case Both(a, b) =>
      BothNoStep(g, a, b, held);
      if a != Done { s := StuckAsks(g, roots, a, v, held); } else { s := StuckAsks(g, roots, b, v, held); }
    case Hold(_, _) => assert false;
  }

  lemma HoldNoStep(g: Graph, r: Repo, b: Process, held: multiset<Repo>)
    requires NoStep(g, Hold(r, b), held)
    ensures b != Done && NoStep(g, b, held)
  {
    if b == Done {
      ReadySteps(g, Hold(r, b), held);
      assert false;
    }
    forall q ensures !Step(g, b, q, held) { assert !Step(g, Hold(r, b), Hold(r, q), held); }
  }

  lemma ThenNoStep(g: Graph, a: Process, b: Process, held: multiset<Repo>)
    requires NoStep(g, Then(a, b), held)
    ensures NoStep(g, a, held)
  {
    forall q ensures !Step(g, a, q, held) { assert !Step(g, Then(a, b), Then(q, b), held); }
  }

  lemma BothNoStep(g: Graph, a: Process, b: Process, held: multiset<Repo>)
    requires NoStep(g, Both(a, b), held)
    ensures NoStep(g, a, held) && NoStep(g, b, held)
  {
    forall q ensures !Step(g, a, q, held) { assert !Step(g, Both(a, b), Both(q, b), held); }
    forall q ensures !Step(g, b, q, held) { assert !Step(g, Both(a, b), Both(a, q), held); }
  }

  /** Below a walk that goes no further nothing is held. */
  lemma LeafHoldsNothing(g: Graph, roots: seq<Repo>, b: Process, w: seq<Repo>)
    requires Pulling(g, roots, b, w) && Trail(g, roots, w) && Leaf(HeldWalks(b, w), w)
    ensures HeldWalks(b, w) == {}
  {
    if u :| u in HeldWalks(b, w) { ShortestBelow(g, roots, b, w, u); }
  }

  lemma {:induction false} ShortestBelow(g: Graph, roots: seq<Repo>, b: Process, w: seq<Repo>, u: seq<Repo>)
    requires Pulling(g, roots, b, w) && Trail(g, roots, w) && u in HeldWalks(b, w)
    ensures exists x: Repo :: w + [x] in HeldWalks(b, w)
    decreases |u|
  {
    HeldAreTrails(g, roots, b, w, u);
    if |u| == |w| + 1 {
      assert u == w + [u[|w|]];
    } else {
      ShortestBelow(g, roots, b, w, u[..|u| - 1]);
    }
  }

  /** In a stuck state a walk that goes no further asks for a held repository. */
  lemma {:induction false} LeafAsks(g: Graph, roots: seq<Repo>, p: Process, v: seq<Repo>, w: seq<Repo>, held: multiset<Repo>) returns (s: Repo)
    requires Pulling(g, roots, p, v) && Trail(g, roots, v) && NoStep(g, p, held)
    requires w in HeldWalks(p, v) && Leaf(HeldWalks(p, v), w)
    ensures w != [] && s in held && s !in w && Link(g, true, Last(w), s)
  {
    match p
    case Hold(r, b) =>
      HoldNoStep(g, r, b, held);
      TrailSnoc(g, roots, v, r);
      if w in HeldWalks(b, v + [r]) {
        s := LeafAsks(g, roots, b, v + [r], w, held);
      } else {
        LeafHoldsNothing(g, roots, b, w);
        s := StuckAsks(g, roots, b, w, held);
      }
    case Then(a, b) =>
      ThenNoStep(g, a, b, held);
      s := LeafAsks(g, roots, a, v, w, held);
    case Both(a, b) =>
      BothNoStep(g, a, b, held);
      if w in HeldWalks(a, v) {
        s := LeafAsks(g, roots, a, v, w, held);
      } else {
        s := LeafAsks(g, roots, b, v, w, held);
      }
  }

  /** The walks held in a deadlock. */
  lemma DeadlockIsGridlock(g: Graph, roots: seq<Repo>, p: Process)
    requires Reaches(g, Start(roots, Pull), p) && p != Done && Stuck(g, p)
    ensures Gridlock(g, roots, HeldWalks(p, []))
  {
    var walks, held := HeldWalks(p, []), NONE + Locks(p);
    ReachableIsGood(g, roots, Pull, p);
    ReachablePulls(g, roots, p);
    assert NoStep(g, p, held) by { forall q ensures !Step(g, p, q, held) { assert !Next(g, p, q, NONE); } }
    if walks == {} {
      var s := StuckAsks(g, roots, p, [], held);
      var w := LocksHaveWalks(p, [], {}, s);
    }
    forall w | w in walks ensures WalkFrom(g, true, roots, w) && Distinct(w) && HasPrefix(walks, w) {
      HeldAreTrails(g, roots, p, [], w);
    }
    forall u, w | u in walks && w in walks && Last(u) == Last(w) ensures u == w {
      HeldAreTrails(g, roots, p, [], w);
      HeldEndsDiffer(g, roots, p, [], w, u);
    }
    forall w | w in walks && Leaf(walks, w) ensures AsksHeld(g, walks, w) {
      var s := LeafAsks(g, roots, p, [], w, held);
      var u := LocksHaveWalks(p, [], {}, s);
      assert s in Ends(walks);
    }
  }

  lemma ReachablePulls(g: Graph, roots: seq<Repo>, p: Process)
    requires Reaches(g, Start(roots, Pull), p)
    ensures Pulling(g, roots, p, [])
  {
    var run :| Run(g, run, NONE) && run[0] == Start(roots, Pull) && run[|run| - 1] == p;
    StartPulls(g, roots);
    RunPulls(g, roots, run, |run| - 1);
  }

  // ----- every gridlock can be reached

  /** The critical section of every walk of the set that goes on from w waits for one of the repositories where the walks end. */
  ghost predicate AllHold(p: Process, walks: set<seq<Repo>>, w: seq<Repo>) {
    forall u :: u in walks && w <= u && u != [] ==> Holder(p, Last(u), Ends(walks))
  }

  /** All these mutexes belong to walks of the set that go on from w. */
  ghost predicate LocksBelow(locks: multiset<Repo>, walks: set<seq<Repo>>, w: seq<Repo>) {
    forall x :: x in locks ==> exists u :: u in walks && w <= u && u != [] && Last(u) == x
  }

  /** No mutex of a walk of the set that goes on from w is held. */
  ghost predicate FreeBelow(held: multiset<Repo>, walks: set<seq<Repo>>, w: seq<Repo>) {
    forall u :: u in walks && w <= u && u != [] ==> Last(u) !in held
  }

  lemma {:induction false} HolderWaits(p: Process, r: Repo, c: set<Repo>)
    requires Holder(p, r, c)
    ensures Waits(p, c)
  {
    match p
    case Hold(s, b) => if Holder(b, r, c) { HolderWaits(b, r, c); }
    case Then(a, b) => HolderWaits(a, r, c);
    case Both(a, b) => if Holder(a, r, c) { HolderWaits(a, r, c); } else { HolderWaits(b, r, c); }
  }

  /** The mutex belongs to a walk of the set that goes on from w through todo. */
  ghost predicate OfKid(x: Repo, walks: set<seq<Repo>>, w: seq<Repo>, todo: set<Repo>) {
    exists c :: c in todo && LocksBelow(multiset{x}, walks, w + [c])
  }

  /** The goroutines for these remotes have gone on: those in todo along their walks, the others as far as asking. */
  ghost predicate Driven(q: Process, walks: set<seq<Repo>>, w: seq<Repo>, remotes: seq<Remote>, todo: set<Repo>) {
    && (forall x :: x in Locks(q) ==> OfKid(x, walks, w, todo))
    && (forall c :: c in todo && Local(c) in remotes ==> AllHold(q, walks, w + [c]))
    && (forall c :: Local(c) in remotes && c !in w && c in Ends(walks) && w + [c] !in walks ==> Waits(q, Ends(walks)))
  }

  /** Where one goroutine has got to. */
  ghost predicate DrivenOne(q: Process, walks: set<seq<Repo>>, w: seq<Repo>, c: Repo, todo: set<Repo>) {
    if c in todo then LocksBelow(Locks(q), walks, w + [c]) && AllHold(q, walks, w + [c])
    else Locks(q) == NONE && (c !in w && c in Ends(walks) ==> Waits(q, Ends(walks)))
  }

  /** The walks that start the goroutines in todo are in the set, and their mutexes are free. */
  ghost predicate Todo(walks: set<seq<Repo>>, w: seq<Repo>, todo: set<Repo>, held: multiset<Repo>) {
    forall c :: c in todo ==> w + [c] in walks && FreeBelow(held, walks, w + [c])
  }

  lemma EndsDiffer(g: Graph, roots: seq<Repo>, walks: set<seq<Repo>>, w: seq<Repo>, c: Repo, d: Repo, x: seq<Repo>, u: seq<Repo>)
    requires Gridlock(g, roots, walks) && x in walks && u in walks && w + [c] <= x && w + [d] <= u && c != d
    ensures Last(x) != Last(u)
  {
    assert x[|w|] == c && u[|w|] == d;
  }

  lemma TodoNext(g: Graph, roots: seq<Repo>, walks: set<seq<Repo>>, w: seq<Repo>, c: Repo, todo: set<Repo>, held: multiset<Repo>, first: Process)
    requires Gridlock(g, roots, walks) && Todo(walks, w, todo, held) && DrivenOne(first, walks, w, c, todo)
    ensures Todo(walks, w, todo - {c}, held + Locks(first))
  {
    forall d, u | d in todo && d != c && u in walks && w + [d] <= u && u != [] ensures Last(u) !in held + Locks(first) {
      assert FreeBelow(held, walks, w + [d]);
      if Last(u) in Locks(first) {
        var x :| x in walks && w + [c] <= x && x != [] && Last(x) == Last(u);
        EndsDiffer(g, roots, walks, w, c, d, x, u);
        assert false;
      }
    }
  }

  lemma DrivenBoth(walks: set<seq<Repo>>, w: seq<Repo>, remotes: seq<Remote>, c: Repo, todo: set<Repo>, first: Process, others: Process)
    requires remotes != [] && remotes[0] == Local(c) && (c in todo ==> w + [c] in walks)
    requires DrivenOne(first, walks, w, c, todo) && Driven(others, walks, w, remotes[1..], todo - {c})
    ensures Driven(Both(first, others), walks, w, remotes, todo)
  {
    var q := Both(first, others);
    forall x | x in Locks(q) ensures OfKid(x, walks, w, todo) {
      if x in Locks(first) {
        assert c in todo && LocksBelow(multiset{x}, walks, w + [c]);
      } else {
        assert OfKid(x, walks, w, todo - {c});
      }
    }
    forall d, u | d in todo && Local(d) in remotes && u in walks && w + [d] <= u && u != []
      ensures Holder(q, Last(u), Ends(walks))
    {
      if d == c {
        assert AllHold(first, walks, w + [c]);
      } else {
        assert Local(d) in remotes[1..] && AllHold(others, walks, w + [d]);
      }
    }
    forall d | Local(d) in remotes && d !in w && d in Ends(walks) && w + [d] !in walks ensures Waits(q, Ends(walks)) {
      if d != c { assert Local(d) in remotes[1..]; }
    }
  }

  lemma BothLead(g: Graph, a: Process, b: Process, a': Process, b': Process, held: multiset<Repo>)
    requires Leads(g, a, a', held) && Leads(g, b, b', held + Locks(a')) && Locks(b) == NONE
    ensures Leads(g, Both(a, b), Both(a', b'), held)
  {
    assert held + FrameLocks(InLeft(b)) == held;
    PlugLeads(g, InLeft(b), a, a', held);
    PlugLeads(g, InRight(a'), b, b', held);
    LeadsOn(g, Both(a, b), Both(a', b), Both(a', b'), held);
  }

  /** The goroutines for the remotes of the last repository of w go on. */
  lemma {:induction false} DriveAll(g: Graph, roots: seq<Repo>, walks: set<seq<Repo>>, w: seq<Repo>, remotes: seq<Remote>,
                                    todo: set<Repo>, bound: nat, held: multiset<Repo>) returns (q: Process)
    requires Gridlock(g, roots, walks) && |w| <= bound && (forall u :: u in walks ==> |u| <= bound)
    requires Todo(walks, w, todo, held)
    ensures Leads(g, OperateAll(remotes, Pull, Path(w)), q, held)
    ensures Driven(q, walks, w, remotes, todo)
    decreases bound - |w|, 0, |remotes|
  {
    if remotes == [] {
      LeadsItself(g, Done, held);
      q := Done;
    } else if remotes[0].Network? {
      q := DriveAll(g, roots, walks, w, remotes[1..], todo, bound, held);
      NetworkSkipped(walks, w, remotes, todo, q);
    } else {
      var c, rest := remotes[0].path, OperateAll(remotes[1..], Pull, Path(w));
      var first := Operate(c, Pull, Path(w));
      if c in todo {
        assert (w + [c])[..|w|] == w;
        first := Drive(g, roots, walks, w + [c], bound, held);
      } else if c !in w {
        AsksFor(g, c, Path(w), held);
        first := Wait(c, Enter(c, Pull, Path(w)));
      } else {
        LeadsItself(g, first, held);
      }
      TodoNext(g, roots, walks, w, c, todo, held, first);
      var others := DriveAll(g, roots, walks, w, remotes[1..], todo - {c}, bound, held + Locks(first));
      OperateAllFresh(remotes[1..], Pull, Path(w), {});
      BothLead(g, Operate(c, Pull, Path(w)), rest, first, others, held);
      DrivenBoth(walks, w, remotes, c, todo, first, others);
      q := Both(first, others);
    }
  }

  lemma NetworkSkipped(walks: set<seq<Repo>>, w: seq<Repo>, remotes: seq<Remote>, todo: set<Repo>, q: Process)
    requires remotes != [] && remotes[0].Network? && Driven(q, walks, w, remotes[1..], todo)
    ensures Driven(q, walks, w, remotes, todo)
  {
    forall c | Local(c) in remotes ensures Local(c) in remotes[1..] { }
  }

  /** The children of w whose goroutines hold mutexes. */
  function Kids(walks: set<seq<Repo>>, w: seq<Repo>): set<Repo> {
    set u | u in walks && |u| == |w| + 1 && w <= u :: u[|w|]
  }

  lemma KidsOf(walks: set<seq<Repo>>, w: seq<Repo>, c: Repo)
    ensures c in Kids(walks, w) <==> w + [c] in walks
  {
    if c in Kids(walks, w) {
      var u :| u in walks && |u| == |w| + 1 && w <= u && u[|w|] == c;
      assert u == w + [c];
    }
    if w + [c] in walks { assert (w + [c])[|w|] == c; }
  }

  /** A walk that goes on from w goes on through one of its kids. */
  lemma {:induction false} NextOnWalk(g: Graph, roots: seq<Repo>, walks: set<seq<Repo>>, w: seq<Repo>, u: seq<Repo>)
    requires Gridlock(g, roots, walks) && u in walks && w <= u && |w| < |u|
    ensures w + [u[|w|]] in walks && w + [u[|w|]] <= u
    ensures if w == [] then u[0] in roots else Local(u[|w|]) in RemotesOf(g, Last(w))
    decreases |u|
  {
    if |u| == |w| + 1 {
      assert u == w + [u[|w|]];
    } else {
      assert HasPrefix(walks, u);
      NextOnWalk(g, roots, walks, w, u[..|u| - 1]);
    }
    if w != [] { assert Link(g, true, u[|w| - 1], u[|w| - 1 + 1]); }
  }

  /** What the goroutine of w has below it makes it hold or ask. */
  lemma DrivenAsks(g: Graph, roots: seq<Repo>, walks: set<seq<Repo>>, w: seq<Repo>, q: Process)
    requires Gridlock(g, roots, walks) && w in walks && Driven(q, walks, w, RemotesOf(g, Last(w)), Kids(walks, w))
    ensures Waits(q, Ends(walks))
    ensures forall u :: u in walks && w <= u && u != w ==> Holder(q, Last(u), Ends(walks))
  {
    forall u | u in walks && w <= u && u != w ensures Holder(q, Last(u), Ends(walks)) {
      NextOnWalk(g, roots, walks, w, u);
      KidsOf(walks, w, u[|w|]);
      assert AllHold(q, walks, w + [u[|w|]]);
    }
    if Leaf(walks, w) {
      var s :| s in Ends(walks) && Link(g, false, Last(w), s) && s !in w;
      assert w + [s] !in walks;
    } else {
      var x :| w + [x] in walks;
      assert w <= w + [x] && w + [x] != w;
      HolderWaits(q, Last(w + [x]), Ends(walks));
    }
  }

  lemma DrivenHolds(g: Graph, roots: seq<Repo>, walks: set<seq<Repo>>, w: seq<Repo>, kids: Process, own: Process)
    requires Gridlock(g, roots, walks) && w in walks && Driven(kids, walks, w, RemotesOf(g, Last(w)), Kids(walks, w))
    ensures AllHold(Hold(Last(w), Then(kids, own)), walks, w)
  {
    DrivenAsks(g, roots, walks, w, kids);
    var all, code := Ends(walks), Then(kids, own);
    assert Waits(code, all);
    forall u | u in walks && w <= u && u != [] ensures Holder(Hold(Last(w), code), Last(u), all) {
      if u != w { assert Holder(code, Last(u), all); }
    }
  }

  lemma LastIsNew(w: seq<Repo>)
    requires w != [] && Distinct(w)
    ensures Last(w) !in Path(w[..|w| - 1]) && Path(w) == Path(w[..|w| - 1]) + {Last(w)}
  {
    assert w == w[..|w| - 1] + [Last(w)];
    DistinctSnoc(w[..|w| - 1], Last(w));
  }

  lemma TodoKids(g: Graph, roots: seq<Repo>, walks: set<seq<Repo>>, w: seq<Repo>, held: multiset<Repo>)
    requires Gridlock(g, roots, walks) && w in walks && FreeBelow(held, walks, w)
    ensures Todo(walks, w, Kids(walks, w), held + multiset{Last(w)})
  {
    forall c | c in Kids(walks, w) ensures w + [c] in walks && FreeBelow(held + multiset{Last(w)}, walks, w + [c]) {
      KidsOf(walks, w, c);
      forall u | u in walks && w + [c] <= u && u != [] ensures Last(u) !in held + multiset{Last(w)} {
        assert w <= u && u != w;
        assert Last(u) != Last(w);
      }
    }
  }

  /** The goroutine at the end of w, and those it starts, take the mutexes of the walks that go on from w, and ask for others. */
  lemma {:induction false} Drive(g: Graph, roots: seq<Repo>, walks: set<seq<Repo>>, w: seq<Repo>, bound: nat, held: multiset<Repo>)
    returns (q: Process)
    requires Gridlock(g, roots, walks) && w in walks && (forall u :: u in walks ==> |u| <= bound)
    requires FreeBelow(held, walks, w)
    ensures Leads(g, Operate(Last(w), Pull, Path(w[..|w| - 1])), q, held)
    ensures LocksBelow(Locks(q), walks, w) && AllHold(q, walks, w)
    decreases bound - |w|, 1, 0
  {
    var r, stack := Last(w), Path(w[..|w| - 1]);
    var remotes := RemotesOf(g, r);
    var pulls, own := OperateAll(remotes, Pull, Path(w)), PullAll(r, remotes);
    LastIsNew(w);
    OperateStarts(g, r, Pull, stack, true, held);
    TodoKids(g, roots, walks, w, held);
    var kids := DriveAll(g, roots, walks, w, remotes, Kids(walks, w), bound, held + multiset{r});
    PullAllFresh(r, remotes, {r});
    BodyLeads(g, r, pulls, own, kids, held);
    q := Hold(r, Then(kids, own));
    LeadsOn(g, Operate(r, Pull, stack), Hold(r, Then(pulls, own)), q, held);
    DrivenLocks(walks, w, remotes, kids, own);
    DrivenHolds(g, roots, walks, w, kids, own);
  }

  lemma BodyLeads(g: Graph, r: Repo, pulls: Process, own: Process, kids: Process, held: multiset<Repo>)
    requires Leads(g, pulls, kids, held + multiset{r}) && Locks(own) == NONE
    ensures Leads(g, Hold(r, Then(pulls, own)), Hold(r, Then(kids, own)), held)
  {
    assert held + multiset{r} + FrameLocks(InFirst(own)) == held + multiset{r};
    PlugLeads(g, InFirst(own), pulls, kids, held + multiset{r});
    PlugLeads(g, InHold(r), Then(pulls, own), Then(kids, own), held);
  }

  lemma KidIsBelow(x: Repo, walks: set<seq<Repo>>, w: seq<Repo>, todo: set<Repo>)
    requires OfKid(x, walks, w, todo)
    ensures LocksBelow(multiset{x}, walks, w)
  {
    var c :| c in todo && LocksBelow(multiset{x}, walks, w + [c]);
    assert x in multiset{x};
    var u :| u in walks && w + [c] <= u && u != [] && Last(u) == x;
    assert w <= w + [c];
  }

  lemma LocksBelowAll(locks: multiset<Repo>, walks: set<seq<Repo>>, w: seq<Repo>)
    requires forall x :: x in locks ==> LocksBelow(multiset{x}, walks, w)
    ensures LocksBelow(locks, walks, w)
  {
    forall x | x in locks ensures exists u :: u in walks && w <= u && u != [] && Last(u) == x {
      assert x in multiset{x} && LocksBelow(multiset{x}, walks, w);
    }
  }

  lemma DrivenLocks(walks: set<seq<Repo>>, w: seq<Repo>, remotes: seq<Remote>, kids: Process, own: Process)
    requires w in walks && w != [] && Driven(kids, walks, w, remotes, Kids(walks, w)) && Locks(own) == NONE
    ensures LocksBelow(Locks(Hold(Last(w), Then(kids, own))), walks, w)
  {
    var todo := Kids(walks, w);
    forall x | x in Locks(kids) ensures LocksBelow(multiset{x}, walks, w) { KidIsBelow(x, walks, w, todo); }
    assert LocksBelow(multiset{Last(w)}, walks, w);
    assert Locks(Then(kids, own)) == Locks(kids);
    LocksBelowAll(multiset{Last(w)} + Locks(kids), walks, w);
  }

  lemma {:induction false} LongestWalk(walks: set<seq<Repo>>) returns (bound: nat)
    ensures forall u :: u in walks ==> |u| <= bound
  {
    if walks == {} {
      bound := 0;
    } else {
      var w :| w in walks;
      var rest := LongestWalk(walks - {w});
      bound := if |w| < rest then rest else |w|;
    }
  }

  lemma GridlockBlocks(g: Graph, roots: seq<Repo>, walks: set<seq<Repo>>)
    requires Gridlock(g, roots, walks)
    ensures Deadlocks(g, roots, Pull)
  {
    var bound := LongestWalk(walks);
    var todo := Kids(walks, []);
    forall c | c in todo ensures [] + [c] in walks && FreeBelow(NONE, walks, [] + [c]) { KidsOf(walks, [], c); }
    var q := DriveAll(g, roots, walks, [], Locals(roots), todo, bound, NONE);
    StartIsOperateAll(roots, Pull);
    assert Path([]) == {};
    forall r | r in Ends(walks) ensures Holder(q, r, Ends(walks)) {
      var u :| u in walks && u != [] && Last(u) == r;
      NextOnWalk(g, roots, walks, [], u);
      KidsOf(walks, [], u[0]);
      RootIsLocal(roots, u[0]);
      assert AllHold(q, walks, [] + [u[0]]);
    }
    var w :| w in walks;
    assert Last(w) in Ends(walks);
    KnotDeadlocks(g, roots, Pull, q, Ends(walks));
  }

  lemma RootIsLocal(roots: seq<Repo>, r: Repo)
    requires r in roots
    ensures Local(r) in Locals(roots)
  {
    var i :| 0 <= i < |roots| && roots[i] == r;
    assert Locals(roots)[i] == Local(r);
  }

  // ----- a case without deadlock

  /** No repository has two different local remotes. */
  ghost predicate Single(g: Graph) {
    forall r, c, d :: Local(c) in RemotesOf(g, r) && Local(d) in RemotesOf(g, r) ==> c == d
  }

  lemma {:induction false} SameWalk(g: Graph, v: seq<Repo>, w: seq<Repo>, k: nat)
    requires Single(g) && Walk(g, true, v) && Walk(g, true, w) && v[0] == w[0] && k < |v| <= |w|
    ensures v[k] == w[k]
  {
    if k > 0 {
      SameWalk(g, v, w, k - 1);
      assert Link(g, true, v[k - 1], v[k - 1 + 1]) && Link(g, true, w[k - 1], w[k - 1 + 1]);
    }
  }

  lemma EndsOn(g: Graph, v: seq<Repo>, w: seq<Repo>)
    requires Single(g) && Walk(g, true, v) && Walk(g, true, w) && v[0] == w[0] && |v| <= |w|
    ensures Last(v) in w
  {
    SameWalk(g, v, w, |v| - 1);
  }

  lemma SingleHasNoGridlock(g: Graph, root: Repo, walks: set<seq<Repo>>)
    requires Single(g)
    ensures !Gridlock(g, [root], walks)
  {
    if Gridlock(g, [root], walks) {
      var w := LongestOf(walks);
      assert Leaf(walks, w);
      var s :| s in Ends(walks) && Link(g, false, Last(w), s) && s !in w;
      var v :| v in walks && v != [] && Last(v) == s;
      EndsOn(g, v, w);
      assert false;
    }
  }

  lemma {:induction false} LongestOf(walks: set<seq<Repo>>) returns (w: seq<Repo>)
    requires walks != {}
    ensures w in walks && forall u :: u in walks ==> |u| <= |w|
  {
    var first :| first in walks;
    var rest := walks - {first};
    w := first;
    if rest != {} {
      var v := LongestOf(rest);
      if |w| < |v| { w := v; }
    }
    forall u | u in walks ensures |u| <= |w| { assert u == first || u in rest; }
  }
}
