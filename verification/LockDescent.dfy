/**
 Runs of the goroutines in gitall/main.go along a chain of local remotes.

 These are the runs that lead to deadlocks and to unguarded access. Each lemma says
 that a goroutine, next to others that hold some mutexes and do not move, can get
 from one term to another. An unclean repository skips its own sync phase and an
 early error ends a recursion, so a push can go straight down a walk: it holds the
 mutexes of the walk and of nothing else when it comes to the sync phase at its end.
 */
module LockDescent {
  import opened LockProtocol

  // ----- walks over local remotes

  /** c is a local remote of r; r itself counts only when selves is set. */
  predicate Link(g: Graph, selves: bool, r: Repo, c: Repo) {
    Local(c) in RemotesOf(g, r) && (selves || c != r)
  }

  predicate Walk(g: Graph, selves: bool, w: seq<Repo>) {
    w != [] && forall i :: 0 <= i < |w| - 1 ==> Link(g, selves, w[i], w[i + 1])
  }

  predicate Distinct(w: seq<Repo>) {
    forall i, j :: 0 <= i < j < |w| ==> w[i] != w[j]
  }

  function Last(w: seq<Repo>): Repo
    requires w != []
  {
    w[|w| - 1]
  }

  function Path(w: seq<Repo>): set<Repo> { set r | r in w }

  /** w is a walk from one of the roots. */
  predicate WalkFrom(g: Graph, selves: bool, roots: seq<Repo>, w: seq<Repo>) {
    Walk(g, selves, w) && w[0] in roots
  }

  // ----- goroutines deep inside others

  /** The outermost frame comes first. */
  function PlugAll(fs: seq<Frame>, p: Process): Process {
    if fs == [] then p else Plug(fs[0], PlugAll(fs[1..], p))
  }

  function AllLocks(fs: seq<Frame>): multiset<Repo> {
    if fs == [] then NONE else FrameLocks(fs[0]) + AllLocks(fs[1..])
  }

  lemma {:induction false} PlugAllLeads(g: Graph, fs: seq<Frame>, p: Process, q: Process, held: multiset<Repo>)
    requires Leads(g, p, q, held + AllLocks(fs))
    ensures Leads(g, PlugAll(fs, p), PlugAll(fs, q), held)
  {
    if fs == [] {
      assert held + NONE == held;
    } else {
      var inner := held + FrameLocks(fs[0]);
      assert held + AllLocks(fs) == inner + AllLocks(fs[1..]);
      PlugAllLeads(g, fs[1..], p, q, inner);
      PlugLeads(g, fs[0], PlugAll(fs[1..], p), PlugAll(fs[1..], q), held);
    }
  }

  lemma PlugAllCons(f: Frame, fs: seq<Frame>, p: Process)
    ensures PlugAll([f] + fs, p) == Plug(f, PlugAll(fs, p))
    ensures AllLocks([f] + fs) == FrameLocks(f) + AllLocks(fs)
  {
    assert ([f] + fs)[1..] == fs;
  }

  lemma {:induction false} PlugAllAppend(fs: seq<Frame>, gs: seq<Frame>, p: Process)
    ensures PlugAll(fs + gs, p) == PlugAll(fs, PlugAll(gs, p))
    ensures AllLocks(fs + gs) == AllLocks(fs) + AllLocks(gs)
  {
    if fs == [] {
      assert fs + gs == gs;
    } else {
      assert (fs + gs)[1..] == fs[1..] + gs;
      PlugAllAppend(fs[1..], gs, p);
    }
  }

  lemma PlugOne(f: Frame, p: Process)
    ensures PlugAll([f], p) == Plug(f, p) && AllLocks([f]) == FrameLocks(f)
  {
    PlugAllCons(f, [], p);
    assert [f] + [] == [f];
  }

  lemma PlugTwo(f: Frame, e: Frame, p: Process)
    ensures PlugAll([f, e], p) == Plug(f, Plug(e, p))
    ensures AllLocks([f, e]) == FrameLocks(f) + FrameLocks(e)
  {
    PlugOne(e, p);
    PlugAllCons(f, [e], p);
    assert [f] + [e] == [f, e];
  }

  /** A step in a sequence: the first part ends and the second is left. */
  lemma ThenEnds(g: Graph, a: Process, b: Process, held: multiset<Repo>)
    requires Leads(g, a, Done, held) && Locks(b) == NONE
    ensures Leads(g, Then(a, b), b, held)
  {
    assert held + FrameLocks(InFirst(b)) == held;
    PlugLeads(g, InFirst(b), a, Done, held);
    assert Step(g, Then(Done, b), b, held + Locks(Then(Done, b)));
    LeadsNext(g, Then(Done, b), b, held);
    LeadsOn(g, Then(a, b), Then(Done, b), b, held);
  }

  lemma HoldEnds(g: Graph, r: Repo, b: Process, held: multiset<Repo>)
    requires Leads(g, b, Done, held + multiset{r})
    ensures Leads(g, Hold(r, b), Done, held)
  {
    PlugLeads(g, InHold(r), b, Done, held);
    assert Step(g, Hold(r, Done), Done, held + Locks(Hold(r, Done)));
    LeadsNext(g, Hold(r, Done), Done, held);
    LeadsOn(g, Hold(r, b), Hold(r, Done), Done, held);
  }

  lemma BothEnd(g: Graph, a: Process, b: Process, held: multiset<Repo>)
    requires Leads(g, a, Done, held) && Leads(g, b, Done, held) && Locks(b) == NONE
    ensures Leads(g, Both(a, b), Done, held)
  {
    assert held + FrameLocks(InLeft(b)) == held && held + FrameLocks(InRight(Done)) == held;
    PlugLeads(g, InLeft(b), a, Done, held);
    PlugLeads(g, InRight(Done), b, Done, held);
    assert Step(g, Both(Done, Done), Done, held + Locks(Both(Done, Done)));
    LeadsNext(g, Both(Done, Done), Done, held);
    LeadsOn(g, Both(a, b), Both(Done, b), Both(Done, Done), held);
    LeadsOn(g, Both(a, b), Both(Done, Done), Done, held);
  }

  lemma GitEnds(g: Graph, t: Repo, c: Command, held: multiset<Repo>)
    ensures Leads(g, Git(t, c), Done, held)
  {
    assert Step(g, Git(t, c), Done, held + Locks(Git(t, c)));
    LeadsNext(g, Git(t, c), Done, held);
  }

  lemma WaitEnds(g: Graph, r: Repo, b: Process, held: multiset<Repo>)
    requires r !in held && Locks(b) == NONE
    ensures Leads(g, Wait(r, b), Hold(r, b), held)
  {
    assert held + Locks(Wait(r, b)) == held;
    LeadsNext(g, Wait(r, b), Hold(r, b), held);
  }

  // ----- operate

  /** No local remote that a recursion would enter is held. */
  predicate Clear(remotes: seq<Remote>, stack: set<Repo>, held: multiset<Repo>) {
    forall i :: 0 <= i < |remotes| && remotes[i].Local? ==> remotes[i].path in stack || remotes[i].path !in held
  }

  /** An operate call gets its mutex, when that is free, and starts the body. */
  lemma OperateStarts(g: Graph, r: Repo, mode: Mode, stack: set<Repo>, clean: bool, held: multiset<Repo>)
    requires r !in stack && r !in held
    ensures Leads(g, Operate(r, mode, stack), Hold(r, Body(g, r, mode, stack, clean)), held)
    ensures Leads(g, Operate(r, mode, stack), Hold(r, Done), held)
  {
    var operate, enter := Operate(r, mode, stack), Enter(r, mode, stack);
    var body := Body(g, r, mode, stack, clean);
    assert Step(g, operate, Wait(r, enter), held + Locks(operate));
    LeadsNext(g, operate, Wait(r, enter), held);
    WaitEnds(g, r, enter, held);
    LeadsOn(g, operate, Wait(r, enter), Hold(r, enter), held);
    var all := held + multiset{r};
    assert Step(g, enter, body, all + Locks(enter)) && Step(g, enter, Done, all + Locks(enter));
    LeadsNext(g, enter, body, all);
    LeadsNext(g, enter, Done, all);
    PlugLeads(g, InHold(r), enter, body, held);
    PlugLeads(g, InHold(r), enter, Done, held);
    LeadsOn(g, operate, Hold(r, enter), Hold(r, body), held);
    LeadsOn(g, operate, Hold(r, enter), Hold(r, Done), held);
  }

  /** A recursion can end at once: on the stack, or with an early error. */
  lemma OperateEnds(g: Graph, r: Repo, mode: Mode, stack: set<Repo>, held: multiset<Repo>)
    requires r in stack || r !in held
    ensures Leads(g, Operate(r, mode, stack), Done, held)
  {
    if r in stack {
      assert Step(g, Operate(r, mode, stack), Done, held + Locks(Operate(r, mode, stack)));
      LeadsNext(g, Operate(r, mode, stack), Done, held);
    } else {
      OperateStarts(g, r, mode, stack, true, held);
      LeadsItself(g, Done, held + multiset{r});
      HoldEnds(g, r, Done, held);
      LeadsOn(g, Operate(r, mode, stack), Hold(r, Done), Done, held);
    }
  }

  lemma {:induction false} OperateAllEnds(g: Graph, remotes: seq<Remote>, mode: Mode, stack: set<Repo>, held: multiset<Repo>)
    requires Clear(remotes, stack, held)
    ensures Leads(g, OperateAll(remotes, mode, stack), Done, held)
  {
    if remotes == [] {
      LeadsItself(g, Done, held);
    } else {
      OperateAllEnds(g, remotes[1..], mode, stack, held);
      if remotes[0].Local? {
        OperateEnds(g, remotes[0].path, mode, stack, held);
        OperateAllFresh(remotes[1..], mode, stack, {});
        BothEnd(g, Operate(remotes[0].path, mode, stack), OperateAll(remotes[1..], mode, stack), held);
      }
    }
  }

  lemma FirstChildMoves(g: Graph, c: Repo, mode: Mode, stack: set<Repo>, rest: Process, q: Process, held: multiset<Repo>)
    requires Locks(rest) == NONE && Leads(g, Operate(c, mode, stack), q, held)
    ensures Leads(g, Both(Operate(c, mode, stack), rest), PlugAll([InLeft(rest)], q), held)
    ensures AllLocks([InLeft(rest)]) == NONE
  {
    PlugOne(InLeft(rest), q);
    assert held + FrameLocks(InLeft(rest)) == held;
    PlugLeads(g, InLeft(rest), Operate(c, mode, stack), q, held);
  }

  lemma LaterChildMoves(g: Graph, first: Process, rest: Process, fs: seq<Frame>, q: Process, held: multiset<Repo>)
    requires Locks(first) == NONE && Leads(g, rest, PlugAll(fs, q), held)
    ensures Leads(g, Both(first, rest), PlugAll([InRight(first)] + fs, q), held)
    ensures AllLocks([InRight(first)] + fs) == AllLocks(fs)
  {
    PlugAllCons(InRight(first), fs, q);
    assert held + FrameLocks(InRight(first)) == held;
    PlugLeads(g, InRight(first), rest, PlugAll(fs, q), held);
  }

  /** One of the goroutines of operateAll moves alone. */
  lemma {:induction false} ChildMoves(g: Graph, remotes: seq<Remote>, c: Repo, mode: Mode, stack: set<Repo>, q: Process, held: multiset<Repo>) returns (fs: seq<Frame>)
    requires Local(c) in remotes && Leads(g, Operate(c, mode, stack), q, held)
    ensures Leads(g, OperateAll(remotes, mode, stack), PlugAll(fs, q), held)
    ensures AllLocks(fs) == NONE
  {
    var rest := OperateAll(remotes[1..], mode, stack);
    OperateAllFresh(remotes[1..], mode, stack, {});
    if remotes[0] == Local(c) {
      fs := [InLeft(rest)];
      FirstChildMoves(g, c, mode, stack, rest, q, held);
    } else {
      fs := ChildMoves(g, remotes[1..], c, mode, stack, q, held);
      if remotes[0].Local? {
        var first := Operate(remotes[0].path, mode, stack);
        LaterChildMoves(g, first, rest, fs, q, held);
        fs := [InRight(first)] + fs;
      }
    }
  }

  // ----- the phases of a push

  function Pushes(g: Graph, r: Repo, stack: set<Repo>): Process {
    OperateAll(RemotesOf(g, r), Push(true), stack + {r})
  }

  /** What a push does after its pull phase. */
  function AfterPulls(g: Graph, r: Repo, stack: set<Repo>, clean: bool): Process {
    Then(if clean then SyncAll(r, RemotesOf(g, r)) else Done, Pushes(g, r, stack))
  }

  lemma AfterPullsUnlocked(g: Graph, r: Repo, stack: set<Repo>, clean: bool)
    ensures Locks(AfterPulls(g, r, stack, clean)) == NONE
    ensures Locks(Pushes(g, r, stack)) == NONE
  {
    OperateAllFresh(RemotesOf(g, r), Push(true), stack + {r}, {});
    SyncAllFresh(r, RemotesOf(g, r), {r});
  }

  /** The pull phase of a push can end. */
  lemma PushStarts(g: Graph, r: Repo, skip: bool, stack: set<Repo>, clean: bool, held: multiset<Repo>)
    requires r !in stack && r !in held && Clear(RemotesOf(g, r), stack + {r}, held + multiset{r})
    ensures Leads(g, Operate(r, Push(skip), stack), Hold(r, AfterPulls(g, r, stack, clean)), held)
  {
    var remotes, inner := RemotesOf(g, r), held + multiset{r};
    var body, after := Body(g, r, Push(skip), stack, clean), AfterPulls(g, r, stack, clean);
    var pulls := if skip then Done else OperateAll(remotes, Pull, stack + {r});
    OperateStarts(g, r, Push(skip), stack, clean, held);
    assert body == Then(pulls, after);
    if skip {
      LeadsItself(g, Done, inner);
    } else {
      OperateAllEnds(g, remotes, Pull, stack + {r}, inner);
    }
    AfterPullsUnlocked(g, r, stack, clean);
    ThenEnds(g, pulls, after, inner);
    PlugLeads(g, InHold(r), body, after, held);
    LeadsOn(g, Operate(r, Push(skip), stack), Hold(r, body), Hold(r, after), held);
  }

  /** An unclean repository goes on to the goroutines of its push phase. */
  lemma PushSkipsSync(g: Graph, r: Repo, skip: bool, stack: set<Repo>, held: multiset<Repo>)
    requires r !in stack && r !in held && Clear(RemotesOf(g, r), stack + {r}, held + multiset{r})
    ensures Leads(g, Operate(r, Push(skip), stack), Hold(r, Pushes(g, r, stack)), held)
  {
    var inner, after, pushes := held + multiset{r}, AfterPulls(g, r, stack, false), Pushes(g, r, stack);
    PushStarts(g, r, skip, stack, false, held);
    AfterPullsUnlocked(g, r, stack, false);
    LeadsItself(g, Done, inner);
    ThenEnds(g, Done, pushes, inner);
    PlugLeads(g, InHold(r), after, pushes, held);
    LeadsOn(g, Operate(r, Push(skip), stack), Hold(r, after), Hold(r, pushes), held);
  }

  // ----- down a walk

  predicate Avoids(w: seq<Repo>, stack: set<Repo>) {
    forall i :: 0 <= i < |w| ==> w[i] !in stack
  }

  predicate Within(held: multiset<Repo>, stack: set<Repo>) {
    forall r :: r in held ==> r in stack
  }

  /** The sync phase of the last repository of a walk. */
  function LastSync(g: Graph, w: seq<Repo>): Process
    requires w != []
  {
    SyncAll(Last(w), RemotesOf(g, Last(w)))
  }

  lemma PushReachesSync(g: Graph, r: Repo, skip: bool, stack: set<Repo>, held: multiset<Repo>) returns (fs: seq<Frame>)
    requires r !in stack && Within(held, stack)
    ensures Leads(g, Operate(r, Push(skip), stack), PlugAll(fs, SyncAll(r, RemotesOf(g, r))), held)
    ensures AllLocks(fs) == multiset{r} && InHold(r) in fs
  {
    var pushes := Pushes(g, r, stack);
    PushStarts(g, r, skip, stack, true, held);
    AfterPullsUnlocked(g, r, stack, true);
    fs := [InHold(r), InFirst(pushes)];
    PlugTwo(InHold(r), InFirst(pushes), SyncAll(r, RemotesOf(g, r)));
  }

  lemma PushReachesChild(g: Graph, r: Repo, c: Repo, skip: bool, stack: set<Repo>, q: Process, held: multiset<Repo>) returns (fs: seq<Frame>)
    requires r !in stack && Within(held, stack) && Local(c) in RemotesOf(g, r)
    requires Leads(g, Operate(c, Push(true), stack + {r}), q, held + multiset{r})
    ensures Leads(g, Operate(r, Push(skip), stack), PlugAll(fs, q), held)
    ensures AllLocks(fs) == multiset{r} && InHold(r) in fs
  {
    PushSkipsSync(g, r, skip, stack, held);
    var child := ChildMoves(g, RemotesOf(g, r), c, Push(true), stack + {r}, q, held + multiset{r});
    fs := [InHold(r)] + child;
    PlugAllCons(InHold(r), child, q);
    PlugLeads(g, InHold(r), Pushes(g, r, stack), PlugAll(child, q), held);
    LeadsOn(g, Operate(r, Push(skip), stack), Hold(r, Pushes(g, r, stack)), PlugAll(fs, q), held);
  }

  /** A push can recurse along any walk without a repetition, up to the sync phase of its last repository, holding exactly the walk's mutexes. */
  lemma {:induction false} Descend(g: Graph, w: seq<Repo>, skip: bool, stack: set<Repo>, held: multiset<Repo>) returns (fs: seq<Frame>)
    requires Walk(g, true, w) && Distinct(w) && Avoids(w, stack) && Within(held, stack)
    ensures Leads(g, Operate(w[0], Push(skip), stack), PlugAll(fs, LastSync(g, w)), held)
    ensures AllLocks(fs) == multiset(w)
    ensures forall r :: r in w ==> InHold(r) in fs
    decreases |w|
  {
    var r := w[0];
    HeadAndTail(w);
    if |w| == 1 {
      fs := PushReachesSync(g, r, skip, stack, held);
    } else {
      var rest := w[1..];
      TailOfWalk(g, w, stack);
      var deep := Descend(g, rest, true, stack + {r}, held + multiset{r});
      assert Link(g, true, w[0], w[0 + 1]);
      var outer := PushReachesChild(g, r, rest[0], skip, stack, PlugAll(deep, LastSync(g, rest)), held);
      PlugAllAppend(outer, deep, LastSync(g, rest));
      fs := outer + deep;
    }
  }

  lemma HeadAndTail(w: seq<Repo>)
    requires w != []
    ensures multiset(w) == multiset{w[0]} + multiset(w[1..])
    ensures forall s :: s in w ==> s == w[0] || s in w[1..]
  {
    assert w == [w[0]] + w[1..];
  }

  lemma TailOfWalk(g: Graph, w: seq<Repo>, stack: set<Repo>)
    requires |w| > 1 && Walk(g, true, w) && Distinct(w) && Avoids(w, stack)
    ensures Walk(g, true, w[1..]) && Distinct(w[1..]) && Avoids(w[1..], stack + {w[0]})
    ensures Last(w[1..]) == Last(w)
  {
    var rest := w[1..];
    forall i | 0 <= i < |rest| - 1 ensures Link(g, true, rest[i], rest[i + 1]) {
      assert Link(g, true, w[i + 1], w[i + 1 + 1]);
    }
    forall i | 0 <= i < |rest| ensures rest[i] !in stack + {w[0]} {
      assert rest[i] == w[i + 1];
    }
  }

  // ----- the sync phase

  /** None of the first k remotes is local and in path. */
  predicate OpenUpTo(remotes: seq<Remote>, k: nat, path: set<Repo>)
    requires k <= |remotes|
  {
    forall j :: 0 <= j < k && remotes[j].Local? ==> remotes[j].path !in path
  }

  lemma SyncWithEnds(g: Graph, r: Repo, c: Repo, held: multiset<Repo>)
    ensures Leads(g, SyncWith(r, c), Done, held)
  {
    GitEnds(g, r, Own, held);
    ThenEnds(g, Git(r, Own), Git(c, Sync), held);
    GitEnds(g, c, Sync, held);
    LeadsOn(g, SyncWith(r, c), Git(c, Sync), Done, held);
  }

  lemma SyncChecksOut(g: Graph, r: Repo, c: Repo, held: multiset<Repo>)
    requires c !in held
    ensures Leads(g, SyncOne(r, Local(c)), Git(c, CheckoutHead), held)
  {
    var sync, checkout := Wait(c, SyncWith(r, c)), Git(c, CheckoutHead);
    SyncWithUnlocked(r, c);
    GitEnds(g, c, EnsurePushable, held);
    ThenEnds(g, Git(c, EnsurePushable), Then(sync, checkout), held);
    WaitEnds(g, c, SyncWith(r, c), held);
    SyncWithEnds(g, r, c, held + multiset{c});
    HoldEnds(g, c, SyncWith(r, c), held);
    LeadsOn(g, sync, Hold(c, SyncWith(r, c)), Done, held);
    ThenEnds(g, sync, checkout, held);
    LeadsOn(g, SyncOne(r, Local(c)), Then(sync, checkout), checkout, held);
  }

  lemma SyncOneEnds(g: Graph, r: Repo, remote: Remote, held: multiset<Repo>)
    requires remote.Local? ==> remote.path !in held
    ensures Leads(g, SyncOne(r, remote), Done, held)
  {
    match remote
    case Network => GitEnds(g, r, Own, held);
    case Local(c) =>
      SyncChecksOut(g, r, c, held);
      GitEnds(g, c, CheckoutHead, held);
      LeadsOn(g, SyncOne(r, remote), Git(c, CheckoutHead), Done, held);
  }

  lemma {:induction false} SyncAllAdvances(g: Graph, r: Repo, remotes: seq<Remote>, k: nat, path: set<Repo>, held: multiset<Repo>)
    requires k <= |remotes| && OpenUpTo(remotes, k, path) && Within(held, path)
    ensures Leads(g, SyncAll(r, remotes), SyncAll(r, remotes[k..]), held)
    decreases k
  {
    if k == 0 {
      assert remotes[0..] == remotes;
      LeadsItself(g, SyncAll(r, remotes), held);
    } else {
      SyncOneEnds(g, r, remotes[0], held);
      SyncAllFresh(r, remotes[1..], {r});
      ThenEnds(g, SyncOne(r, remotes[0]), SyncAll(r, remotes[1..]), held);
      SyncAllAdvances(g, r, remotes[1..], k - 1, path, held);
      assert remotes[1..][k - 1..] == remotes[k..];
      LeadsOn(g, SyncAll(r, remotes), SyncAll(r, remotes[1..]), SyncAll(r, remotes[k..]), held);
    }
  }

  /** The sync phase can get to its k-th remote when none before it is held above. */
  lemma SyncAllReaches(g: Graph, r: Repo, remotes: seq<Remote>, k: nat, path: set<Repo>, q: Process, held: multiset<Repo>)
    requires k < |remotes| && OpenUpTo(remotes, k, path) && Within(held, path)
    requires Leads(g, SyncOne(r, remotes[k]), q, held)
    ensures Leads(g, SyncAll(r, remotes), Then(q, SyncAll(r, remotes[k + 1..])), held)
  {
    var rest := remotes[k..];
    SyncAllAdvances(g, r, remotes, k, path, held);
    assert rest[1..] == remotes[k + 1..];
    assert SyncAll(r, rest) == Then(SyncOne(r, remotes[k]), SyncAll(r, remotes[k + 1..]));
    SyncAllFresh(r, remotes[k + 1..], {r});
    var after := InFirst(SyncAll(r, remotes[k + 1..]));
    assert held + FrameLocks(after) == held;
    PlugLeads(g, after, SyncOne(r, remotes[k]), q, held);
    LeadsOn(g, SyncAll(r, remotes), SyncAll(r, rest), Then(q, SyncAll(r, remotes[k + 1..])), held);
  }
}
