/** The Merkle commitment of commitment/tree.go over an uninterpreted hash. */
module Merkle {
  import opened Bytes
  import opened Sorting

  // A level of digests is matched by a forest of HashTrees, whose root tree keeps
  // the leaves the digest stands for. The security statements exhibit a collision:
  // two different inputs with equal digests, one of them hashed while checking the
  // proof (or building the other tree), the other hashed while building the tree.

  type Digest = d: Bytes | |d| == 32 witness
    [0, 0, 0, 0, 0, 0, 0, 0, 0, 0, 0, 0, 0, 0, 0, 0, 0, 0, 0, 0, 0, 0, 0, 0, 0, 0, 0, 0, 0, 0, 0, 0]

  type Hash = Bytes -> Digest

  datatype Leaf = Leaf(tool: Bytes, id: Bytes, kind: Bytes, payload: Bytes)

  datatype ProofStep = ProofStep(hash: Digest, left: bool, carry: bool)

  datatype Tree = Tree(levels: seq<seq<Digest>>, index: map<Bytes, nat>)

  datatype BuildResult = Built(tree: Tree) | NoLeaves | DuplicateKey

  datatype ProofResult = Proof(steps: seq<ProofStep>) | NoSuchLeaf

  const ZERO_DIGEST: Digest :=
    [0, 0, 0, 0, 0, 0, 0, 0, 0, 0, 0, 0, 0, 0, 0, 0, 0, 0, 0, 0, 0, 0, 0, 0, 0, 0, 0, 0, 0, 0, 0, 0]

  function Key(l: Leaf): Bytes {
    l.tool + [0] + l.kind + [0] + l.id
  }

  function LeafInput(l: Leaf): Bytes {
    [0] + (LenPrefixed(l.tool) + (LenPrefixed(l.kind) + (LenPrefixed(l.id) + LenPrefixed(l.payload))))
  }

  function NodeInput(left: Digest, right: Digest): Bytes {
    [1] + left + right
  }

  function LeafHash(h: Hash, l: Leaf): Digest { h(LeafInput(l)) }

  function NodeHash(h: Hash, left: Digest, right: Digest): Digest { h(NodeInput(left, right)) }

  /** All lengths fit the 32-bit length prefix. */
  predicate Encodable(l: Leaf) {
    |l.tool| < U32 && |l.kind| < U32 && |l.id| < U32 && |l.payload| < U32
  }

  // ----- hash inputs are unambiguous

  lemma LeafInputInjective(a: Leaf, b: Leaf)
    requires Encodable(a) && Encodable(b)
    requires LeafInput(a) == LeafInput(b)
    ensures a == b
  {
    var a3, b3 := LenPrefixed(a.payload), LenPrefixed(b.payload);
    var a2, b2 := LenPrefixed(a.id) + a3, LenPrefixed(b.id) + b3;
    var a1, b1 := LenPrefixed(a.kind) + a2, LenPrefixed(b.kind) + b2;
    assert LeafInput(a)[1..] == LenPrefixed(a.tool) + a1;
    assert LeafInput(b)[1..] == LenPrefixed(b.tool) + b1;
    LenPrefixedInjective(a.tool, a1, b.tool, b1);
    LenPrefixedInjective(a.kind, a2, b.kind, b2);
    LenPrefixedInjective(a.id, a3, b.id, b3);
    assert a3 + [] == a3 == b3 == b3 + [];
    LenPrefixedInjective(a.payload, [], b.payload, []);
  }

  lemma NodeInputInjective(a: Digest, b: Digest, c: Digest, d: Digest)
    requires NodeInput(a, b) == NodeInput(c, d)
    ensures a == c && b == d
  {
    assert a == NodeInput(a, b)[1..33] == NodeInput(c, d)[1..33] == c;
    assert b == NodeInput(a, b)[33..] == NodeInput(c, d)[33..] == d;
  }

  /** The length bound is needed: at 2^32 bytes the prefix wraps to zero and two leaves share their hash input. */
  lemma LongLeavesAreAmbiguous() returns (a: Leaf, b: Leaf)
    ensures a != b && LeafInput(a) == LeafInput(b)
    ensures Encodable(a) == Encodable(b) == false
  {
    var zeros: Bytes := seq(U32, _ => 0);
    a := Leaf(zeros, [], [], []);
    b := Leaf([], [], zeros, []);
    assert BigEndian(0, 4) == [0, 0, 0, 0] by {
      assert BigEndian(0, 1) == [0] && BigEndian(0, 2) == [0, 0] && BigEndian(0, 3) == [0, 0, 0];
    }
    assert LenPrefixed(zeros) == [0, 0, 0, 0] + zeros;
    assert LenPrefixed([]) == [0, 0, 0, 0];
    assert |LeafInput(a)| == |LeafInput(b)|;
    forall i | 0 <= i < |LeafInput(a)|
      ensures LeafInput(a)[i] == LeafInput(b)[i]
    {
      assert LeafInput(a)[i] == 0 && LeafInput(b)[i] == 0;
    }
  }

  /** Tool and kind hold no NUL byte. */
  predicate NulFree(l: Leaf) { 0 !in l.tool && 0 !in l.kind }

  /** A key identifies its leaf's tool, kind and id when tool and kind hold no NUL byte... */
  lemma KeyInjective(a: Leaf, b: Leaf)
    requires NulFree(a) && NulFree(b)
    ensures Key(a) == Key(b) <==> a.tool == b.tool && a.kind == b.kind && a.id == b.id
  {
    if Key(a) == Key(b) {
      assert Key(a) == a.tool + [0] + (a.kind + [0] + a.id);
      assert Key(b) == b.tool + [0] + (b.kind + [0] + b.id);
      CutAtNul(a.tool, a.kind + [0] + a.id, b.tool, b.kind + [0] + b.id);
      CutAtNul(a.kind, a.id, b.kind, b.id);
    }
  }

  lemma CutAtNul(a: Bytes, r: Bytes, b: Bytes, s: Bytes)
    requires 0 !in a && 0 !in b && a + [0] + r == b + [0] + s
    ensures a == b && r == s
  {
    var x, y := a + [0] + r, b + [0] + s;
    assert x[|a|] == 0 && y[|b|] == 0;
    assert forall i :: 0 <= i < |a| ==> x[i] != 0;
    assert forall i :: 0 <= i < |b| ==> y[i] != 0;
    assert a == x[..|a|] && b == y[..|b|];
    assert r == x[|a| + 1..] && s == y[|b| + 1..];
  }

  /** ...and not otherwise, so Build may reject two different leaves as duplicates. */
  lemma NulMakesKeysAmbiguous(a: Leaf, b: Leaf)
    requires a == Leaf([1, 0, 2], [3], [4], []) && b == Leaf([1], [3], [2, 0, 4], [])
    ensures Key(a) == Key(b) && a != b
  {
    assert Key(a) == [1, 0, 2, 0, 4, 0, 3];
    assert Key(b) == [1, 0, 2, 0, 4, 0, 3];
  }

  lemma {:induction false} FirstCut(b: Bytes) returns (head: Bytes, tail: Bytes)
    requires 0 in b
    ensures 0 !in head && b == head + [0] + tail
  {
    if b[0] == 0 {
      head, tail := [], b[1..];
    } else {
      head, tail := FirstCut(b[1..]);
      assert b == [b[0]] + (head + [0] + tail);
      head := [b[0]] + head;
    }
  }

  /** Cutting at the first NUL byte leaves the second one. */
  lemma NulLeft(a: Bytes, r: Bytes, head: Bytes, tail: Bytes)
    requires a + [0] + r == head + [0] + tail && 0 !in head && 0 in r
    ensures 0 in tail
  {
    var whole := a + [0] + r;
    var k :| 0 <= k < |r| && r[k] == 0;
    assert forall i :: 0 <= i < |head| ==> whole[i] == head[i] != 0;
    assert whole[|a|] == 0 && whole[|a| + 1 + k] == 0;
    assert whole[|a| + 1 + k] == tail[|a| + k - |head|];
  }

  /** The leaf that a reader of the key finds by cutting it at its first two NUL bytes. */
  lemma ReadKey(l: Leaf) returns (m: Leaf)
    ensures NulFree(m) && Key(m) == Key(l)
  {
    var r := l.kind + [0] + l.id;
    assert Key(l) == l.tool + [0] + r && (l.tool + [0] + r)[|l.tool|] == 0 && r[|l.kind|] == 0;
    var tool, rest := FirstCut(Key(l));
    NulLeft(l.tool, r, tool, rest);
    var kind, id := FirstCut(rest);
    m := Leaf(tool, id, kind, l.payload);
    assert Key(m) == tool + [0] + (kind + [0] + id);
  }

  /** Another leaf, with NUL-free tool and kind, has the same key. */
  ghost predicate Mistakable(l: Leaf) {
    exists m :: NulFree(m) && Key(m) == Key(l) && (m.tool, m.kind, m.id) != (l.tool, l.kind, l.id)
  }

  /** A leaf's key can be mistaken for that of a leaf with NUL-free tool and kind exactly when its own tool or kind holds a NUL byte. */
  lemma MistakableIff(l: Leaf)
    ensures Mistakable(l) <==> !NulFree(l)
  {
    if NulFree(l) {
      forall m | NulFree(m) && Key(m) == Key(l) ensures (m.tool, m.kind, m.id) == (l.tool, l.kind, l.id) { KeyInjective(m, l); }
    } else {
      var m := ReadKey(l);
    }
  }

  // ----- levels

  /** One level up: neighbours are combined, an odd last node is carried unchanged. */
  function PairUp<T>(f: (T, T) -> T, s: seq<T>): (r: seq<T>)
    ensures |r| == (|s| + 1) / 2
  {
    if |s| < 2 then s else [f(s[0], s[1])] + PairUp(f, s[2..])
  }

  lemma {:induction false} PairUpAt<T>(f: (T, T) -> T, s: seq<T>, k: nat)
    requires k < (|s| + 1) / 2
    ensures PairUp(f, s)[k] == if 2 * k + 1 < |s| then f(s[2 * k], s[2 * k + 1]) else s[2 * k]
  {
    if |s| >= 2 && k > 0 {
      PairUpAt(f, s[2..], k - 1);
    }
  }

  /** All levels from s up to the one that holds a single node. */
  function Levels<T>(f: (T, T) -> T, s: seq<T>): (r: seq<seq<T>>)
    requires |s| > 0
    ensures |r| > 0 && r[0] == s && |r[|r| - 1]| == 1
    ensures forall i :: 0 <= i < |r| ==> |r[i]| > 0
    decreases |s|
  {
    if |s| == 1 then [s] else [s] + Levels(f, PairUp(f, s))
  }

  function Apex<T>(f: (T, T) -> T, s: seq<T>): T
    requires |s| > 0
  {
    var levels := Levels(f, s);
    levels[|levels| - 1][0]
  }

  lemma ApexStep<T>(f: (T, T) -> T, s: seq<T>)
    requires |s| > 1
    ensures Apex(f, s) == Apex(f, PairUp(f, s))
  {
    var levels := Levels(f, PairUp(f, s));
    assert Levels(f, s) == [s] + levels;
    assert ([s] + levels)[|levels|] == levels[|levels| - 1];
  }

  function Pow2(n: nat): nat {
    if n == 0 then 1 else 2 * Pow2(n - 1)
  }

  /** k is the ceiling of log2 n. */
  predicate IsCeilLog2(k: nat, n: nat) {
    n <= Pow2(k) && (k > 0 ==> Pow2(k - 1) < n)
  }

  lemma {:induction false} LevelCount<T>(f: (T, T) -> T, s: seq<T>)
    requires |s| > 0
    ensures IsCeilLog2(|Levels(f, s)| - 1, |s|)
    decreases |s|
  {
    if |s| > 1 {
      LevelCount(f, PairUp(f, s));
      var k := |Levels(f, PairUp(f, s))| - 1;
      assert |Levels(f, s)| - 1 == k + 1;
    }
  }

  /** The odd one of three nodes is joined last, unchanged. */
  lemma ApexOfThree<T>(f: (T, T) -> T, a: T, b: T, c: T)
    ensures Apex(f, [a, b, c]) == f(f(a, b), c)
  {
    assert [a, b, c][2..] == [c];
    assert PairUp(f, [a, b, c]) == [f(a, b), c];
    assert [f(a, b), c][2..] == [];
    assert PairUp(f, [f(a, b), c]) == [f(f(a, b), c)];
    ApexStep(f, [a, b, c]);
    ApexStep(f, [f(a, b), c]);
  }

  // ----- building

  function LeafHashes(h: Hash, leaves: seq<Leaf>): (r: seq<Digest>)
    ensures |r| == |leaves|
  {
    seq(|leaves|, i requires 0 <= i < |leaves| => LeafHash(h, leaves[i]))
  }

  function Node(h: Hash): (Digest, Digest) -> Digest {
    (l, r) => NodeHash(h, l, r)
  }

  function Positions(leaves: seq<Leaf>): map<Bytes, nat> {
    if leaves == [] then map[]
    else Positions(leaves[..|leaves| - 1])[Key(leaves[|leaves| - 1]) := |leaves| - 1]
  }

  lemma {:induction false} PositionsAt(leaves: seq<Leaf>)
    requires DistinctKeys(leaves, Key)
    ensures forall i :: 0 <= i < |leaves| ==> Key(leaves[i]) in Positions(leaves) && Positions(leaves)[Key(leaves[i])] == i
    ensures forall k :: k in Positions(leaves) ==> Positions(leaves)[k] < |leaves| && Key(leaves[Positions(leaves)[k]]) == k
  {
    if leaves != [] {
      var front := leaves[..|leaves| - 1];
      PositionsAt(front);
      forall i | 0 <= i < |leaves|
        ensures Key(leaves[i]) in Positions(leaves) && Positions(leaves)[Key(leaves[i])] == i
      {
        if i < |front| { assert front[i] == leaves[i]; }
      }
    }
  }

  /** What Build returns. */
  function BuildOf(h: Hash, leaves: seq<Leaf>): BuildResult {
    var sorted := SortBy(leaves, Key);
    if leaves == [] then NoLeaves
    else if !DistinctKeys(sorted, Key) then DuplicateKey
    else Built(Tree(Levels(Node(h), LeafHashes(h, sorted)), Positions(sorted)))
  }

  function Root(t: Tree): Digest
    requires |t.levels| > 0 && |t.levels[|t.levels| - 1]| > 0
  {
    t.levels[|t.levels| - 1][0]
  }

  method Build(h: Hash, leaves: seq<Leaf>) returns (r: BuildResult)
    ensures r == BuildOf(h, leaves)
  {
    if |leaves| == 0 {
      return NoLeaves;
    }
    var sorted := SortBy(leaves, Key);
    var distinct, index, level0 := IndexLeaves(h, sorted);
    if !distinct {
      return DuplicateKey;
    }
    var levels := GrowLevels(h, level0);
    return Built(Tree(levels, index));
  }

  method GrowLevels(h: Hash, level0: seq<Digest>) returns (levels: seq<seq<Digest>>)
    requires |level0| > 0
    ensures levels == Levels(Node(h), level0)
  {
    levels := [level0];
    var cur := level0;
    while |cur| > 1
      invariant |cur| > 0
      invariant levels + Levels(Node(h), cur)[1..] == Levels(Node(h), level0)
      decreases |cur|
    {
      var next := NextLevel(h, cur);
      LevelsUnfold(Node(h), levels, cur);
      levels := levels + [next];
      cur := next;
    }
    assert levels + [] == levels;
  }

  lemma LevelsUnfold<T>(f: (T, T) -> T, below: seq<seq<T>>, cur: seq<T>)
    requires |cur| > 1
    ensures below + Levels(f, cur)[1..] == (below + [PairUp(f, cur)]) + Levels(f, PairUp(f, cur))[1..]
  {
    var next := PairUp(f, cur);
    assert Levels(f, cur)[1..] == Levels(f, next) == [next] + Levels(f, next)[1..];
  }

  lemma LeafHashesSnoc(h: Hash, leaves: seq<Leaf>, l: Leaf)
    ensures LeafHashes(h, leaves + [l]) == LeafHashes(h, leaves) + [LeafHash(h, l)]
  {
    var whole, front := LeafHashes(h, leaves + [l]), LeafHashes(h, leaves);
    forall i | 0 <= i < |whole| ensures whole[i] == (front + [LeafHash(h, l)])[i] {
      assert whole[i] == LeafHash(h, (leaves + [l])[i]);
    }
  }

  lemma PositionsSnoc(leaves: seq<Leaf>, l: Leaf)
    ensures Positions(leaves + [l]) == Positions(leaves)[Key(l) := |leaves|]
  {
    assert (leaves + [l])[..|leaves|] == leaves;
  }

  method IndexLeaves(h: Hash, sorted: seq<Leaf>) returns (distinct: bool, index: map<Bytes, nat>, level0: seq<Digest>)
    ensures distinct <==> DistinctKeys(sorted, Key)
    ensures distinct ==> index == Positions(sorted) && level0 == LeafHashes(h, sorted)
  {
    index, level0 := map[], [];
    for i := 0 to |sorted|
      invariant DistinctKeys(sorted[..i], Key)
      invariant index == Positions(sorted[..i])
      invariant level0 == LeafHashes(h, sorted[..i])
    {
      var key := Key(sorted[i]);
      assert sorted[..i + 1] == sorted[..i] + [sorted[i]];
      PositionsAt(sorted[..i]);
      if key in index {
        assert sorted[..i][index[key]] == sorted[index[key]];
        return false, index, level0;
      }
      DistinctSnoc(sorted[..i], sorted[i], Key);
      LeafHashesSnoc(h, sorted[..i], sorted[i]);
      PositionsSnoc(sorted[..i], sorted[i]);
      index := index[key := i];
      level0 := level0 + [LeafHash(h, sorted[i])];
    }
    assert sorted[..|sorted|] == sorted;
    return true, index, level0;
  }

  method NextLevel(h: Hash, cur: seq<Digest>) returns (next: seq<Digest>)
    ensures next == PairUp(Node(h), cur)
  {
    next := [];
    var i := 0;
    while i < |cur|
      invariant 0 <= i <= |cur|
      invariant next + PairUp(Node(h), cur[i..]) == PairUp(Node(h), cur)
    {
      if i + 1 < |cur| {
        assert cur[i..][2..] == cur[i + 2..];
        assert PairUp(Node(h), cur[i..]) == [NodeHash(h, cur[i], cur[i + 1])] + PairUp(Node(h), cur[i + 2..]);
        next := next + [NodeHash(h, cur[i], cur[i + 1])];
        i := i + 2;
      } else {
        assert cur[i..] == [cur[i]] && cur[i + 1..] == [];
        next := next + [cur[i]]; // an odd node moves to the next level as it is
        i := i + 1;
      }
    }
  }

  // ----- proofs

  function StepAt(level: seq<Digest>, idx: nat): ProofStep
    requires idx < |level|
  {
    if idx % 2 == 1 then ProofStep(level[idx - 1], true, false)
    else if idx + 1 < |level| then ProofStep(level[idx + 1], false, false)
    else ProofStep(ZERO_DIGEST, false, true)
  }

  /** Each level is made from the one below it, up to a single node. */
  ghost predicate Ladder<T>(f: (T, T) -> T, levels: seq<seq<T>>) {
    && |levels| > 0
    && |levels[|levels| - 1]| == 1
    && forall i :: 0 <= i < |levels| - 1 ==> levels[i + 1] == PairUp(f, levels[i])
  }

  lemma {:induction false} LevelsLadder<T>(f: (T, T) -> T, s: seq<T>)
    requires |s| > 0
    ensures Ladder(f, Levels(f, s))
    decreases |s|
  {
    if |s| > 1 {
      LevelsLadder(f, PairUp(f, s));
    }
  }

  predicate Halving(levels: seq<seq<Digest>>) {
    && |levels| > 0
    && forall i :: 0 <= i < |levels| - 1 ==> |levels[i + 1]| == (|levels[i]| + 1) / 2
  }

  function ProofSteps(levels: seq<seq<Digest>>, lvl: nat, idx: nat): (steps: seq<ProofStep>)
    requires Halving(levels) && lvl < |levels| && idx < |levels[lvl]|
    ensures |steps| == |levels| - 1 - lvl
    decreases |levels| - lvl
  {
    if lvl == |levels| - 1 then []
    else
      assert |levels[lvl + 1]| == (|levels[lvl]| + 1) / 2;
      [StepAt(levels[lvl], idx)] + ProofSteps(levels, lvl + 1, idx / 2)
  }

  function Halved(idx: nat, k: nat): nat {
    if k == 0 then idx else Halved(idx / 2, k - 1)
  }

  /** s stands beside position p of a level: its other half on the proper side, or a carry for the last of an odd number. */
  predicate Beside(s: ProofStep, level: seq<Digest>, p: nat)
    requires p < |level|
  {
    if p % 2 == 0 && p == |level| - 1 then s.carry
    else !s.carry && s.left == (p % 2 == 1) && s.hash == level[if p % 2 == 1 then p - 1 else p + 1]
  }

  /** The k-th step belongs beside the position that is halved k times, on the k-th level. */
  lemma {:induction false} StepsAreSiblings(levels: seq<seq<Digest>>, lvl: nat, idx: nat, k: nat)
    requires Halving(levels) && lvl + k < |levels| - 1 && idx < |levels[lvl]|
    ensures Halved(idx, k) < |levels[lvl + k]|
    ensures Beside(ProofSteps(levels, lvl, idx)[k], levels[lvl + k], Halved(idx, k))
    decreases k
  {
    if k > 0 {
      assert |levels[lvl + 1]| == (|levels[lvl]| + 1) / 2;
      StepsAreSiblings(levels, lvl + 1, idx / 2, k - 1);
    }
  }

  predicate WellBuilt(t: Tree) {
    Halving(t.levels) && forall k :: k in t.index ==> t.index[k] < |t.levels[0]|
  }

  function ProofOf(t: Tree, key: Bytes): ProofResult
    requires WellBuilt(t)
  {
    if key in t.index then Proof(ProofSteps(t.levels, 0, t.index[key])) else NoSuchLeaf
  }

  method ProofFor(t: Tree, key: Bytes) returns (r: ProofResult)
    requires WellBuilt(t)
    ensures r == ProofOf(t, key)
  {
    if key !in t.index {
      return NoSuchLeaf;
    }
    var idx: nat := t.index[key];
    var steps: seq<ProofStep> := [];
    ghost var all := ProofSteps(t.levels, 0, idx);
    var lvl := 0;
    while lvl < |t.levels| - 1
      invariant 0 <= lvl <= |t.levels| - 1
      invariant idx < |t.levels[lvl]|
      invariant steps + ProofSteps(t.levels, lvl, idx) == all
    {
      var level := t.levels[lvl];
      assert |t.levels[lvl + 1]| == (|level| + 1) / 2;
      var step :=
        if idx % 2 == 1 then ProofStep(level[idx - 1], true, false)
        else if idx + 1 < |level| then ProofStep(level[idx + 1], false, false)
        else ProofStep(ZERO_DIGEST, false, true);
      assert steps + ([step] + ProofSteps(t.levels, lvl + 1, idx / 2)) == (steps + [step]) + ProofSteps(t.levels, lvl + 1, idx / 2);
      steps := steps + [step];
      idx := idx / 2;
      lvl := lvl + 1;
    }
    return Proof(steps);
  }

  function Climb(h: Hash, cur: Digest, s: ProofStep): Digest {
    if s.carry then cur
    else if s.left then NodeHash(h, s.hash, cur)
    else NodeHash(h, cur, s.hash)
  }

  function ClimbAll(h: Hash, cur: Digest, steps: seq<ProofStep>): Digest {
    if steps == [] then cur
    else Climb(h, ClimbAll(h, cur, steps[..|steps| - 1]), steps[|steps| - 1])
  }

  predicate Verifies(h: Hash, leaf: Leaf, steps: seq<ProofStep>, root: Digest) {
    ClimbAll(h, LeafHash(h, leaf), steps) == root
  }

  method VerifyProof(h: Hash, leaf: Leaf, steps: seq<ProofStep>, root: Digest) returns (ok: bool)
    ensures ok == Verifies(h, leaf, steps, root)
  {
    var cur := LeafHash(h, leaf);
    for i := 0 to |steps|
      invariant cur == ClimbAll(h, LeafHash(h, leaf), steps[..i])
    {
      assert steps[..i + 1][..i] == steps[..i];
      if !steps[i].carry {
        if steps[i].left {
          cur := NodeHash(h, steps[i].hash, cur);
        } else {
          cur := NodeHash(h, cur, steps[i].hash);
        }
      }
    }
    assert steps[..|steps|] == steps;
    return cur == root;
  }

  // ----- completeness

  lemma {:induction false} ClimbAllFront(h: Hash, cur: Digest, s: ProofStep, steps: seq<ProofStep>)
    ensures ClimbAll(h, cur, [s] + steps) == ClimbAll(h, Climb(h, cur, s), steps)
  {
    if steps == [] {
      assert ([s] + steps)[..0] == [];
    } else {
      var front := steps[..|steps| - 1];
      ClimbAllFront(h, cur, s, front);
      assert ([s] + steps)[..|steps|] == [s] + front;
    }
  }

  /** At every level the running hash is the node at the halved index, so the climb ends at the single top node. */
  lemma {:induction false} ClimbReachesTop(h: Hash, levels: seq<seq<Digest>>, lvl: nat, idx: nat)
    requires Ladder(Node(h), levels) && Halving(levels)
    requires lvl < |levels| && idx < |levels[lvl]|
    ensures ClimbAll(h, levels[lvl][idx], ProofSteps(levels, lvl, idx)) == levels[|levels| - 1][0]
    decreases |levels| - lvl
  {
    if lvl < |levels| - 1 {
      var s, next := levels[lvl], levels[lvl + 1];
      assert next == PairUp(Node(h), s);
      PairUpAt(Node(h), s, idx / 2);
      assert Climb(h, s[idx], StepAt(s, idx)) == next[idx / 2];
      ClimbAllFront(h, s[idx], StepAt(s, idx), ProofSteps(levels, lvl + 1, idx / 2));
      ClimbReachesTop(h, levels, lvl + 1, idx / 2);
    }
  }

  /** Every accepted leaf has a proof that verifies, of length exactly the ceiling of log2 of the leaf count. */
  lemma Completeness(h: Hash, leaves: seq<Leaf>, leaf: Leaf)
    requires BuildOf(h, leaves).Built? && leaf in leaves
    ensures var t := BuildOf(h, leaves).tree;
            && WellBuilt(t)
            && ProofOf(t, Key(leaf)).Proof?
            && Verifies(h, leaf, ProofOf(t, Key(leaf)).steps, Root(t))
            && IsCeilLog2(|ProofOf(t, Key(leaf)).steps|, |leaves|)
  {
    var sorted := SortBy(leaves, Key);
    MembersOf(sorted, leaves);
    var i :| 0 <= i < |sorted| && sorted[i] == leaf;
    PositionsAt(sorted);
    var level0 := LeafHashes(h, sorted);
    LevelsLadder(Node(h), level0);
    LevelCount(Node(h), level0);
    ClimbReachesTop(h, Levels(Node(h), level0), 0, i);
  }

  /** A tree has a proof for exactly the keys of its leaves. */
  lemma ProofsForLeavesOnly(h: Hash, leaves: seq<Leaf>, key: Bytes)
    requires BuildOf(h, leaves).Built?
    ensures WellBuilt(BuildOf(h, leaves).tree)
    ensures ProofOf(BuildOf(h, leaves).tree, key).Proof? <==> exists l :: l in leaves && Key(l) == key
  {
    var sorted := SortBy(leaves, Key);
    MembersOf(sorted, leaves);
    PositionsAt(sorted);
    LevelsLadder(Node(h), LeafHashes(h, sorted));
    if key in Positions(sorted) {
      assert sorted[Positions(sorted)[key]] in leaves;
    }
    if l :| l in leaves && Key(l) == key {
      var i :| 0 <= i < |sorted| && sorted[i] == l;
    }
  }

  // ----- the tree behind the digests

  datatype HashTree = Lf(leaf: Leaf) | Nd(left: HashTree, right: HashTree)

  function DigestOf(h: Hash, t: HashTree): Digest {
    match t
    case Lf(l) => LeafHash(h, l)
    case Nd(l, r) => NodeHash(h, DigestOf(h, l), DigestOf(h, r))
  }

  function LeavesOf(t: HashTree): seq<Leaf> {
    match t
    case Lf(l) => [l]
    case Nd(l, r) => LeavesOf(l) + LeavesOf(r)
  }

  /** Everything that is hashed to compute the digest of t. */
  function TreeInputs(h: Hash, t: HashTree): set<Bytes> {
    match t
    case Lf(l) => {LeafInput(l)}
    case Nd(l, r) => {NodeInput(DigestOf(h, l), DigestOf(h, r))} + TreeInputs(h, l) + TreeInputs(h, r)
  }

  /** Everything that VerifyProof hashes. */
  function ProofInputs(h: Hash, leaf: Leaf, steps: seq<ProofStep>): set<Bytes> {
    if steps == [] then {LeafInput(leaf)}
    else
      var front, s := steps[..|steps| - 1], steps[|steps| - 1];
      var cur := ClimbAll(h, LeafHash(h, leaf), front);
      ProofInputs(h, leaf, front) +
      (if s.carry then {} else if s.left then {NodeInput(s.hash, cur)} else {NodeInput(cur, s.hash)})
  }

  /** A collision between an input of a and an input of b. */
  ghost predicate Collision(h: Hash, a: set<Bytes>, b: set<Bytes>) {
    exists x, y :: x in a && y in b && x != y && h(x) == h(y)
  }

  function Join(l: HashTree, r: HashTree): HashTree { Nd(l, r) }

  function Forest(leaves: seq<Leaf>): (r: seq<HashTree>)
    ensures |r| == |leaves|
  {
    seq(|leaves|, i requires 0 <= i < |leaves| => Lf(leaves[i]))
  }

  function Digests(h: Hash, ts: seq<HashTree>): (r: seq<Digest>)
    ensures |r| == |ts|
  {
    seq(|ts|, i requires 0 <= i < |ts| => DigestOf(h, ts[i]))
  }

  lemma {:induction false} PairUpDigests(h: Hash, ts: seq<HashTree>)
    ensures Digests(h, PairUp(Join, ts)) == PairUp(Node(h), Digests(h, ts))
  {
    if |ts| >= 2 {
      PairUpDigests(h, ts[2..]);
      assert Digests(h, ts)[2..] == Digests(h, ts[2..]);
      assert PairUp(Join, ts) == [Nd(ts[0], ts[1])] + PairUp(Join, ts[2..]);
      assert Digests(h, PairUp(Join, ts)) == [DigestOf(h, Nd(ts[0], ts[1]))] + Digests(h, PairUp(Join, ts[2..]));
    }
  }

  lemma {:induction false} ApexDigest(h: Hash, ts: seq<HashTree>)
    requires |ts| > 0
    ensures Apex(Node(h), Digests(h, ts)) == DigestOf(h, Apex(Join, ts))
    decreases |ts|
  {
    if |ts| > 1 {
      PairUpDigests(h, ts);
      ApexDigest(h, PairUp(Join, ts));
      ApexStep(Join, ts);
      ApexStep(Node(h), Digests(h, ts));
    }
  }

  function Leaves(ts: seq<HashTree>): seq<Leaf> {
    if ts == [] then [] else LeavesOf(ts[0]) + Leaves(ts[1..])
  }

  lemma {:induction false} PairUpLeaves(ts: seq<HashTree>)
    ensures Leaves(PairUp(Join, ts)) == Leaves(ts)
  {
    if |ts| >= 2 {
      PairUpLeaves(ts[2..]);
      assert ts[1..][1..] == ts[2..];
      assert PairUp(Join, ts)[1..] == PairUp(Join, ts[2..]);
      assert Leaves(ts) == LeavesOf(ts[0]) + (LeavesOf(ts[1]) + Leaves(ts[2..]));
    }
  }

  lemma {:induction false} ApexLeaves(ts: seq<HashTree>)
    requires |ts| > 0
    ensures LeavesOf(Apex(Join, ts)) == Leaves(ts)
    decreases |ts|
  {
    if |ts| > 1 {
      PairUpLeaves(ts);
      ApexLeaves(PairUp(Join, ts));
      ApexStep(Join, ts);
    } else {
      assert ts[1..] == [];
      assert Levels(Join, ts) == [ts];
    }
  }

  lemma {:induction false} ForestLeaves(leaves: seq<Leaf>)
    ensures Leaves(Forest(leaves)) == leaves
  {
    if leaves != [] {
      ForestLeaves(leaves[1..]);
      assert Forest(leaves)[1..] == Forest(leaves[1..]);
      assert leaves == [leaves[0]] + leaves[1..];
    }
  }

  /** The tree that Build's root stands for. */
  function TreeOf(leaves: seq<Leaf>): HashTree
    requires leaves != []
  {
    Apex(Join, Forest(SortBy(leaves, Key)))
  }

  lemma ForestDigest(h: Hash, leaves: seq<Leaf>)
    requires leaves != []
    ensures Apex(Node(h), LeafHashes(h, leaves)) == DigestOf(h, Apex(Join, Forest(leaves)))
  {
    ApexDigest(h, Forest(leaves));
    assert Digests(h, Forest(leaves)) == LeafHashes(h, leaves);
  }

  /** Build's root is the digest of a tree that holds exactly the sorted leaves, in order. */
  lemma RootStandsForLeaves(h: Hash, leaves: seq<Leaf>)
    requires BuildOf(h, leaves).Built?
    ensures Root(BuildOf(h, leaves).tree) == DigestOf(h, TreeOf(leaves))
    ensures LeavesOf(TreeOf(leaves)) == SortBy(leaves, Key)
  {
    var sorted := SortBy(leaves, Key);
    ForestDigest(h, sorted);
    ApexLeaves(Forest(sorted));
    ForestLeaves(sorted);
  }

  // ----- soundness and binding

  ghost predicate AllEncodable(t: HashTree) {
    forall l :: l in LeavesOf(t) ==> Encodable(l)
  }

  lemma Collide(h: Hash, a: set<Bytes>, b: set<Bytes>, x: Bytes, y: Bytes)
    requires x in a && y in b && x != y && h(x) == h(y)
    ensures Collision(h, a, b)
  {
  }

  /** Descend from an accepted root to the leaf, comparing the inputs of the proof with those of the tree. */
  lemma {:induction false} ProofDescends(h: Hash, leaf: Leaf, steps: seq<ProofStep>, t: HashTree)
    requires Encodable(leaf) && AllEncodable(t)
    requires ClimbAll(h, LeafHash(h, leaf), steps) == DigestOf(h, t)
    ensures leaf in LeavesOf(t) || Collision(h, ProofInputs(h, leaf, steps), TreeInputs(h, t))
  {
    var P, T := ProofInputs(h, leaf, steps), TreeInputs(h, t);
    if steps == [] {
      match t
      case Lf(l) =>
        if LeafInput(leaf) == LeafInput(l) { LeafInputInjective(leaf, l); }
        else { Collide(h, P, T, LeafInput(leaf), LeafInput(l)); }
      case Nd(l, r) =>
        var y := NodeInput(DigestOf(h, l), DigestOf(h, r));
        assert LeafInput(leaf)[0] == 0 && y[0] == 1;
        Collide(h, P, T, LeafInput(leaf), y);
    } else {
      var front, s := steps[..|steps| - 1], steps[|steps| - 1];
      var cur := ClimbAll(h, LeafHash(h, leaf), front);
      if s.carry {
        ProofDescends(h, leaf, front, t);
      } else {
        var x := if s.left then NodeInput(s.hash, cur) else NodeInput(cur, s.hash);
        match t
        case Lf(l) =>
          assert x[0] == 1 && LeafInput(l)[0] == 0;
          Collide(h, P, T, x, LeafInput(l));
        case Nd(l, r) =>
          var dl, dr := DigestOf(h, l), DigestOf(h, r);
          if x != NodeInput(dl, dr) {
            Collide(h, P, T, x, NodeInput(dl, dr));
          } else if s.left {
            NodeInputInjective(s.hash, cur, dl, dr);
            ProofDescends(h, leaf, front, r);
          } else {
            NodeInputInjective(cur, s.hash, dl, dr);
            ProofDescends(h, leaf, front, l);
          }
      }
    }
  }

  /** Soundness: a proof accepted against Build's root is for a committed leaf, or it exhibits a hash collision. */
  lemma Soundness(h: Hash, leaves: seq<Leaf>, leaf: Leaf, steps: seq<ProofStep>)
    requires BuildOf(h, leaves).Built?
    requires Encodable(leaf) && forall l :: l in leaves ==> Encodable(l)
    requires Verifies(h, leaf, steps, Root(BuildOf(h, leaves).tree))
    ensures leaf in leaves || Collision(h, ProofInputs(h, leaf, steps), TreeInputs(h, TreeOf(leaves)))
  {
    RootStandsForLeaves(h, leaves);
    MembersOf(SortBy(leaves, Key), leaves);
    ProofDescends(h, leaf, steps, TreeOf(leaves));
  }

  lemma {:induction false} EqualDigests(h: Hash, s: HashTree, t: HashTree)
    requires AllEncodable(s) && AllEncodable(t)
    requires DigestOf(h, s) == DigestOf(h, t)
    ensures s == t || Collision(h, TreeInputs(h, s), TreeInputs(h, t))
  {
    var S, T := TreeInputs(h, s), TreeInputs(h, t);
    match (s, t)
    case (Lf(a), Lf(b)) =>
      if LeafInput(a) == LeafInput(b) { LeafInputInjective(a, b); }
      else { Collide(h, S, T, LeafInput(a), LeafInput(b)); }
    case (Lf(a), Nd(l, r)) =>
      var y := NodeInput(DigestOf(h, l), DigestOf(h, r));
      assert LeafInput(a)[0] == 0 && y[0] == 1;
      Collide(h, S, T, LeafInput(a), y);
    case (Nd(l, r), Lf(b)) =>
      var x := NodeInput(DigestOf(h, l), DigestOf(h, r));
      assert LeafInput(b)[0] == 0 && x[0] == 1;
      Collide(h, S, T, x, LeafInput(b));
    case (Nd(l, r), Nd(l', r')) =>
      var x, y := NodeInput(DigestOf(h, l), DigestOf(h, r)), NodeInput(DigestOf(h, l'), DigestOf(h, r'));
      if x != y {
        Collide(h, S, T, x, y);
      } else {
        NodeInputInjective(DigestOf(h, l), DigestOf(h, r), DigestOf(h, l'), DigestOf(h, r'));
        EqualDigests(h, l, l');
        EqualDigests(h, r, r');
      }
  }

  /** Binding: equal roots come from the same sorted leaves, whatever the two sizes, or the two trees exhibit a collision. */
  lemma RootBinding(h: Hash, xs: seq<Leaf>, ys: seq<Leaf>)
    requires BuildOf(h, xs).Built? && BuildOf(h, ys).Built?
    requires forall l :: l in xs || l in ys ==> Encodable(l)
    requires Root(BuildOf(h, xs).tree) == Root(BuildOf(h, ys).tree)
    ensures SortBy(xs, Key) == SortBy(ys, Key) || Collision(h, TreeInputs(h, TreeOf(xs)), TreeInputs(h, TreeOf(ys)))
  {
    RootStandsForLeaves(h, xs);
    RootStandsForLeaves(h, ys);
    MembersOf(SortBy(xs, Key), xs);
    MembersOf(SortBy(ys, Key), ys);
    EqualDigests(h, TreeOf(xs), TreeOf(ys));
  }

  /** The result of Build, root and error case included, does not depend on the order of the leaves. */
  lemma BuildIgnoresOrder(h: Hash, xs: seq<Leaf>, ys: seq<Leaf>)
    requires multiset(xs) == multiset(ys)
    ensures BuildOf(h, xs) == BuildOf(h, ys)
  {
    assert |multiset(xs)| == |xs| && |multiset(ys)| == |ys|;
    var a, b := SortBy(xs, Key), SortBy(ys, Key);
    if DistinctKeys(a, Key) {
      DistinctPermuted(a, xs, Key);
      SortUnique(xs, ys, Key);
    } else if DistinctKeys(b, Key) {
      DistinctPermuted(b, a, Key);
    }
  }

  /** Build succeeds exactly on non-empty lists without two equal keys. */
  lemma BuildSucceedsIff(h: Hash, leaves: seq<Leaf>)
    ensures BuildOf(h, leaves).Built? <==> leaves != [] && DistinctKeys(leaves, Key)
    ensures BuildOf(h, leaves).NoLeaves? <==> leaves == []
  {
    var sorted := SortBy(leaves, Key);
    if DistinctKeys(leaves, Key) { DistinctPermuted(leaves, sorted, Key); }
    if DistinctKeys(sorted, Key) { DistinctPermuted(sorted, leaves, Key); }
  }
}
