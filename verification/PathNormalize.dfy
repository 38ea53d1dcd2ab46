/**
 sb_normalize_path of sandbox/common/path.c: a scan pushes and pops path segments,
 then the kept segments are written into a buffer of fixed size.
 */
module PathNormalize {
  import opened Bytes
  import opened Sequences

  const SLASH: byte := 47
  const DOT: byte := 46

  // ----- the meaning: fold a stack over the slash-separated parts

  function Push(stack: seq<Bytes>, part: Bytes): seq<Bytes> {
    if part == [] || part == [DOT] then stack
    else if part == [DOT, DOT] then (if stack == [] then [] else stack[..|stack| - 1])
    else stack + [part]
  }

  /** The parts between the slashes, empty ones included. */
  function Parts(p: Bytes): seq<Bytes>
    decreases |p|
  {
    if SLASH in p then [p[..SegmentLength(p)]] + Parts(p[SegmentLength(p) + 1..]) else [p]
  }

  function Fold(parts: seq<Bytes>, stack: seq<Bytes>): seq<Bytes> {
    if parts == [] then stack else Fold(parts[1..], Push(stack, parts[0]))
  }

  /** The normalised segments of a path. */
  function Normal(path: Bytes): seq<Bytes> {
    Fold(Parts(path), [])
  }

  /** The rooted path of a list of segments. */
  function Rooted(stack: seq<Bytes>): Bytes {
    if stack == [] then [SLASH] else Slashed(stack)
  }

  function Slashed(stack: seq<Bytes>): Bytes {
    if stack == [] then [] else Slashed(stack[..|stack| - 1]) + [SLASH] + stack[|stack| - 1]
  }

  // ----- the scan

  function SegmentLength(p: Bytes): (n: nat)
    ensures n <= |p|
    ensures n < |p| ==> p[n] == SLASH
    ensures n < |p| <==> SLASH in p
    ensures SLASH !in p[..n]
  {
    if p == [] || p[0] == SLASH then 0 else 1 + SegmentLength(p[1..])
  }

  function DropSlashes(p: Bytes): (r: Bytes)
    ensures |r| <= |p|
    ensures p != [] && p[0] == SLASH ==> |r| < |p|
  {
    if p != [] && p[0] == SLASH then DropSlashes(p[1..]) else p
  }

  /** The scan of the source: segments are separated by runs of slashes. */
  function Scan(p: Bytes, stack: seq<Bytes>): seq<Bytes>
    decreases |p|
  {
    if p == [] then stack
    else Scan(DropSlashes(p[SegmentLength(p)..]), Push(stack, p[..SegmentLength(p)]))
  }

  /** The deepest stack during the scan. */
  function Peak(p: Bytes, stack: seq<Bytes>): nat
    decreases |p|
  {
    if p == [] then |stack|
    else
      var next := Push(stack, p[..SegmentLength(p)]);
      var deeper := Peak(DropSlashes(p[SegmentLength(p)..]), next);
      if deeper < |stack| then |stack| else deeper
  }

  lemma {:induction false} PartsOfSlash(p: Bytes)
    requires p != [] && p[0] == SLASH
    ensures Parts(p) == [[]] + Parts(p[1..])
  {
  }

  /** Leading slashes only contribute empty parts. */
  lemma {:induction false} FoldDropsSlashes(p: Bytes, stack: seq<Bytes>)
    ensures Fold(Parts(p), stack) == Fold(Parts(DropSlashes(p)), stack)
    decreases |p|
  {
    if p != [] && p[0] == SLASH {
      PartsOfSlash(p);
      assert ([[]] + Parts(p[1..]))[1..] == Parts(p[1..]);
      FoldDropsSlashes(p[1..], stack);
    }
  }

  /** The scan computes the stack fold. */
  lemma {:induction false} ScanIsFold(p: Bytes, stack: seq<Bytes>)
    ensures Scan(p, stack) == Fold(Parts(p), stack)
    decreases |p|
  {
    var n := SegmentLength(p);
    var next := Push(stack, p[..n]);
    if p == [] {
      assert Parts(p) == [p];
      assert Fold(Parts(p)[1..], stack) == stack;
    } else if n == |p| {
      assert p[..n] == p && p[n..] == [];
      assert Parts(p) == [p];
      assert Fold(Parts(p)[1..], next) == next;
    } else {
      ScanIsFold(DropSlashes(p[n..]), next);
      FoldDropsSlashes(p[n..], next);
      PartsOfSlash(p[n..]);
      assert p[n..][1..] == p[n + 1..];
      assert ([[]] + Parts(p[n + 1..]))[1..] == Parts(p[n + 1..]);
      assert ([p[..n]] + Parts(p[n + 1..]))[1..] == Parts(p[n + 1..]);
    }
  }

  // ----- normal segments

  predicate IsSegment(s: Bytes) {
    s != [] && s != [DOT] && s != [DOT, DOT] && SLASH !in s
  }

  predicate AllSegments(stack: seq<Bytes>) {
    forall i :: 0 <= i < |stack| ==> IsSegment(stack[i])
  }

  lemma {:induction false} FoldSegments(parts: seq<Bytes>, stack: seq<Bytes>)
    requires AllSegments(stack) && forall i :: 0 <= i < |parts| ==> SLASH !in parts[i]
    ensures AllSegments(Fold(parts, stack))
  {
    if parts != [] { FoldSegments(parts[1..], Push(stack, parts[0])); }
  }

  lemma {:induction false} PartsHaveNoSlash(p: Bytes)
    ensures forall i :: 0 <= i < |Parts(p)| ==> SLASH !in Parts(p)[i]
    decreases |p|
  {
    if SLASH in p { PartsHaveNoSlash(p[SegmentLength(p) + 1..]); }
  }

  /** The result has no empty, dot or dot-dot segment. */
  lemma NormalSegments(path: Bytes)
    ensures AllSegments(Normal(path))
  {
    PartsHaveNoSlash(path);
    FoldSegments(Parts(path), []);
  }

  lemma {:induction false} PartsAppend(p: Bytes, s: Bytes)
    requires SLASH !in s
    ensures Parts(p + [SLASH] + s) == Parts(p) + [s]
    decreases |p|
  {
    var n := SegmentLength(p);
    SegmentLengthAppend(p, s);
    CutAppend(p, s, n);
    if SLASH in p {
      PartsAppend(p[n + 1..], s);
      Associative([p[..n]], Parts(p[n + 1..]), [s]);
    } else {
      assert p[..n] == p;
      assert Parts(s) == [s];
    }
  }

  lemma CutAppend(p: Bytes, s: Bytes, n: nat)
    requires n <= |p|
    ensures var q := p + [SLASH] + s;
            SLASH in q && q[..n] == p[..n] && q[n + 1..] == if n < |p| then p[n + 1..] + [SLASH] + s else s
  {
    assert (p + [SLASH] + s)[|p|] == SLASH;
  }

  lemma {:induction false} SegmentLengthAppend(p: Bytes, s: Bytes)
    ensures SegmentLength(p + [SLASH] + s) == SegmentLength(p)
  {
    if p != [] && p[0] != SLASH {
      SegmentLengthAppend(p[1..], s);
      assert (p + [SLASH] + s)[1..] == p[1..] + [SLASH] + s;
    }
  }

  lemma {:induction false} FoldSnoc(parts: seq<Bytes>, s: Bytes, stack: seq<Bytes>)
    ensures Fold(parts + [s], stack) == Push(Fold(parts, stack), s)
  {
    if parts == [] {
      assert (parts + [s])[1..] == [];
    } else {
      assert (parts + [s])[1..] == parts[1..] + [s];
      FoldSnoc(parts[1..], s, Push(stack, parts[0]));
    }
  }

  lemma NormalOfEmpty()
    ensures Normal([]) == []
  {
    var parts: seq<Bytes> := [[]];
    assert Parts([]) == parts;
    assert parts[1..] == [];
    assert Fold(parts[1..], []) == [];
  }

  /** A rooted list of segments normalises to itself. */
  lemma {:induction false} NormalOfSlashed(stack: seq<Bytes>)
    requires AllSegments(stack)
    ensures Normal(Slashed(stack)) == stack
  {
    if stack == [] {
      NormalOfEmpty();
    } else {
      var front := stack[..|stack| - 1];
      NormalOfSlashed(front);
      NormalAppend(Slashed(front), stack[|stack| - 1]);
      assert stack == front + [stack[|stack| - 1]];
    }
  }

  lemma NormalAppend(p: Bytes, s: Bytes)
    requires IsSegment(s)
    ensures Normal(p + [SLASH] + s) == Normal(p) + [s]
  {
    PartsAppend(p, s);
    FoldSnoc(Parts(p), s, []);
  }

  /** What one more part does to a path: an empty one or a dot nothing, and a dot-dot takes the last segment away. */
  lemma NormalStep(p: Bytes, s: Bytes)
    ensures Normal(p + [SLASH] + []) == Normal(p) && Normal(p + [SLASH] + [DOT]) == Normal(p)
    ensures Normal(p) == [] ==> Normal(p + [SLASH] + [DOT, DOT]) == []
    ensures IsSegment(s) ==> Normal(p + [SLASH] + s) == Normal(p) + [s]
    ensures IsSegment(s) ==> Normal(p + [SLASH] + s + [SLASH] + [DOT, DOT]) == Normal(p)
  {
    OnePart(p, []);
    OnePart(p, [DOT]);
    OnePart(p, [DOT, DOT]);
    if IsSegment(s) {
      NormalAppend(p, s);
      OnePart(p + [SLASH] + s, [DOT, DOT]);
    }
  }

  lemma OnePart(p: Bytes, s: Bytes)
    requires SLASH !in s
    ensures Normal(p + [SLASH] + s) == Push(Normal(p), s)
  {
    PartsAppend(p, s);
    FoldSnoc(Parts(p), s, []);
  }

  /** Normalising twice changes nothing. */
  lemma NormaliseIdempotent(path: Bytes)
    ensures Normal(Rooted(Normal(path))) == Normal(path)
  {
    NormalSegments(path);
    if Normal(path) == [] {
      NormalOfRoot();
    } else {
      NormalOfSlashed(Normal(path));
    }
  }

  lemma NormalOfRoot()
    ensures Normal([SLASH]) == []
  {
    var root: Bytes := [SLASH];
    assert DropSlashes(root[1..]) == [];
    assert DropSlashes(root) == [];
    FoldDropsSlashes(root, []);
    NormalOfEmpty();
  }

  // ----- the buffer

  /** How many segments are written into size bytes: the first that does not fit ends the output. */
  function Kept(stack: seq<Bytes>, size: nat, i: nat): (k: nat)
    requires i <= |stack|
    ensures i <= k <= |stack|
    decreases |stack| - i
  {
    if i == |stack| || |Rooted(stack[..i])| + |stack[i]| + 2 > size then i
    else Kept(stack, size, i + 1)
  }

  lemma SlashedSnoc(stack: seq<Bytes>, i: nat)
    requires i < |stack|
    ensures Slashed(stack[..i + 1]) == Slashed(stack[..i]) + [SLASH] + stack[i]
    ensures Rooted(stack[..i + 1]) == Slashed(stack[..i]) + [SLASH] + stack[i]
  {
    assert stack[..i + 1][..i] == stack[..i];
  }

  lemma {:induction false} SlashedGrows(stack: seq<Bytes>, i: nat, j: nat)
    requires i <= j <= |stack|
    ensures |Slashed(stack[..i])| + (j - i) <= |Slashed(stack[..j])|
  {
    if i < j {
      SlashedGrows(stack, i, j - 1);
      SlashedSnoc(stack, j - 1);
    }
  }

  lemma {:induction false} KeptAllFrom(stack: seq<Bytes>, size: nat, i: nat)
    requires 0 < i <= |stack|
    ensures Kept(stack, size, i) == |stack| <==> i == |stack| || |Slashed(stack)| + 1 <= size
    decreases |stack| - i
  {
    if i < |stack| {
      SlashedSnoc(stack, i);
      SlashedGrows(stack, i + 1, |stack|);
      assert stack[..|stack|] == stack;
      KeptAllFrom(stack, size, i + 1);
      assert |Slashed(stack[..i])| > 0 by { SlashedSnoc(stack, i - 1); }
    }
  }

  /** The whole path is written exactly when the first segment leaves two spare bytes and the path one. */
  lemma KeptAllIff(stack: seq<Bytes>, size: nat)
    ensures Kept(stack, size, 0) == |stack| <==>
              stack == [] || (|stack[0]| + 3 <= size && |Slashed(stack)| + 1 <= size)
  {
    if stack != [] {
      KeptAllFrom(stack, size, 1);
      SlashedSnoc(stack, 0);
      assert Slashed(stack[..0]) == [];
      SlashedGrows(stack, 1, |stack|);
      assert stack[..|stack|] == stack;
    }
  }

  lemma PushGrowth(stack: seq<Bytes>, part: Bytes)
    ensures |Push(stack, part)| <= |stack| + 1
    ensures |Slashed(Push(stack, part))| <= |Slashed(stack)| + |part| + 1
    ensures part == [] ==> Push(stack, part) == stack
  {
    assert (stack + [part])[..|stack|] == stack;
  }

  lemma {:induction false} ScanGrowth(p: Bytes, stack: seq<Bytes>)
    ensures Peak(p, stack) <= |stack| + |p|
    ensures |Slashed(Scan(p, stack))| <= |Slashed(stack)| + if p == [] then 0 else |p| + 1
    decreases |p|
  {
    if p != [] {
      var n := SegmentLength(p);
      PushGrowth(stack, p[..n]);
      ScanGrowth(DropSlashes(p[n..]), Push(stack, p[..n]));
    }
  }

  /** A buffer three bytes longer than the path always takes the whole result, and the segment array suffices. */
  lemma RoomyBuffer(path: Bytes, size: nat)
    requires size >= |path| + 3
    ensures Peak(path, []) <= size
    ensures Kept(Normal(path), size, 0) == |Normal(path)|
  {
    var stack := Normal(path);
    ScanGrowth(path, []);
    ScanIsFold(path, []);
    KeptAllIff(stack, size);
    if stack != [] {
      SlashedSnoc(stack, 0);
      SlashedGrows(stack, 1, |stack|);
      assert stack[..|stack|] == stack && Slashed(stack[..0]) == [];
    }
  }

  /** Three single-letter segments are too many for a buffer of two bytes. */
  lemma DeepPathOverflows()
    ensures Peak([97, SLASH, 98, SLASH, 99], []) >= 3
  {
    var a, b, c: Bytes := [97], [98], [99];
    var two := [98, SLASH] + c;
    PeakOfFirst([], 97, two);
    PeakOfFirst([] + [a], 98, c);
    PeakOfLast(99, [] + [a] + [b]);
    assert [97, SLASH, 98, SLASH, 99] == [97, SLASH] + two;
  }

  lemma PeakOfLast(c: byte, stack: seq<Bytes>)
    requires c != SLASH && c != DOT
    ensures Peak([c], stack) >= |stack| + 1
  {
    var p: Bytes := [c];
    assert p[1..] == [] && SegmentLength(p[1..]) == 0 && SegmentLength(p) == 1 && p[..1] == p;
    assert |Push(stack, p)| == |stack| + 1;
    PeakAtLeast(DropSlashes(p[1..]), Push(stack, p));
  }

  /** A one-letter segment and a slash: the rest is scanned on top of the letter. */
  lemma PeakOfFirst(stack: seq<Bytes>, c: byte, rest: Bytes)
    requires c != SLASH && c != DOT && (rest != [] ==> rest[0] != SLASH)
    ensures Peak([c, SLASH] + rest, stack) >= Peak(rest, stack + [[c]])
  {
    var p := [c, SLASH] + rest;
    assert p[1..] == [SLASH] + rest && SegmentLength(p[1..]) == 0 && SegmentLength(p) == 1;
    assert p[..1] == [c] && p[1..][1..] == rest;
    assert DropSlashes(p[1..]) == DropSlashes(rest) == rest;
  }

  /** The name "abc" is dropped from a buffer of five bytes, though its rooted path and the terminator fill exactly those. */
  lemma ShortBufferDrops()
    ensures Kept([[97, 98, 99]], 5, 0) == 0 && |Rooted([[97, 98, 99]])| + 1 == 5
  {
    var stack: seq<Bytes> := [[97, 98, 99]];
    assert stack[..0] == [] && Rooted([]) == [SLASH];
    SlashedSnoc(stack, 0);
    assert stack[..1] == stack && Slashed(stack[..0]) == [];
  }

  // ----- the code

  /** Outcomes; the two overflows are where the C code would write outside its memory. */
  datatype Outcome = NoBuffer | SegmentOverflow | TerminatorOverflow | Written(length: nat)

  lemma PeakAtLeast(p: Bytes, stack: seq<Bytes>)
    ensures |stack| <= Peak(p, stack)
  {
  }

  method SegmentEnd(path: Bytes, i: nat) returns (end: nat)
    requires i <= |path|
    ensures end == i + SegmentLength(path[i..])
  {
    end := i;
    while end < |path| && path[end] != SLASH
      invariant i <= end <= |path|
      invariant end + SegmentLength(path[end..]) == i + SegmentLength(path[i..])
    {
      assert path[end..][1..] == path[end + 1..];
      end := end + 1;
    }
  }

  method SkipSlashes(path: Bytes, i: nat) returns (j: nat)
    requires i <= |path|
    ensures i <= j <= |path| && path[j..] == DropSlashes(path[i..])
  {
    j := i;
    while j < |path| && path[j] == SLASH
      invariant i <= j <= |path|
      invariant DropSlashes(path[j..]) == DropSlashes(path[i..])
    {
      assert path[j..][1..] == path[j + 1..];
      j := j + 1;
    }
  }

  /** Pushes or pops for the segment path[p..end]; fails when the array is full. */
  method PushSegment(path: Bytes, p: nat, end: nat, seg: array<Bytes>, nseg: nat) returns (ok: bool, nseg': nat)
    requires p <= end <= |path| && nseg <= seg.Length
    modifies seg
    ensures ok <==> |Push(old(seg[..nseg]), path[p..end])| <= seg.Length
    ensures ok ==> nseg' <= seg.Length && seg[..nseg'] == Push(old(seg[..nseg]), path[p..end])
  {
    var len := end - p;
    nseg' := nseg;
    if len == 0 || (len == 1 && path[p] == DOT) {
    } else if len == 2 && path[p] == DOT && path[p + 1] == DOT {
      assert path[p..end] == [DOT, DOT];
      if nseg > 0 { nseg' := nseg - 1; }
    } else {
      if nseg == seg.Length { return false, nseg; }
      seg[nseg] := path[p..end];
      nseg' := nseg + 1;
    }
    return true, nseg';
  }

  lemma ScanProgress(path: Bytes, p: nat, end: nat, q: nat)
    requires p < |path| && end == p + SegmentLength(path[p..])
    requires end <= q <= |path| && path[q..] == DropSlashes(path[end..])
    ensures p < q
  {
    assert |path[q..]| == |path| - q && |path[end..]| == |path| - end;
  }

  lemma RoundSlices(path: Bytes, p: nat, end: nat)
    requires p <= end <= |path|
    ensures path[p..][..end - p] == path[p..end] && path[p..][end - p..] == path[end..]
  {
  }

  /** One round of the scan keeps the result... */
  lemma ScanRound(path: Bytes, p: nat, end: nat, q: nat, stack: seq<Bytes>)
    requires p < |path| && p <= end <= |path| && end == p + SegmentLength(path[p..])
    requires end <= q <= |path| && path[q..] == DropSlashes(path[end..])
    ensures Scan(path[p..], stack) == Scan(path[q..], Push(stack, path[p..end]))
  {
    RoundSlices(path, p, end);
  }

  lemma PeakStep(path: Bytes, p: nat, end: nat, q: nat, stack: seq<Bytes>)
    requires p < |path| && p <= end <= |path| && end == p + SegmentLength(path[p..])
    requires end <= q <= |path| && path[q..] == DropSlashes(path[end..])
    ensures var deeper := Peak(path[q..], Push(stack, path[p..end]));
            Peak(path[p..], stack) == if deeper < |stack| then |stack| else deeper
  {
    RoundSlices(path, p, end);
  }

  /** ...and the question whether the array is deep enough. */
  lemma PeakRound(path: Bytes, p: nat, end: nat, q: nat, stack: seq<Bytes>, size: nat)
    requires p < |path| && p <= end <= |path| && end == p + SegmentLength(path[p..])
    requires end <= q <= |path| && path[q..] == DropSlashes(path[end..])
    requires |stack| <= size
    ensures var next := Push(stack, path[p..end]);
            && (Peak(path[p..], stack) <= size <==> Peak(path[q..], next) <= size)
            && |next| <= Peak(path[q..], next)
  {
    PeakStep(path, p, end, q, stack);
    PeakAtLeast(path[q..], Push(stack, path[p..end]));
  }

  /** The segment array has as many slots as the output buffer has bytes. */
  method CollectSegments(path: Bytes, seg: array<Bytes>) returns (ok: bool, nseg: nat)
    modifies seg
    ensures ok <==> Peak(path, []) <= seg.Length
    ensures ok ==> nseg <= seg.Length && seg[..nseg] == Normal(path)
  {
    nseg := 0;
    var p := 0;
    ScanIsFold(path, []);
    assert path[0..] == path && seg[..0] == [];
    while p < |path|
      invariant p <= |path| && nseg <= seg.Length
      invariant Scan(path[p..], seg[..nseg]) == Normal(path)
      invariant Peak(path[p..], seg[..nseg]) <= seg.Length <==> Peak(path, []) <= seg.Length
    {
      var end := SegmentEnd(path, p);
      var q := SkipSlashes(path, end);
      ScanProgress(path, p, end, q);
      ScanRound(path, p, end, q, seg[..nseg]);
      PeakRound(path, p, end, q, seg[..nseg], seg.Length);
      ok, nseg := PushSegment(path, p, end, seg, nseg);
      if !ok { return; }
      p := q;
    }
    assert path[p..] == [];
    return true, nseg;
  }

  /** Writes one segment, behind a slash unless it is the first; text is what has been written. */
  method WriteSegment(out: array<byte>, pos: nat, first: bool, s: Bytes, ghost text: Bytes, ghost was: Bytes) returns (pos': nat)
    requires |was| == out.Length && pos == |text| && pos + |s| + 2 <= out.Length
    requires out[..] == text + was[pos..]
    modifies out
    ensures pos' == |text + (if first then [] else [SLASH]) + s| < out.Length
    ensures out[..] == text + (if first then [] else [SLASH]) + s + was[pos'..]
  {
    pos' := pos;
    ghost var done := text;
    if !first {
      CopyInto(out, pos, [SLASH]);
      Overlay(text, was, [SLASH]);
      done := text + [SLASH];
      pos' := pos + 1;
    } else {
      assert text + [] == text;
    }
    CopyInto(out, pos', s);
    Overlay(done, was, s);
    pos' := pos' + |s|;
  }

  lemma Overlay(text: Bytes, was: Bytes, data: Bytes)
    requires |text| + |data| <= |was|
    ensures var now := text + was[|text|..];
            now[..|text|] + data + now[|text| + |data|..] == text + data + was[|text| + |data|..]
  {
  }

  method WriteRoot(out: array<byte>)
    requires out.Length >= 1
    modifies out
    ensures out[..] == [SLASH] + old(out[..])[1..]
  {
    out[0] := SLASH;
  }

  /** Writes '/' and as many segments as fit, then the terminator. */
  method WriteSegments(out: array<byte>, seg: seq<Bytes>) returns (pos: nat)
    requires out.Length >= 2
    modifies out
    ensures var text := Rooted(seg[..Kept(seg, out.Length, 0)]);
            pos == |text| < out.Length && out[..] == text + [0] + old(out[..])[pos + 1..]
  {
    ghost var was := out[..];
    WriteRoot(out);
    ghost var k;
    pos, k := WriteFitting(out, seg, was);
    CopyInto(out, pos, [0]);
    Overlay(Rooted(seg[..k]), was, [0]);
  }

  method WriteFitting(out: array<byte>, seg: seq<Bytes>, ghost was: Bytes) returns (pos: nat, ghost k: nat)
    requires out.Length >= 2 && |was| == out.Length && out[..] == [SLASH] + was[1..]
    modifies out
    ensures k == Kept(seg, out.Length, 0) && pos == |Rooted(seg[..k])| < out.Length
    ensures out[..] == Rooted(seg[..k]) + was[pos..]
  {
    pos := 1;
    var i := 0;
    while i < |seg|
      invariant i <= |seg|
      invariant Kept(seg, out.Length, i) == Kept(seg, out.Length, 0)
      invariant pos == |Rooted(seg[..i])| < out.Length
      invariant out[..] == Rooted(seg[..i]) + was[pos..]
    {
      if pos + |seg[i]| + 2 > out.Length { break; }
      RootedSnoc(seg, i);
      pos := WriteSegment(out, pos, i == 0, seg[i], Rooted(seg[..i]), was);
      i := i + 1;
    }
    k := i;
  }

  lemma RootedSnoc(stack: seq<Bytes>, i: nat)
    requires i < |stack|
    ensures Rooted(stack[..i + 1]) == Rooted(stack[..i]) + (if i == 0 then [] else [SLASH]) + stack[i]
  {
    SlashedSnoc(stack, i);
    assert Slashed(stack[..0]) == [];
  }

  method CopyInto(out: array<byte>, pos: nat, data: Bytes)
    requires pos + |data| <= out.Length
    modifies out
    ensures out[..] == old(out[..])[..pos] + data + old(out[..])[pos + |data|..]
  {
    ghost var was := out[..];
    for j := 0 to |data|
      invariant forall k :: pos <= k < pos + j ==> out[k] == data[k - pos]
      invariant forall k :: 0 <= k < pos || pos + j <= k < out.Length ==> out[k] == was[k]
    {
      out[pos + j] := data[j];
    }
  }

  method NormalizePath(out: array<byte>, path: Bytes) returns (r: Outcome)
    modifies out
    ensures r == NoBuffer <==> out.Length == 0
    ensures r == SegmentOverflow <==> 0 < out.Length < Peak(path, [])
    ensures r == TerminatorOverflow <==> out.Length == 1 && Peak(path, []) <= 1
    ensures r.Written? ==>
              var text := Rooted(Normal(path)[..Kept(Normal(path), out.Length, 0)]);
              && r.length == |text| < out.Length
              && out[..] == text + [0] + old(out[..])[|text| + 1..]
  {
    if out.Length == 0 { return NoBuffer; }
    var seg := new Bytes[out.Length](_ => []);
    var ok, nseg := CollectSegments(path, seg);
    if !ok { return SegmentOverflow; }
    if out.Length == 1 { return TerminatorOverflow; }
    var pos := WriteSegments(out, seg[..nseg]);
    return Written(pos);
  }
}
