/**
 artifactChunks of agentweave/core/extract.go: a text is cut into trimmed bodies of
 bounded length, at a newline where there is a late enough one. Positions in the
 text stand for the slices of it that the source keeps.
 */
module Chunking {
  import opened Bytes
  import opened Sequences

  const NEWLINE: byte := 10
  const DEFAULT_LIMIT: nat := 3200

  datatype Chunk = Chunk(ordinal: nat, body: Bytes)

  // ----- trimming

  predicate IsSpace(b: byte) { b == 32 || 9 <= b <= 13 }

  predicate Blank(s: Bytes) { forall i :: 0 <= i < |s| ==> IsSpace(s[i]) }

  /** The first position from i on without a newline. */
  function SkipNewlines(s: Bytes, i: nat): (n: nat)
    requires i <= |s|
    ensures i <= n <= |s|
    ensures forall j :: i <= j < n ==> s[j] == NEWLINE
    ensures n < |s| ==> s[n] != NEWLINE
    decreases |s| - i
  {
    if i < |s| && s[i] == NEWLINE then SkipNewlines(s, i + 1) else i
  }

  /** The first position of s[i..j] without a space. */
  function SkipFront(s: Bytes, i: nat, j: nat): (n: nat)
    requires i <= j <= |s|
    ensures i <= n <= j
    ensures forall k :: i <= k < n ==> IsSpace(s[k])
    ensures n < j ==> !IsSpace(s[n])
    decreases j - i
  {
    if i < j && IsSpace(s[i]) then SkipFront(s, i + 1, j) else i
  }

  /** The end of s[i..j] without the spaces at its back. */
  function SkipBack(s: Bytes, i: nat, j: nat): (n: nat)
    requires i <= j <= |s|
    ensures i <= n <= j
    ensures forall k :: n <= k < j ==> IsSpace(s[k])
    ensures i < n ==> !IsSpace(s[n - 1])
    decreases j - i
  {
    if i < j && IsSpace(s[j - 1]) then SkipBack(s, i, j - 1) else j
  }

  /** The piece s[i..j] without the spaces around it. */
  function Trimmed(s: Bytes, i: nat, j: nat): Bytes
    requires i <= j <= |s|
  {
    s[SkipFront(s, i, j)..SkipBack(s, SkipFront(s, i, j), j)]
  }

  // ----- where to cut

  /** The last newline in s[i..j], as an offset from i, or -1. */
  function LastNewline(s: Bytes, i: nat, j: nat): (n: int)
    requires i <= j <= |s|
    ensures -1 <= n < j - i
    ensures n >= 0 ==> s[i + n] == NEWLINE
    ensures forall k :: i + n < k < j && i <= k ==> s[k] != NEWLINE
    decreases j - i
  {
    if i == j then -1 else if s[j - 1] == NEWLINE then j - 1 - i else LastNewline(s, i, j - 1)
  }

  /** How much of s[i..] goes into the next piece. */
  function Cut(s: Bytes, i: nat, limit: nat): (n: nat)
    requires i < |s| && limit > 0
    ensures i + n <= |s| && n <= limit
    ensures n == 0 ==> s[i] == NEWLINE
  {
    if |s| - i <= limit then |s| - i
    else
      var n := LastNewline(s, i, i + limit);
      if n < limit / 2 then limit else n
  }

  /** Where the next piece begins. */
  function Next(s: Bytes, i: nat, limit: nat): (n: nat)
    requires i < |s| && limit > 0
    ensures i < n <= |s|
  {
    SkipNewlines(s, i + Cut(s, i, limit))
  }

  function Body(s: Bytes, i: nat, limit: nat): Bytes
    requires i < |s| && limit > 0
  {
    Trimmed(s, i, i + Cut(s, i, limit))
  }

  /** The chunks of s[i..]; an empty body uses up a number but gives no chunk. */
  function Chunks(s: Bytes, i: nat, limit: nat, ordinal: nat): seq<Chunk>
    requires i <= |s| && limit > 0
    decreases |s| - i
  {
    if i == |s| then []
    else
      var later := Chunks(s, Next(s, i, limit), limit, ordinal + 1);
      if Body(s, i, limit) == [] then later else [Chunk(ordinal, Body(s, i, limit))] + later
  }

  function Limit(maxBytes: int): nat { if maxBytes <= 0 then DEFAULT_LIMIT else maxBytes }

  function With(done: seq<Chunk>, ordinal: nat, body: Bytes): seq<Chunk> {
    if body == [] then done else done + [Chunk(ordinal, body)]
  }

  lemma OnePiece(done: seq<Chunk>, s: Bytes, i: nat, limit: nat, ordinal: nat)
    requires i < |s| && limit > 0
    ensures With(done, ordinal, Body(s, i, limit)) + Chunks(s, Next(s, i, limit), limit, ordinal + 1) ==
            done + Chunks(s, i, limit, ordinal)
  {
    Associative(done, [Chunk(ordinal, Body(s, i, limit))], Chunks(s, Next(s, i, limit), limit, ordinal + 1));
  }

  lemma PieceEnd(s: Bytes, i: nat, limit: nat, end: nat)
    requires i < |s| && limit > 0 && end == i + Cut(s, i, limit)
    ensures Trimmed(s, i, end) == Body(s, i, limit) && SkipNewlines(s, end) == Next(s, i, limit)
  {
  }

  method ArtifactChunks(text: Bytes, maxBytes: int) returns (chunks: seq<Chunk>)
    ensures chunks == Chunks(text, 0, if maxBytes > 0 then maxBytes else 3200, 0)
  {
    var limit := Limit(maxBytes);
    var start, ordinal := 0, 0;
    chunks := [];
    ghost var all := Chunks(text, 0, limit, 0);
    ghost var later := all;
    while start < |text|
      invariant start <= |text|
      invariant later == Chunks(text, start, limit, ordinal) && chunks + later == all
      decreases |text| - start
    {
      OnePiece(chunks, text, start, limit, ordinal);
      later := Chunks(text, Next(text, start, limit), limit, ordinal + 1);
      var cut: int := |text| - start;
      if cut > limit {
        cut := LastNewline(text, start, start + limit);
        if cut < limit / 2 { cut := limit; }
      }
      var end: nat := start + cut;
      PieceEnd(text, start, limit, end);
      var body := Trimmed(text, start, end);
      var next := SkipNewlines(text, end);
      if body != [] { chunks := chunks + [Chunk(ordinal, body)]; }
      start, ordinal := next, ordinal + 1;
    }
  }

  // ----- what the chunks are

  predicate GoodBody(b: Bytes, limit: nat) {
    0 < |b| <= limit && !IsSpace(b[0]) && !IsSpace(b[|b| - 1])
  }

  /** Bodies are not empty, not too long and trimmed. */
  lemma {:induction false} BodiesAreGood(s: Bytes, i: nat, limit: nat, ordinal: nat)
    requires i <= |s| && limit > 0
    ensures forall c :: c in Chunks(s, i, limit, ordinal) ==> GoodBody(c.body, limit)
    decreases |s| - i
  {
    if i < |s| { BodiesAreGood(s, Next(s, i, limit), limit, ordinal + 1); }
  }

  predicate IncreasingFrom(cs: seq<Chunk>, first: nat) {
    && (forall k :: 0 <= k < |cs| ==> first <= cs[k].ordinal)
    && forall j, k :: 0 <= j < k < |cs| ==> cs[j].ordinal < cs[k].ordinal
  }

  lemma IncreasingCons(c: Chunk, cs: seq<Chunk>)
    requires IncreasingFrom(cs, c.ordinal + 1)
    ensures IncreasingFrom([c] + cs, c.ordinal) && IncreasingFrom(cs, c.ordinal)
  {
  }

  /** Ordinals strictly increase, from the first one on. */
  lemma {:induction false} OrdinalsIncrease(s: Bytes, i: nat, limit: nat, ordinal: nat)
    requires i <= |s| && limit > 0
    ensures IncreasingFrom(Chunks(s, i, limit, ordinal), ordinal)
    decreases |s| - i
  {
    if i < |s| {
      OrdinalsIncrease(s, Next(s, i, limit), limit, ordinal + 1);
      IncreasingCons(Chunk(ordinal, Body(s, i, limit)), Chunks(s, Next(s, i, limit), limit, ordinal + 1));
    }
  }

  /** The trimmed pieces of s[i..], the blank ones too. */
  function Pieces(s: Bytes, i: nat, limit: nat): seq<Bytes>
    requires i <= |s| && limit > 0
    decreases |s| - i
  {
    if i == |s| then [] else [Body(s, i, limit)] + Pieces(s, Next(s, i, limit), limit)
  }

  predicate PieceAt(pieces: seq<Bytes>, k: nat, body: Bytes) {
    k < |pieces| && pieces[k] == body && body != []
  }

  predicate HasChunk(cs: seq<Chunk>, ordinal: nat, body: Bytes) {
    Chunk(ordinal, body) in cs
  }

  /** The pieces that are not empty, with their numbers. */
  function Numbered(pieces: seq<Bytes>, first: nat): seq<Chunk> {
    if pieces == [] then [] else FirstChunk(first, pieces[0]) + Numbered(pieces[1..], first + 1)
  }

  function FirstChunk(first: nat, b: Bytes): seq<Chunk> { if b == [] then [] else [Chunk(first, b)] }

  /** The chunks are the pieces that are not empty, each with the number of its piece: blank pieces count. */
  lemma {:induction false} ChunksAreNumbered(s: Bytes, i: nat, limit: nat, first: nat)
    requires i <= |s| && limit > 0
    ensures Chunks(s, i, limit, first) == Numbered(Pieces(s, i, limit), first)
    decreases |s| - i
  {
    if i < |s| {
      ChunksAreNumbered(s, Next(s, i, limit), limit, first + 1);
      assert Pieces(s, i, limit)[1..] == Pieces(s, Next(s, i, limit), limit);
    }
  }

  lemma {:induction false} NumberedHas(pieces: seq<Bytes>, first: nat, ordinal: nat, body: Bytes)
    ensures HasChunk(Numbered(pieces, first), ordinal, body) <==> ordinal >= first && PieceAt(pieces, ordinal - first, body)
  {
    if pieces != [] { NumberedHas(pieces[1..], first + 1, ordinal, body); }
  }

  /** A text has a chunk with this ordinal and body exactly when its piece of that number is the body. */
  lemma OrdinalIsPiece(s: Bytes, limit: nat, ordinal: nat, body: Bytes)
    requires limit > 0
    ensures HasChunk(Chunks(s, 0, limit, 0), ordinal, body) <==> PieceAt(Pieces(s, 0, limit), ordinal, body)
  {
    ChunksAreNumbered(s, 0, limit, 0);
    NumberedHas(Pieces(s, 0, limit), 0, ordinal, body);
  }

  /** A piece ends inside the text only at its last newline, or when it has no newline in its second half. */
  lemma CutPrefersNewline(s: Bytes, i: nat, limit: nat)
    requires i < |s| && limit > 0 && i + Cut(s, i, limit) < |s|
    ensures var n := Cut(s, i, limit);
            && (n == limit || (limit / 2 <= n && s[i + n] == NEWLINE))
            && forall k :: i + n < k < i + limit ==> s[k] != NEWLINE
    ensures Cut(s, i, limit) == limit ==> forall k :: i + limit / 2 <= k < i + limit ==> s[k] != NEWLINE
  {
  }

  // ----- conservation

  /** Gaps and bodies in turn, beginning and ending with a gap. */
  function Weave(gaps: seq<Bytes>, cs: seq<Chunk>): Bytes
    requires |gaps| == |cs| + 1
    decreases |cs|
  {
    if cs == [] then gaps[0] else gaps[0] + cs[0].body + Weave(gaps[1..], cs[1..])
  }

  lemma FourPieces(s: Bytes, i: nat, a: nat, b: nat, n: nat)
    requires i <= a <= b <= n <= |s|
    ensures s[i..] == s[i..a] + s[a..b] + (s[b..n] + s[n..])
  {
  }

  lemma TwoPieces(s: Bytes, i: nat, n: nat)
    requires i <= n <= |s|
    ensures s[i..] == s[i..n] + s[n..]
  {
  }

  /** Bytes in front of a weave go into its first gap. */
  lemma WeaveFront(front: Bytes, gaps: seq<Bytes>, cs: seq<Chunk>)
    requires |gaps| == |cs| + 1
    ensures Weave(gaps[0 := front + gaps[0]], cs) == front + Weave(gaps, cs)
  {
    var wider := gaps[0 := front + gaps[0]];
    if cs == [] {
    } else {
      assert wider[1..] == gaps[1..];
      assert front + gaps[0] + cs[0].body + Weave(gaps[1..], cs[1..]) == front + Weave(gaps, cs);
    }
  }

  lemma WeaveCons(gap: Bytes, c: Chunk, gaps: seq<Bytes>, cs: seq<Chunk>)
    requires |gaps| == |cs| + 1
    ensures Weave([gap] + gaps, [c] + cs) == gap + c.body + Weave(gaps, cs)
  {
    assert ([gap] + gaps)[1..] == gaps && ([c] + cs)[1..] == cs;
  }

  lemma BlankAppend(a: Bytes, b: Bytes)
    requires Blank(a) && Blank(b)
    ensures Blank(a + b)
  {
  }

  ghost predicate AllBlank(gaps: seq<Bytes>) {
    forall k :: 0 <= k < |gaps| ==> Blank(gaps[k])
  }

  /** What surrounds a body in its piece, up to the next piece, is blank. */
  lemma AroundBody(s: Bytes, i: nat, limit: nat) returns (a: nat, b: nat)
    requires i < |s| && limit > 0
    ensures i <= a <= b <= Next(s, i, limit) && Body(s, i, limit) == s[a..b]
    ensures Blank(s[i..a]) && Blank(s[b..Next(s, i, limit)])
  {
    var end := i + Cut(s, i, limit);
    a := SkipFront(s, i, end);
    b := SkipBack(s, a, end);
  }

  lemma WidenFirst(front: Bytes, gaps: seq<Bytes>, cs: seq<Chunk>) returns (wider: seq<Bytes>)
    requires |gaps| == |cs| + 1 && AllBlank(gaps) && Blank(front)
    ensures |wider| == |gaps| && AllBlank(wider) && Weave(wider, cs) == front + Weave(gaps, cs)
  {
    wider := gaps[0 := front + gaps[0]];
    WeaveFront(front, gaps, cs);
    BlankAppend(front, gaps[0]);
  }

  /** Nothing but blanks is lost: the text is its chunk bodies, in order, with only blanks around and between them. */
  lemma {:induction false} ChunksCoverText(s: Bytes, i: nat, limit: nat, ordinal: nat) returns (gaps: seq<Bytes>)
    requires i <= |s| && limit > 0
    ensures |gaps| == |Chunks(s, i, limit, ordinal)| + 1 && AllBlank(gaps)
    ensures s[i..] == Weave(gaps, Chunks(s, i, limit, ordinal))
    decreases |s| - i
  {
    if i == |s| {
      gaps := [[]];
    } else {
      var later := ChunksCoverText(s, Next(s, i, limit), limit, ordinal + 1);
      gaps := CoverOne(s, i, limit, ordinal, later);
    }
  }

  /** One piece more at the front. */
  lemma CoverOne(s: Bytes, i: nat, limit: nat, ordinal: nat, later: seq<Bytes>) returns (gaps: seq<Bytes>)
    requires i < |s| && limit > 0 && AllBlank(later)
    requires var cs := Chunks(s, Next(s, i, limit), limit, ordinal + 1);
             |later| == |cs| + 1 && s[Next(s, i, limit)..] == Weave(later, cs)
    ensures |gaps| == |Chunks(s, i, limit, ordinal)| + 1 && AllBlank(gaps)
    ensures s[i..] == Weave(gaps, Chunks(s, i, limit, ordinal))
  {
    var n := Next(s, i, limit);
    var cs := Chunks(s, n, limit, ordinal + 1);
    var a, b := AroundBody(s, i, limit);
    if Body(s, i, limit) == [] {
      BlankPiece(s, i, a, n);
      gaps := WidenFirst(s[i..n], later, cs);
      TwoPieces(s, i, n);
    } else {
      gaps := CoverBody(s, i, a, b, n, later, ordinal, cs);
    }
  }

  lemma CoverBody(s: Bytes, i: nat, a: nat, b: nat, n: nat, later: seq<Bytes>, ordinal: nat, cs: seq<Chunk>)
    returns (gaps: seq<Bytes>)
    requires i <= a <= b <= n <= |s| && Blank(s[i..a]) && Blank(s[b..n])
    requires |later| == |cs| + 1 && AllBlank(later) && s[n..] == Weave(later, cs)
    ensures |gaps| == |cs| + 2 && AllBlank(gaps)
    ensures s[i..] == Weave(gaps, [Chunk(ordinal, s[a..b])] + cs)
  {
    var wider := WidenFirst(s[b..n], later, cs);
    gaps := [s[i..a]] + wider;
    FourPieces(s, i, a, b, n);
    WeaveCons(s[i..a], Chunk(ordinal, s[a..b]), wider, cs);
  }

  lemma BlankPiece(s: Bytes, i: nat, a: nat, n: nat)
    requires i <= a <= n <= |s| && Blank(s[i..a]) && Blank(s[a..n])
    ensures Blank(s[i..n])
  {
    assert s[i..n] == s[i..a] + s[a..n];
  }

  // ----- the bytes that are not blank

  function Ink(s: Bytes): Bytes {
    if s == [] then []
    else Ink(s[..|s| - 1]) + (if IsSpace(s[|s| - 1]) then [] else [s[|s| - 1]])
  }

  lemma {:induction false} InkAppend(a: Bytes, b: Bytes)
    ensures Ink(a + b) == Ink(a) + Ink(b)
    decreases |b|
  {
    if b == [] {
      assert a + b == a;
    } else {
      assert (a + b)[..|a + b| - 1] == a + b[..|b| - 1];
      InkAppend(a, b[..|b| - 1]);
    }
  }

  lemma {:induction false} InkOfBlank(s: Bytes)
    requires Blank(s)
    ensures Ink(s) == []
  {
    if s != [] { InkOfBlank(s[..|s| - 1]); }
  }

  function Bodies(cs: seq<Chunk>): Bytes {
    if cs == [] then [] else cs[0].body + Bodies(cs[1..])
  }

  lemma {:induction false} InkOfWeave(gaps: seq<Bytes>, cs: seq<Chunk>)
    requires |gaps| == |cs| + 1 && AllBlank(gaps)
    ensures Ink(Weave(gaps, cs)) == Ink(Bodies(cs))
    decreases |cs|
  {
    InkOfBlank(gaps[0]);
    if cs != [] {
      InkOfWeave(gaps[1..], cs[1..]);
      InkAppend(gaps[0] + cs[0].body, Weave(gaps[1..], cs[1..]));
      InkAppend(gaps[0], cs[0].body);
      InkAppend(cs[0].body, Bodies(cs[1..]));
      assert [] + Ink(cs[0].body) == Ink(cs[0].body);
    }
  }

  /** The chunk bodies together have the text's bytes that are not blank, in order. */
  lemma ChunksConserveInk(text: Bytes, limit: nat)
    requires limit > 0
    ensures Ink(Bodies(Chunks(text, 0, limit, 0))) == Ink(text)
  {
    var gaps := ChunksCoverText(text, 0, limit, 0);
    InkOfWeave(gaps, Chunks(text, 0, limit, 0));
    assert text[0..] == text;
  }

  // ----- whole texts without the spaces around them

  /** text is whole without the blanks at its ends. */
  ghost predicate Stripped(text: Bytes, whole: Bytes) {
    && (exists lo: nat, hi: nat :: lo <= hi <= |whole| && text == whole[lo..hi] && Blank(whole[..lo]) && Blank(whole[hi..]))
    && (text != [] ==> !IsSpace(text[0]) && !IsSpace(text[|text| - 1]))
  }

  lemma TrimmedIsStripped(s: Bytes)
    ensures Stripped(Trimmed(s, 0, |s|), s) && (Trimmed(s, 0, |s|) == [] <==> Blank(s))
  {
    var lo := SkipFront(s, 0, |s|);
    var hi := SkipBack(s, lo, |s|);
    assert Trimmed(s, 0, |s|) == s[lo..hi] && Blank(s[..lo]) && Blank(s[hi..]);
  }

  /** Nothing but blanks goes with the ends. */
  lemma InkOfStripped(text: Bytes, whole: Bytes)
    requires Stripped(text, whole)
    ensures Ink(text) == Ink(whole) && |text| <= |whole|
  {
    var lo: nat, hi: nat :| lo <= hi <= |whole| && text == whole[lo..hi] && Blank(whole[..lo]) && Blank(whole[hi..]);
    ThreePieces(whole, lo, hi);
    InkBetween(whole[..lo], text, whole[hi..]);
  }

  lemma ThreePieces(s: Bytes, lo: nat, hi: nat)
    requires lo <= hi <= |s|
    ensures s == s[..lo] + s[lo..hi] + s[hi..]
  {
    assert s[..lo] + s[lo..hi] == s[..hi];
  }

  lemma InkBetween(front: Bytes, text: Bytes, back: Bytes)
    requires Blank(front) && Blank(back)
    ensures Ink(front + text + back) == Ink(text)
  {
    InkAppend(front + text, back);
    InkAppend(front, text);
    InkOfBlank(front);
    InkOfBlank(back);
  }

  /** There are not more ordinals than bytes. */
  lemma {:induction false} OrdinalsBelow(s: Bytes, i: nat, limit: nat, ordinal: nat)
    requires i <= |s| && limit > 0
    ensures forall c :: c in Chunks(s, i, limit, ordinal) ==> c.ordinal < ordinal + |s| - i
    decreases |s| - i
  {
    if i < |s| { OrdinalsBelow(s, Next(s, i, limit), limit, ordinal + 1); }
  }
}
