/** Where rewriteMachO of sandbox/daemon/main.go leaves its input or its 32-bit fields. */
module MachOLimits {
  import opened Bytes
  import opened MachO

  // ----- malformed tables

  /** A thin 64-bit file whose announced table lies inside it. */
  predicate Readable(file: Bytes) {
    |file| >= 32 && U32At(file, 0) == MAGIC && 32 + SizeOf(file) <= |file|
  }

  /** The command at this offset has a header and a size that stay inside the file. */
  predicate Sized(file: Bytes, off: nat) {
    off + 8 <= |file| && 8 <= U32At(file, off + 4) && off + U32At(file, off + 4) <= |file|
  }

  /** Where command i starts; -1 when a command before it is not sized. */
  function Starts(file: Bytes, i: nat): (off: int)
    ensures off == -1 || off >= 32
  {
    if i == 0 then 32
    else
      var before := Starts(file, i - 1);
      if before < 0 || !Sized(file, before) then -1 else before + U32At(file, before + 4)
  }

  /** A 16-byte signature-requirements command, not the last one, with fewer than 8 bytes of the file after it. */
  predicate CutPair(file: Bytes, i: nat)
    requires Readable(file)
  {
    var off := Starts(file, i);
    off >= 0 && Sized(file, off) && MayStartPair(file, Ncmd(file), i, off) && off + 24 > |file|
  }

  /** Commands i and i + 1 are a pair that the rewrite replaces. */
  predicate PairAt(file: Bytes, i: nat)
    requires Readable(file)
  {
    var off := Starts(file, i);
    && off >= 0 && Sized(file, off) && MayStartPair(file, Ncmd(file), i, off) && off + 24 <= |file|
    && U32At(file, off + 16) == LC_SOURCE && U32At(file, off + 20) == 16
  }

  /** The last pair that starts before command i, or -1. */
  function LastPair(file: Bytes, i: nat): (k: int)
    requires Readable(file)
    ensures -1 <= k < i && (k >= 0 ==> PairAt(file, k))
  {
    if i == 0 then -1 else if PairAt(file, i - 1) then i - 1 else LastPair(file, i - 1)
  }

  /** All commands are sized, there is room for the growth, but the new command would start too late in the file. */
  predicate Overruns(file: Bytes, name: Bytes)
    requires Readable(file)
  {
    var k := LastPair(file, Ncmd(file));
    && Starts(file, Ncmd(file)) >= 0 && k >= 0
    && Room(file, 32 + SizeOf(file), CommandSize(name) - 32).Rewritten?
    && Starts(file, k) + CommandSize(name) > |file|
  }

  /** The chosen commands after i steps of the scan: the last pair, or possibly a source command that ends the table. */
  predicate Chosen(file: Bytes, i: nat, a: Anchor)
    requires Readable(file)
  {
    if LastPair(file, i) >= 0 then a == Anchor(Starts(file, LastPair(file, i)), 32, 2)
    else a.off == 0 || a.off + a.size == 32 + SizeOf(file)
  }

  lemma {:induction false} StopsEarly(file: Bytes, i: nat, j: nat)
    requires i <= j && Starts(file, i) == -1
    ensures Starts(file, j) == -1
    decreases j - i
  {
    if i < j { StopsEarly(file, i + 1, j); }
  }

  ghost predicate HasCut(file: Bytes)
    requires Readable(file)
  {
    exists i :: 0 <= i < Ncmd(file) && CutPair(file, i)
  }

  ghost predicate ScanOutcome(file: Bytes, s: Scanned)
    requires Readable(file)
  {
    match s
    case Stopped(Panicked) => HasCut(file)
    case Stopped(Refused(_)) => !HasCut(file) && Starts(file, Ncmd(file)) == -1
    case Stopped(Rewritten(_)) => false
    case Scanned(a) => !HasCut(file) && Starts(file, Ncmd(file)) >= 0 && Chosen(file, Ncmd(file), a)
  }

  /** The scan from command i on. */
  function ScanFrom(file: Bytes, i: nat, a: Anchor): Scanned
    requires Readable(file) && Starts(file, i) >= 0
  {
    Scan(file, Ncmd(file), 32 + SizeOf(file), i, Starts(file, i), a)
  }

  lemma ScanFromStep(file: Bytes, i: nat, a: Anchor)
    requires Readable(file) && i < Ncmd(file) && Starts(file, i) >= 0
    ensures !Sized(file, Starts(file, i)) ==> ScanFrom(file, i, a).Stopped? && ScanFrom(file, i, a).result.Refused?
    ensures CutPair(file, i) ==> ScanFrom(file, i, a) == Stopped(Panicked)
    ensures Sized(file, Starts(file, i)) && !CutPair(file, i) ==>
              && Starts(file, i + 1) >= 0
              && ScanFrom(file, i, a) == ScanFrom(file, i + 1, NextAnchor(file, Ncmd(file), 32 + SizeOf(file), i, Starts(file, i), a))
  {
  }

  predicate NoCutBefore(file: Bytes, i: nat)
    requires Readable(file)
  {
    forall j :: 0 <= j < i ==> !CutPair(file, j)
  }

  lemma Unsized(file: Bytes, i: nat)
    requires Readable(file) && i < Ncmd(file) && Starts(file, i) >= 0 && !Sized(file, Starts(file, i)) && NoCutBefore(file, i)
    ensures !HasCut(file) && Starts(file, Ncmd(file)) == -1
  {
    forall j | j > i ensures Starts(file, j) == -1 { StopsEarly(file, i + 1, j); }
  }

  lemma ScanEnds(file: Bytes, i: nat, a: Anchor)
    requires Readable(file) && Starts(file, i) >= 0 && Chosen(file, i, a) && NoCutBefore(file, i)
    requires i == Ncmd(file) || (i < Ncmd(file) && (!Sized(file, Starts(file, i)) || CutPair(file, i)))
    ensures ScanOutcome(file, ScanFrom(file, i, a))
  {
    if i < Ncmd(file) {
      ScanFromStep(file, i, a);
      if !Sized(file, Starts(file, i)) { Unsized(file, i); }
    } else {
      assert ScanFrom(file, i, a) == Scanned(a);
    }
  }

  lemma NoCutNext(file: Bytes, i: nat)
    requires Readable(file) && NoCutBefore(file, i) && !CutPair(file, i)
    ensures NoCutBefore(file, i + 1)
  {
  }

  /** The scan panics exactly at a cut pair, and otherwise, when all commands are sized, ends with the last pair. */
  lemma {:induction false} ScanPanics(file: Bytes, i: nat, a: Anchor)
    requires Readable(file) && i <= Ncmd(file) && Starts(file, i) >= 0 && Chosen(file, i, a) && NoCutBefore(file, i)
    ensures ScanOutcome(file, ScanFrom(file, i, a))
    decreases Ncmd(file) - i
  {
    if i == Ncmd(file) || !Sized(file, Starts(file, i)) || CutPair(file, i) {
      ScanEnds(file, i, a);
    } else {
      var next := NextAnchor(file, Ncmd(file), 32 + SizeOf(file), i, Starts(file, i), a);
      ScanFromStep(file, i, a);
      ChosenNext(file, i, a);
      NoCutNext(file, i);
      ScanPanics(file, i + 1, next);
    }
  }

  lemma ChosenNext(file: Bytes, i: nat, a: Anchor)
    requires Readable(file) && Starts(file, i) >= 0 && Sized(file, Starts(file, i)) && !CutPair(file, i) && Chosen(file, i, a)
    ensures Chosen(file, i + 1, NextAnchor(file, Ncmd(file), 32 + SizeOf(file), i, Starts(file, i), a))
  {
  }

  /** A replaced source command leaves enough room where it stands; a pair may not. */
  lemma FinishPanics(file: Bytes, a: Anchor, name: Bytes)
    requires Readable(file) && Plausible(file, Ncmd(file), 32 + SizeOf(file), a)
    requires Chosen(file, Ncmd(file), a) && Starts(file, Ncmd(file)) >= 0
    ensures Finish(file, a, name) == Panicked <==> Overruns(file, name)
  {
  }

  /** The rewrite indexes past the end of its input exactly when a signature-requirements command stands cut off at the end of the file, or the last pair stands too near to it for the new command. */
  lemma PanicsIff(file: Bytes, name: Bytes)
    ensures RewriteOf(file, name) == Panicked <==>
            Readable(file) && (HasCut(file) || Overruns(file, name))
  {
    if Readable(file) {
      var ncmd, end, start := Ncmd(file), 32 + SizeOf(file), Anchor(0, 0, 0);
      var s := Scan(file, ncmd, end, 0, 32, start);
      assert s == ScanFrom(file, 0, start);
      ScanPanics(file, 0, start);
      ScanAnchors(file, ncmd, end, 0, 32, start);
      if s.Scanned? { FinishPanics(file, s.anchor, name); }
    }
  }

  // ----- witnesses

  /** A thin 64-bit file with these counts, and these bytes after its header. */
  function FileOf(count: nat, size: nat, table: Bytes, rest: Bytes): Bytes {
    Le32(MAGIC) + Zeros(12) + Le32(count) + Le32(size) + Zeros(8) + table + rest
  }

  lemma FileReads(count: nat, size: nat, table: Bytes, rest: Bytes)
    requires count < U32 && size < U32
    ensures var file := FileOf(count, size, table, rest);
            && |file| == 32 + |table| + |rest|
            && U32At(file, 0) == MAGIC && Ncmd(file) == count && SizeOf(file) == size
            && file[32..32 + |table|] == table && file[32 + |table|..] == rest
  {
    var file := FileOf(count, size, table, rest);
    SixParts(Le32(MAGIC) + Zeros(12), Le32(count), Le32(size), Zeros(8), table, rest);
    assert file[0..4] == Le32(MAGIC);
    Le32Read(file, 0, MAGIC);
    Le32Read(file, 16, count);
    Le32Read(file, 20, size);
  }

  /** A command of this kind that announces this size. */
  function CommandOf(kind: nat, size: nat): (c: Bytes)
    requires 8 <= size
    ensures |c| == size
  {
    Le32(kind) + Le32(size) + Zeros(size - 8)
  }

  lemma CommandReads(kind: nat, size: nat)
    requires 8 <= size < U32 && kind < U32
    ensures Command(CommandOf(kind, size)) && U32At(CommandOf(kind, size), 0) == kind
  {
    var c := CommandOf(kind, size);
    assert c[0..4] == Le32(kind) && c[4..8] == Le32(size);
    Le32Read(c, 0, kind);
    Le32Read(c, 4, size);
  }

  /** A file of 48 bytes that announces two commands and holds one. */
  function CutFile(): Bytes { FileOf(2, 16, CommandOf(LC_DRS, 16), []) }

  lemma CutFilePanics(name: Bytes)
    ensures |CutFile()| == 48 && RewriteOf(CutFile(), name) == Panicked
  {
    var file, c := CutFile(), CommandOf(LC_DRS, 16);
    FileReads(2, 16, c, []);
    CommandReads(LC_DRS, 16);
    ReadsCommand(file, 32, c);
    assert Starts(file, 0) == 32 && CutPair(file, 0);
    PanicsIff(file, name);
  }

  const HUGE: nat := U32 - 32

  /** Two commands: one so big that the table stays 16 bytes below the limit, and a source command. */
  function BigTable(): seq<Bytes> { [CommandOf(1, HUGE), CommandOf(LC_SOURCE, 16)] }

  /** A well-formed file with that table and 16 bytes of padding. */
  function BigFile(): Bytes { FileOf(2, U32 - 16, Flat(BigTable()), Zeros(16)) }

  lemma FlatOfTwo(a: Bytes, b: Bytes)
    ensures Flat([a, b]) == a + b && Flat([b]) == b
  {
    FlatOne(a);
    FlatOne(b);
    FlatAppend([a], [b]);
    assert [a, b] == [a] + [b];
  }

  lemma FlatOne(a: Bytes)
    ensures Flat([a]) == a
  {
    var one: seq<Bytes> := [a];
    assert one[..0] == [];
    assert Flat(one) == Flat([]) + a;
  }

  lemma BigFileIsTable()
    ensures Table(BigFile(), BigTable()) && |BigFile()| == 32 + U32
    ensures SizeOf(BigFile()) == U32 - 16 && BigFile()[U32 + 16..] == Zeros(16)
  {
    var table := BigTable();
    FlatOfTwo(table[0], table[1]);
    CommandReads(1, HUGE);
    CommandReads(LC_SOURCE, 16);
    FileReads(2, U32 - 16, Flat(table), Zeros(16));
  }

  lemma SecondIsChosen(a: Bytes, b: Bytes)
    requires Command(a) && Command(b) && IsSource(b) && !IsSource(a) && |a| != 16
    ensures Choice([a, b]) == Pick(1, 1) && Gone([a, b]) == b
  {
    var cmds := [a, b];
    assert !IsPair(cmds, 0) && !IsPair(cmds, 1);
    assert Choose(cmds, 1) == Pick(0, 0);
    FlatOne(b);
    assert cmds[1..2] == [b];
  }

  lemma BigRoom(file: Bytes)
    requires |file| == 32 + U32 && SizeOf(file) == U32 - 16 && file[U32 + 16..] == Zeros(16)
    ensures Room(file, 32 + SizeOf(file), 16).Rewritten?
  {
    forall j | U32 + 16 <= j < U32 + 32 ensures file[j] == 0 {
      assert file[j] == file[U32 + 16..][j - (U32 + 16)];
    }
  }

  /** The rewrite succeeds on that file, but its table grows to 2^32 bytes: the size field wraps and the result is not well-formed. */
  lemma HugeTableWraps()
    ensures Table(BigFile(), BigTable()) && RewriteOf(BigFile(), []).Rewritten?
    ensures |Flat(Edited(BigTable(), []))| == U32
    ensures !Table(RewriteOf(BigFile(), []).bytes, Edited(BigTable(), []))
  {
    CommandReads(1, HUGE);
    CommandReads(LC_SOURCE, 16);
    SecondIsChosen(BigTable()[0], BigTable()[1]);
    BigFileIsTable();
    BigRoom(BigFile());
    Wraps(BigFile(), BigTable());
  }

  lemma Wraps(file: Bytes, cmds: seq<Bytes>)
    requires Table(file, cmds) && SizeOf(file) == U32 - 16
    requires Choice(cmds).count > 0 && |Gone(cmds)| == 16 && Room(file, 32 + SizeOf(file), 16).Rewritten?
    ensures RewriteOf(file, []).Rewritten? && |Flat(Edited(cmds, []))| == U32
    ensures !Table(RewriteOf(file, []).bytes, Edited(cmds, []))
  {
    assert CommandSize([]) == 32;
    RewriteSucceedsIff(file, cmds, []);
    OutcomeSize(file, cmds, []);
    RewriteIsTableEdit(file, cmds, []);
  }
}
