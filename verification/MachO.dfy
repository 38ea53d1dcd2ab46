/**
 rewriteMachO of sandbox/daemon/main.go: replaces an optional load command of a
 thin 64-bit Mach-O file by a dylib command, moving the rest of the table.
 */
module MachO {
  import opened Bytes

  datatype Reason = NotThin64 | InvalidLoadCommands | InvalidLoadCommand | InvalidCommandSize | NoAnchor | NoPadding | PaddingInUse

  /** Panicked: an index beyond the input (MachOLimits.PanicsIff); never on a well-formed table (RewriteSucceedsIff). */
  datatype Result = Rewritten(bytes: Bytes) | Refused(reason: Reason) | Panicked

  const MAGIC := 0xfeedfacf
  const LC_DRS := 0x29
  const LC_SOURCE := 0x1d

  function Le32(v: nat): (b: Bytes)
    ensures |b| == 4
  {
    LittleEndian(v % U32, 4)
  }

  function U32At(b: Bytes, off: nat): (v: nat)
    requires off + 4 <= |b|
    ensures v < U32
  {
    WordSizes();
    FromLittleEndian(b[off..off + 4])
  }

  lemma Le32Read(b: Bytes, off: nat, v: nat)
    requires off + 4 <= |b| && b[off..off + 4] == Le32(v)
    ensures U32At(b, off) == v % U32
  {
    WordSizes();
    LittleEndianRoundTrip(v % U32, 4);
  }

  function Zeros(n: nat): (z: Bytes)
    ensures |z| == n
    ensures forall i :: 0 <= i < n ==> z[i] == 0
  {
    seq(n, _ => 0)
  }

  // ----- specification

  /** The replaced commands: where they start, their total size and their number; off is 0 while none is chosen. */
  datatype Anchor = Anchor(off: nat, size: nat, count: nat)

  datatype Scanned = Scanned(anchor: Anchor) | Stopped(result: Result)

  predicate MayStartPair(file: Bytes, ncmd: nat, i: nat, off: nat)
    requires off + 8 <= |file|
  {
    U32At(file, off) == LC_DRS && U32At(file, off + 4) == 16 && i + 1 < ncmd
  }

  /** The anchor after looking at command i at off: a signature-requirements and source pair, else a source command that ends the table. */
  function NextAnchor(file: Bytes, ncmd: nat, end: nat, i: nat, off: nat, a: Anchor): Anchor
    requires off + 8 <= |file|
    requires MayStartPair(file, ncmd, i, off) ==> off + 24 <= |file|
  {
    if MayStartPair(file, ncmd, i, off) && U32At(file, off + 16) == LC_SOURCE && U32At(file, off + 20) == 16 then Anchor(off, 32, 2)
    else if U32At(file, off) == LC_SOURCE && off + U32At(file, off + 4) == end && a.off == 0 then Anchor(off, U32At(file, off + 4), 1)
    else a
  }

  function Scan(file: Bytes, ncmd: nat, end: nat, i: nat, off: nat, a: Anchor): Scanned
    decreases ncmd - i
  {
    if i >= ncmd then Scanned(a)
    else if off + 8 > |file| then Stopped(Refused(InvalidLoadCommand))
    else if U32At(file, off + 4) < 8 || off + U32At(file, off + 4) > |file| then Stopped(Refused(InvalidCommandSize))
    else if MayStartPair(file, ncmd, i, off) && off + 24 > |file| then Stopped(Panicked)
    else Scan(file, ncmd, end, i + 1, off + U32At(file, off + 4), NextAnchor(file, ncmd, end, i, off, a))
  }

  /** The size of the new command: header, name and NUL, rounded up to eight. */
  function CommandSize(name: Bytes): (cs: nat)
    ensures cs % 8 == 0 && 24 + |name| < cs <= 24 + |name| + 8
  {
    (24 + (|name| + 1) + 7) / 8 * 8
  }

  /** Command LC_LOAD_DYLIB, its size, the offset of the name, a timestamp and two versions. */
  function DylibHeader(cs: nat): (h: Bytes)
    ensures |h| == 24
  {
    Le32(0xc) + Le32(cs) + Le32(24) + Le32(2) + Le32(0x10000) + Le32(0x10000)
  }

  /** The dylib command that carries the name. */
  function DylibCommand(name: Bytes): (c: Bytes)
    ensures |c| == CommandSize(name)
  {
    DylibHeader(CommandSize(name)) + name + Zeros(CommandSize(name) - 24 - |name|)
  }

  function Ncmd(file: Bytes): nat requires |file| >= 32 { U32At(file, 16) }
  function SizeOf(file: Bytes): nat requires |file| >= 32 { U32At(file, 20) }

  /** The bytes before the header fields are updated. */
  function Spliced(file: Bytes, a: Anchor, name: Bytes): (b: Bytes)
    requires |file| >= 32 && 32 + SizeOf(file) <= |file|
    requires a.off + CommandSize(name) <= |file|
    requires 32 + SizeOf(file) + CommandSize(name) - a.size <= |file|
    requires a.off + a.size <= 32 + SizeOf(file) || CommandSize(name) >= a.size
    ensures |b| == |file|
  {
    var end := 32 + SizeOf(file);
    if a.off + a.size <= end then
      file[..a.off] + DylibCommand(name) + file[a.off + a.size..end] + file[end + CommandSize(name) - a.size..]
    else
      file[..a.off] + DylibCommand(name) + file[a.off + CommandSize(name)..]
  }

  function WithHeader(b: Bytes, count: nat, size: nat): (r: Bytes)
    requires |b| >= 32
    ensures |r| == |b|
  {
    b[..16] + Le32(count) + Le32(size) + b[24..]
  }

  /** May the table grow by delta bytes into zero padding? */
  function Room(file: Bytes, end: nat, delta: int): Result
    requires end <= |file|
  {
    if delta > 0 && end + delta > |file| then Refused(NoPadding)
    else if delta > 0 && exists j | end <= j < end + delta :: file[j] != 0 then Refused(PaddingInUse)
    else Rewritten([])
  }

  function RewriteOf(file: Bytes, name: Bytes): Result {
    if |file| < 32 || U32At(file, 0) != MAGIC then Refused(NotThin64)
    else
      var end := 32 + SizeOf(file);
      if end > |file| then Refused(InvalidLoadCommands) else RewriteTable(file, name)
  }

  function RewriteTable(file: Bytes, name: Bytes): Result
    requires |file| >= 32 && 32 + SizeOf(file) <= |file|
  {
    var scan := Scan(file, Ncmd(file), 32 + SizeOf(file), 0, 32, Anchor(0, 0, 0));
    if scan.Stopped? then scan.result
    else
      ScanAnchors(file, Ncmd(file), 32 + SizeOf(file), 0, 32, Anchor(0, 0, 0));
      Finish(file, scan.anchor, name)
  }

  /** The file with the new command and the new counts. */
  function Patched(file: Bytes, a: Anchor, name: Bytes): Bytes
    requires |file| >= 32 && 32 + SizeOf(file) <= |file| && a.off + CommandSize(name) <= |file|
    requires 32 + SizeOf(file) + CommandSize(name) - a.size <= |file|
    requires a.off >= 32 && a.count <= Ncmd(file) && (a.size == 32 || a.off + a.size == 32 + SizeOf(file))
  {
    WithHeader(Spliced(file, a, name), Ncmd(file) - a.count + 1, SizeOf(file) + CommandSize(name) - a.size)
  }

  /** The result once the scan has chosen the commands to replace. */
  function Finish(file: Bytes, a: Anchor, name: Bytes): Result
    requires |file| >= 32 && 32 + SizeOf(file) <= |file|
    requires Plausible(file, Ncmd(file), 32 + SizeOf(file), a)
  {
    var end, delta := 32 + SizeOf(file), CommandSize(name) - a.size;
    if a.off == 0 then Refused(NoAnchor)
    else if !Room(file, end, delta).Rewritten? then Room(file, end, delta)
    else if a.off + CommandSize(name) > |file| then Panicked
    else Rewritten(Patched(file, a, name))
  }

  /** What every chosen anchor satisfies, in malformed tables too. */
  predicate Plausible(file: Bytes, ncmd: nat, end: nat, a: Anchor) {
    a.off == 0 || (a.off >= 32 && a.count <= ncmd && (a.size == 32 || a.off + a.size == end))
  }

  lemma {:induction false} ScanAnchors(file: Bytes, ncmd: nat, end: nat, i: nat, off: nat, a: Anchor)
    requires off >= 32 && Plausible(file, ncmd, end, a)
    ensures var s := Scan(file, ncmd, end, i, off, a); s.Scanned? ==> Plausible(file, ncmd, end, s.anchor)
    decreases ncmd - i
  {
    if i < ncmd && off + 8 <= |file| && off + U32At(file, off + 4) <= |file| {
      if !(MayStartPair(file, ncmd, i, off) && off + 24 > |file|) {
        ScanAnchors(file, ncmd, end, i + 1, off + U32At(file, off + 4), NextAnchor(file, ncmd, end, i, off, a));
      }
    }
  }

  // ----- the method

  method ScanCommands(file: Bytes, ncmd: nat, end: nat) returns (s: Scanned)
    ensures s == Scan(file, ncmd, end, 0, 32, Anchor(0, 0, 0))
  {
    var a := Anchor(0, 0, 0);
    var off: nat := 32;
    for i := 0 to ncmd
      invariant Scan(file, ncmd, end, i, off, a) == Scan(file, ncmd, end, 0, 32, Anchor(0, 0, 0))
    {
      if off + 8 > |file| { return Stopped(Refused(InvalidLoadCommand)); }
      var sz := U32At(file, off + 4);
      if sz < 8 || off + sz > |file| { return Stopped(Refused(InvalidCommandSize)); }
      var cmd := U32At(file, off);
      var anchor := a;
      if cmd == LC_DRS && sz == 16 && i + 1 < ncmd {
        var next := off + sz;
        if next + 8 > |file| { return Stopped(Panicked); }
        var nextSize := U32At(file, next + 4);
        if U32At(file, next) == LC_SOURCE && nextSize == 16 {
          anchor := Anchor(off, 32, 2);
        }
      }
      if cmd == LC_SOURCE && off + sz == end && anchor.off == 0 {
        anchor := Anchor(off, sz, 1);
      }
      assert anchor == NextAnchor(file, ncmd, end, i, off, a);
      a := anchor;
      off := off + sz;
    }
    return Scanned(a);
  }

  method CheckRoom(file: Bytes, end: nat, delta: int) returns (r: Result)
    requires end <= |file|
    ensures r == Room(file, end, delta)
  {
    if delta > 0 {
      if end + delta > |file| { return Refused(NoPadding); }
      for j := end to end + delta
        invariant forall k :: end <= k < j ==> file[k] == 0
      {
        if file[j] != 0 { return Refused(PaddingInUse); }
      }
    }
    return Rewritten([]);
  }

  /** Copies [lo, hi) up by d, backwards so that nothing is overwritten before it is read. */
  method MoveRight(b: array<byte>, lo: nat, hi: nat, d: nat)
    requires lo <= hi && hi + d <= b.Length
    modifies b
    ensures b[..] == old(b[..])[..lo + d] + old(b[..])[lo..hi] + old(b[..])[hi + d..]
  {
    ghost var was := b[..];
    var j := hi;
    while j > lo
      invariant lo <= j <= hi
      invariant forall k :: j + d <= k < hi + d ==> b[k] == was[k - d]
      invariant forall k :: 0 <= k < j + d || hi + d <= k < b.Length ==> b[k] == was[k]
    {
      j := j - 1;
      b[j + d] := b[j];
    }
    ghost var want := was[..lo + d] + was[lo..hi] + was[hi + d..];
    assert |want| == b.Length && forall k :: 0 <= k < b.Length ==> b[k] == want[k];
  }

  /** Copies [lo, hi) down by d, forwards. */
  method MoveLeft(b: array<byte>, lo: nat, hi: nat, d: nat)
    requires d <= lo <= hi <= b.Length
    modifies b
    ensures b[..] == old(b[..])[..lo - d] + old(b[..])[lo..hi] + old(b[..])[hi - d..]
  {
    ghost var was := b[..];
    for j := lo to hi
      invariant forall k :: lo - d <= k < j - d ==> b[k] == was[k + d]
      invariant forall k :: 0 <= k < lo - d || j - d <= k < b.Length ==> b[k] == was[k]
    {
      b[j - d] := b[j];
    }
    ghost var want := was[..lo - d] + was[lo..hi] + was[hi - d..];
    assert |want| == b.Length && forall k :: 0 <= k < b.Length ==> b[k] == want[k];
  }

  /** Moves [lo, hi) by delta, right or left. */
  method Shift(b: array<byte>, lo: nat, hi: nat, delta: int)
    requires lo <= hi <= b.Length && 0 <= lo + delta && hi + delta <= b.Length
    modifies b
    ensures b[..] == old(b[..])[..lo + delta] + old(b[..])[lo..hi] + old(b[..])[hi + delta..]
  {
    if delta > 0 {
      MoveRight(b, lo, hi, delta);
    } else if delta < 0 {
      MoveLeft(b, lo, hi, -delta);
    }
  }

  /** Overwrites the bytes at off. */
  method Put(b: array<byte>, off: nat, data: Bytes)
    requires off + |data| <= b.Length
    modifies b
    ensures b[..] == old(b[..])[..off] + data + old(b[..])[off + |data|..]
  {
    for j := 0 to |data|
      invariant forall k :: 0 <= k < b.Length ==>
        b[k] == if off <= k < off + j then data[k - off] else old(b[k])
    {
      b[off + j] := data[j];
    }
  }

  /** Overwrites the next zeroes of a region that starts after front and ends before back. */
  method PutNext(b: array<byte>, off: nat, data: Bytes, ghost front: Bytes, ghost filled: Bytes, ghost n: nat, ghost back: Bytes)
    requires off == |front| + |filled| && |data| <= n
    requires b[..] == front + filled + Zeros(n) + back
    modifies b
    ensures b[..] == front + (filled + data) + Zeros(n - |data|) + back
  {
    ghost var whole := front + filled + Zeros(n) + back;
    assert whole[..off] == front + filled;
    assert whole[off + |data|..] == Zeros(n - |data|) + back;
    Put(b, off, data);
  }

  /** Writes the six words of the header into a region of zeroes. */
  method PutHeader(b: array<byte>, off: nat, cs: nat, ghost front: Bytes, ghost back: Bytes)
    requires off == |front| && cs >= 24 && b[..] == front + Zeros(cs) + back
    modifies b
    ensures b[..] == front + DylibHeader(cs) + Zeros(cs - 24) + back
  {
    assert front + [] + Zeros(cs) + back == front + Zeros(cs) + back;
    PutNext(b, off, Le32(0xc), front, [], cs, back);
    ghost var f := [] + Le32(0xc);
    PutNext(b, off + 4, Le32(cs), front, f, cs - 4, back);
    f := f + Le32(cs);
    PutNext(b, off + 8, Le32(24), front, f, cs - 8, back);
    f := f + Le32(24);
    PutNext(b, off + 12, Le32(2), front, f, cs - 12, back);
    f := f + Le32(2);
    PutNext(b, off + 16, Le32(0x10000), front, f, cs - 16, back);
    f := f + Le32(0x10000);
    PutNext(b, off + 20, Le32(0x10000), front, f, cs - 20, back);
    assert [] + Le32(0xc) == Le32(0xc);
  }

  /** Overwrites [off, off + |DylibCommand(name)|) with the new command: zeroes, then field by field. */
  method PutDylib(b: array<byte>, off: nat, name: Bytes)
    requires off + CommandSize(name) <= b.Length
    modifies b
    ensures b[..] == old(b[..])[..off] + DylibCommand(name) + old(b[..])[off + CommandSize(name)..]
  {
    ghost var front, back := b[..][..off], b[..][off + CommandSize(name)..];
    var cs := CommandSize(name);
    Put(b, off, Zeros(cs));
    PutHeader(b, off, cs, front, back);
    PutNext(b, off + 24, name, front, DylibHeader(cs), cs - 24, back);
    Regroup(front, DylibHeader(cs) + name, Zeros(cs - 24 - |name|), back);
  }

  lemma Regroup(a: Bytes, b: Bytes, c: Bytes, d: Bytes)
    ensures a + b + c + d == a + (b + c) + d
  {
  }

  /** Moves the commands after the replaced ones and writes the new command. */
  method SpliceInside(b: array<byte>, ghost file: Bytes, end: nat, a: Anchor, name: Bytes)
    requires b[..] == file && |file| >= 32 && end == 32 + SizeOf(file)
    requires end <= |file| && a.off + CommandSize(name) <= |file|
    requires end + CommandSize(name) - a.size <= |file|
    requires a.off + a.size <= end
    modifies b
    ensures b[..] == Spliced(file, a, name)
  {
    Shift(b, a.off + a.size, end, CommandSize(name) - a.size);
    ghost var moved := b[..];
    SplicedByParts(file, moved, end, a, name);
    PutDylib(b, a.off, name);
  }

  /** Replaced commands that reach over the end of the table: nothing moves. */
  method SpliceOver(b: array<byte>, ghost file: Bytes, end: nat, a: Anchor, name: Bytes)
    requires b[..] == file && |file| >= 32 && end == 32 + SizeOf(file)
    requires end <= |file| && a.off + CommandSize(name) <= |file|
    requires end + CommandSize(name) - a.size <= |file|
    requires a.off + a.size > end && a.size == 32
    modifies b
    ensures b[..] == Spliced(file, a, name)
  {
    PutDylib(b, a.off, name);
  }

  method Splice(b: array<byte>, ghost file: Bytes, end: nat, a: Anchor, name: Bytes)
    requires b[..] == file && |file| >= 32 && end == 32 + SizeOf(file)
    requires end <= |file| && a.off + CommandSize(name) <= |file|
    requires end + CommandSize(name) - a.size <= |file|
    requires a.off >= 32 && (a.size == 32 || a.off + a.size == end)
    modifies b
    ensures b[..] == Spliced(file, a, name)
  {
    if a.off + a.size <= end {
      SpliceInside(b, file, end, a, name);
    } else {
      SpliceOver(b, file, end, a, name);
    }
  }

  lemma SplicedByParts(file: Bytes, moved: Bytes, end: nat, a: Anchor, name: Bytes)
    requires |file| >= 32 && end == 32 + SizeOf(file) <= |file|
    requires a.off + CommandSize(name) <= |file| && end + CommandSize(name) - a.size <= |file|
    requires a.off + a.size <= end
    requires moved == file[..a.off + CommandSize(name)] + file[a.off + a.size..end] + file[end + CommandSize(name) - a.size..]
    ensures moved[..a.off] + DylibCommand(name) + moved[a.off + CommandSize(name)..] == Spliced(file, a, name)
  {
    var cs := CommandSize(name);
    var tail := file[a.off + a.size..end] + file[end + cs - a.size..];
    assert moved == file[..a.off + cs] + tail;
    assert moved[..a.off] == file[..a.off] && moved[a.off + cs..] == tail;
  }

  method RewriteMachO(file: Bytes, name: Bytes) returns (r: Result)
    ensures r == RewriteOf(file, name)
  {
    if |file| < 32 || U32At(file, 0) != MAGIC { return Refused(NotThin64); }
    var ncmd, size := U32At(file, 16), U32At(file, 20);
    var end := 32 + size;
    if end > |file| { return Refused(InvalidLoadCommands); }
    r := ScanAndFinish(file, ncmd, end, name);
  }

  method ScanAndFinish(file: Bytes, ncmd: nat, end: nat, name: Bytes) returns (r: Result)
    requires |file| >= 32 && ncmd == Ncmd(file) && end == 32 + SizeOf(file) <= |file|
    ensures r == RewriteTable(file, name)
  {
    var scan := ScanCommands(file, ncmd, end);
    if scan.Stopped? { return scan.result; }
    ScanAnchors(file, ncmd, end, 0, 32, Anchor(0, 0, 0));
    r := FinishRewrite(file, scan.anchor, name);
  }

  method FinishRewrite(file: Bytes, a: Anchor, name: Bytes) returns (r: Result)
    requires |file| >= 32 && 32 + SizeOf(file) <= |file|
    requires Plausible(file, Ncmd(file), 32 + SizeOf(file), a)
    ensures r == Finish(file, a, name)
  {
    if a.off == 0 { return Refused(NoAnchor); }
    var cs := CommandSize(name);
    var room := CheckRoom(file, 32 + SizeOf(file), cs - a.size);
    if !room.Rewritten? { return room; }
    if a.off + cs > |file| { return Panicked; }
    var bytes := Edit(file, a, name);
    return Rewritten(bytes);
  }

  /** Copies the input and edits the copy in place. */
  method Edit(file: Bytes, a: Anchor, name: Bytes) returns (r: Bytes)
    requires |file| >= 32 && 32 + SizeOf(file) <= |file| && a.off + CommandSize(name) <= |file|
    requires 32 + SizeOf(file) + CommandSize(name) - a.size <= |file|
    requires a.off >= 32 && a.count <= Ncmd(file) && (a.size == 32 || a.off + a.size == 32 + SizeOf(file))
    ensures r == Patched(file, a, name)
  {
    var ncmd, size := U32At(file, 16), U32At(file, 20);
    var b := new byte[|file|](i requires 0 <= i < |file| => file[i]);
    assert b[..] == file;
    Splice(b, file, 32 + size, a, name);
    WriteCounts(b, Spliced(file, a, name), ncmd - a.count + 1, size + CommandSize(name) - a.size);
    return b[..];
  }

  method WriteCounts(b: array<byte>, ghost s: Bytes, count: nat, size: nat)
    requires b[..] == s && |s| >= 32
    modifies b
    ensures b[..] == WithHeader(s, count, size)
  {
    Put(b, 20, Le32(size));
    ghost var t := s[..20] + Le32(size) + s[24..];
    assert t[..16] == s[..16] && t[20..] == Le32(size) + s[24..];
    Put(b, 16, Le32(count));
  }

  // ----- well-formed tables

  function Flat(cmds: seq<Bytes>): Bytes {
    if cmds == [] then [] else Flat(cmds[..|cmds| - 1]) + cmds[|cmds| - 1]
  }

  lemma {:induction false} FlatAppend(a: seq<Bytes>, b: seq<Bytes>)
    ensures Flat(a + b) == Flat(a) + Flat(b)
  {
    if b == [] {
      assert a + b == a;
    } else {
      assert (a + b)[..|a + b| - 1] == a + b[..|b| - 1];
      FlatAppend(a, b[..|b| - 1]);
    }
  }

  lemma FlatSplit(cmds: seq<Bytes>, i: nat)
    requires i <= |cmds|
    ensures Flat(cmds) == Flat(cmds[..i]) + Flat(cmds[i..])
  {
    assert cmds == cmds[..i] + cmds[i..];
    FlatAppend(cmds[..i], cmds[i..]);
  }

  /** A command announces its own length. */
  predicate Command(c: Bytes) {
    |c| >= 8 && U32At(c, 4) == |c|
  }

  /** file is a thin 64-bit Mach-O file whose load commands are cmds. */
  predicate Table(file: Bytes, cmds: seq<Bytes>) {
    && |file| >= 32 && U32At(file, 0) == MAGIC
    && 32 + SizeOf(file) <= |file|
    && Ncmd(file) == |cmds|
    && (forall i :: 0 <= i < |cmds| ==> Command(cmds[i]))
    && file[32..32 + SizeOf(file)] == Flat(cmds)
  }

  function Offset(cmds: seq<Bytes>, i: nat): nat
    requires i <= |cmds|
  {
    32 + |Flat(cmds[..i])|
  }

  lemma CommandAt(file: Bytes, cmds: seq<Bytes>, i: nat)
    requires Table(file, cmds) && i < |cmds|
    ensures Offset(cmds, i + 1) == Offset(cmds, i) + |cmds[i]| <= 32 + SizeOf(file)
    ensures file[Offset(cmds, i)..Offset(cmds, i + 1)] == cmds[i]
    ensures Offset(cmds, i + 1) == 32 + SizeOf(file) <==> i + 1 == |cmds|
  {
    assert cmds[..i + 1][..i] == cmds[..i];
    FlatSplit(cmds, i + 1);
    var front, rest := Flat(cmds[..i]), cmds[i + 1..];
    if rest != [] {
      assert Command(rest[|rest| - 1]);
    }
    MiddleOf(file, 32 + SizeOf(file), front, cmds[i], Flat(rest));
  }

  lemma MiddleOf(file: Bytes, end: nat, x: Bytes, c: Bytes, y: Bytes)
    requires 32 <= end <= |file| && file[32..end] == x + c + y
    ensures end == 32 + |x| + |c| + |y|
    ensures file[32 + |x|..32 + |x| + |c|] == c
  {
    assert (x + c + y)[|x|..|x| + |c|] == c;
    SliceOfSlice(file, 32, end, |x|, |x| + |c|);
  }

  lemma ReadsCommand(file: Bytes, off: nat, c: Bytes)
    requires Command(c) && off + |c| <= |file| && file[off..off + |c|] == c
    ensures U32At(file, off) == U32At(c, 0) && U32At(file, off + 4) == |c|
  {
    SliceOfSlice(file, off, off + |c|, 0, 4);
    SliceOfSlice(file, off, off + |c|, 4, 8);
  }

  predicate IsSource(c: Bytes) { |c| >= 8 && U32At(c, 0) == LC_SOURCE }

  /** A signature-requirements command of 16 bytes followed by a source command of 16 bytes. */
  predicate IsPair(cmds: seq<Bytes>, k: nat) {
    && k + 1 < |cmds|
    && |cmds[k]| == 16 && U32At(cmds[k], 0) == LC_DRS
    && |cmds[k + 1]| == 16 && IsSource(cmds[k + 1])
  }

  /** The commands to replace: count commands from index k on; none when count is 0. */
  datatype Pick = Pick(k: nat, count: nat)

  /** The choice after looking at the first i commands. */
  function Choose(cmds: seq<Bytes>, i: nat): (p: Pick)
    requires i <= |cmds|
    ensures p.k + p.count <= |cmds| && p.count <= 2
  {
    if i == 0 then Pick(0, 0)
    else if IsPair(cmds, i - 1) then Pick(i - 1, 2)
    else if i == |cmds| && IsSource(cmds[i - 1]) && Choose(cmds, i - 1).count == 0 then Pick(i - 1, 1)
    else Choose(cmds, i - 1)
  }

  function Choice(cmds: seq<Bytes>): (p: Pick)
    ensures p.k + p.count <= |cmds| && p.count <= 2
  {
    Choose(cmds, |cmds|)
  }

  /** The last pair is chosen; without a pair, a source command at the very end; else nothing. */
  lemma {:induction false} ChooseMeaning(cmds: seq<Bytes>, i: nat)
    requires i <= |cmds|
    ensures var p := Choose(cmds, i);
            && (p.count == 2 ==> p.k < i && IsPair(cmds, p.k) && forall j :: p.k < j < i ==> !IsPair(cmds, j))
            && (p.count <= 1 ==> forall j :: 0 <= j < i ==> !IsPair(cmds, j))
            && (p.count == 1 <==> i > 0 && i == |cmds| && IsSource(cmds[i - 1]) && forall j :: 0 <= j < i ==> !IsPair(cmds, j))
            && (p.count == 1 ==> p.k == i - 1)
  {
    if i > 0 {
      ChooseMeaning(cmds, i - 1);
    }
  }

  function AnchorOf(cmds: seq<Bytes>, p: Pick): Anchor
    requires p.k + p.count <= |cmds|
  {
    if p.count == 0 then Anchor(0, 0, 0)
    else Anchor(Offset(cmds, p.k), if p.count == 2 then 32 else |cmds[p.k]|, p.count)
  }

  /** One step of the scan on a well-formed table. */
  lemma ScanStep(file: Bytes, cmds: seq<Bytes>, i: nat)
    requires Table(file, cmds) && i < |cmds|
    ensures var off, end := Offset(cmds, i), 32 + SizeOf(file);
            && off + 8 <= |file| && U32At(file, off + 4) == |cmds[i]| && off + |cmds[i]| <= |file|
            && (MayStartPair(file, |cmds|, i, off) ==> off + 24 <= |file|)
            && NextAnchor(file, |cmds|, end, i, off, AnchorOf(cmds, Choose(cmds, i))) == AnchorOf(cmds, Choose(cmds, i + 1))
  {
    var off, c := Offset(cmds, i), cmds[i];
    CommandAt(file, cmds, i);
    ReadsCommand(file, off, c);
    if i + 1 < |cmds| {
      CommandAt(file, cmds, i + 1);
      ReadsCommand(file, off + |c|, cmds[i + 1]);
    }
  }

  /** On a well-formed table the scan neither stops nor panics, and finds the chosen commands. */
  lemma {:induction false} ScanFindsChoice(file: Bytes, cmds: seq<Bytes>, i: nat)
    requires Table(file, cmds) && i <= |cmds|
    ensures Scan(file, |cmds|, 32 + SizeOf(file), i, Offset(cmds, i), AnchorOf(cmds, Choose(cmds, i)))
            == Scanned(AnchorOf(cmds, Choice(cmds)))
    decreases |cmds| - i
  {
    if i < |cmds| {
      ScanStep(file, cmds, i);
      OffsetStep(file, cmds, i);
      ScanFindsChoice(file, cmds, i + 1);
    }
  }

  lemma OffsetStep(file: Bytes, cmds: seq<Bytes>, i: nat)
    requires Table(file, cmds) && i < |cmds|
    ensures Offset(cmds, i + 1) == Offset(cmds, i) + |cmds[i]| && |cmds[i]| >= 8
  {
    CommandAt(file, cmds, i);
  }

  // ----- the edit as a whole

  lemma SixWords(a: Bytes, b: Bytes, c: Bytes, d: Bytes, e: Bytes, f: Bytes, rest: Bytes)
    requires |a| == |b| == |c| == |d| == |e| == |f| == 4
    ensures var w := a + b + c + d + e + f + rest;
            && w[0..4] == a && w[4..8] == b && w[8..12] == c && w[12..16] == d && w[16..20] == e && w[20..24] == f
  {
    var w := a + b + c + d + e + f + rest;
    assert w[0..4] == a;
    assert w[4..8] == b;
    assert w[8..12] == c;
    assert w[12..16] == d;
    assert w[16..20] == e;
    assert w[20..24] == f;
  }

  lemma SixFields(a: nat, b: nat, c: nat, d: nat, e: nat, f: nat, rest: Bytes)
    requires a < U32 && b < U32 && c < U32 && d < U32 && e < U32 && f < U32
    ensures var w := Le32(a) + Le32(b) + Le32(c) + Le32(d) + Le32(e) + Le32(f) + rest;
            && U32At(w, 0) == a && U32At(w, 4) == b && U32At(w, 8) == c
            && U32At(w, 12) == d && U32At(w, 16) == e && U32At(w, 20) == f
  {
    var w := Le32(a) + Le32(b) + Le32(c) + Le32(d) + Le32(e) + Le32(f) + rest;
    SixWords(Le32(a), Le32(b), Le32(c), Le32(d), Le32(e), Le32(f), rest);
    Le32Read(w, 0, a);
    Le32Read(w, 4, b);
    Le32Read(w, 8, c);
    Le32Read(w, 12, d);
    Le32Read(w, 16, e);
    Le32Read(w, 20, f);
  }

  lemma HeaderFields(cs: nat, rest: Bytes)
    requires cs < U32
    ensures var c := DylibHeader(cs) + rest;
            && U32At(c, 0) == 0xc && U32At(c, 4) == cs && U32At(c, 8) == 24
            && U32At(c, 12) == 2 && U32At(c, 16) == 0x1_0000 && U32At(c, 20) == 0x1_0000
  {
    SixFields(0xc, cs, 24, 2, 0x1_0000, 0x1_0000, rest);
  }

  lemma DylibParts(name: Bytes)
    ensures var c := DylibCommand(name);
            && c == DylibHeader(CommandSize(name)) + (name + Zeros(CommandSize(name) - 24 - |name|))
            && c[24..24 + |name|] == name && forall i :: 24 + |name| <= i < |c| ==> c[i] == 0
  {
  }

  /** The new command announces its length and carries the name, NUL-padded, at offset 24, behind a timestamp and two versions. */
  lemma DylibCarriesName(name: Bytes)
    requires CommandSize(name) < U32
    ensures var c := DylibCommand(name);
            && Command(c) && U32At(c, 0) == 0xc && U32At(c, 8) == 24
            && U32At(c, 12) == 2 && U32At(c, 16) == 0x1_0000 && U32At(c, 20) == 0x1_0000
            && c[24..24 + |name|] == name
            && forall i :: 24 + |name| <= i < |c| ==> c[i] == 0
  {
    DylibParts(name);
    HeaderFields(CommandSize(name), name + Zeros(CommandSize(name) - 24 - |name|));
  }

  /** The command list after the edit: old prefix, one new command, old suffix. */
  function Edited(cmds: seq<Bytes>, name: Bytes): (r: seq<Bytes>)
    ensures |r| == |cmds| - Choice(cmds).count + 1
  {
    cmds[..Choice(cmds).k] + [DylibCommand(name)] + cmds[Choice(cmds).k + Choice(cmds).count..]
  }

  /** file with another load-command table, its two counts updated, and every other byte as before. */
  function WithTable(file: Bytes, count: nat, table: Bytes): Bytes
    requires 32 + |table| <= |file|
  {
    file[..16] + Le32(count) + Le32(|table|) + file[24..32] + table + file[32 + |table|..]
  }

  lemma FlatEdited(pre: seq<Bytes>, c: Bytes, post: seq<Bytes>)
    ensures Flat(pre + [c] + post) == Flat(pre) + c + Flat(post)
  {
    FlatAppend(pre + [c], post);
    assert (pre + [c])[..|pre|] == pre;
  }

  lemma FlatThree(cmds: seq<Bytes>, k: nat, m: nat)
    requires k <= m <= |cmds|
    ensures Flat(cmds) == Flat(cmds[..k]) + Flat(cmds[k..m]) + Flat(cmds[m..])
  {
    FlatSplit(cmds, m);
    FlatSplit(cmds[..m], k);
    assert cmds[..m][..k] == cmds[..k] && cmds[..m][k..] == cmds[k..m];
  }

  /** The replaced commands as bytes. */
  function Gone(cmds: seq<Bytes>): Bytes {
    Flat(cmds[Choice(cmds).k..Choice(cmds).k + Choice(cmds).count])
  }

  lemma AnchorIsGone(cmds: seq<Bytes>)
    requires Choice(cmds).count > 0
    ensures AnchorOf(cmds, Choice(cmds)).size == |Gone(cmds)|
  {
    var p := Choice(cmds);
    ChooseMeaning(cmds, |cmds|);
    var gone := cmds[p.k..p.k + p.count];
    var front := gone[..1];
    assert Flat(front) == Flat(front[..0]) + cmds[p.k];
    if p.count == 2 {
      assert Flat(gone) == Flat(front) + cmds[p.k + 1];
    }
  }

  /** Splicing a table made of three parts replaces the middle one. */
  lemma SplicedParts(file: Bytes, a: Anchor, name: Bytes, pre: Bytes, gone: Bytes, post: Bytes)
    requires |file| >= 32 && 32 + SizeOf(file) <= |file|
    requires file[32..32 + SizeOf(file)] == pre + gone + post
    requires a.off == 32 + |pre| && a.size == |gone|
    requires 32 + SizeOf(file) + CommandSize(name) - a.size <= |file|
    ensures a.off + CommandSize(name) <= |file|
    ensures var table := pre + DylibCommand(name) + post;
            && |table| == SizeOf(file) + CommandSize(name) - a.size
            && Spliced(file, a, name) == file[..32] + table + file[32 + |table|..]
  {
    var end, c := 32 + SizeOf(file), DylibCommand(name);
    PartsOf(file, end, pre, gone, post);
    assert Spliced(file, a, name) == file[..32 + |pre|] + c + file[32 + |pre| + |gone|..end] + file[end + |c| - |gone|..];
    Regroup3(file[..32], pre, c, post, file[end + |c| - |gone|..]);
  }

  lemma PartsOf(file: Bytes, end: nat, pre: Bytes, gone: Bytes, post: Bytes)
    requires 32 <= end <= |file| && file[32..end] == pre + gone + post
    ensures end == 32 + |pre| + |gone| + |post|
    ensures file[..32 + |pre|] == file[..32] + pre
    ensures file[32 + |pre| + |gone|..end] == post
  {
    var t := pre + gone + post;
    assert t[0..|pre|] == pre && t[|pre| + |gone|..|t|] == post;
    SliceOfSlice(file, 32, end, 0, |pre|);
    SliceOfSlice(file, 32, end, |pre| + |gone|, |t|);
    assert file[..32 + |pre|] == file[..32] + file[32..32 + |pre|];
  }

  lemma Regroup3(h: Bytes, x: Bytes, c: Bytes, y: Bytes, t: Bytes)
    ensures (h + x) + c + y + t == h + (x + c + y) + t
  {
  }

  lemma HeaderOfTable(file: Bytes, count: nat, table: Bytes)
    requires 32 + |table| <= |file|
    ensures WithHeader(file[..32] + table + file[32 + |table|..], count, |table|) == WithTable(file, count, table)
  {
    var s := file[..32] + table + file[32 + |table|..];
    assert s[..16] == file[..16];
    assert s[24..] == file[24..32] + table + file[32 + |table|..];
    var t := file[32 + |table|..];
    assert file[..16] + Le32(count) + Le32(|table|) + (file[24..32] + table + t)
        == file[..16] + Le32(count) + Le32(|table|) + file[24..32] + table + t;
  }

  /** The result for chosen commands in the middle of a three-part table. */
  lemma FinishParts(file: Bytes, a: Anchor, name: Bytes, pre: Bytes, gone: Bytes, post: Bytes, count: nat, table: Bytes)
    requires |file| >= 32 && 32 + SizeOf(file) <= |file|
    requires file[32..32 + SizeOf(file)] == pre + gone + post
    requires a.off == 32 + |pre| && a.size == |gone|
    requires Plausible(file, Ncmd(file), 32 + SizeOf(file), a)
    requires count == Ncmd(file) - a.count + 1 && table == pre + DylibCommand(name) + post
    ensures Finish(file, a, name) == Outcome(file, CommandSize(name) - |gone|, count, table)
  {
    FinishIs(file, a, name);
    if Room(file, 32 + SizeOf(file), CommandSize(name) - |gone|).Rewritten? {
      PatchedParts(file, a, name, pre, gone, post, table);
    }
  }

  lemma PatchedParts(file: Bytes, a: Anchor, name: Bytes, pre: Bytes, gone: Bytes, post: Bytes, table: Bytes)
    requires |file| >= 32 && 32 + SizeOf(file) <= |file|
    requires file[32..32 + SizeOf(file)] == pre + gone + post
    requires a.off == 32 + |pre| && a.size == |gone|
    requires Plausible(file, Ncmd(file), 32 + SizeOf(file), a) && 32 + SizeOf(file) + CommandSize(name) - a.size <= |file|
    requires table == pre + DylibCommand(name) + post
    ensures a.off + CommandSize(name) <= |file| && 32 + |table| <= |file|
    ensures Patched(file, a, name) == WithTable(file, Ncmd(file) - a.count + 1, table)
  {
    SplicedParts(file, a, name, pre, gone, post);
    HeaderOfTable(file, Ncmd(file) - a.count + 1, table);
  }

  lemma FinishIs(file: Bytes, a: Anchor, name: Bytes)
    requires |file| >= 32 && 32 + SizeOf(file) <= |file| && Plausible(file, Ncmd(file), 32 + SizeOf(file), a) && a.off != 0
    ensures var room := Room(file, 32 + SizeOf(file), CommandSize(name) - a.size);
            Finish(file, a, name) == if !room.Rewritten? then room
                                     else if a.off + CommandSize(name) > |file| then Panicked
                                     else Rewritten(Patched(file, a, name))
  {
  }

  /** Room permitting, the file with the new table. */
  function Outcome(file: Bytes, delta: int, count: nat, table: Bytes): Result
    requires |file| >= 32 && 32 + SizeOf(file) <= |file|
  {
    var room := Room(file, 32 + SizeOf(file), delta);
    if !room.Rewritten? then room
    else if 32 + |table| <= |file| then Rewritten(WithTable(file, count, table))
    else Panicked
  }

  /** On a well-formed table: without a command to replace an error, else the edited table if there is room for it. */
  lemma RewriteOfTable(file: Bytes, cmds: seq<Bytes>, name: Bytes)
    requires Table(file, cmds)
    ensures RewriteOf(file, name) ==
              if Choice(cmds).count == 0 then Refused(NoAnchor)
              else Outcome(file, CommandSize(name) - |Gone(cmds)|, |Edited(cmds, name)|, Flat(Edited(cmds, name)))
  {
    RewriteIsFinish(file, cmds, name);
    var p := Choice(cmds);
    if p.count > 0 {
      TableInParts(file, cmds, name, p);
      FinishParts(file, AnchorOf(cmds, p), name, Flat(cmds[..p.k]), Gone(cmds), Flat(cmds[p.k + p.count..]),
                  |Edited(cmds, name)|, Flat(Edited(cmds, name)));
    }
  }

  lemma TableInParts(file: Bytes, cmds: seq<Bytes>, name: Bytes, p: Pick)
    requires Table(file, cmds) && p == Choice(cmds) && p.count > 0
    ensures var pre, post := Flat(cmds[..p.k]), Flat(cmds[p.k + p.count..]);
            && AnchorOf(cmds, p).size == |Gone(cmds)|
            && Flat(Edited(cmds, name)) == pre + DylibCommand(name) + post
            && file[32..32 + SizeOf(file)] == pre + Gone(cmds) + post
  {
    AnchorIsGone(cmds);
    FlatEdited(cmds[..p.k], DylibCommand(name), cmds[p.k + p.count..]);
    FlatThree(cmds, p.k, p.k + p.count);
  }

  /** The growth agrees with the new size, so there is never a panic on a well-formed table. */
  lemma OutcomeSize(file: Bytes, cmds: seq<Bytes>, name: Bytes)
    requires Table(file, cmds) && Choice(cmds).count > 0
    ensures |Flat(Edited(cmds, name))| == SizeOf(file) + CommandSize(name) - |Gone(cmds)|
    ensures Outcome(file, CommandSize(name) - |Gone(cmds)|, |Edited(cmds, name)|, Flat(Edited(cmds, name))) != Panicked
  {
    TableInParts(file, cmds, name, Choice(cmds));
    assert |file[32..32 + SizeOf(file)]| == SizeOf(file);
  }

  /** After the table the file has as many zero bytes as the table grows. */
  ghost predicate ZeroedRoom(file: Bytes, end: nat, growth: int) {
    growth <= 0 || (end + growth <= |file| && forall j :: end <= j < end + growth ==> file[j] == 0)
  }

  /** The rewrite of a well-formed table never panics, and succeeds exactly when there is a command to replace and room for the growth; each refusal has its own reason. */
  lemma RewriteSucceedsIff(file: Bytes, cmds: seq<Bytes>, name: Bytes)
    requires Table(file, cmds)
    ensures RewriteOf(file, name) != Panicked
    ensures RewriteOf(file, name).Rewritten? <==>
              Choice(cmds).count > 0 && ZeroedRoom(file, 32 + SizeOf(file), CommandSize(name) - |Gone(cmds)|)
    ensures RewriteOf(file, name) == Refused(NoAnchor) <==> Choice(cmds).count == 0
    ensures RewriteOf(file, name) == Refused(NoPadding) <==>
              Choice(cmds).count > 0 && |file| < 32 + SizeOf(file) + CommandSize(name) - |Gone(cmds)| && CommandSize(name) > |Gone(cmds)|
  {
    RewriteOfTable(file, cmds, name);
    if Choice(cmds).count > 0 { OutcomeSize(file, cmds, name); }
  }

  lemma RewriteIsFinish(file: Bytes, cmds: seq<Bytes>, name: Bytes)
    requires Table(file, cmds)
    ensures Plausible(file, Ncmd(file), 32 + SizeOf(file), AnchorOf(cmds, Choice(cmds)))
    ensures RewriteOf(file, name) == Finish(file, AnchorOf(cmds, Choice(cmds)), name)
  {
    assert Offset(cmds, 0) == 32;
    ScanFindsChoice(file, cmds, 0);
    ScanAnchors(file, Ncmd(file), 32 + SizeOf(file), 0, 32, Anchor(0, 0, 0));
  }

  lemma SamePrefix(a: Bytes, b: Bytes)
    requires |a| >= 16 && |b| >= 16 && a[..16] == b[..16]
    ensures U32At(a, 0) == U32At(b, 0)
  {
    SliceOfSlice(a, 0, 16, 0, 4);
    SliceOfSlice(b, 0, 16, 0, 4);
  }

  lemma SixParts(a: Bytes, b: Bytes, c: Bytes, d: Bytes, e: Bytes, f: Bytes)
    requires |a| == 16 && |b| == 4 && |c| == 4 && |d| == 8
    ensures var s := a + b + c + d + e + f;
            s[..16] == a && s[16..20] == b && s[20..24] == c && s[24..32] == d && s[32..32 + |e|] == e && s[32 + |e|..] == f
  {
  }

  /** A file given another table: only the table and the two counts change; the new table is well-formed exactly when its size fits the field. */
  lemma WithTableMeaning(file: Bytes, edited: seq<Bytes>)
    requires |file| >= 32 && U32At(file, 0) == MAGIC && |edited| < U32
    requires 32 + |Flat(edited)| <= |file|
    requires |Flat(edited)| < U32 ==> forall i :: 0 <= i < |edited| ==> Command(edited[i])
    ensures var out := WithTable(file, |edited|, Flat(edited));
            && OnlyTableDiffers(file, out, |Flat(edited)|)
            && (Table(out, edited) <==> |Flat(edited)| < U32)
  {
    WithTableParts(file, |edited|, Flat(edited));
    var out := WithTable(file, |edited|, Flat(edited));
    SmallFits(|edited|);
    if |Flat(edited)| < U32 {
      SmallFits(|Flat(edited)|);
      TableFits(out, edited);
    } else {
      TableTooBig(out, edited);
    }
  }

  lemma SmallFits(n: nat)
    requires n < U32
    ensures n % U32 == n
  {
  }

  lemma TableFits(out: Bytes, edited: seq<Bytes>)
    requires 32 + |Flat(edited)| <= |out| && out[32..32 + |Flat(edited)|] == Flat(edited)
    requires U32At(out, 0) == MAGIC && U32At(out, 16) == |edited| && U32At(out, 20) == |Flat(edited)|
    requires forall i :: 0 <= i < |edited| ==> Command(edited[i])
    ensures Table(out, edited)
  {
  }

  lemma TableTooBig(out: Bytes, edited: seq<Bytes>)
    requires |out| >= 32 && |Flat(edited)| >= U32
    ensures !Table(out, edited)
  {
    if 32 + SizeOf(out) <= |out| {
      assert |out[32..32 + SizeOf(out)]| == SizeOf(out) < U32;
    }
  }

  /** Outside the two counts and the first size bytes of the table the files agree. */
  predicate OnlyTableDiffers(file: Bytes, out: Bytes, size: nat) {
    && 32 + size <= |out| == |file|
    && out[..16] == file[..16] && out[24..32] == file[24..32] && out[32 + size..] == file[32 + size..]
  }

  lemma WithTableParts(file: Bytes, count: nat, table: Bytes)
    requires 32 + |table| <= |file|
    ensures var out := WithTable(file, count, table);
            && OnlyTableDiffers(file, out, |table|)
            && out[32..32 + |table|] == table
            && U32At(out, 0) == U32At(file, 0) && U32At(out, 16) == count % U32 && U32At(out, 20) == |table| % U32
  {
    var out := WithTable(file, count, table);
    SixParts(file[..16], Le32(count), Le32(|table|), file[24..32], table, file[32 + |table|..]);
    Le32Read(out, 16, count);
    Le32Read(out, 20, |table|);
    SamePrefix(out, file);
  }

  /**
   A successful rewrite of a well-formed table is a faithful table edit: the old
   prefix, one new command, the old suffix, right counts, and every byte past the
   new table untouched; exactly when the new table size fits its 32-bit field.
   */
  lemma RewriteIsTableEdit(file: Bytes, cmds: seq<Bytes>, name: Bytes)
    requires Table(file, cmds) && RewriteOf(file, name).Rewritten?
    ensures var out, size := RewriteOf(file, name).bytes, |Flat(Edited(cmds, name))|;
            && OnlyTableDiffers(file, out, size)
            && (Table(out, Edited(cmds, name)) <==> size < U32)
  {
    RewriteOfTable(file, cmds, name);
    if |Flat(Edited(cmds, name))| < U32 {
      EditedCommands(cmds, name);
    }
    assert Ncmd(file) < U32;
    WithTableMeaning(file, Edited(cmds, name));
  }

  lemma EditedCommands(cmds: seq<Bytes>, name: Bytes)
    requires forall i :: 0 <= i < |cmds| ==> Command(cmds[i])
    requires |Flat(Edited(cmds, name))| < U32
    ensures forall i :: 0 <= i < |Edited(cmds, name)| ==> Command(Edited(cmds, name)[i])
  {
    var p := Choice(cmds);
    var pre, post := cmds[..p.k], cmds[p.k + p.count..];
    assert |DylibCommand(name)| <= |Flat(Edited(cmds, name))| by { FlatEdited(pre, DylibCommand(name), post); }
    DylibCarriesName(name);
    AllCommands(pre, DylibCommand(name), post);
  }

  lemma AllCommands(pre: seq<Bytes>, c: Bytes, post: seq<Bytes>)
    requires (forall i :: 0 <= i < |pre| ==> Command(pre[i])) && Command(c)
    requires forall i :: 0 <= i < |post| ==> Command(post[i])
    ensures var all := pre + [c] + post; forall i :: 0 <= i < |all| ==> Command(all[i])
  {
  }
}
