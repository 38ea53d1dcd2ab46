/** The files that archive-repack/main.go leaves when it closes a set of archives. */
module ArchiveParts {
  import opened Decimal
  import opened MemberPaths

  // What the program does is a function of the disk and of what each call on it
  // answers. Any answers are possible, so what holds for all answers holds of every
  // run, and any answers are a run that can happen.

  /** nil, an error that isFileTooLarge recognises, and every other error. */
  datatype Error = Nil | TooLarge | Other

  datatype Entry = Entry(kind: Kind, name: string, mtime: int, source: nat)

  /** A file holds a readable archive or something else. */
  datatype Contents = Whole(members: seq<Entry>) | Torn

  type Files = map<string, Contents>

  // ----- part names

  /** The name of part n: the destination, or a number before its suffix. */
  function PartPath(destination: string, suffix: string, n: nat): string
    requires |suffix| <= |destination|
  {
    var cut := |destination| - |suffix|;
    if n == 1 then destination else destination[..cut] + "-" + Numeral(n) + destination[cut..]
  }

  /** Different parts have different names. */
  lemma PartPathInjective(destination: string, suffix: string, m: nat, n: nat)
    requires |suffix| <= |destination|
    requires PartPath(destination, suffix, m) == PartPath(destination, suffix, n)
    ensures m == n
  {
    if m != 1 && n != 1 {
      var cut := |destination| - |suffix|;
      var p := PartPath(destination, suffix, m);
      assert p[cut + 1..|p| - |suffix|] == Numeral(m);
      assert p[cut + 1..|p| - |suffix|] == Numeral(n);
      NumeralInjective(m, n);
    }
  }

  function PathsUpTo(destination: string, suffix: string, n: nat): set<string>
    requires |suffix| <= |destination|
  {
    if n == 0 then {} else PathsUpTo(destination, suffix, n - 1) + {PartPath(destination, suffix, n)}
  }

  /** The output paths are the part names so far. */
  lemma {:induction false} PathsAreParts(destination: string, suffix: string, n: nat, p: string)
    requires |suffix| <= |destination|
    ensures p in PathsUpTo(destination, suffix, n) <==> exists k: nat :: 1 <= k <= n && p == PartPath(destination, suffix, k)
  {
    if n > 0 { PathsAreParts(destination, suffix, n - 1, p); }
  }

  /** The name of the next part is not among those so far. */
  lemma NextPathIsNew(destination: string, suffix: string, n: nat)
    requires |suffix| <= |destination|
    ensures PartPath(destination, suffix, n + 1) !in PathsUpTo(destination, suffix, n)
  {
    LaterIsNew(destination, suffix, n, n + 1);
  }

  // ----- before and after

  /** The files that are not named in keys are the same before and after. */
  ghost predicate SameOutside(before: Files, after: Files, keys: set<string>) {
    forall p :: p !in keys ==> (p in before <==> p in after) && (p in before ==> before[p] == after[p])
  }

  /** The files that are not named in keys are still there, unchanged. */
  ghost predicate Untouched(before: Files, after: Files, keys: set<string>) {
    forall p :: p in before && p !in keys ==> p in after && after[p] == before[p]
  }

  // ----- calls and their answers

  /** What the n-th call of each kind answers, when nothing is in its way. */
  datatype Answers = Answers(opens: nat -> Error, adds: nat -> Error, closes: nat -> Error, removes: nat -> bool)

  /** How many calls of each kind there have been. */
  datatype Clock = Clock(opens: nat, adds: nat, closes: nat, removes: nat)

  datatype Drive = Drive(files: Files, clock: Clock)

  datatype Outcome = Outcome(drive: Drive, err: Error)

  /** A new archive is never made over a file that is in the way. */
  function OpenOf(a: Answers, d: Drive, path: string): Outcome {
    var c, err := d.clock, if path in d.files then Other else a.opens(d.clock.opens);
    Outcome(Drive(if err == Nil then d.files[path := Torn] else d.files, c.(opens := c.opens + 1)), err)
  }

  function RemoveOf(a: Answers, d: Drive, path: string): Outcome {
    var c, ok := d.clock, path in d.files && a.removes(d.clock.removes);
    Outcome(Drive(if ok then d.files - {path} else d.files, c.(removes := c.removes + 1)), if ok then Nil else Other)
  }

  /** How many of n entries are added before the first error. */
  function Added(a: Answers, from: nat, n: nat): (k: nat)
    ensures k <= n
    decreases n
  {
    if n == 0 || a.adds(from) != Nil then 0 else 1 + Added(a, from + 1, n - 1)
  }

  /** Add n entries up to the first error. */
  function AddsOf(a: Answers, d: Drive, n: nat): Outcome {
    var c, k := d.clock, Added(a, d.clock.adds, n);
    if k == n then Outcome(Drive(d.files, c.(adds := c.adds + n)), Nil)
    else Outcome(Drive(d.files, c.(adds := c.adds + k + 1)), a.adds(c.adds + k))
  }

  /** Close an archive that holds these entries, whole only if it is intact. */
  function FinishOf(a: Answers, d: Drive, path: string, entries: seq<Entry>, intact: bool): Outcome {
    var c, err := d.clock, a.closes(d.clock.closes);
    Outcome(Drive(if err == Nil && intact then d.files[path := Whole(entries)] else d.files, c.(closes := c.closes + 1)), err)
  }

  /** writeEntries: the archive is closed after an error as well. */
  function WriteOf(a: Answers, d: Drive, path: string, entries: seq<Entry>): Outcome {
    var made := OpenOf(a, d, path);
    if made.err != Nil then made
    else
      var added := AddsOf(a, made.drive, |entries|);
      var closed := FinishOf(a, added.drive, path, entries, added.err == Nil);
      if added.err != Nil then Outcome(closed.drive, added.err) else closed
  }

  lemma {:induction false} AddedAll(a: Answers, from: nat, n: nat)
    ensures Added(a, from, n) == n <==> forall i :: from <= i < from + n ==> a.adds(i) == Nil
    ensures Added(a, from, n) < n ==> a.adds(from + Added(a, from, n)) != Nil
    decreases n
  {
    if n > 0 { AddedAll(a, from + 1, n - 1); }
  }

  /** Every call that writing n entries to a free path makes works. */
  ghost predicate Works(a: Answers, c: Clock, n: nat) {
    a.opens(c.opens) == Nil && (forall i :: c.adds <= i < c.adds + n ==> a.adds(i) == Nil) && a.closes(c.closes) == Nil
  }

  /** An archive is written whole exactly when its name is free and every call works; else at most a torn file is left at a free name. */
  lemma WritingIff(a: Answers, d: Drive, path: string, entries: seq<Entry>)
    ensures var w := WriteOf(a, d, path, entries);
            && (w.err == Nil <==> path !in d.files && Works(a, d.clock, |entries|))
            && (w.err == Nil ==> w.drive.files == d.files[path := Whole(entries)])
            && (w.err != Nil ==> w.drive.files == d.files || (path !in d.files && w.drive.files == d.files[path := Torn]))
            && (path in d.files ==> w.err == Other && w.drive.files == d.files)
  {
    AddedAll(a, d.clock.adds, |entries|);
  }

  // ----- one part

  /** Write these entries, and clean up after a failure. */
  function TryOf(a: Answers, d: Drive, path: string, entries: seq<Entry>): Outcome {
    var w := WriteOf(a, d, path, entries);
    if w.err == Nil then w else Outcome(RemoveOf(a, w.drive, path).drive, w.err)
  }

  datatype Written = Written(drive: Drive, count: nat, err: Error)

  /** Prefixes of at most count entries, longest first, until one fits. */
  function WritePrefix(a: Answers, d: Drive, path: string, entries: seq<Entry>, count: nat): (w: Written)
    requires count <= |entries|
    ensures w.count <= count && (w.err == Nil ==> w.count > 0)
    decreases count
  {
    if count == 0 then Written(d, 0, TooLarge)
    else
      var t := TryOf(a, d, path, entries[..count]);
      if t.err == Nil then Written(t.drive, count, Nil)
      else if t.err == Other then Written(t.drive, 0, Other)
      else WritePrefix(a, t.drive, path, entries, count - 1)
  }

  lemma TryKeeps(a: Answers, d: Drive, path: string, entries: seq<Entry>)
    ensures var t := TryOf(a, d, path, entries);
            && SameOutside(d.files, t.drive.files, {path})
            && (t.err == Nil ==> path in t.drive.files && t.drive.files[path] == Whole(entries))
            && (path in d.files ==> t.err == Other)
            && (path in d.files ==> t.drive.files == if a.removes(d.clock.removes) then d.files - {path} else d.files)
  {
    WritingIff(a, d, path, entries);
  }

  /** Writing a part at a free path touches no other file; at a taken path it fails, and the file there goes exactly when it can be removed. */
  lemma {:induction false} WritePrefixKeeps(a: Answers, d: Drive, path: string, entries: seq<Entry>, count: nat)
    requires count <= |entries|
    ensures var w := WritePrefix(a, d, path, entries, count);
            && SameOutside(d.files, w.drive.files, {path})
            && (w.err == Nil ==> path in w.drive.files && w.drive.files[path] == Whole(entries[..w.count]))
            && (path in d.files && count > 0 ==> w.err == Other)
            && (path in d.files && count > 0 ==> w.drive.files == if a.removes(d.clock.removes) then d.files - {path} else d.files)
    decreases count
  {
    if count > 0 {
      var t := TryOf(a, d, path, entries[..count]);
      TryKeeps(a, d, path, entries[..count]);
      if t.err == TooLarge { WritePrefixKeeps(a, t.drive, path, entries, count - 1); }
    }
  }

  /** No length is left out: there is one attempt for the whole, and for each shorter prefix down to the one that is written. */
  lemma {:induction false} EveryPrefixTried(a: Answers, d: Drive, path: string, entries: seq<Entry>, count: nat)
    requires count <= |entries|
    ensures var w := WritePrefix(a, d, path, entries, count);
            && (w.err == Nil ==> w.drive.clock.opens == d.clock.opens + (count - w.count) + 1)
            && (w.err == TooLarge ==> w.drive.clock.opens == d.clock.opens + count)
    decreases count
  {
    if count > 0 { EveryPrefixTried(a, TryOf(a, d, path, entries[..count]).drive, path, entries, count - 1); }
  }

  // ----- all parts

  /** Parts from number part on, each with the longest prefix that is written, until nothing is left. */
  function Repacked(a: Answers, d: Drive, destination: string, suffix: string, part: nat, rest: seq<Entry>): Outcome
    requires |suffix| <= |destination|
    decreases |rest|
  {
    if rest == [] then Outcome(d, Nil)
    else
      var w := WritePrefix(a, d, PartPath(destination, suffix, part), rest, |rest|);
      if w.err != Nil then Outcome(w.drive, w.err)
      else Repacked(a, w.drive, destination, suffix, part + 1, rest[w.count..])
  }

  lemma RepackedNext(a: Answers, d: Drive, destination: string, suffix: string, part: nat, rest: seq<Entry>, w: Written, next: nat)
    requires |suffix| <= |destination| && rest != [] && w == WritePrefix(a, d, PartPath(destination, suffix, part), rest, |rest|)
    requires w.err == Nil && w.count < |rest| ==> next == part + 1
    ensures Repacked(a, d, destination, suffix, part, rest) ==
            if w.err != Nil then Outcome(w.drive, w.err) else Repacked(a, w.drive, destination, suffix, next, rest[w.count..])
  {
  }

  /** Closing a set whose current part, with this number, holds these entries; only an intact archive becomes whole. */
  function CloseOf(a: Answers, d: Drive, destination: string, suffix: string, part: nat, entries: seq<Entry>, intact: bool): Outcome
    requires |suffix| <= |destination|
  {
    var path := PartPath(destination, suffix, part);
    var closed := FinishOf(a, d, path, entries, intact);
    if closed.err != TooLarge then closed
    else
      var removed := RemoveOf(a, closed.drive, path);
      if removed.err != Nil then removed else Repacked(a, removed.drive, destination, suffix, part, entries)
  }

  // ----- a full part

  /** The calls after an attempt that answered "too large": removing the part, writing its n entries again, beginning the next part and the second attempt all work. */
  ghost predicate Recovers(a: Answers, c: Clock, n: nat, taken: bool) {
    && a.removes(c.removes)
    && Works(a, c.(adds := c.adds + 1, closes := c.closes + 1), n)
    && !taken && a.opens(c.opens + 1) == Nil
    && a.adds(c.adds + 1 + n) == Nil
  }

  /** An entry gets into a set whose current part has n entries. */
  ghost predicate GetsIn(a: Answers, c: Clock, n: nat, taken: bool) {
    a.adds(c.adds) == Nil || (a.adds(c.adds) == TooLarge && n > 0 && Recovers(a, c, n, taken))
  }

  /** Nothing fails but adding entries, and that only as too large, not at once, and never twice among total + 2 calls in a row. */
  ghost predicate Smooth(a: Answers, from: nat, total: nat) {
    && (forall n :: a.opens(n) == Nil) && (forall n :: a.closes(n) == Nil) && (forall n :: a.removes(n))
    && a.adds(from) == Nil && (forall n :: n >= from ==> a.adds(n) != Other)
    && (forall m, n :: from <= m < n <= m + total + 1 && a.adds(m) == TooLarge ==> a.adds(n) != TooLarge)
  }

  lemma SmoothGetsIn(a: Answers, from: nat, total: nat, c: Clock, n: nat)
    requires Smooth(a, from, total) && c.adds >= from && n <= total && (c.adds > from ==> n > 0)
    ensures GetsIn(a, c, n, false)
  {
    if a.adds(c.adds) == TooLarge {
      forall i | c.adds < i <= c.adds + 1 + n ensures a.adds(i) == Nil { assert a.adds(i) != TooLarge; }
    }
  }

  /** No later part name is taken. */
  ghost predicate LaterFree(files: Files, destination: string, suffix: string, part: nat)
    requires |suffix| <= |destination|
  {
    forall k: nat :: k > part ==> PartPath(destination, suffix, k) !in files
  }

  lemma StillFree(before: Files, after: Files, destination: string, suffix: string, part: nat, now: nat)
    requires |suffix| <= |destination| && part <= now && LaterFree(before, destination, suffix, part)
    requires SameOutside(before, after, PathsUpTo(destination, suffix, now))
    ensures LaterFree(after, destination, suffix, now)
  {
    forall k: nat | k > now ensures PartPath(destination, suffix, k) !in after {
      LaterIsNew(destination, suffix, now, k);
    }
  }

  lemma LaterIsNew(destination: string, suffix: string, n: nat, k: nat)
    requires |suffix| <= |destination| && k > n
    ensures PartPath(destination, suffix, k) !in PathsUpTo(destination, suffix, n)
  {
    PathsAreParts(destination, suffix, n, PartPath(destination, suffix, k));
    forall m: nat | 1 <= m <= n ensures PartPath(destination, suffix, m) != PartPath(destination, suffix, k) {
      if PartPath(destination, suffix, m) == PartPath(destination, suffix, k) { PartPathInjective(destination, suffix, m, k); }
    }
  }

  // ----- files that were there before

  /** p has the name of a later part, no name in between is taken, and fewer than size parts precede it. */
  ghost predicate FirstTaken(files: Files, destination: string, suffix: string, part: nat, size: nat, p: string)
    requires |suffix| <= |destination|
  {
    exists n: nat :: && part < n < part + size && p == PartPath(destination, suffix, n) && p in files
                     && FreeBetween(files, destination, suffix, part, n)
  }

  ghost predicate FreeBetween(files: Files, destination: string, suffix: string, part: nat, n: nat)
    requires |suffix| <= |destination|
  {
    forall m: nat :: part < m < n ==> PartPath(destination, suffix, m) !in files
  }

  lemma FirstTakenUnique(files: Files, destination: string, suffix: string, part: nat, size: nat, p: string, q: string)
    requires |suffix| <= |destination|
    requires FirstTaken(files, destination, suffix, part, size, p) && FirstTaken(files, destination, suffix, part, size, q)
    ensures p == q
  {
    var m: nat :| part < m < part + size && p == PartPath(destination, suffix, m) && p in files && FreeBetween(files, destination, suffix, part, m);
    var n: nat :| part < n < part + size && q == PartPath(destination, suffix, n) && q in files && FreeBetween(files, destination, suffix, part, n);
    assert !(m < n) && !(n < m);
  }

  /** p is still there unchanged, or it is gone, with an error, and has the first taken name. */
  ghost predicate Spared(files: Files, after: Outcome, destination: string, suffix: string, part: nat, size: nat, p: string)
    requires |suffix| <= |destination|
  {
    || (p in after.drive.files && p in files && after.drive.files[p] == files[p])
    || (p !in after.drive.files && after.err == Other && FirstTaken(files, destination, suffix, part, size, p))
  }

  lemma LaterFirst(before: Files, files: Files, destination: string, suffix: string, part: nat, size: nat, less: nat, p: string)
    requires |suffix| <= |destination| && less < size
    requires SameOutside(before, files, {PartPath(destination, suffix, part)}) && PartPath(destination, suffix, part + 1) !in files
    requires FirstTaken(files, destination, suffix, part + 1, less, p)
    ensures FirstTaken(before, destination, suffix, part, size, p)
  {
    var n: nat :| part + 1 < n < part + 1 + less && p == PartPath(destination, suffix, n) && p in files
                  && FreeBetween(files, destination, suffix, part + 1, n);
    forall m: nat | part < m <= n ensures PartPath(destination, suffix, m) != PartPath(destination, suffix, part) {
      if PartPath(destination, suffix, m) == PartPath(destination, suffix, part) { PartPathInjective(destination, suffix, m, part); }
    }
    assert FreeBetween(before, destination, suffix, part, n);
  }

  lemma NextTaken(before: Files, files: Files, destination: string, suffix: string, part: nat, size: nat)
    requires |suffix| <= |destination| && size > 1
    requires SameOutside(before, files, {PartPath(destination, suffix, part)}) && PartPath(destination, suffix, part + 1) in files
    ensures FirstTaken(before, destination, suffix, part, size, PartPath(destination, suffix, part + 1))
  {
    if PartPath(destination, suffix, part + 1) == PartPath(destination, suffix, part) {
      PartPathInjective(destination, suffix, part + 1, part);
    }
    assert FreeBetween(before, destination, suffix, part, part + 1);
  }

  /** Repacking from a free name spares every file but possibly the one with the first taken name. */
  lemma {:induction false} RepackingSpares(a: Answers, d: Drive, destination: string, suffix: string, part: nat, rest: seq<Entry>, p: string)
    requires |suffix| <= |destination| && PartPath(destination, suffix, part) !in d.files && p in d.files
    ensures Spared(d.files, Repacked(a, d, destination, suffix, part, rest), destination, suffix, part, |rest|, p)
    decreases |rest|
  {
    if rest != [] {
      var path, next := PartPath(destination, suffix, part), PartPath(destination, suffix, part + 1);
      var w := WritePrefix(a, d, path, rest, |rest|);
      WritePrefixKeeps(a, d, path, rest, |rest|);
      assert p != path && p in w.drive.files && w.drive.files[p] == d.files[p];
      var left := rest[w.count..];
      if w.err == Nil && left != [] {
        if next !in w.drive.files {
          RepackingSpares(a, w.drive, destination, suffix, part + 1, left, p);
          if FirstTaken(w.drive.files, destination, suffix, part + 1, |left|, p) {
            LaterFirst(d.files, w.drive.files, destination, suffix, part, |rest|, |left|, p);
          }
        } else {
          TakenNext(a, w.drive, destination, suffix, part + 1, left);
          NextTaken(d.files, w.drive.files, destination, suffix, part, |rest|);
        }
      }
    }
  }

  /** At a taken name the repacking stops with an error, and the file there goes exactly when it can be removed. */
  lemma TakenNext(a: Answers, d: Drive, destination: string, suffix: string, part: nat, rest: seq<Entry>)
    requires |suffix| <= |destination| && PartPath(destination, suffix, part) in d.files && rest != []
    ensures var c := Repacked(a, d, destination, suffix, part, rest);
            c.err == Other && c.drive.files == if a.removes(d.clock.removes) then d.files - {PartPath(destination, suffix, part)} else d.files
  {
    WritePrefixKeeps(a, d, PartPath(destination, suffix, part), rest, |rest|);
  }

  /** Closing spares every file but its own part and possibly the one with the first taken name, and that only with an error. */
  lemma ClosingSpares(a: Answers, d: Drive, destination: string, suffix: string, part: nat, entries: seq<Entry>, intact: bool, p: string)
    requires |suffix| <= |destination| && p in d.files && p != PartPath(destination, suffix, part)
    ensures Spared(d.files, CloseOf(a, d, destination, suffix, part, entries, intact), destination, suffix, part, |entries|, p)
  {
    var path := PartPath(destination, suffix, part);
    var closed := FinishOf(a, d, path, entries, intact);
    var removed := RemoveOf(a, closed.drive, path);
    if closed.err == TooLarge && removed.err == Nil {
      RepackingSpares(a, removed.drive, destination, suffix, part, entries, p);
      if FirstTaken(removed.drive.files, destination, suffix, part, |entries|, p) {
        OwnFileAside(d.files, destination, suffix, part, |entries|, p);
      }
    }
  }

  lemma OwnFileAside(files: Files, destination: string, suffix: string, part: nat, size: nat, p: string)
    requires |suffix| <= |destination|
    ensures FirstTaken(files - {PartPath(destination, suffix, part)}, destination, suffix, part, size, p)
            <==> FirstTaken(files, destination, suffix, part, size, p)
  {
    var others := files - {PartPath(destination, suffix, part)};
    forall n: nat | part < n ensures PartPath(destination, suffix, n) in others <==> PartPath(destination, suffix, n) in files {
      if PartPath(destination, suffix, n) == PartPath(destination, suffix, part) { PartPathInjective(destination, suffix, n, part); }
    }
    forall n: nat ensures FreeBetween(others, destination, suffix, part, n) <==> FreeBetween(files, destination, suffix, part, n) { }
  }

  // ----- a run that loses a file

  /** Only closing ever fails. */
  ghost predicate OnlyCloseFails(a: Answers) {
    (forall n :: a.opens(n) == Nil) && (forall n :: a.adds(n) == Nil) && (forall n :: a.removes(n))
  }

  /** The next closes answer like this. */
  ghost predicate Closes(a: Answers, from: nat, list: seq<Error>) {
    forall i :: 0 <= i < |list| ==> a.closes(from + i) == list[i]
  }

  /** Only the first entry of count fits. */
  function OnlyOneFits(count: nat): (list: seq<Error>)
    ensures |list| == if count == 0 then 1 else count
  {
    if count <= 1 then [Nil] else [TooLarge] + OnlyOneFits(count - 1)
  }

  lemma FailedTry(a: Answers, d: Drive, path: string, entries: seq<Entry>)
    requires OnlyCloseFails(a) && path !in d.files && a.closes(d.clock.closes) != Nil
    ensures var t := TryOf(a, d, path, entries);
            t.err == a.closes(d.clock.closes) && t.drive.files == d.files && t.drive.clock.closes == d.clock.closes + 1
  {
    AddedAll(a, d.clock.adds, |entries|);
    assert d.files[path := Torn] - {path} == d.files;
  }

  lemma GoodTry(a: Answers, d: Drive, path: string, entries: seq<Entry>)
    requires OnlyCloseFails(a) && path !in d.files && a.closes(d.clock.closes) == Nil
    ensures var t := TryOf(a, d, path, entries);
            t.err == Nil && t.drive.files == d.files[path := Whole(entries)] && t.drive.clock.closes == d.clock.closes + 1
  {
    AddedAll(a, d.clock.adds, |entries|);
  }

  lemma {:induction false} OneFits(a: Answers, d: Drive, path: string, entries: seq<Entry>, count: nat)
    requires OnlyCloseFails(a) && 0 < count <= |entries| && path !in d.files
    requires Closes(a, d.clock.closes, OnlyOneFits(count))
    ensures var w := WritePrefix(a, d, path, entries, count);
            && w.err == Nil && w.count == 1 && w.drive.files == d.files[path := Whole(entries[..1])]
            && w.drive.clock.closes == d.clock.closes + count
    decreases count
  {
    var list := OnlyOneFits(count);
    assert a.closes(d.clock.closes + 0) == list[0];
    if count == 1 {
      GoodTry(a, d, path, entries[..1]);
    } else {
      FailedTry(a, d, path, entries[..count]);
      var t := TryOf(a, d, path, entries[..count]);
      var tail := OnlyOneFits(count - 1);
      forall i | 0 <= i < |tail| ensures a.closes(t.drive.clock.closes + i) == tail[i] {
        assert a.closes(d.clock.closes + (i + 1)) == list[i + 1];
      }
      OneFits(a, t.drive, path, entries, count - 1);
    }
  }

  /** The repacking writes one entry a part, for this many rounds. */
  function LosingCloses(size: nat, rounds: nat): seq<Error>
    requires rounds < size
  {
    if rounds == 0 then [] else OnlyOneFits(size) + LosingCloses(size - 1, rounds - 1)
  }

  lemma ClosesSplit(a: Answers, from: nat, l: seq<Error>, m: seq<Error>)
    requires Closes(a, from, l + m)
    ensures Closes(a, from, l) && Closes(a, from + |l|, m)
  {
    forall i | 0 <= i < |l| ensures a.closes(from + i) == l[i] { assert (l + m)[i] == l[i]; }
    forall i | 0 <= i < |m| ensures a.closes(from + |l| + i) == m[i] { assert (l + m)[|l| + i] == m[i]; }
  }

  /** The name of part n is taken, and none from part on before it. */
  ghost predicate TakenAt(files: Files, destination: string, suffix: string, part: nat, n: nat)
    requires |suffix| <= |destination|
  {
    PartPath(destination, suffix, n) in files && forall m: nat :: part <= m < n ==> PartPath(destination, suffix, m) !in files
  }

  lemma NamesStay(before: Files, after: Files, destination: string, suffix: string, part: nat, n: nat, entries: seq<Entry>)
    requires |suffix| <= |destination| && part < n && after == before[PartPath(destination, suffix, part) := Whole(entries)]
    requires TakenAt(before, destination, suffix, part, n)
    ensures TakenAt(after, destination, suffix, part + 1, n)
  {
    forall m: nat | part < m <= n ensures PartPath(destination, suffix, m) != PartPath(destination, suffix, part) {
      if PartPath(destination, suffix, m) == PartPath(destination, suffix, part) { PartPathInjective(destination, suffix, m, part); }
    }
  }

  lemma FirstCloses(a: Answers, from: nat, size: nat, rounds: nat)
    requires 0 < rounds < size && Closes(a, from, LosingCloses(size, rounds))
    ensures Closes(a, from, OnlyOneFits(size)) && Closes(a, from + size, LosingCloses(size - 1, rounds - 1))
  {
    ClosesSplit(a, from, OnlyOneFits(size), LosingCloses(size - 1, rounds - 1));
  }

  /** With size entries left, the repacking loses the file of part n after this many rounds. */
  ghost predicate Losing(a: Answers, d: Drive, destination: string, suffix: string, part: nat, n: nat, size: nat, rounds: nat)
    requires |suffix| <= |destination|
  {
    && n == part + rounds && rounds < size && OnlyCloseFails(a)
    && TakenAt(d.files, destination, suffix, part, n) && Closes(a, d.clock.closes, LosingCloses(size, rounds))
  }

  lemma FirstRoundGoes(a: Answers, d: Drive, destination: string, suffix: string, part: nat, n: nat, rest: seq<Entry>, rounds: nat) returns (after: Drive, first: seq<Entry>, tail: seq<Entry>)
    requires |suffix| <= |destination| && rounds > 0 && Losing(a, d, destination, suffix, part, n, |rest|, rounds)
    ensures |tail| == |rest| - 1 && after.clock.closes == d.clock.closes + |rest|
    ensures after.files == d.files[PartPath(destination, suffix, part) := Whole(first)]
    ensures Repacked(a, d, destination, suffix, part, rest) == Repacked(a, after, destination, suffix, part + 1, tail)
  {
    var w := WritePrefix(a, d, PartPath(destination, suffix, part), rest, |rest|);
    FirstCloses(a, d.clock.closes, |rest|, rounds);
    OneFits(a, d, PartPath(destination, suffix, part), rest, |rest|);
    RepackedNext(a, d, destination, suffix, part, rest, w, part + 1);
    after, first, tail := w.drive, rest[..1], rest[1..];
  }

  lemma StillLosing(a: Answers, d: Drive, after: Drive, destination: string, suffix: string, part: nat, n: nat, size: nat, rounds: nat, entries: seq<Entry>)
    requires |suffix| <= |destination| && rounds > 0 && Losing(a, d, destination, suffix, part, n, size, rounds)
    requires after.files == d.files[PartPath(destination, suffix, part) := Whole(entries)]
    requires after.clock.closes == d.clock.closes + size
    ensures Losing(a, after, destination, suffix, part + 1, n, size - 1, rounds - 1)
  {
    FirstCloses(a, d.clock.closes, size, rounds);
    NamesStay(d.files, after.files, destination, suffix, part, n, entries);
  }

  lemma OneRound(a: Answers, d: Drive, destination: string, suffix: string, part: nat, n: nat, rest: seq<Entry>, rounds: nat) returns (after: Drive, tail: seq<Entry>)
    requires |suffix| <= |destination| && rounds > 0
    ensures Losing(a, d, destination, suffix, part, n, |rest|, rounds) ==> Losing(a, after, destination, suffix, part + 1, n, |tail|, rounds - 1)
    ensures Losing(a, d, destination, suffix, part, n, |rest|, rounds) ==>
              Repacked(a, d, destination, suffix, part, rest) == Repacked(a, after, destination, suffix, part + 1, tail)
  {
    after, tail := d, rest;
    if Losing(a, d, destination, suffix, part, n, |rest|, rounds) {
      var first;
      after, first, tail := FirstRoundGoes(a, d, destination, suffix, part, n, rest, rounds);
      StillLosing(a, d, after, destination, suffix, part, n, |rest|, rounds, first);
    }
  }

  lemma {:induction false} RoundsLose(a: Answers, d: Drive, destination: string, suffix: string, part: nat, n: nat, rest: seq<Entry>, rounds: nat)
    requires |suffix| <= |destination|
    ensures Losing(a, d, destination, suffix, part, n, |rest|, rounds) ==>
              PartPath(destination, suffix, n) !in Repacked(a, d, destination, suffix, part, rest).drive.files
    decreases rounds
  {
    if rounds == 0 {
      LostAtOnce(a, d, destination, suffix, part, n, rest);
    } else {
      var after, tail := OneRound(a, d, destination, suffix, part, n, rest, rounds);
      RoundsLose(a, after, destination, suffix, part + 1, n, tail, rounds - 1);
    }
  }

  lemma LostAtOnce(a: Answers, d: Drive, destination: string, suffix: string, part: nat, n: nat, rest: seq<Entry>)
    requires |suffix| <= |destination|
    ensures Losing(a, d, destination, suffix, part, n, |rest|, 0) ==>
              PartPath(destination, suffix, n) !in Repacked(a, d, destination, suffix, part, rest).drive.files
  {
    if Losing(a, d, destination, suffix, part, n, |rest|, 0) { TakenNext(a, d, destination, suffix, part, rest); }
  }

  /** Answers with these errors of closing, and no other errors. */
  function ClosesAnswer(list: seq<Error>): Answers {
    Answers(n => Nil, n => Nil, (n: nat) => if n < |list| then list[n] else Nil, n => true)
  }

  /** The calls may answer so that this file is lost when the set is closed. */
  ghost predicate CanLose(files: Files, destination: string, suffix: string, part: nat, entries: seq<Entry>, intact: bool, p: string)
    requires |suffix| <= |destination|
  {
    exists a, c :: p !in CloseOf(a, Drive(files, c), destination, suffix, part, entries, intact).drive.files
  }

  lemma AnswersThis(list: seq<Error>)
    ensures var a := ClosesAnswer(list); OnlyCloseFails(a) && a.removes(0) && Closes(a, 0, list)
  {
  }

  lemma LaterCloses(a: Answers, list: seq<Error>)
    requires Closes(a, 0, [TooLarge] + list)
    ensures a.closes(0) == TooLarge && Closes(a, 1, list)
  {
    ClosesSplit(a, 0, [TooLarge], list);
    assert a.closes(0 + 0) == [TooLarge][0];
  }

  /** The first close fails and the current part goes; from there on the repacking loses the file of part n. */
  lemma RemovedThenLosing(a: Answers, d: Drive, destination: string, suffix: string, part: nat, n: nat, size: nat)
    requires |suffix| <= |destination| && part < n < part + size && d.clock == Clock(0, 0, 0, 0)
    requires a == ClosesAnswer([TooLarge] + LosingCloses(size, n - part)) && PartPath(destination, suffix, part) in d.files
    requires TakenAt(d.files - {PartPath(destination, suffix, part)}, destination, suffix, part, n)
    ensures a.closes(0) == TooLarge && a.removes(0)
    ensures Losing(a, Drive(d.files - {PartPath(destination, suffix, part)}, Clock(0, 0, 1, 1)), destination, suffix, part, n, size, n - part)
  {
    AnswersThis([TooLarge] + LosingCloses(size, n - part));
    LaterCloses(a, LosingCloses(size, n - part));
  }

  lemma LossCanHappen(files: Files, destination: string, suffix: string, part: nat, n: nat, entries: seq<Entry>, intact: bool)
    requires |suffix| <= |destination| && PartPath(destination, suffix, part) in files && part < n < part + |entries|
    requires TakenAt(files - {PartPath(destination, suffix, part)}, destination, suffix, part, n)
    ensures CanLose(files, destination, suffix, part, entries, intact, PartPath(destination, suffix, n))
  {
    var path := PartPath(destination, suffix, part);
    var a, d := ClosesAnswer([TooLarge] + LosingCloses(|entries|, n - part)), Drive(files, Clock(0, 0, 0, 0));
    RemovedThenLosing(a, d, destination, suffix, part, n, |entries|);
    var removed := Drive(files - {path}, Clock(0, 0, 1, 1));
    RoundsLose(a, removed, destination, suffix, part, n, entries, n - part);
    CloseRepacks(a, d, destination, suffix, part, entries, intact, removed);
    assert PartPath(destination, suffix, n) !in CloseOf(a, d, destination, suffix, part, entries, intact).drive.files;
  }

  lemma CloseRepacks(a: Answers, d: Drive, destination: string, suffix: string, part: nat, entries: seq<Entry>, intact: bool, removed: Drive)
    requires |suffix| <= |destination| && d.clock == Clock(0, 0, 0, 0) && a.closes(0) == TooLarge && a.removes(0)
    requires PartPath(destination, suffix, part) in d.files
    requires removed == Drive(d.files - {PartPath(destination, suffix, part)}, Clock(0, 0, 1, 1))
    ensures CloseOf(a, d, destination, suffix, part, entries, intact) == Repacked(a, removed, destination, suffix, part, entries)
  {
  }

  /** Closing a set may lose a file that is not its current part exactly when the file has the first taken name of a later part that the repacking may reach. */
  lemma LossIff(files: Files, destination: string, suffix: string, part: nat, entries: seq<Entry>, intact: bool, p: string)
    requires |suffix| <= |destination| && PartPath(destination, suffix, part) in files
    requires p in files && p != PartPath(destination, suffix, part)
    ensures CanLose(files, destination, suffix, part, entries, intact, p) <==>
            FirstTaken(files, destination, suffix, part, |entries|, p)
  {
    if a, c :| p !in CloseOf(a, Drive(files, c), destination, suffix, part, entries, intact).drive.files {
      ClosingSpares(a, Drive(files, c), destination, suffix, part, entries, intact, p);
    }
    if FirstTaken(files, destination, suffix, part, |entries|, p) {
      var others := files - {PartPath(destination, suffix, part)};
      OwnFileAside(files, destination, suffix, part, |entries|, p);
      var n: nat :| part < n < part + |entries| && p == PartPath(destination, suffix, n) && p in others
                    && FreeBetween(others, destination, suffix, part, n);
      assert TakenAt(others, destination, suffix, part, n);
      LossCanHappen(files, destination, suffix, part, n, entries, intact);
    }
  }

  /** A disk with an unrelated file under the second name: closing a set of two entries may remove it. */
  lemma SecondNameLost(kept: Contents, a: Entry, b: Entry)
    ensures var files := map["out.zip" := Torn, "out-2.zip" := kept];
            CanLose(files, "out.zip", ".zip", 1, [a, b], true, "out-2.zip")
  {
    var files := map["out.zip" := Torn, "out-2.zip" := kept];
    SecondName();
    assert FreeBetween(files, "out.zip", ".zip", 1, 2);
    assert FirstTaken(files, "out.zip", ".zip", 1, 2, "out-2.zip");
    LossIff(files, "out.zip", ".zip", 1, [a, b], true, "out-2.zip");
  }

  lemma SecondName()
    ensures PartPath("out.zip", ".zip", 1) == "out.zip" && PartPath("out.zip", ".zip", 2) == "out-2.zip"
  {
    assert Numeral(2) == "2";
  }
}
