/**
 archiveSet of archive-repack/main.go: entries go into the current part; when a part
 turns out too large it is rebuilt without the failed entry and a new part begins,
 and when closing the last part fails the entries are repacked.

 Every call that
 touches the disk may fail in any way at any time.
 */
module ArchiveRepack {
  import opened ArchiveParts
  import opened MemberPaths
  import opened Sequences
  import opened Wrappers

  // ----- the disk and the archive being written

  class Disk {
    const answers: Answers
    var files: Files
    var clock: Clock
    ghost var refused: set<seq<Entry>>  // lists whose archive was found too large

    constructor (files: Files, answers: Answers)
      ensures this.files == files && this.answers == answers && clock == Clock(0, 0, 0, 0) && refused == {}
    {
      this.files, this.answers, clock, refused := files, answers, Clock(0, 0, 0, 0), {};
    }

    function Now(): Drive
      reads this
    {
      Drive(files, clock)
    }

    method Remove(path: string) returns (err: Error)
      modifies this`files, this`clock
      ensures Outcome(Now(), err) == RemoveOf(answers, old(Now()), path)
    {
      err := if path in files && answers.removes(clock.removes) then Nil else Other;
      clock := clock.(removes := clock.removes + 1);
      if err == Nil { files := files - {path}; }
    }
  }

  class Output {
    const disk: Disk
    const path: string
    var members: seq<Entry>
    var intact: bool
    var closed: bool

    /** The file is new: an existing one is an error. */
    constructor (disk: Disk, path: string)
      requires path !in disk.files
      modifies disk`files
      ensures this.disk == disk && this.path == path && members == [] && intact && !closed
      ensures disk.files == old(disk.files)[path := Torn]
    {
      this.disk, this.path, members, intact, closed := disk, path, [], true, false;
      new;
      disk.files := disk.files[path := Torn];
    }

    /** A failed write leaves a truncated member behind. */
    method Add(e: Entry) returns (err: Error)
      modifies this`members, this`intact, disk`clock
      ensures err == disk.answers.adds(old(disk.clock.adds))
      ensures disk.clock == old(disk.clock).(adds := old(disk.clock.adds) + 1)
      ensures err == Nil ==> members == old(members) + [e] && intact == old(intact)
      ensures err != Nil ==> !intact
    {
      err := disk.answers.adds(disk.clock.adds);
      disk.clock := disk.clock.(adds := disk.clock.adds + 1);
      if err == Nil { members := members + [e]; } else { intact := false; }
    }

    method Close() returns (err: Error)
      modifies this`closed, disk`files, disk`clock
      ensures closed
      ensures old(closed) ==> err == Nil && disk.Now() == old(disk.Now())
      ensures !old(closed) ==> Outcome(disk.Now(), err) == FinishOf(disk.answers, old(disk.Now()), path, members, intact)
    {
      if closed { return Nil; }
      closed := true;
      err := disk.answers.closes(disk.clock.closes);
      disk.clock := disk.clock.(closes := disk.clock.closes + 1);
      if err == Nil && intact { disk.files := disk.files[path := Whole(members)]; }
    }
  }

  method NewOutput(disk: Disk, path: string) returns (err: Error, out: Output?)
    modifies disk`files, disk`clock
    ensures Outcome(disk.Now(), err) == OpenOf(disk.answers, old(disk.Now()), path)
    ensures err == Nil <==> out != null
    ensures out != null ==> fresh(out) && out.disk == disk && out.path == path
    ensures out != null ==> out.members == [] && out.intact && !out.closed
    ensures out != null ==> path !in old(disk.files) && disk.files == old(disk.files)[path := Torn]
    ensures out == null ==> disk.files == old(disk.files)
    ensures path in old(disk.files) ==> err == Other
  {
    err, out := if path in disk.files then Other else disk.answers.opens(disk.clock.opens), null;
    disk.clock := disk.clock.(opens := disk.clock.opens + 1);
    if err == Nil { out := new Output(disk, path); }
  }

  lemma AddedNext(a: Answers, from: nat, n: nat, i: nat)
    requires i < n && Added(a, from, n) == i + Added(a, from + i, n - i)
    ensures a.adds(from + i) == Nil ==> Added(a, from, n) == i + 1 + Added(a, from + (i + 1), n - (i + 1))
    ensures a.adds(from + i) != Nil ==> Added(a, from, n) == i
  {
  }

  /** Put the entries into an open archive, up to the first error. */
  method AddAll(out: Output, entries: seq<Entry>) returns (err: Error)
    requires out.members == [] && out.intact
    modifies out`members, out`intact, out.disk`clock
    ensures Outcome(out.disk.Now(), err) == AddsOf(out.disk.answers, old(out.disk.Now()), |entries|)
    ensures err == Nil ==> out.members == entries && out.intact
    ensures err != Nil ==> !out.intact
  {
    ghost var a, c := out.disk.answers, out.disk.clock;
    for i := 0 to |entries|
      invariant out.members == entries[..i] && out.intact
      invariant out.disk.clock == c.(adds := c.adds + i)
      invariant Added(a, c.adds, |entries|) == i + Added(a, c.adds + i, |entries| - i)
    {
      AddedNext(a, c.adds, |entries|, i);
      err := out.Add(entries[i]);
      if err != Nil { return; }
    }
    return Nil;
  }

  /** One whole archive, or none: a failure leaves at most a torn file at a path that was free. */
  method WriteEntries(disk: Disk, path: string, entries: seq<Entry>) returns (err: Error)
    modifies disk
    ensures Outcome(disk.Now(), err) == WriteOf(disk.answers, old(disk.Now()), path, entries)
    ensures err == Nil <==> path !in old(disk.files) && Works(disk.answers, old(disk.clock), |entries|)
    ensures err == Nil ==> path !in old(disk.files) && disk.files == old(disk.files)[path := Whole(entries)]
    ensures err != Nil ==> disk.files == old(disk.files) ||
                           (path !in old(disk.files) && disk.files == old(disk.files)[path := Torn])
    ensures disk.refused == if err == TooLarge then old(disk.refused) + {entries} else old(disk.refused)
    ensures path in old(disk.files) ==> err == Other
  {
    WritingIff(disk.answers, disk.Now(), path, entries);
    var out: Output?;
    err, out := NewOutput(disk, path);
    if out != null {
      err := AddAll(out, entries);
      if err != Nil {
        var ignored := out.Close();
      } else {
        err := out.Close();
      }
    }
    if err == TooLarge { disk.refused := disk.refused + {entries}; }
  }

  // ----- conservation

  function Flatten(parts: seq<seq<Entry>>): seq<Entry> {
    if parts == [] then [] else Flatten(parts[..|parts| - 1]) + parts[|parts| - 1]
  }

  lemma FlattenSnoc(parts: seq<seq<Entry>>, part: seq<Entry>)
    ensures Flatten(parts + [part]) == Flatten(parts) + part
  {
    assert (parts + [part])[..|parts|] == parts;
  }

  lemma Regroup(a: seq<Entry>, b: seq<Entry>, n: nat)
    requires n <= |b|
    ensures (a + b[..n]) + b[n..] == a + b
  {
  }

  /** What is claimed once these entries are accepted. */
  function ClaimsOf(accepted: seq<Entry>): Claimed {
    if accepted == [] then map[]
    else ClaimsOf(accepted[..|accepted| - 1])[accepted[|accepted| - 1].name := accepted[|accepted| - 1].kind]
  }

  lemma ClaimsSnoc(accepted: seq<Entry>, e: Entry)
    ensures ClaimsOf(accepted + [e]) == ClaimsOf(accepted)[e.name := e.kind]
  {
    assert (accepted + [e])[..|accepted|] == accepted;
  }

  /** The claims are those of the accepted entries, and tidy. */
  ghost predicate InStep(claimed: Claimed, accepted: seq<Entry>) {
    claimed == ClaimsOf(accepted) && Tidy(claimed)
  }

  lemma InStepSnoc(claimed: Claimed, accepted: seq<Entry>, e: Entry)
    requires InStep(claimed, accepted) && Tidy(claimed[e.name := e.kind])
    ensures InStep(claimed[e.name := e.kind], accepted + [e])
  {
    ClaimsSnoc(accepted, e);
  }

  /** The accepted entries after one more request; None when the request is an error. */
  ghost function Accept(accepted: seq<Entry>, request: Entry): Option<seq<Entry>> {
    var name := Safe(request.name);
    if name == None then None
    else match Judge(ClaimsOf(accepted), name.value, request.kind)
      case Conflict => None
      case Again => Some(accepted)
      case Fresh => Some(accepted + [request.(name := name.value)])
  }

  ghost function AcceptAll(requests: seq<Entry>): Option<seq<Entry>> {
    if requests == [] then Some([])
    else match AcceptAll(requests[..|requests| - 1])
      case None => None
      case Some(accepted) => Accept(accepted, requests[|requests| - 1])
  }

  lemma AcceptAllNext(requests: seq<Entry>, i: nat)
    requires i < |requests|
    ensures AcceptAll(requests[..i + 1]) ==
            match AcceptAll(requests[..i]) case None => None case Some(accepted) => Accept(accepted, requests[i])
  {
    assert requests[..i + 1][..i] == requests[..i];
  }

  lemma {:induction false} ClaimsHaveAll(accepted: seq<Entry>)
    ensures forall i :: 0 <= i < |accepted| ==> accepted[i].name in ClaimsOf(accepted)
  {
    if accepted != [] { ClaimsHaveAll(accepted[..|accepted| - 1]); }
  }

  ghost predicate DistinctNames(accepted: seq<Entry>) {
    forall i, j :: 0 <= i < j < |accepted| ==> accepted[i].name != accepted[j].name
  }

  lemma AcceptKeeps(accepted: seq<Entry>, request: Entry)
    requires DistinctNames(accepted) && Tidy(ClaimsOf(accepted)) && forall e :: e in accepted ==> Clean(e.name)
    requires Accept(accepted, request).Some?
    ensures var after := Accept(accepted, request).value;
            DistinctNames(after) && Tidy(ClaimsOf(after)) && forall e :: e in after ==> Clean(e.name)
  {
    var name := Safe(request.name).value;
    SafeIsClean(request.name);
    ClaimsHaveAll(accepted);
    ClaimsSnoc(accepted, request.(name := name));
    FreshIff(ClaimsOf(accepted), name, request.kind);
  }

  /** A request with a safe name is skipped if it is a directory that is there already, accepted as it is, with that name, if it is new and tidy, and refused otherwise. */
  lemma AcceptIff(accepted: seq<Entry>, request: Entry, name: string)
    requires Tidy(ClaimsOf(accepted))
    ensures Safe(request.name) == None ==> Accept(accepted, request) == None
    ensures Safe(request.name) == Some(name) ==>
              var claims := ClaimsOf(accepted);
              Accept(accepted, request) ==
                if name in claims then (if claims[name] == Dir && request.kind == Dir then Some(accepted) else None)
                else if Tidy(claims[name := request.kind]) then Some(accepted + [Entry(request.kind, name, request.mtime, request.source)])
                else None
  {
    FreshIff(ClaimsOf(accepted), name, request.kind);
  }

  /** Whatever is requested: accepted names are clean and distinct, and nothing lies below a file. */
  lemma {:induction false} AcceptedUnpack(requests: seq<Entry>)
    requires AcceptAll(requests).Some?
    ensures var accepted := AcceptAll(requests).value;
            DistinctNames(accepted) && Tidy(ClaimsOf(accepted)) && forall e :: e in accepted ==> Clean(e.name)
  {
    if requests != [] {
      var n := |requests| - 1;
      AcceptedUnpack(requests[..n]);
      AcceptKeeps(AcceptAll(requests[..n]).value, requests[n]);
    }
  }

  /** The request is accepted as a new entry. */
  ghost predicate IsFresh(accepted: seq<Entry>, request: Entry) {
    Accept(accepted, request).Some? && Accept(accepted, request) != Some(accepted)
  }

  /** A new entry went into the current part at the first attempt, or is the first of a new part after the old one became whole. */
  ghost predicate EntryIn(a: Answers, c: Clock, parts: seq<seq<Entry>>, entries: seq<Entry>, part: nat,
                          c': Clock, parts': seq<seq<Entry>>, entries': seq<Entry>, part': nat) {
    if a.adds(c.adds) == Nil
    then parts' == parts && part' == part && |entries'| == |entries| + 1 && entries <= entries' && c'.adds == c.adds + 1
    else parts' == parts + [entries] && part' == part + 1 && |entries'| == 1 && c'.adds == c.adds + |entries| + 2
  }

  // ----- greedy splitting

  /** Every part is the longest prefix of what was left that was not refused; rest is left at the end. */
  ghost predicate Greedy(entries: seq<Entry>, parts: seq<seq<Entry>>, rest: seq<Entry>, refused: set<seq<Entry>>) {
    if parts == [] then entries == rest
    else
      var n := |parts[0]|;
      && 0 < n <= |entries| && entries[..n] == parts[0]
      && (forall m :: n < m <= |entries| ==> entries[..m] in refused)
      && Greedy(entries[n..], parts[1..], rest, refused)
  }

  lemma {:induction false} GreedyMonotone(entries: seq<Entry>, parts: seq<seq<Entry>>, rest: seq<Entry>,
                                          refused: set<seq<Entry>>, more: set<seq<Entry>>)
    requires Greedy(entries, parts, rest, refused) && refused <= more
    ensures Greedy(entries, parts, rest, more)
    decreases |parts|
  {
    if parts != [] { GreedyMonotone(entries[|parts[0]|..], parts[1..], rest, refused, more); }
  }

  lemma {:induction false} GreedySnoc(entries: seq<Entry>, parts: seq<seq<Entry>>, rest: seq<Entry>,
                                      refused: set<seq<Entry>>, n: nat)
    requires Greedy(entries, parts, rest, refused) && 0 < n <= |rest|
    requires forall m :: n < m <= |rest| ==> rest[..m] in refused
    ensures Greedy(entries, parts + [rest[..n]], rest[n..], refused)
    decreases |parts|
  {
    var longer := parts + [rest[..n]];
    if parts == [] {
      assert longer[1..] == [];
    } else {
      GreedySnoc(entries[|parts[0]|..], parts[1..], rest, refused, n);
      assert longer[1..] == parts[1..] + [rest[..n]];
    }
  }

  lemma GreedyStep(entries: seq<Entry>, parts: seq<seq<Entry>>, rest: seq<Entry>,
                   refused: set<seq<Entry>>, more: set<seq<Entry>>, n: nat)
    requires Greedy(entries, parts, rest, refused) && refused <= more && 0 < n <= |rest|
    requires forall m :: n < m <= |rest| ==> rest[..m] in more
    ensures Greedy(entries, parts + [rest[..n]], rest[n..], more)
  {
    GreedyMonotone(entries, parts, rest, refused, more);
    GreedySnoc(entries, parts, rest, more, n);
  }

  /** A way to cut the entries into parts. */
  ghost predicate IsSplit(entries: seq<Entry>, parts: seq<seq<Entry>>) {
    if parts == [] then entries == []
    else
      var n := |parts[0]|;
      n <= |entries| && entries[..n] == parts[0] && IsSplit(entries[n..], parts[1..])
  }

  lemma Slices(s: seq<Entry>, i: nat, j: nat)
    requires i + j <= |s|
    ensures s[i..][..j] == s[i..i + j] && s[i..][j..] == s[i + j..]
  {
  }

  /** What is left after k entries needs no more greedy parts than a split of everything has. */
  lemma {:induction false} GreedyAhead(fits: seq<Entry> -> bool, entries: seq<Entry>, k: nat, parts: seq<seq<Entry>>,
                                       refused: set<seq<Entry>>, other: seq<seq<Entry>>)
    requires forall s :: s in refused ==> !fits(s)
    requires forall s: seq<Entry>, i, j :: 0 <= i <= j <= |s| && fits(s) ==> fits(s[i..j])
    requires IsSplit(entries, other) && forall q :: q in other ==> fits(q)
    requires k <= |entries| && Greedy(entries[k..], parts, [], refused)
    ensures |parts| <= |other|
    decreases |other|
  {
    if parts != [] {
      var n, m := |parts[0]|, |other[0]|;
      if m <= k {
        Slices(entries, m, k - m);
        GreedyAhead(fits, entries[m..], k - m, parts, refused, other[1..]);
      } else {
        assert other[0] in other;
        Slices(entries, k, m - k);
        assert entries[k..m] == other[0][k..m];
        assert n >= m - k;
        Slices(entries, k, n);
        Slices(entries, m, k + n - m);
        GreedyAhead(fits, entries[m..], k + n - m, parts[1..], refused, other[1..]);
      }
    }
  }

  /** When parts of archives that fit also fit, no split into fitting parts has fewer parts than the greedy one. */
  lemma GreedyIsFewest(fits: seq<Entry> -> bool, entries: seq<Entry>, parts: seq<seq<Entry>>,
                       refused: set<seq<Entry>>, other: seq<seq<Entry>>)
    requires forall s :: s in refused ==> !fits(s)
    requires forall s: seq<Entry>, i, j :: 0 <= i <= j <= |s| && fits(s) ==> fits(s[i..j])
    requires IsSplit(entries, other) && forall q :: q in other ==> fits(q)
    requires Greedy(entries, parts, [], refused)
    ensures |parts| <= |other|
  {
    assert entries[0..] == entries;
    GreedyAhead(fits, entries, 0, parts, refused, other);
  }

  // ----- the longest prefix

  /** Try to write these entries, and clean up after a failure. */
  method TryEntries(disk: Disk, path: string, entries: seq<Entry>) returns (err: Error)
    modifies disk
    ensures Outcome(disk.Now(), err) == TryOf(disk.answers, old(disk.Now()), path, entries)
    ensures disk.refused == if err == TooLarge then old(disk.refused) + {entries} else old(disk.refused)
  {
    err := WriteEntries(disk, path, entries);
    if err != Nil { var ignored := disk.Remove(path); }
  }

  /**
   Try every prefix, longest first, until one fits. A file that is in the way is not
   overwritten, but the clean-up after the failed attempt removes it when it can.
   */
  method LongestPrefix(disk: Disk, path: string, entries: seq<Entry>) returns (count: nat, err: Error)
    requires entries != []
    modifies disk
    ensures Written(disk.Now(), count, err) == WritePrefix(disk.answers, old(disk.Now()), path, entries, |entries|)
    ensures err == Nil ==> 0 < count <= |entries|
    ensures err == Nil ==> path in disk.files && disk.files[path] == Whole(entries[..count])
    ensures err == Nil ==> forall m :: count < m <= |entries| ==> entries[..m] in disk.refused
    ensures err == TooLarge ==> forall m :: 0 < m <= |entries| ==> entries[..m] in disk.refused
    ensures old(disk.refused) <= disk.refused
    ensures SameOutside(old(disk.files), disk.files, {path})
    ensures path in old(disk.files) ==> err == Other
    ensures path in old(disk.files) ==>
              disk.files == if disk.answers.removes(old(disk.clock.removes)) then old(disk.files) - {path} else old(disk.files)
  {
    WritePrefixKeeps(disk.answers, disk.Now(), path, entries, |entries|);
    count := |entries|;
    while count > 0
      invariant 0 <= count <= |entries|
      invariant forall m :: count < m <= |entries| ==> entries[..m] in disk.refused
      invariant old(disk.refused) <= disk.refused
      invariant WritePrefix(disk.answers, old(disk.Now()), path, entries, |entries|) ==
                WritePrefix(disk.answers, disk.Now(), path, entries, count)
    {
      err := TryEntries(disk, path, entries[..count]);
      if err == Nil { return; }
      if err != TooLarge { return 0, err; }
      count := count - 1;
    }
    return 0, TooLarge;
  }

  /** Writing went to the own paths only, and every new one of these was free. */
  ghost predicate Grown(before: Files, after: Files, paths: set<string>, more: set<string>) {
    && paths <= more
    && (forall p :: p in more && p !in paths ==> p !in before)
    && SameOutside(before, after, more)
  }

  /** Earlier files are safe from a set that grows. */
  lemma GrownSpares(before: Files, after: Files, paths: set<string>, more: set<string>)
    requires Grown(before, after, paths, more)
    ensures Untouched(before, after, paths)
  {
  }

  lemma RolloverGrows(before: Files, rebuilt: Files, after: Files, destination: string, suffix: string, part: nat, paths: set<string>, more: set<string>)
    requires |suffix| <= |destination| && part > 0 && paths == PathsUpTo(destination, suffix, part)
    requires SameOutside(before, rebuilt, {PartPath(destination, suffix, part)})
    requires var next := PartPath(destination, suffix, part + 1);
             || (after == rebuilt && more == paths)
             || (next !in rebuilt && after == rebuilt[next := Torn] && more == paths + {next})
    ensures Grown(before, after, paths, more)
  {
    NextPathIsNew(destination, suffix, part);
    assert PartPath(destination, suffix, part) in paths;
  }

  /** The finished parts are on the disk under their names. */
  ghost predicate Stored(files: map<string, Contents>, destination: string, suffix: string, parts: seq<seq<Entry>>) {
    && |suffix| <= |destination|
    && forall k :: 1 <= k <= |parts| ==>
        PartPath(destination, suffix, k) in files && files[PartPath(destination, suffix, k)] == Whole(parts[k - 1])
  }

  /** Finishing the next part, or touching no finished one, keeps them there. */
  lemma StoredNext(before: map<string, Contents>, after: map<string, Contents>, destination: string, suffix: string,
                   parts: seq<seq<Entry>>, part: seq<Entry>)
    requires Stored(before, destination, suffix, parts)
    requires var path := PartPath(destination, suffix, |parts| + 1);
             SameOutside(before, after, {path}) && path in after && after[path] == Whole(part)
    ensures Stored(after, destination, suffix, parts + [part])
  {
    forall k | 1 <= k <= |parts| ensures PartPath(destination, suffix, k) != PartPath(destination, suffix, |parts| + 1) {
      if PartPath(destination, suffix, k) == PartPath(destination, suffix, |parts| + 1) {
        PartPathInjective(destination, suffix, k, |parts| + 1);
      }
    }
  }

  lemma StoredOutside(before: map<string, Contents>, after: map<string, Contents>, destination: string, suffix: string,
                      parts: seq<seq<Entry>>, n: nat)
    requires Stored(before, destination, suffix, parts) && |parts| < n
    requires SameOutside(before, after, {PartPath(destination, suffix, n)})
    ensures Stored(after, destination, suffix, parts)
  {
    forall k | 1 <= k <= |parts| ensures PartPath(destination, suffix, k) != PartPath(destination, suffix, n) {
      if PartPath(destination, suffix, k) == PartPath(destination, suffix, n) {
        PartPathInjective(destination, suffix, k, n);
      }
    }
  }

  class ArchiveSet {
    const disk: Disk
    const destination: string
    const suffix: string
    const claims: Claims
    var current: Output
    var part: nat
    var entries: seq<Entry>
    var paths: set<string>
    ghost var parts: seq<seq<Entry>>   // the members of the finished parts
    ghost var accepted: seq<Entry>     // every entry accepted so far

    ghost predicate PartsOnDisk()
      reads this, disk
    {
      Stored(disk.files, destination, suffix, parts)
    }

    ghost predicate Settled()
      reads this, disk, current
    {
      && PartsOnDisk()
      && current.disk == disk
      && part == |parts| + 1
      && current.path == PartPath(destination, suffix, part) && (current.closed || current.path in disk.files)
      && accepted == Flatten(parts) + entries
      && paths == PathsUpTo(destination, suffix, part)
    }

    ghost predicate Ready()
      reads this, disk, current
    {
      Settled() && current.intact && !current.closed && current.members == entries
    }

    /** What every call leaves, also a failed one: enough for closing. */
    ghost predicate Closable()
      reads this, disk, current
    {
      && |suffix| <= |destination| && part >= 1 && current.disk == disk && current.path in paths
      && (current.closed || (Settled() && (current.intact ==> current.members == entries)))
    }

    ghost predicate Claimed()
      reads this, claims
    {
      InStep(claims.entries, accepted)
    }

    ghost predicate Valid()
      reads this, disk, current, claims
    {
      && Ready()
      && Claimed()
    }

    constructor (disk: Disk, destination: string, suffix: string, out: Output)
      requires |suffix| <= |destination|
      requires out.disk == disk && out.path == destination && out.members == [] && out.intact && !out.closed
      requires destination in disk.files
      ensures Valid() && fresh(claims) && current == out && this.disk == disk
      ensures this.destination == destination && this.suffix == suffix
      ensures parts == [] && accepted == [] && paths == {destination}
    {
      this.disk, this.destination, this.suffix, current := disk, destination, suffix, out;
      claims := new Claims();
      part, entries, paths := 1, [], {destination};
      parts, accepted := [], [];
    }

    /** Write the current part again, from the entries that went in before the failure. */
    method Rebuild() returns (err: Error)
      requires Settled() && !current.closed
      modifies disk, current
      ensures current.closed
      ensures var c := old(disk.clock);
              err == Nil <==> disk.answers.removes(c.removes) && Works(disk.answers, c.(closes := c.closes + 1), |entries|)
      ensures err == Nil ==> disk.files == old(disk.files)[current.path := Whole(entries)]
      ensures var c := old(disk.clock);
              err == Nil ==> disk.clock.opens == c.opens + 1 && disk.clock.adds == c.adds + |entries|
      ensures SameOutside(old(disk.files), disk.files, {current.path})
    {
      var ignored := current.Close();
      ghost var n := disk.Now();
      err := disk.Remove(current.path);
      if err != Nil { return; }
      AddedAll(disk.answers, disk.clock.adds, |entries|);
      err := WriteEntries(disk, current.path, entries);
      if err != Nil { err := TooLarge; }
    }

    /** The current part is whole: begin the next one at a free path. */
    method Begin() returns (err: Error)
      requires |suffix| <= |destination| && Stored(disk.files, destination, suffix, parts + [entries])
      requires part == |parts| + 1 && paths == PathsUpTo(destination, suffix, part) && accepted == Flatten(parts) + entries
      modifies this, disk`files, disk`clock
      ensures err == Nil <==> PartPath(destination, suffix, old(part) + 1) !in old(disk.files) && disk.answers.opens(old(disk.clock.opens)) == Nil
      ensures disk.clock == old(disk.clock).(opens := old(disk.clock.opens) + 1)
      ensures err == Nil ==> Settled() && parts == old(parts) + [old(entries)] && entries == []
      ensures err == Nil ==> fresh(current) && current.intact && !current.closed && current.members == []
      ensures err == Nil ==> part == old(part) + 1 && PartPath(destination, suffix, part) !in old(disk.files)
      ensures err == Nil ==> disk.files == old(disk.files)[PartPath(destination, suffix, part) := Torn]
      ensures err != Nil ==> err == TooLarge && current == old(current) && paths == old(paths) && disk.files == old(disk.files)
      ensures part >= 1
      ensures accepted == old(accepted)
    {
      part := part + 1;
      var continuation := PartPath(destination, suffix, part);
      var out: Output?;
      err, out := NewOutput(disk, continuation);
      if out == null { return TooLarge; }
      current := out;
      paths := paths + {continuation};
      FinishPart(old(disk.files));
    }

    /** Account for a part that has become whole. */
    method FinishPart(ghost before: Files)
      requires |suffix| <= |destination| && Stored(before, destination, suffix, parts + [entries])
      requires part == |parts| + 2 && SameOutside(before, disk.files, {PartPath(destination, suffix, part)})
      requires accepted == Flatten(parts) + entries
      modifies this`parts, this`entries
      ensures PartsOnDisk() && parts == old(parts) + [old(entries)] && entries == []
      ensures accepted == Flatten(parts) + entries
    {
      StoredOutside(before, disk.files, destination, suffix, parts + [entries], part);
      FlattenSnoc(parts, entries);
      parts := parts + [entries];
      entries := [];
    }

    /** The current part becomes whole and a new one is begun; on an error the set can only be closed. */
    method Rollover() returns (err: Error)
      requires Settled() && !current.closed && entries != []
      modifies this, disk, current
      ensures var a, c := disk.answers, old(disk.clock);
              err == Nil <==> a.removes(c.removes) && Works(a, c.(closes := c.closes + 1), |old(entries)|)
                              && PartPath(destination, suffix, old(part) + 1) !in old(disk.files) && a.opens(c.opens + 1) == Nil
      ensures err == Nil ==> disk.clock.adds == old(disk.clock.adds) + |old(entries)|
      ensures err == Nil ==> Settled() && parts == old(parts) + [old(entries)] && entries == [] && part == old(part) + 1
      ensures err == Nil ==> fresh(current) && current.intact && !current.closed && current.members == []
      ensures err != Nil ==> current == old(current) && current.closed && part >= 1
      ensures accepted == old(accepted)
      ensures Grown(old(disk.files), disk.files, old(paths), paths)
    {
      NextPathIsNew(destination, suffix, part);
      PathsAreParts(destination, suffix, part, current.path);
      err := Rebuild();
      if err != Nil { return; }
      StoredNext(old(disk.files), disk.files, destination, suffix, parts, entries);
      ghost var rebuilt := disk.files;
      err := Begin();
      RolloverGrows(old(disk.files), rebuilt, disk.files, destination, suffix, old(part), old(paths), paths);
    }

    /** Put an entry into the current part, or into a new one when this one is full. */
    method Write(e: Entry) returns (err: Error)
      requires Ready()
      modifies this, disk, current
      ensures err == Nil <==> GetsIn(disk.answers, old(disk.clock), |old(entries)|, PartPath(destination, suffix, old(part) + 1) in old(disk.files))
      ensures disk.answers.adds(old(disk.clock.adds)) == Nil ==>
                parts == old(parts) && entries == old(entries) && part == old(part) && disk.clock.adds == old(disk.clock.adds) + 1
      ensures err == Nil && disk.answers.adds(old(disk.clock.adds)) != Nil ==>
                parts == old(parts) + [old(entries)] && entries == [] && part == old(part) + 1
                && disk.clock.adds == old(disk.clock.adds) + |old(entries)| + 2
      ensures err == Nil ==> Settled() && current.intact && !current.closed && current.members == entries + [e]
      ensures err != Nil ==> Closable()
      ensures current == old(current) || fresh(current)
      ensures accepted == old(accepted)
      ensures Grown(old(disk.files), disk.files, old(paths), paths)
    {
      err := current.Add(e);
      if err != Nil {
        if err != TooLarge || entries == [] { return; }
        err := Rollover();
        if err != Nil { return; }
        err := current.Add(e);
      }
    }

    /** Check the name against the claims. */
    method Admit(request: Entry) returns (verdict: Verdict, e: Entry)
      requires Claimed()
      ensures verdict == Conflict <==> Accept(accepted, request) == None
      ensures verdict == Again ==> Accept(accepted, request) == Some(accepted)
      ensures verdict == Fresh ==> Accept(accepted, request) == Some(accepted + [e])
      ensures verdict == Fresh ==> Tidy(claims.entries[e.name := e.kind])
    {
      e := request;
      var name := SafeMemberPath(request.name);
      if name == None { return Conflict, e; }
      e := request.(name := name.value);
      verdict := claims.CanAdd(e.name, e.kind);
      FreshIff(claims.entries, e.name, e.kind);
    }

    /** Account for an entry that has been written. */
    method Record(e: Entry)
      requires Settled() && current.intact && !current.closed && current.members == entries + [e]
      requires Claimed() && Tidy(claims.entries[e.name := e.kind])
      modifies this`entries, this`accepted, claims
      ensures Valid() && accepted == old(accepted) + [e]
    {
      InStepSnoc(claims.entries, accepted, e);
      Associative(Flatten(parts), entries, [e]);
      claims.Add(e.name, e.kind);
      entries := entries + [e];
      accepted := accepted + [e];
    }

    /** addDir and addFile: the entry's kind decides what the claims allow. */
    method Add(request: Entry) returns (err: Error)
      requires Valid()
      modifies this, disk, current, claims
      ensures Closable()
      ensures err == Nil ==> Valid() && Accept(old(accepted), request) == Some(accepted)
      ensures IsFresh(old(accepted), request) ==>
                (err == Nil <==> GetsIn(disk.answers, old(disk.clock), |old(entries)|, PartPath(destination, suffix, old(part) + 1) in old(disk.files)))
      ensures err == Nil && IsFresh(old(accepted), request) ==>
                EntryIn(disk.answers, old(disk.clock), old(parts), old(entries), old(part), disk.clock, parts, entries, part)
      ensures Accept(old(accepted), request) == Some(old(accepted)) ==>
                err == Nil && disk.Now() == old(disk.Now()) && parts == old(parts) && entries == old(entries) && part == old(part)
      ensures current == old(current) || fresh(current)
      ensures err != Nil ==> accepted == old(accepted)
      ensures Accept(old(accepted), request) == None ==> err == Other && disk.files == old(disk.files)
      ensures Grown(old(disk.files), disk.files, old(paths), paths) && Untouched(old(disk.files), disk.files, old(paths))
    {
      var verdict, e := Admit(request);
      if verdict != Fresh { return if verdict == Again then Nil else Other; }
      err := Write(e);
      GrownSpares(old(disk.files), disk.files, old(paths), paths);
      if err == Nil { Record(e); }
    }

    /** Close the last part, or repack it when it only now turns out too large; a closed archive stays closed. */
    method Close() returns (err: Error)
      requires Closable()
      modifies this, disk, current
      ensures accepted == old(accepted) && current == old(current)
      ensures old(current.closed) ==> err == Nil && disk.files == old(disk.files)
      ensures old(current.closed) ||
              Outcome(disk.Now(), err) == CloseOf(disk.answers, old(disk.Now()), destination, suffix, old(part), old(entries), old(current.intact))
      ensures forall p :: p in old(disk.files) && p !in old(paths) ==>
                Spared(old(disk.files), Outcome(disk.Now(), err), destination, suffix, old(part), |old(entries)|, p)
      ensures SameOutside(old(disk.files), disk.files, paths)
      ensures old(Ready()) && err == Nil ==> PartsOnDisk() && Flatten(parts) == accepted && old(parts) <= parts
      ensures old(Ready()) && err == Nil ==> parts == old(parts) + [old(entries)] ||
                                             Greedy(old(entries), parts[|old(parts)|..], [], disk.refused)
    {
      if current.closed {
        err := current.Close();
        return;
      }
      ghost var before, intact := disk.Now(), current.intact;
      ClosingSparesAll(disk.answers, before, destination, suffix, part, entries, intact);
      err := current.Close();
      if err == TooLarge {
        err := disk.Remove(current.path);
        if err != Nil { return; }
        StoredOutside(before.files, disk.files, destination, suffix, parts, part);
        err := Repack();
      } else if err == Nil && intact {
        StoredNext(before.files, disk.files, destination, suffix, parts, entries);
        FlattenSnoc(parts, entries);
        parts := parts + [entries];
      }
    }

    /** One more part: the longest prefix that fits. */
    method WritePart(path: string, rest: seq<Entry>) returns (count: nat, err: Error)
      requires PartsOnDisk() && path == PartPath(destination, suffix, |parts| + 1) && rest != []
      modifies disk, this`parts
      ensures Written(disk.Now(), count, err) == WritePrefix(disk.answers, old(disk.Now()), path, rest, |rest|)
      ensures SameOutside(old(disk.files), disk.files, {path})
      ensures old(disk.refused) <= disk.refused
      ensures err == Nil ==> 0 < count <= |rest| && parts == old(parts) + [rest[..count]] && PartsOnDisk()
      ensures err == Nil ==> Flatten(parts) + rest[count..] == Flatten(old(parts)) + rest
      ensures err == Nil ==> forall m :: count < m <= |rest| ==> rest[..m] in disk.refused
    {
      count, err := LongestPrefix(disk, path, rest);
      if err == Nil {
        StoredNext(old(disk.files), disk.files, destination, suffix, parts, rest[..count]);
        FlattenSnoc(parts, rest[..count]);
        Regroup(Flatten(parts), rest, count);
        parts := parts + [rest[..count]];
      }
    }

    /** One round of the repacking: a part more, and the name of the next one if something is left. */
    method RepackRound(rest: seq<Entry>, ghost start: seq<Entry>, ghost tail: seq<seq<Entry>>)
      returns (left: seq<Entry>, err: Error, ghost written: seq<Entry>)
      requires rest != [] && part == |parts| + 1 && PartsOnDisk()
      requires PartPath(destination, suffix, part) in paths
      requires Greedy(start, tail, rest, disk.refused)
      modifies disk, this`parts, this`part, this`paths
      ensures Repacked(disk.answers, old(disk.Now()), destination, suffix, old(part), rest) ==
              if err != Nil then Outcome(disk.Now(), err) else Repacked(disk.answers, disk.Now(), destination, suffix, part, left)
      ensures err == Nil ==> parts == old(parts) + [written] && PartsOnDisk() && |left| < |rest|
      ensures err == Nil ==> Flatten(parts) + left == Flatten(old(parts)) + rest
      ensures err == Nil ==> Greedy(start, tail + [written], left, disk.refused)
      ensures err == Nil && left != [] ==> part == |parts| + 1 && PartPath(destination, suffix, part) in paths
      ensures old(paths) <= paths && SameOutside(old(disk.files), disk.files, paths)
    {
      left, written := rest, [];
      var count: nat;
      count, err := WritePart(PartPath(destination, suffix, part), rest);
      RepackedNext(disk.answers, old(disk.Now()), destination, suffix, part, rest, Written(disk.Now(), count, err), if err == Nil && count < |rest| then part + 1 else part);
      if err != Nil { return; }
      GreedyStep(start, tail, rest, old(disk.refused), disk.refused, count);
      left, written := rest[count..], rest[..count];
      if left != [] {
        part := part + 1;
        paths := paths + {PartPath(destination, suffix, part)};
      }
    }

    /** Write the entries of the removed last part again, as few at a time as needed. */
    method Repack() returns (err: Error)
      requires Settled()
      modifies this`parts, this`part, this`paths, disk
      ensures Outcome(disk.Now(), err) == Repacked(disk.answers, old(disk.Now()), destination, suffix, old(part), old(entries))
      ensures err == Nil ==> PartsOnDisk() && Flatten(parts) == accepted && old(parts) <= parts
      ensures err == Nil ==> Greedy(old(entries), parts[|old(parts)|..], [], disk.refused)
      ensures old(entries) == [] ==> err == Nil && parts == old(parts) && disk.files == old(disk.files)
      ensures old(paths) <= paths && SameOutside(old(disk.files), disk.files, paths)
    {
      var rest := entries;
      ghost var tail: seq<seq<Entry>> := [];
      while rest != []
        invariant parts == old(parts) + tail && PartsOnDisk() && Flatten(parts) + rest == accepted
        invariant rest != [] ==> part == |parts| + 1 && PartPath(destination, suffix, part) in paths
        invariant old(paths) <= paths && SameOutside(old(disk.files), disk.files, paths)
        invariant Greedy(old(entries), tail, rest, disk.refused)
        invariant old(entries) == [] ==> tail == [] && rest == [] && disk.files == old(disk.files)
        invariant Repacked(disk.answers, old(disk.Now()), destination, suffix, old(part), old(entries)) ==
                  Repacked(disk.answers, disk.Now(), destination, suffix, part, rest)
        decreases |rest|
      {
        ghost var written: seq<Entry>;
        rest, err, written := RepackRound(rest, old(entries), tail);
        if err != Nil { return; }
        tail := tail + [written];
      }
      AfterAll(old(parts), tail, Flatten(parts));
      return Nil;
    }
  }

  lemma AfterAll(parts: seq<seq<Entry>>, tail: seq<seq<Entry>>, flat: seq<Entry>)
    ensures (parts + tail)[|parts|..] == tail && flat + [] == flat
  {
  }

  lemma ClosingSparesAll(a: Answers, d: Drive, destination: string, suffix: string, part: nat, entries: seq<Entry>, intact: bool)
    requires |suffix| <= |destination|
    ensures forall p :: p in d.files && p != PartPath(destination, suffix, part) ==>
              Spared(d.files, CloseOf(a, d, destination, suffix, part, entries, intact), destination, suffix, part, |entries|, p)
  {
    forall p | p in d.files && p != PartPath(destination, suffix, part)
      ensures Spared(d.files, CloseOf(a, d, destination, suffix, part, entries, intact), destination, suffix, part, |entries|, p)
    {
      ClosingSpares(a, d, destination, suffix, part, entries, intact, p);
    }
  }

  // ----- a whole run

  /** The set has written to its own paths only, none of which was taken before. */
  ghost predicate Spares(before: Files, files: Files, paths: set<string>) {
    Untouched(before, files, {}) && forall p :: p in paths ==> p !in before
  }

  lemma StillSpares(start: Files, before: Files, after: Files, paths: set<string>, more: set<string>)
    requires Spares(start, before, paths) && Grown(before, after, paths, more)
    ensures Spares(start, after, more)
  {
  }

  lemma {:induction false} AcceptAllPrefix(requests: seq<Entry>, i: nat)
    requires i <= |requests| && AcceptAll(requests).Some?
    ensures AcceptAll(requests[..i]).Some?
    decreases |requests|
  {
    if i == |requests| {
      assert requests[..i] == requests;
    } else {
      var front := requests[..|requests| - 1];
      AcceptAllPrefix(front, i);
      assert front[..i] == requests[..i];
    }
  }

  /** Everything works, but for full parts, and nothing is in the way. */
  ghost predicate Calm(a: Answers, walks: nat -> Error, files: Files, destination: string, suffix: string, from: nat, requests: seq<Entry>)
    requires |suffix| <= |destination|
  {
    && Smooth(a, from, |requests|) && (forall n :: walks(n) == Nil)
    && LaterFree(files, destination, suffix, 1) && AcceptAll(requests).Some?
  }

  /** Nothing has failed so far. */
  ghost predicate Sailing(a: Answers, d: Drive, destination: string, suffix: string, from: nat, part: nat, entries: seq<Entry>, i: nat)
    requires |suffix| <= |destination|
  {
    LaterFree(d.files, destination, suffix, part) && d.clock.adds >= from && (d.clock.adds > from ==> entries != []) && |entries| <= i
  }

  lemma AddSails(a: Answers, before: Drive, after: Drive, destination: string, suffix: string, from: nat, total: nat,
                 parts: seq<seq<Entry>>, entries: seq<Entry>, part: nat, parts': seq<seq<Entry>>, entries': seq<Entry>, part': nat,
                 i: nat, accepted: seq<Entry>, request: Entry, err: Error)
    requires |suffix| <= |destination| && Smooth(a, from, total) && i < total && Accept(accepted, request).Some?
    requires Sailing(a, before, destination, suffix, from, part, entries, i)
    requires IsFresh(accepted, request) ==>
               (err == Nil <==> GetsIn(a, before.clock, |entries|, PartPath(destination, suffix, part + 1) in before.files))
    requires err == Nil && IsFresh(accepted, request) ==>
               EntryIn(a, before.clock, parts, entries, part, after.clock, parts', entries', part')
    requires !IsFresh(accepted, request) ==> err == Nil && after == before && entries' == entries && part' == part
    requires err == Nil ==> SameOutside(before.files, after.files, PathsUpTo(destination, suffix, part'))
    ensures err == Nil && Sailing(a, after, destination, suffix, from, part', entries', i + 1)
  {
    SmoothGetsIn(a, from, total, before.clock, |entries|);
    StillFree(before.files, after.files, destination, suffix, part, part');
  }

  /** The walk adds every entry, unless it fails itself at some point. */
  method Walk(archives: ArchiveSet, requests: seq<Entry>, walks: nat -> Error, ghost start: Files) returns (err: Error)
    requires archives.Valid() && archives.accepted == [] && archives.parts == [] && archives.entries == [] && archives.part == 1
    requires Spares(start, archives.disk.files, archives.paths)
    modifies archives, archives.disk, archives.current, archives.claims
    ensures archives.Closable() && Spares(start, archives.disk.files, archives.paths)
    ensures archives.current == old(archives.current) || fresh(archives.current)
    ensures err == Nil ==> archives.Valid() && AcceptAll(requests) == Some(archives.accepted)
    ensures Calm(archives.disk.answers, walks, old(archives.disk.files), archives.destination, archives.suffix, old(archives.disk.clock.adds), requests)
            ==> err == Nil
  {
    ghost var from := archives.disk.clock.adds;
    ghost var calm := Calm(archives.disk.answers, walks, archives.disk.files, archives.destination, archives.suffix, from, requests);
    for i := 0 to |requests|
      invariant archives.Valid() && Spares(start, archives.disk.files, archives.paths)
      invariant archives.current == old(archives.current) || fresh(archives.current)
      invariant AcceptAll(requests[..i]) == Some(archives.accepted)
      invariant calm ==> Sailing(archives.disk.answers, archives.disk.Now(), archives.destination, archives.suffix, from, archives.part, archives.entries, i)
    {
      err := walks(i);
      if err != Nil { return; }
      err := WalkOne(archives, requests, i, from, start);
      if err != Nil { return; }
    }
    assert requests[..|requests|] == requests;
    err := walks(|requests|);
  }

  /** One entry of the walk. */
  method WalkOne(archives: ArchiveSet, requests: seq<Entry>, i: nat, ghost from: nat, ghost start: Files) returns (err: Error)
    requires i < |requests| && archives.Valid() && Spares(start, archives.disk.files, archives.paths)
    requires AcceptAll(requests[..i]) == Some(archives.accepted)
    modifies archives, archives.disk, archives.current, archives.claims
    ensures archives.Closable() && Spares(start, archives.disk.files, archives.paths)
    ensures archives.current == old(archives.current) || fresh(archives.current)
    ensures err == Nil ==> archives.Valid() && AcceptAll(requests[..i + 1]) == Some(archives.accepted)
    ensures Smooth(archives.disk.answers, from, |requests|) && AcceptAll(requests).Some?
            && Sailing(archives.disk.answers, old(archives.disk.Now()), archives.destination, archives.suffix, from, old(archives.part), old(archives.entries), i) ==>
              err == Nil && Sailing(archives.disk.answers, archives.disk.Now(), archives.destination, archives.suffix, from, archives.part, archives.entries, i + 1)
  {
    AcceptAllNext(requests, i);
    ghost var a, before, paths, parts, entries, part := archives.disk.answers, archives.disk.Now(), archives.paths, archives.parts, archives.entries, archives.part;
    ghost var accepted := archives.accepted;
    err := archives.Add(requests[i]);
    StillSpares(start, before.files, archives.disk.files, paths, archives.paths);
    if Smooth(a, from, |requests|) && AcceptAll(requests).Some? && Sailing(a, before, archives.destination, archives.suffix, from, part, entries, i) {
      AcceptAllPrefix(requests, i + 1);
      AddSails(a, before, archives.disk.Now(), archives.destination, archives.suffix, from, |requests|, parts, entries, part,
               archives.parts, archives.entries, archives.part, i, accepted, requests[i], err);
    }
  }

  /** The file p is gone, and it had the name of a later part. */
  ghost predicate LostPart(before: Files, after: Files, destination: string, suffix: string, p: string)
    requires |suffix| <= |destination|
  {
    p in before && p !in after && exists n: nat :: n > 1 && p == PartPath(destination, suffix, n)
  }

  /** At most one file that was there before is lost, with an error, and it had the name of a later part; all others stay as they were. */
  ghost predicate RunSpares(before: Files, after: Files, destination: string, suffix: string, err: Error)
    requires |suffix| <= |destination|
  {
    && (forall p :: p in before ==> (p in after && after[p] == before[p]) || (err != Nil && LostPart(before, after, destination, suffix, p)))
    && (forall p, q :: p in before && q in before && p !in after && q !in after ==> p == q)
  }

  lemma CloseInRun(start: Files, before: Files, paths: set<string>, closed: Outcome, after: Files, own: string,
                   destination: string, suffix: string, part: nat, size: nat, err: Error)
    requires |suffix| <= |destination| && part > 0 && Spares(start, before, paths) && own in paths
    requires forall p :: p in before && p !in paths ==> Spared(before, closed, destination, suffix, part, size, p)
    requires closed.err != Nil ==> err != Nil
    requires after == closed.drive.files || after == closed.drive.files - {own}
    ensures RunSpares(start, after, destination, suffix, err)
  {
    forall p | p in start ensures (p in after && after[p] == start[p]) || (err != Nil && LostPart(start, after, destination, suffix, p)) {
      assert Spared(before, closed, destination, suffix, part, size, p);
    }
    forall p, q | p in start && q in start && p !in after && q !in after ensures p == q {
      assert Spared(before, closed, destination, suffix, part, size, p) && Spared(before, closed, destination, suffix, part, size, q);
      FirstTakenUnique(before, destination, suffix, part, size, p, q);
    }
  }

  /** A whole run: open the set, add every entry, close, and clean up after an error. */
  method Run(disk: Disk, destination: string, suffix: string, requests: seq<Entry>, walks: nat -> Error)
    returns (err: Error, ghost parts: seq<seq<Entry>>)
    requires |suffix| <= |destination|
    modifies disk
    ensures err == Nil ==> destination !in old(disk.files)
    ensures err == Nil ==> Stored(disk.files, destination, suffix, parts)
    ensures err == Nil ==> AcceptAll(requests) == Some(Flatten(parts))
    ensures err == Nil && AcceptAll(requests) != Some([]) ==>
              parts != [] && destination in disk.files && disk.files[destination] == Whole(parts[0])
    ensures RunSpares(old(disk.files), disk.files, destination, suffix, err)
    ensures err == Nil ==> Untouched(old(disk.files), disk.files, {})
    ensures destination !in old(disk.files) && Calm(disk.answers, walks, old(disk.files), destination, suffix, old(disk.clock.adds), requests) ==> err == Nil
  {
    parts := [];
    var out: Output?;
    err, out := NewOutput(disk, destination);
    if out == null { return; }
    FirstIsNotLater(old(disk.files), disk.files, destination, suffix);
    var archives := new ArchiveSet(disk, destination, suffix, out);
    var walked := Walk(archives, requests, walks, old(disk.files));
    err := Finish(archives, walked, old(disk.files));
    parts := archives.parts;
  }

  /** Close the set, and clean up after an error of the walk or of closing. */
  method Finish(archives: ArchiveSet, walked: Error, ghost start: Files) returns (err: Error)
    requires archives.Closable() && Spares(start, archives.disk.files, archives.paths)
    requires walked == Nil ==> archives.Valid()
    modifies archives, archives.disk, archives.current
    ensures err == Nil ==> walked == Nil && archives.PartsOnDisk() && Flatten(archives.parts) == old(archives.accepted)
    ensures walked == Nil && (forall n :: archives.disk.answers.closes(n) == Nil) ==> err == Nil
    ensures RunSpares(start, archives.disk.files, archives.destination, archives.suffix, err)
    ensures err == Nil ==> Untouched(start, archives.disk.files, {})
  {
    var disk := archives.disk;
    ghost var before, paths, part, size := disk.files, archives.paths, archives.part, |archives.entries|;
    err := archives.Close();
    ghost var closed := Outcome(disk.Now(), err);
    if walked != Nil { err := walked; }
    if err != Nil { var ignored := disk.Remove(archives.current.path); }
    CloseInRun(start, before, paths, closed, disk.files, archives.current.path, archives.destination, archives.suffix, part, size, err);
  }

  lemma FirstIsNotLater(before: Files, after: Files, destination: string, suffix: string)
    requires |suffix| <= |destination| && after == before[destination := Torn]
    ensures LaterFree(before, destination, suffix, 1) ==> LaterFree(after, destination, suffix, 1)
  {
    if !LaterFree(before, destination, suffix, 1) { return; }
    forall k: nat | k > 1 ensures PartPath(destination, suffix, k) !in after {
      if PartPath(destination, suffix, k) == destination { PartPathInjective(destination, suffix, k, 1); }
    }
  }
}
