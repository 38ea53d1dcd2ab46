/** What a scan of agentweave/core/index.go does to the tables of IndexTables, one source after the other. */
module IndexScan {
  import opened Bytes
  import opened IndexTables
  import opened Sorting
  import opened Wrappers
  import Chunking

  // ----- the index

  /** What was last indexed for a source, and the fingerprint of the file then. */
  datatype Generation = Generation(fingerprint: string, group: seq<Artifact>)

  /** A source's stored fingerprint is that of the file its rows come from. */
  ghost predicate Current(t: Tables, indexed: map<Bytes, Generation>, p: Bytes) {
    p in t.sources && t.sources[p].fingerprint != "" ==>
      p in indexed && indexed[p].fingerprint == t.sources[p].fingerprint && Holds(t, p, indexed[p].group)
  }

  ghost predicate AllCurrent(t: Tables, indexed: map<Bytes, Generation>) {
    forall p :: Current(t, indexed, p)
  }

  /** The source's rows are the group's, and its status says so; nothing else changed. */
  ghost predicate Exchanged(t: Tables, u: Tables, path: Bytes, g: Generation) {
    && Holds(u, path, g.group) && Others(u, path) == Others(t, path)
    && u.sources == t.sources[path := SourceRow(g.fingerprint, Indexed)]
  }

  /** The source lost its rows and its status; nothing else changed. */
  ghost predicate Dropped(t: Tables, u: Tables, path: Bytes) {
    Holds(u, path, []) && Others(u, path) == Others(t, path) && u.sources == t.sources - {path}
  }

  lemma CurrentKept(t: Tables, u: Tables, before: map<Bytes, Generation>, after: map<Bytes, Generation>,
                    path: Bytes, p: Bytes)
    requires Current(t, before, p) && Others(t, path) == Others(u, path) && p != path
    requires p in u.sources ==> p in t.sources && u.sources[p] == t.sources[p]
    requires p in before ==> p in after && after[p] == before[p]
    ensures Current(u, after, p)
  {
    OthersAreSame(t, u, path, p);
  }

  lemma NowCurrent(t: Tables, u: Tables, indexed: map<Bytes, Generation>, path: Bytes, g: Generation)
    requires AllCurrent(t, indexed) && Exchanged(t, u, path, g)
    ensures AllCurrent(u, indexed[path := g])
  {
    var after := indexed[path := g];
    forall p ensures Current(u, after, p) {
      if p != path { CurrentKept(t, u, indexed, after, path, p); }
    }
  }

  lemma StillCurrent(t: Tables, u: Tables, indexed: map<Bytes, Generation>, path: Bytes)
    requires AllCurrent(t, indexed) && Dropped(t, u, path)
    ensures AllCurrent(u, indexed)
  {
    forall p ensures Current(u, indexed, p) {
      if p != path { CurrentKept(t, u, indexed, indexed, path, p); }
    }
  }

  function WithStatus(u: Tables, path: Bytes, g: Generation): Tables {
    u.(sources := u.sources[path := SourceRow(g.fingerprint, Indexed)])
  }

  /** The tables of a finished transaction with the new status. */
  lemma Committed(t: Tables, u: Tables, indexed: map<Bytes, Generation>, path: Bytes, g: Generation)
    requires AllCurrent(t, indexed) && Replaced(t, u, path, g.group, |g.group|)
    ensures Consistent(WithStatus(u, path, g)) && AllCurrent(WithStatus(u, path, g), indexed[path := g])
    ensures Exchanged(t, WithStatus(u, path, g), path, g) && !Clash(t, path, g.group)
  {
    var v := WithStatus(u, path, g);
    AllClear(t, path, g.group);
    assert g.group[..|g.group|] == g.group;
    assert Mine(v.artifacts, v.chunks, path) == Mine(u.artifacts, u.chunks, path);
    NowCurrent(t, v, indexed, path, g);
  }

  lemma DroppedTables(t: Tables, path: Bytes)
    requires Consistent(t)
    ensures var u := Cleared(t, path); var v := u.(sources := u.sources - {path}); Consistent(v) && Dropped(t, v, path)
  {
    var u := Cleared(t, path);
    var v := u.(sources := u.sources - {path});
    ClearedConsistent(t, path);
    ClearedRows(t, path);
    assert Mine(v.artifacts, v.chunks, path) == Mine(u.artifacts, u.chunks, path);
  }

  datatype Status = Status(path: Bytes, state: State, fingerprint: string)

  /** A diagnostic. */
  predicate Plain(s: Status) { s.fingerprint == "" }

  /** The status of a group whose rows are in the index. */
  predicate Counted(s: Status) { (s.state == Indexed || s.state == Unchanged) && s.fingerprint != "" }

  predicate SameTables(t: Tables, u: Tables) {
    t.artifacts == u.artifacts && t.chunks == u.chunks && t.fts == u.fts && t.nextRow == u.nextRow
  }

  predicate Prunable(sources: map<Bytes, SourceRow>, path: Bytes) {
    path in sources && (sources[path].state == Indexed || sources[path].state == Unchanged)
  }

  /** The rows of the source are those of the scan that read the file with this fingerprint. */
  ghost predicate Vouched(t: Tables, indexed: map<Bytes, Generation>, s: Status) {
    s.path in indexed && indexed[s.path].fingerprint == s.fingerprint && Holds(t, s.path, indexed[s.path].group)
  }

  function OfPath(arts: seq<Artifact>, path: Bytes): seq<Artifact> {
    if arts == [] then []
    else
      var front, a := OfPath(arts[..|arts| - 1], path), arts[|arts| - 1];
      if a.path == path then front + [a] else front
  }

  /** The artifacts of a source are those with its path. */
  lemma {:induction false} OfPathMembers(arts: seq<Artifact>, path: Bytes)
    ensures forall a :: a in OfPath(arts, path) <==> a in arts && a.path == path
  {
    if arts != [] {
      OfPathMembers(arts[..|arts| - 1], path);
      assert forall a :: a in arts <==> a in arts[..|arts| - 1] || a == arts[|arts| - 1];
    }
  }

  lemma DistinctSnoc(group: seq<Artifact>, a: Artifact)
    requires DistinctIds(group) && forall b :: b in group ==> b.id != a.id
    ensures DistinctIds(group + [a])
  {
  }

  lemma {:induction false} OfPathDistinct(arts: seq<Artifact>, path: Bytes)
    requires DistinctIds(arts)
    ensures DistinctIds(OfPath(arts, path))
  {
    if arts != [] {
      var front, last := arts[..|arts| - 1], arts[|arts| - 1];
      OfPathDistinct(front, path);
      OfPathMembers(front, path);
      forall b | b in OfPath(front, path) ensures b.id != last.id {
        var j :| 0 <= j < |front| && front[j] == b;
        assert arts[j] == b;
      }
      DistinctSnoc(OfPath(front, path), last);
    }
  }

  /** No two artifacts have the same identifier, and none has that of another source's in the index. */
  ghost predicate NoClash(t: Tables, arts: seq<Artifact>) {
    DistinctIds(arts) && forall a :: a in arts && a.id in t.artifacts ==> t.artifacts[a.id] == a.path
  }

  lemma NoClashHere(t: Tables, arts: seq<Artifact>, path: Bytes)
    requires NoClash(t, arts)
    ensures !Clash(t, path, OfPath(arts, path))
  {
    OfPathDistinct(arts, path);
    OfPathMembers(arts, path);
  }

  lemma NoClashLater(t: Tables, u: Tables, arts: seq<Artifact>, path: Bytes)
    requires NoClash(t, arts) && Others(u, path) == Others(t, path) && MyArtifacts(u, path) == IdsOf(OfPath(arts, path))
    ensures NoClash(u, arts)
  {
    OfPathMembers(arts, path);
    forall a | a in arts && a.id in u.artifacts ensures u.artifacts[a.id] == a.path {
      if u.artifacts[a.id] == path {
        assert a.id in MyArtifacts(u, path);
        var b :| b in OfPath(arts, path) && b.id == a.id;
        var i, j :| 0 <= i < |arts| && 0 <= j < |arts| && arts[i] == a && arts[j] == b;
        assert i == j;
      } else {
        assert a.id in Others(u, path).artifacts;
        assert a.id in Others(t, path).artifacts;
      }
    }
  }

  // ----- which sources a scan replaces

  /** The fingerprint of each file, "" when it cannot be read. */
  type Prints = Bytes -> string

  /** The file can be read and is not the one that was last indexed. */
  predicate Due(sources: map<Bytes, SourceRow>, files: Prints, p: Bytes) {
    files(p) != "" && (p in sources ==> sources[p].fingerprint != files(p))
  }

  /** The status rows after these sources were replaced. */
  function Restated(sources: map<Bytes, SourceRow>, files: Prints, replaced: set<Bytes>): map<Bytes, SourceRow> {
    map p | p in sources.Keys + replaced :: if p in replaced then SourceRow(files(p), Indexed) else sources[p]
  }

  /** The status of a source after its turn. */
  function StatusOf(sources: map<Bytes, SourceRow>, files: Prints, replaced: set<Bytes>, p: Bytes): Status {
    if p in replaced then Status(p, Indexed, files(p))
    else if files(p) != "" && !Due(sources, files, p) then Status(p, Unchanged, files(p))
    else Status(p, Failed, "")
  }

  /** Only sources that are due are replaced, and all of these when nothing is in the way. */
  ghost predicate Picked(t: Tables, files: Prints, arts: seq<Artifact>, done: set<Bytes>, replaced: set<Bytes>, smooth: bool) {
    && (forall p :: p in replaced ==> p in done && Due(t.sources, files, p))
    && (smooth && NoClash(t, arts) ==> forall p :: p in done && Due(t.sources, files, p) ==> p in replaced)
  }

  lemma RestatedStep(sources: map<Bytes, SourceRow>, files: Prints, replaced: set<Bytes>, path: Bytes)
    ensures Restated(sources, files, replaced + {path}) == Restated(sources, files, replaced)[path := SourceRow(files(path), Indexed)]
  {
  }

  lemma RestatedNone(sources: map<Bytes, SourceRow>, files: Prints)
    ensures Restated(sources, files, {}) == sources
  {
  }

  lemma StillDue(sources: map<Bytes, SourceRow>, files: Prints, replaced: set<Bytes>, path: Bytes)
    requires path !in replaced
    ensures Due(Restated(sources, files, replaced), files, path) <==> Due(sources, files, path)
  {
  }

  /** From t to u the replaced sources got the rows of their artifacts, and no other source changed. */
  ghost predicate Synced(t: Tables, u: Tables, arts: seq<Artifact>, replaced: set<Bytes>) {
    && (forall p :: p in replaced ==> Holds(u, p, OfPath(arts, p)) && DistinctIds(OfPath(arts, p)))
    && (forall p :: p !in replaced ==> SameSource(t, u, p))
  }

  lemma SyncedStep(t: Tables, u: Tables, v: Tables, arts: seq<Artifact>, replaced: set<Bytes>, path: Bytes, done: bool)
    requires Synced(t, u, arts, replaced) && path !in replaced
    requires done ==> Holds(v, path, OfPath(arts, path)) && DistinctIds(OfPath(arts, path)) && Others(v, path) == Others(u, path)
    requires !done ==> u == v
    ensures Synced(t, v, arts, if done then replaced + {path} else replaced)
  {
    if done {
      forall p | p in replaced + {path} ensures Holds(v, p, OfPath(arts, p)) && DistinctIds(OfPath(arts, p)) {
        if p != path { OthersAreSame(u, v, path, p); }
      }
      forall p | p !in replaced + {path} ensures SameSource(t, v, p) {
        assert SameSource(t, u, p);
        OthersAreSame(u, v, path, p);
      }
    }
  }

  /** Every status is a diagnostic or vouches for its source's rows; only replaced sources are called indexed. */
  ghost predicate Honest(t: Tables, indexed: map<Bytes, Generation>, statuses: seq<Status>, replaced: set<Bytes>) {
    forall s :: s in statuses ==>
      Plain(s) || (Counted(s) && Vouched(t, indexed, s) && (s.state == Indexed ==> s.path in replaced))
  }

  /** Every replaced source is called indexed. */
  ghost predicate Announced(statuses: seq<Status>, replaced: set<Bytes>) {
    forall p :: p in replaced ==> exists s :: s in statuses && s.path == p && Counted(s) && s.state == Indexed
  }

  lemma AnnouncedStep(statuses: seq<Status>, replaced: set<Bytes>, status: Status, done: bool)
    requires Announced(statuses, replaced)
    requires done ==> Counted(status) && status.state == Indexed
    ensures Announced(statuses + [status], if done then replaced + {status.path} else replaced)
  {
    forall p | p in replaced ensures exists s :: s in statuses + [status] && s.path == p && Counted(s) && s.state == Indexed {
      var s :| s in statuses && s.path == p && Counted(s) && s.state == Indexed;
      assert s in statuses + [status];
    }
    assert status in statuses + [status];
  }

  /** Each of the first n sources has its status, in order, after those that were there before. */
  ghost predicate Reported(sources: map<Bytes, SourceRow>, files: Prints, replaced: set<Bytes>,
                           before: seq<Status>, statuses: seq<Status>, paths: seq<Bytes>, n: nat)
    requires n <= |paths|
  {
    && |statuses| == |before| + n && before <= statuses
    && forall i :: 0 <= i < n ==> statuses[|before| + i] == StatusOf(sources, files, replaced, paths[i])
  }

  lemma ReportedHave(sources: map<Bytes, SourceRow>, files: Prints, replaced: set<Bytes>,
                     before: seq<Status>, statuses: seq<Status>, paths: seq<Bytes>, p: Bytes)
    requires Reported(sources, files, replaced, before, statuses, paths, |paths|) && p in paths
    ensures StatusOf(sources, files, replaced, p) in statuses
  {
    var i :| 0 <= i < |paths| && paths[i] == p;
    assert statuses[|before| + i] in statuses;
  }

  lemma ReportedStep(sources: map<Bytes, SourceRow>, files: Prints, replaced: set<Bytes>, now: set<Bytes>,
                     before: seq<Status>, statuses: seq<Status>, paths: seq<Bytes>, n: nat)
    requires n < |paths| && Reported(sources, files, replaced, before, statuses, paths, n)
    requires paths[n] !in PathsBefore(paths, n) && (now == replaced || now == replaced + {paths[n]})
    ensures Reported(sources, files, now, before, statuses + [StatusOf(sources, files, now, paths[n])], paths, n + 1)
  {
    forall i | 0 <= i < n ensures StatusOf(sources, files, now, paths[i]) == StatusOf(sources, files, replaced, paths[i]) {
      assert paths[i] in PathsBefore(paths, n);
    }
  }

  /** The statuses so far that count are for earlier sources. */
  lemma OtherStatuses(sources: map<Bytes, SourceRow>, files: Prints, replaced: set<Bytes>,
                      before: seq<Status>, statuses: seq<Status>, paths: seq<Bytes>, n: nat)
    requires n < |paths| && Reported(sources, files, replaced, before, statuses, paths, n)
    requires paths[n] !in PathsBefore(paths, n) && forall s :: s in before ==> Plain(s)
    ensures forall s :: s in statuses && Counted(s) ==> s.path != paths[n]
  {
    assert forall j :: 0 <= j < |before| ==> statuses[j] == before[j] && before[j] in before;
    forall k | 0 <= k < |statuses| && Counted(statuses[k]) ensures statuses[k].path != paths[n] {
      if k >= |before| {
        assert statuses[|before| + (k - |before|)].path == paths[k - |before|];
      }
    }
  }

  lemma HonestStep(u: Tables, v: Tables, before: map<Bytes, Generation>, after: map<Bytes, Generation>,
                   statuses: seq<Status>, replaced: set<Bytes>, path: Bytes)
    requires Honest(u, before, statuses, replaced)
    requires forall s :: s in statuses && Counted(s) ==> s.path != path
    requires Others(v, path) == Others(u, path)
    requires forall p :: p != path && p in before ==> p in after && after[p] == before[p]
    ensures Honest(v, after, statuses, replaced + {path}) && Honest(v, after, statuses, replaced)
  {
    forall s | s in statuses && Counted(s) ensures Vouched(v, after, s) {
      assert Vouched(u, before, s);
      OthersAreSame(u, v, path, s.path);
    }
  }

  // ----- one source after the other

  /** One turn of a scan, from u to v, in which all calls worked or not. */
  ghost predicate Turn(u: Tables, v: Tables, before: map<Bytes, Generation>, after: map<Bytes, Generation>,
                       files: Prints, group: seq<Artifact>, path: Bytes, status: Status, done: bool, worked: bool) {
    && (done <==> Due(u.sources, files, path) && worked && !Clash(u, path, group))
    && status == StatusOf(u.sources, files, if done then {path} else {}, path)
    && (Counted(status) ==> Vouched(v, after, status))
    && (if done then Exchanged(u, v, path, Generation(files(path), group)) else v == u && after == before)
    && (forall p :: p != path && p in before ==> p in after && after[p] == before[p])
  }

  /** After the first n turns, which took t to u. */
  ghost predicate Progress(t: Tables, u: Tables, indexed: map<Bytes, Generation>, files: Prints, arts: seq<Artifact>, before: seq<Status>,
                           statuses: seq<Status>, paths: seq<Bytes>, replaced: set<Bytes>, n: nat, smooth: bool)
    requires n <= |paths|
  {
    && Reported(t.sources, files, replaced, before, statuses, paths, n)
    && Synced(t, u, arts, replaced) && replaced <= PathsBefore(paths, n)
    && u.sources == Restated(t.sources, files, replaced)
    && Honest(u, indexed, statuses, replaced) && Announced(statuses, replaced)
    && Picked(t, files, arts, PathsBefore(paths, n), replaced, smooth)
    && (NoClash(t, arts) ==> NoClash(u, arts))
  }

  lemma TurnStatus(t: Tables, u: Tables, files: Prints, replaced: set<Bytes>, path: Bytes, done: bool)
    requires u.sources == Restated(t.sources, files, replaced) && path !in replaced
    ensures StatusOf(u.sources, files, if done then {path} else {}, path) ==
            StatusOf(t.sources, files, if done then replaced + {path} else replaced, path)
  {
    StillDue(t.sources, files, replaced, path);
  }

  lemma PickedStep(t: Tables, files: Prints, arts: seq<Artifact>, done: set<Bytes>, replaced: set<Bytes>, smooth: bool,
                   path: Bytes, taken: bool, now: bool)
    requires Picked(t, files, arts, done, replaced, smooth) && (now ==> smooth)
    requires taken ==> Due(t.sources, files, path)
    requires now && NoClash(t, arts) && Due(t.sources, files, path) ==> taken
    ensures Picked(t, files, arts, done + {path}, if taken then replaced + {path} else replaced, now)
  {
  }

  lemma NextHonest(u: Tables, v: Tables, before: map<Bytes, Generation>, after: map<Bytes, Generation>, files: Prints,
                   group: seq<Artifact>, statuses: seq<Status>, replaced: set<Bytes>, path: Bytes, status: Status, done: bool, worked: bool)
    requires Honest(u, before, statuses, replaced) && Turn(u, v, before, after, files, group, path, status, done, worked)
    requires forall s :: s in statuses && Counted(s) ==> s.path != path
    ensures Honest(v, after, statuses + [status], if done then replaced + {path} else replaced)
  {
    HonestStep(u, v, before, after, statuses, replaced, path);
  }

  lemma NextSynced(t: Tables, u: Tables, v: Tables, before: map<Bytes, Generation>, after: map<Bytes, Generation>, files: Prints,
                   arts: seq<Artifact>, replaced: set<Bytes>, path: Bytes, status: Status, done: bool, worked: bool)
    requires Synced(t, u, arts, replaced) && path !in replaced && u.sources == Restated(t.sources, files, replaced)
    requires Turn(u, v, before, after, files, OfPath(arts, path), path, status, done, worked)
    requires NoClash(t, arts) ==> NoClash(u, arts)
    ensures Synced(t, v, arts, if done then replaced + {path} else replaced)
    ensures v.sources == Restated(t.sources, files, if done then replaced + {path} else replaced)
    ensures NoClash(t, arts) ==> NoClash(v, arts)
  {
    SyncedStep(t, u, v, arts, replaced, path, done);
    RestatedStep(t.sources, files, replaced, path);
    if NoClash(t, arts) && done { NoClashLater(u, v, arts, path); }
  }

  lemma NextPicked(t: Tables, u: Tables, v: Tables, before: map<Bytes, Generation>, after: map<Bytes, Generation>, files: Prints,
                   arts: seq<Artifact>, done: set<Bytes>, replaced: set<Bytes>, path: Bytes, status: Status, taken: bool, worked: bool, smooth: bool)
    requires Picked(t, files, arts, done, replaced, smooth) && path !in replaced && u.sources == Restated(t.sources, files, replaced)
    requires Turn(u, v, before, after, files, OfPath(arts, path), path, status, taken, worked)
    requires NoClash(t, arts) ==> NoClash(u, arts)
    ensures Picked(t, files, arts, done + {path}, if taken then replaced + {path} else replaced, smooth && worked)
  {
    StillDue(t.sources, files, replaced, path);
    if NoClash(u, arts) { NoClashHere(u, arts, path); }
    PickedStep(t, files, arts, done, replaced, smooth, path, taken, smooth && worked);
  }

  lemma NoTurns(t: Tables, indexed: map<Bytes, Generation>, files: Prints, arts: seq<Artifact>, before: seq<Status>, paths: seq<Bytes>)
    requires forall s :: s in before ==> Plain(s)
    ensures Progress(t, t, indexed, files, arts, before, before, paths, {}, 0, true)
  {
    RestatedNone(t.sources, files);
  }

  lemma NextTurn(t: Tables, u: Tables, v: Tables, earlier: map<Bytes, Generation>, indexed: map<Bytes, Generation>, files: Prints,
                 arts: seq<Artifact>, before: seq<Status>, statuses: seq<Status>, paths: seq<Bytes>, replaced: set<Bytes>, n: nat,
                 status: Status, done: bool, smooth: bool, worked: bool)
    requires n < |paths| && DistinctKeys(paths, Same) && forall s :: s in before ==> Plain(s)
    requires Progress(t, u, earlier, files, arts, before, statuses, paths, replaced, n, smooth)
    requires Turn(u, v, earlier, indexed, files, OfPath(arts, paths[n]), paths[n], status, done, worked)
    ensures Progress(t, v, indexed, files, arts, before, statuses + [status], paths,
                     if done then replaced + {paths[n]} else replaced, n + 1, smooth && worked)
  {
    var path, now := paths[n], if done then replaced + {paths[n]} else replaced;
    NotYet(paths, n);
    OtherStatuses(t.sources, files, replaced, before, statuses, paths, n);
    TurnStatus(t, u, files, replaced, path, done);
    ReportedStep(t.sources, files, replaced, now, before, statuses, paths, n);
    NextHonest(u, v, earlier, indexed, files, OfPath(arts, path), statuses, replaced, path, status, done, worked);
    NextSynced(t, u, v, earlier, indexed, files, arts, replaced, path, status, done, worked);
    NextPicked(t, u, v, earlier, indexed, files, arts, PathsBefore(paths, n), replaced, path, status, done, worked, smooth);
    AnnouncedStep(statuses, replaced, status, done);
  }

  // ----- storing diagnostics

  /** The status rows, and the number of the next call. */
  datatype Recording = Recording(sources: map<Bytes, SourceRow>, clock: nat)

  /** Each status that has a path and does not count is stored, if its call works. */
  function Recorded(works: nat -> bool, from: nat, sources: map<Bytes, SourceRow>, statuses: seq<Status>): Recording {
    if statuses == [] then Recording(sources, from)
    else
      var front, s := Recorded(works, from, sources, statuses[..|statuses| - 1]), statuses[|statuses| - 1];
      if s.path == [] || Counted(s) then front
      else Recording(if works(front.clock) then front.sources[s.path := SourceRow("", s.state)] else front.sources, front.clock + 1)
  }

  /** The state of the last diagnostic for this source. */
  function LastState(statuses: seq<Status>, p: Bytes): Option<State> {
    if statuses == [] then None
    else
      var s := statuses[|statuses| - 1];
      if s.path == p && !Counted(s) then Some(s.state) else LastState(statuses[..|statuses| - 1], p)
  }

  /** When all calls work, every source with a diagnostic has the state of its last one, and no other status changes. */
  lemma {:induction false} RecordedMeaning(works: nat -> bool, from: nat, sources: map<Bytes, SourceRow>, statuses: seq<Status>, p: Bytes)
    requires (forall n :: n >= from ==> works(n)) && p != []
    ensures var r, last := Recorded(works, from, sources, statuses), LastState(statuses, p);
            && r.clock >= from && (p in r.sources <==> last != None || p in sources)
            && (p in r.sources ==> r.sources[p] == if last == None then sources[p] else SourceRow("", last.value))
  {
    if statuses != [] { RecordedMeaning(works, from, sources, statuses[..|statuses| - 1], p); }
  }

  function Missing(sources: map<Bytes, SourceRow>, gone: set<Bytes>): set<Bytes> {
    set p | p in gone && Prunable(sources, p)
  }

  /** From t to u these sources lost their rows and their status, and nothing else changed. */
  ghost predicate Forgotten(t: Tables, u: Tables, pruned: set<Bytes>) {
    && u.sources == t.sources - pruned
    && (forall p :: p in pruned ==> Holds(u, p, []))
    && (forall p :: p !in pruned ==> SameSource(t, u, p))
  }

  /** Of the first n sources those that are missing are forgotten. */
  ghost predicate Forgetting(t: Tables, u: Tables, gone: set<Bytes>, paths: seq<Bytes>, n: nat, pruned: set<Bytes>)
    requires n <= |paths|
  {
    pruned == Missing(t.sources, gone) * PathsBefore(paths, n) && Forgotten(t, u, pruned)
  }

  lemma ForgetNext(t: Tables, u: Tables, gone: set<Bytes>, paths: seq<Bytes>, n: nat, pruned: set<Bytes>)
    requires n < |paths| && DistinctKeys(paths, Same) && Forgetting(t, u, gone, paths, n, pruned)
    ensures paths[n] in u.sources <==> paths[n] in t.sources
    ensures paths[n] in t.sources ==> u.sources[paths[n]] == t.sources[paths[n]]
    ensures paths[n] !in Missing(t.sources, gone) ==> Forgetting(t, u, gone, paths, n + 1, pruned)
  {
    NotYet(paths, n);
  }

  lemma ForgetOne(t: Tables, u: Tables, v: Tables, pruned: set<Bytes>, path: Bytes)
    requires Forgotten(t, u, pruned) && Dropped(u, v, path)
    ensures Forgotten(t, v, pruned + {path})
  {
    forall p | p in pruned + {path} ensures Holds(v, p, []) {
      if p != path { OthersAreSame(u, v, path, p); }
    }
    forall p | p !in pruned + {path} ensures SameSource(t, v, p) {
      assert SameSource(t, u, p);
      OthersAreSame(u, v, path, p);
    }
  }

  lemma ForgetThis(t: Tables, u: Tables, v: Tables, gone: set<Bytes>, paths: seq<Bytes>, n: nat, pruned: set<Bytes>)
    requires n < |paths| && DistinctKeys(paths, Same) && Forgetting(t, u, gone, paths, n, pruned)
    requires paths[n] in Missing(t.sources, gone) && Dropped(u, v, paths[n])
    ensures Forgetting(t, v, gone, paths, n + 1, pruned + {paths[n]})
  {
    NotYet(paths, n);
    ForgetOne(t, u, v, pruned, paths[n]);
  }

  function PathsBefore(paths: seq<Bytes>, i: nat): set<Bytes>
    requires i <= |paths|
  {
    set k | 0 <= k < i :: paths[k]
  }

  lemma NotYet(paths: seq<Bytes>, i: nat)
    requires i < |paths| && DistinctKeys(paths, Same)
    ensures paths[i] !in PathsBefore(paths, i) && paths[i] in paths
    ensures PathsBefore(paths, i + 1) == PathsBefore(paths, i) + {paths[i]}
  {
    assert forall k :: 0 <= k < i ==> Same(paths[k]) != Same(paths[i]);
  }

  // ----- what a scan delivers

  datatype Raw = Raw(agent: string, kind: string, path: Bytes, record: string, id: string, text: Bytes)

  /** The identifier of an artifact without one: of agent, kind, path and record. */
  type StableId = (string, string, Bytes, string) -> string

  /** Normalize of model.go, for fields that the index uses; None for its errors. */
  function Normalize(stableId: StableId, r: Raw): Option<Artifact> {
    var text := Chunking.Trimmed(r.text, 0, |r.text|);
    if r.agent == "" || r.kind == "" || r.path == [] || text == [] then None
    else Some(Artifact(if r.id == "" then stableId(r.agent, r.kind, r.path, r.record) else r.id, r.path, text))
  }

  function Accepted(stableId: StableId, raws: seq<Raw>): seq<Artifact> {
    if raws == [] then []
    else
      var front := Accepted(stableId, raws[..|raws| - 1]);
      match Normalize(stableId, raws[|raws| - 1])
      case None => front
      case Some(a) => front + [a]
  }

  /** A diagnostic for each invalid artifact. */
  function Rejected(stableId: StableId, raws: seq<Raw>): seq<Status> {
    if raws == [] then []
    else
      var front, last := Rejected(stableId, raws[..|raws| - 1]), raws[|raws| - 1];
      if Normalize(stableId, last) == None then front + [Status(last.path, Failed, "")] else front
  }

  lemma OfPathSnoc(arts: seq<Artifact>, a: Artifact, p: Bytes)
    ensures OfPath(arts + [a], p) == if a.path == p then OfPath(arts, p) + [a] else OfPath(arts, p)
  {
    assert (arts + [a])[..|arts|] == arts;
  }

  ghost predicate Grouped(groups: map<Bytes, seq<Artifact>>, arts: seq<Artifact>) {
    && (forall p :: OfPath(arts, p) == if p in groups then groups[p] else [])
    && (forall p :: p in groups ==> groups[p] != [])
  }

  // ----- what becomes of an artifact

  predicate Indexable(r: Raw) {
    r.agent != "" && r.kind != "" && r.path != [] && !Chunking.Blank(r.text)
  }

  function IdFor(stableId: StableId, r: Raw): string {
    if r.id != "" then r.id else stableId(r.agent, r.kind, r.path, r.record)
  }

  /** The artifact stands for r: its own identifier if it has one, its path, and its text up to blanks at the ends. */
  ghost predicate StandsFor(stableId: StableId, r: Raw, a: Artifact) {
    a.id == IdFor(stableId, r) && a.path == r.path && Chunking.Stripped(a.text, r.text)
  }

  /** Exactly artifacts with an agent, a kind, a path and a text that is not blank are accepted. */
  lemma NormalizeMeaning(stableId: StableId, r: Raw)
    ensures Normalize(stableId, r) != None <==> Indexable(r)
    ensures Indexable(r) ==> StandsFor(stableId, r, Normalize(stableId, r).value)
  {
    Chunking.TrimmedIsStripped(r.text);
  }

  /** Every artifact of the scan is accepted or a diagnostic. */
  lemma {:induction false} AcceptedOrRejected(stableId: StableId, raws: seq<Raw>)
    ensures |Accepted(stableId, raws)| + |Rejected(stableId, raws)| == |raws|
    ensures forall r :: r in raws && !Indexable(r) ==> Status(r.path, Failed, "") in Rejected(stableId, raws)
  {
    if raws != [] {
      var front, last := raws[..|raws| - 1], raws[|raws| - 1];
      AcceptedOrRejected(stableId, front);
      NormalizeMeaning(stableId, last);
      forall r | r in raws && !Indexable(r) ensures Status(r.path, Failed, "") in Rejected(stableId, raws) {
        if r in front {} else { assert r == last; }
      }
    }
  }

  lemma {:induction false} AcceptedMembers(stableId: StableId, raws: seq<Raw>, a: Artifact)
    ensures a in Accepted(stableId, raws) <==> exists r :: r in raws && Normalize(stableId, r) == Some(a)
  {
    if raws != [] {
      AcceptedMembers(stableId, raws[..|raws| - 1], a);
      assert forall r :: r in raws <==> r in raws[..|raws| - 1] || r == raws[|raws| - 1];
    }
  }

  /** The bodies of an artifact's rows with ordinals from k up to n. */
  function RowText(rows: Chunks, id: string, k: nat, n: nat): Bytes
    decreases n - k
  {
    if k >= n then []
    else (if RefOf(id, k) in rows then rows[RefOf(id, k)].body else []) + RowText(rows, id, k + 1, n)
  }

  ghost predicate HasOrdinal(cs: seq<Chunking.Chunk>, k: nat) {
    exists c :: c in cs && c.ordinal == k
  }

  /** The artifact's rows from ordinal k up to n are these chunks. */
  ghost predicate RowsAre(rows: Chunks, id: string, k: nat, n: nat, cs: seq<Chunking.Chunk>) {
    && Chunking.IncreasingFrom(cs, k)
    && (forall c :: c in cs ==> c.ordinal < n && RefOf(id, c.ordinal) in rows && rows[RefOf(id, c.ordinal)].body == c.body)
    && (forall j :: k <= j < n && RefOf(id, j) in rows ==> HasOrdinal(cs, j))
  }

  lemma RowsWithFirst(rows: Chunks, id: string, k: nat, n: nat, cs: seq<Chunking.Chunk>)
    requires k < n && RowsAre(rows, id, k, n, cs) && RefOf(id, k) in rows
    ensures cs != [] && cs[0].ordinal == k && RowsAre(rows, id, k + 1, n, cs[1..])
  {
    var c :| c in cs && c.ordinal == k;
    assert c == cs[0];
    forall j | k < j < n && RefOf(id, j) in rows ensures HasOrdinal(cs[1..], j) {
      assert HasOrdinal(cs, j);
      var d :| d in cs && d.ordinal == j;
      assert d in cs[1..];
    }
  }

  lemma RowsWithoutFirst(rows: Chunks, id: string, k: nat, n: nat, cs: seq<Chunking.Chunk>)
    requires k < n && RowsAre(rows, id, k, n, cs) && RefOf(id, k) !in rows
    ensures RowsAre(rows, id, k + 1, n, cs)
  {
    assert forall i :: 0 <= i < |cs| ==> cs[i] in cs && cs[i].ordinal != k;
  }

  lemma FirstOrdinal(rows: Chunks, id: string, k: nat, n: nat, cs: seq<Chunking.Chunk>)
    requires RowsAre(rows, id, k, n, cs) && cs != []
    ensures k <= cs[0].ordinal < n && (cs[0].ordinal == k ==> RefOf(id, k) in rows && rows[RefOf(id, k)].body == cs[0].body)
  {
    assert cs[0] in cs;
  }

  /** The row with ordinal k is that of the first chunk, if there is one. */
  ghost predicate RowIsFirst(rows: Chunks, id: string, k: nat, cs: seq<Chunking.Chunk>, tail: seq<Chunking.Chunk>) {
    if RefOf(id, k) in rows then cs != [] && rows[RefOf(id, k)].body == cs[0].body && tail == cs[1..] else tail == cs
  }

  lemma RowTextNext(rows: Chunks, id: string, k: nat, n: nat, cs: seq<Chunking.Chunk>, tail: seq<Chunking.Chunk>)
    requires k < n && RowText(rows, id, k + 1, n) == Chunking.Bodies(tail) && RowIsFirst(rows, id, k, cs, tail)
    ensures RowText(rows, id, k, n) == Chunking.Bodies(cs)
  {
  }

  lemma NextRows(rows: Chunks, id: string, k: nat, n: nat, cs: seq<Chunking.Chunk>) returns (tail: seq<Chunking.Chunk>)
    requires k < n && RowsAre(rows, id, k, n, cs)
    ensures RowsAre(rows, id, k + 1, n, tail) && RowIsFirst(rows, id, k, cs, tail)
  {
    if RefOf(id, k) in rows {
      RowsWithFirst(rows, id, k, n, cs);
      FirstOrdinal(rows, id, k, n, cs);
      tail := cs[1..];
    } else {
      RowsWithoutFirst(rows, id, k, n, cs);
      tail := cs;
    }
  }

  lemma NoRowsLeft(rows: Chunks, id: string, k: nat, n: nat, cs: seq<Chunking.Chunk>)
    requires k >= n && RowsAre(rows, id, k, n, cs)
    ensures RowText(rows, id, k, n) == Chunking.Bodies(cs)
  {
    if cs != [] { FirstOrdinal(rows, id, k, n, cs); }
  }

  lemma {:induction false} RowTextOf(rows: Chunks, id: string, k: nat, n: nat, cs: seq<Chunking.Chunk>)
    ensures RowsAre(rows, id, k, n, cs) ==> RowText(rows, id, k, n) == Chunking.Bodies(cs)
    decreases n - k
  {
    if !RowsAre(rows, id, k, n, cs) { return; }
    if k < n {
      var tail := NextRows(rows, id, k, n, cs);
      RowTextOf(rows, id, k + 1, n, tail);
      RowTextNext(rows, id, k, n, cs, tail);
    } else {
      NoRowsLeft(rows, id, k, n, cs);
    }
  }

  /** A row of a group with the identifier of one of its artifacts is that of one of its chunks. */
  lemma RowHasChunk(group: seq<Artifact>, i: nat, ordinal: nat)
    requires DistinctIds(group) && i < |group| && RefOf(group[i].id, ordinal) in RowsOf(group)
    ensures HasOrdinal(ChunksOf(group[i]), ordinal)
  {
    RowsMeaning(group, RefOf(group[i].id, ordinal));
    var a :| a in group && Asks(a, RefOf(group[i].id, ordinal));
    var c :| c in ChunksOf(a) && RefOf(group[i].id, ordinal) == RefOf(a.id, c.ordinal);
    RefInjective(group[i].id, ordinal, a.id, c.ordinal);
    var j :| 0 <= j < |group| && group[j] == a;
    assert i == j;
  }

  lemma GroupRows(group: seq<Artifact>, i: nat, n: nat)
    requires DistinctIds(group) && i < |group| && n >= |group[i].text|
    ensures RowsAre(RowsOf(group), group[i].id, 0, n, ChunksOf(group[i]))
  {
    Chunking.OrdinalsIncrease(group[i].text, 0, LIMIT, 0);
    Chunking.OrdinalsBelow(group[i].text, 0, LIMIT, 0);
    forall c | c in ChunksOf(group[i])
      ensures RefOf(group[i].id, c.ordinal) in RowsOf(group) && RowsOf(group)[RefOf(group[i].id, c.ordinal)].body == c.body
    {
      RowOfChunk(group, i, c);
    }
    forall j: nat | j < n && RefOf(group[i].id, j) in RowsOf(group) ensures HasOrdinal(ChunksOf(group[i]), j) {
      RowHasChunk(group, i, j);
    }
  }

  /** The bodies of an artifact's rows together have its text, up to blanks. */
  lemma RowsConserveText(group: seq<Artifact>, i: nat, n: nat)
    requires DistinctIds(group) && i < |group| && n >= |group[i].text|
    ensures Chunking.Ink(RowText(RowsOf(group), group[i].id, 0, n)) == Chunking.Ink(group[i].text)
  {
    GroupRows(group, i, n);
    RowTextOf(RowsOf(group), group[i].id, 0, n, ChunksOf(group[i]));
    Chunking.ChunksConserveInk(group[i].text, LIMIT);
  }

  /** The artifact is in the index, and its rows together have this text, up to blanks. */
  ghost predicate TextIndexed(t: Tables, path: Bytes, id: string, text: Bytes) {
    id in MyArtifacts(t, path) &&
    forall n: nat :: n >= |text| ==> Chunking.Ink(RowText(MyChunks(t, path), id, 0, n)) == Chunking.Ink(text)
  }

  /** The index holds the text of every indexable artifact of these sources, and nothing else of them. */
  ghost predicate Searchable(t: Tables, stableId: StableId, raws: seq<Raw>, paths: set<Bytes>) {
    && (forall r :: r in raws && Indexable(r) && r.path in paths ==> TextIndexed(t, r.path, IdFor(stableId, r), r.text))
    && (forall p, id :: p in paths && id in MyArtifacts(t, p) ==> Known(stableId, raws, p, id))
  }

  ghost predicate Known(stableId: StableId, raws: seq<Raw>, path: Bytes, id: string) {
    exists r :: r in raws && Indexable(r) && r.path == path && IdFor(stableId, r) == id
  }

  lemma RawIsIndexed(u: Tables, stableId: StableId, raws: seq<Raw>, r: Raw)
    requires r in raws && Indexable(r)
    requires var group := OfPath(Accepted(stableId, raws), r.path); Holds(u, r.path, group) && DistinctIds(group)
    ensures TextIndexed(u, r.path, IdFor(stableId, r), r.text)
  {
    var arts := Accepted(stableId, raws);
    var group, a := OfPath(arts, r.path), Normalize(stableId, r).value;
    NormalizeMeaning(stableId, r);
    AcceptedMembers(stableId, raws, a);
    OfPathMembers(arts, r.path);
    MemberIsIndexed(u, group, a, r.text);
  }

  lemma MemberIsIndexed(u: Tables, group: seq<Artifact>, a: Artifact, whole: Bytes)
    requires a in group && Chunking.Stripped(a.text, whole) && Holds(u, a.path, group) && DistinctIds(group)
    ensures TextIndexed(u, a.path, a.id, whole)
  {
    var i :| 0 <= i < |group| && group[i] == a;
    Chunking.InkOfStripped(a.text, whole);
    forall n: nat | n >= |whole| ensures Chunking.Ink(RowText(RowsOf(group), a.id, 0, n)) == Chunking.Ink(whole) {
      RowsConserveText(group, i, n);
    }
  }

  lemma IdIsKnown(u: Tables, stableId: StableId, raws: seq<Raw>, path: Bytes, id: string)
    requires Holds(u, path, OfPath(Accepted(stableId, raws), path)) && id in MyArtifacts(u, path)
    ensures Known(stableId, raws, path, id)
  {
    var a :| a in OfPath(Accepted(stableId, raws), path) && a.id == id;
    OfPathMembers(Accepted(stableId, raws), path);
    AcceptedMembers(stableId, raws, a);
    var r :| r in raws && Normalize(stableId, r) == Some(a);
    NormalizeMeaning(stableId, r);
  }

  /** After a scan the replaced sources can be searched for the texts that it found. */
  lemma ScanIsSearchable(t: Tables, u: Tables, stableId: StableId, raws: seq<Raw>, replaced: set<Bytes>, pruned: set<Bytes>)
    requires AfterScan(t, u, Accepted(stableId, raws), replaced, pruned)
    ensures Searchable(u, stableId, raws, replaced - pruned)
  {
    forall r | r in raws && Indexable(r) && r.path in replaced - pruned ensures TextIndexed(u, r.path, IdFor(stableId, r), r.text) {
      RawIsIndexed(u, stableId, raws, r);
    }
    forall p, id | p in replaced - pruned && id in MyArtifacts(u, p) ensures Known(stableId, raws, p, id) {
      IdIsKnown(u, stableId, raws, p, id);
    }
  }

  /** The sources with artifacts. */
  ghost function PathsOf(arts: seq<Artifact>): set<Bytes> {
    set a | a in arts :: a.path
  }

  ghost predicate AllReported(sources: map<Bytes, SourceRow>, files: Prints, replaced: set<Bytes>, statuses: seq<Status>, found: set<Bytes>) {
    forall p :: p in found ==> StatusOf(sources, files, replaced, p) in statuses
  }

  lemma SomeOfPath(arts: seq<Artifact>, p: Bytes)
    ensures OfPath(arts, p) != [] <==> p in PathsOf(arts)
  {
    OfPathMembers(arts, p);
    if OfPath(arts, p) != [] { assert OfPath(arts, p)[0] in arts; }
  }

  lemma FoundPaths(stableId: StableId, raws: seq<Raw>, groups: map<Bytes, seq<Artifact>>, paths: seq<Bytes>)
    requires Grouped(groups, Accepted(stableId, raws)) && forall p :: p in paths <==> p in groups
    ensures PathsBefore(paths, |paths|) == PathsOf(Accepted(stableId, raws)) && forall p :: p in paths <==> p in PathsOf(Accepted(stableId, raws))
  {
    forall p ensures p in groups <==> p in PathsOf(Accepted(stableId, raws)) { SomeOfPath(Accepted(stableId, raws), p); }
  }

  // ----- a whole scan

  /** From t to u by a scan with these accepted artifacts: replaced sources hold their artifacts, pruned ones nothing, all others what they held. */
  ghost predicate AfterScan(t: Tables, u: Tables, arts: seq<Artifact>, replaced: set<Bytes>, pruned: set<Bytes>) {
    && (forall p :: p in replaced ==> OfPath(arts, p) != [])
    && (forall p :: p in replaced && p !in pruned ==> Holds(u, p, OfPath(arts, p)) && DistinctIds(OfPath(arts, p)))
    && (forall p :: p in pruned ==> p !in u.sources && Holds(u, p, []))
    && (forall p :: p !in replaced && p !in pruned ==> SameSource(t, u, p))
  }

  /** From t to u these sources lost their rows and have no status, and no other source's rows changed. */
  ghost predicate Emptied(t: Tables, u: Tables, pruned: set<Bytes>) {
    && (forall p :: p in pruned ==> p !in u.sources && Holds(u, p, []))
    && (forall p :: p !in pruned ==> SameSource(t, u, p))
  }

  lemma AfterNoting(t: Tables, n: Tables, u: Tables, pruned: set<Bytes>)
    requires SameTables(t, n) && Forgotten(n, u, pruned)
    ensures Emptied(t, u, pruned)
  {
    forall p | p !in pruned ensures SameSource(t, u, p) { assert SameSource(n, u, p); }
  }

  /** Exactly the missing sources that were indexed or unchanged lost their status. */
  ghost predicate Pruned(before: map<Bytes, SourceRow>, after: map<Bytes, SourceRow>, gone: set<Bytes>, pruned: set<Bytes>) {
    pruned == Missing(before, gone) && after == before - pruned
  }

  lemma ScanThenPrune(t: Tables, m: Tables, u: Tables, arts: seq<Artifact>, replaced: set<Bytes>, pruned: set<Bytes>)
    requires Synced(t, m, arts, replaced) && Emptied(m, u, pruned) && replaced <= PathsOf(arts)
    ensures AfterScan(t, u, arts, replaced, pruned)
  {
    forall p | p in replaced ensures OfPath(arts, p) != [] { SomeOfPath(arts, p); }
    forall p | p !in pruned ensures SameSource(m, u, p) {}
    forall p | p !in replaced && p !in pruned ensures SameSource(t, u, p) {
      assert SameSource(t, m, p);
    }
  }

  /** Every status is a diagnostic, or of a source that was pruned, or vouches for the rows. */
  ghost predicate AllVouched(t: Tables, indexed: map<Bytes, Generation>, statuses: seq<Status>, pruned: set<Bytes>) {
    forall s :: s in statuses ==> Plain(s) || s.path in pruned || Vouched(t, indexed, s)
  }

  lemma VouchedAfter(m: Tables, u: Tables, indexed: map<Bytes, Generation>, statuses: seq<Status>, replaced: set<Bytes>, pruned: set<Bytes>)
    requires Honest(m, indexed, statuses, replaced) && Emptied(m, u, pruned)
    ensures AllVouched(u, indexed, statuses, pruned)
  {
    forall s | s in statuses && !Plain(s) && s.path !in pruned ensures Vouched(u, indexed, s) {
      assert Vouched(m, indexed, s);
      assert SameSource(m, u, s.path);
    }
  }

  lemma AfterAll(t: Tables, m: Tables, u: Tables, stableId: StableId, raws: seq<Raw>, replaced: set<Bytes>, pruned: set<Bytes>)
    requires Synced(t, m, Accepted(stableId, raws), replaced) && Emptied(m, u, pruned) && replaced <= PathsOf(Accepted(stableId, raws))
    ensures AfterScan(t, u, Accepted(stableId, raws), replaced, pruned) && Searchable(u, stableId, raws, replaced - pruned)
  {
    ScanThenPrune(t, m, u, Accepted(stableId, raws), replaced, pruned);
    ScanIsSearchable(t, u, stableId, raws, replaced, pruned);
  }

  lemma NothingForgotten(u: Tables, indexed: map<Bytes, Generation>, statuses: seq<Status>, replaced: set<Bytes>)
    requires Honest(u, indexed, statuses, replaced)
    ensures Emptied(u, u, {}) && AllVouched(u, indexed, statuses, {})
  {
  }

  /** A source that the scan treated as changed and did not prune has the rows of the scan exactly when the scan accepted artifacts for it or it had no rows. */
  lemma StaleIff(t: Tables, u: Tables, arts: seq<Artifact>, replaced: set<Bytes>, pruned: set<Bytes>, p: Bytes)
    requires AfterScan(t, u, arts, replaced, pruned) && p !in pruned
    requires OfPath(arts, p) != [] ==> p in replaced
    ensures Holds(u, p, OfPath(arts, p)) <==> OfPath(arts, p) != [] || Holds(t, p, [])
  {
    if OfPath(arts, p) == [] { assert SameSource(t, u, p); }
  }

  /** The scan of a file whose only artifact has become blank. */
  function BlankScan(path: Bytes): seq<Raw> {
    [Raw("agent", "kind", path, "record", "id", [32])]
  }

  lemma BlankYieldsNothing(stableId: StableId, path: Bytes)
    ensures Accepted(stableId, BlankScan(path)) == []
  {
    var raws := BlankScan(path);
    assert raws[..|raws| - 1] == [];
    assert Accepted(stableId, raws[..|raws| - 1]) == [];
    assert Chunking.Trimmed([32], 0, 1) == [];
    assert Normalize(stableId, raws[|raws| - 1]) == None;
  }

  /** Its old artifacts stay in the index, though the scan has none for it. */
  lemma BlankKeepsStaleRows(t: Tables, u: Tables, path: Bytes, stableId: StableId, replaced: set<Bytes>)
    requires AfterScan(t, u, Accepted(stableId, BlankScan(path)), replaced, {})
    requires MyArtifacts(t, path) != {}
    ensures Accepted(stableId, BlankScan(path)) == [] && MyArtifacts(u, path) == MyArtifacts(t, path)
    ensures !Holds(u, path, OfPath(Accepted(stableId, BlankScan(path)), path))
  {
    var arts := Accepted(stableId, BlankScan(path));
    BlankYieldsNothing(stableId, path);
    assert OfPath(arts, path) == [];
    assert path !in replaced;
    assert SameSource(t, u, path);
  }

  lemma GroupedSnoc(groups: map<Bytes, seq<Artifact>>, arts: seq<Artifact>, a: Artifact)
    requires Grouped(groups, arts)
    ensures Grouped(groups[a.path := (if a.path in groups then groups[a.path] else []) + [a]], arts + [a])
  {
    var after := groups[a.path := (if a.path in groups then groups[a.path] else []) + [a]];
    forall p ensures OfPath(arts + [a], p) == if p in after then after[p] else [] {
      OfPathSnoc(arts, a, p);
    }
  }

  method GroupArtifacts(raws: seq<Raw>, stableId: StableId, before: seq<Status>)
    returns (groups: map<Bytes, seq<Artifact>>, statuses: seq<Status>)
    requires forall s :: s in before ==> Plain(s)
    ensures Grouped(groups, Accepted(stableId, raws))
    ensures statuses == before + Rejected(stableId, raws) && forall s :: s in statuses ==> Plain(s)
  {
    groups, statuses := map[], before;
    for i := 0 to |raws|
      invariant Grouped(groups, Accepted(stableId, raws[..i]))
      invariant statuses == before + Rejected(stableId, raws[..i]) && forall s :: s in statuses ==> Plain(s)
    {
      assert raws[..i + 1][..i] == raws[..i];
      var normal := Normalize(stableId, raws[i]);
      if normal == None {
        statuses := statuses + [Status(raws[i].path, Failed, "")];
      } else {
        var a := normal.value;
        GroupedSnoc(groups, Accepted(stableId, raws[..i]), a);
        groups := groups[a.path := (if a.path in groups then groups[a.path] else []) + [a]];
      }
    }
    assert raws[..|raws|] == raws;
  }
}
