/** The search index of agentweave/core/index.go, kept in step with the files by scans. */
module SearchIndex {
  import opened Bytes
  import opened IndexScan
  import opened IndexTables
  import opened Sorting

  class Index {
    /** Whether the n-th call on the database works. */
    const works: nat -> bool
    var clock: nat
    var db: Tables
    ghost var indexed: map<Bytes, Generation>

    ghost predicate Valid()
      reads this
    {
      Consistent(db) && AllCurrent(db, indexed)
    }

    constructor (works: nat -> bool)
      ensures Valid() && db == Tables(map[], map[], map[], 0, map[]) && indexed == map[] && this.works == works && clock == 0
    {
      this.works, clock, db, indexed := works, 0, Tables(map[], map[], map[], 0, map[]), map[];
    }

    method Call() returns (ok: bool)
      modifies this`clock
      ensures ok == works(old(clock)) && clock == old(clock) + 1
      ensures ok <==> AllWork(works, old(clock), clock)
    {
      OneCall(works, clock);
      ok, clock := works(clock), clock + 1;
    }

    /** All or nothing: when all calls work, exactly a clash is refused; a failure anywhere, also of the commit, leaves the tables as they were. */
    method ReplaceSource(path: Bytes, fingerprint: string, group: seq<Artifact>) returns (err: Outcome)
      requires Valid() && forall a :: a in group ==> a.path == path
      modifies this
      ensures Valid() && Went(works, old(clock), clock, err)
      ensures err == Done <==> AllWork(works, old(clock), clock) && !Clash(old(db), path, group)
      ensures err != Done ==> db == old(db) && indexed == old(indexed)
      ensures err == Done ==> Exchanged(old(db), db, path, Generation(fingerprint, group))
      ensures err == Done ==> indexed == old(indexed)[path := Generation(fingerprint, group)]
    {
      var tx: Tables;
      err, tx, clock := Replacement(works, clock, db, path, group);
      ghost var mid := clock;
      if err == Done { err := Commit(tx, path, Generation(fingerprint, group)); }
      WorkSplit(works, old(clock), mid, clock);
    }

    /** Store the status of a replaced source and commit. */
    method Commit(tx: Tables, path: Bytes, g: Generation) returns (err: Outcome)
      requires Valid() && Replaced(db, tx, path, g.group, |g.group|)
      modifies this
      ensures Valid() && Went(works, old(clock), clock, err)
      ensures err != DuplicateArtifact && !Clash(old(db), path, g.group)
      ensures err != Done ==> db == old(db) && indexed == old(indexed)
      ensures err == Done ==> Exchanged(old(db), db, path, g) && indexed == old(indexed)[path := g]
    {
      Committed(db, tx, indexed, path, g);
      var committed := Call();
      if !committed { return Broken; }
      db, indexed, err := WithStatus(tx, path, g), indexed[path := g], Done;
    }

    /** The transaction that forgets a source whose file is gone. */
    method PruneSource(path: Bytes) returns (err: Outcome)
      requires Valid()
      modifies this`db, this`clock
      ensures Valid() && Went(works, old(clock), clock, err)
      ensures err != DuplicateArtifact
      ensures err != Done ==> db == old(db)
      ensures err == Done ==> Dropped(old(db), db, path)
    {
      var committed := Call();
      if !committed { return Broken; }
      var tx := Cleared(db, path);
      DroppedTables(db, path);
      db := tx.(sources := tx.sources - {path});
      StillCurrent(old(db), db, indexed, path);
      return Done;
    }

    /** Store a diagnostic, which carries no fingerprint; a failure is ignored. */
    method RecordStatus(status: Status)
      requires Valid() && status.fingerprint == ""
      modifies this`db, this`clock
      ensures Valid() && clock == old(clock) + 1
      ensures SameTables(old(db), db)
      ensures db.sources == if works(old(clock)) then old(db).sources[status.path := SourceRow("", status.state)] else old(db).sources
    {
      var ok := Call();
      if ok {
        db := db.(sources := db.sources[status.path := SourceRow("", status.state)]);
        forall p ensures Current(db, indexed, p) { assert Current(old(db), indexed, p); }
      }
    }

    /** Store the diagnostics among the statuses. */
    method RecordStatuses(statuses: seq<Status>)
      requires Valid() && forall s :: s in statuses ==> Plain(s) || Counted(s)
      modifies this`db, this`clock
      ensures Valid() && clock >= old(clock)
      ensures SameTables(old(db), db)
      ensures db.sources == Recorded(works, old(clock), old(db).sources, statuses).sources
    {
      for i := 0 to |statuses|
        invariant Valid() && SameTables(old(db), db) && clock >= old(clock)
        invariant Recording(db.sources, clock) == Recorded(works, old(clock), old(db).sources, statuses[..i])
      {
        var s := statuses[i];
        assert s in statuses;
        assert statuses[..i + 1][..i] == statuses[..i];
        if s.path == [] || ((s.state == Indexed || s.state == Unchanged) && s.fingerprint != "") { continue; }
        RecordStatus(s);
      }
      assert statuses[..|statuses|] == statuses;
    }

    /** Forget the sources that were indexed or unchanged and whose files are gone, up to the first failure. */
    method PruneMissingSources(gone: set<Bytes>) returns (err: Outcome, ghost pruned: set<Bytes>)
      requires Valid()
      modifies this`db, this`clock
      ensures Valid() && Went(works, old(clock), clock, err)
      ensures pruned <= Missing(old(db).sources, gone) && Forgotten(old(db), db, pruned)
      ensures err != DuplicateArtifact
      ensures err == Done ==> pruned == Missing(old(db).sources, gone)
    {
      pruned := {};
      var listed := Call();
      if !listed { return Broken, {}; }
      var paths := KeysOf(db.sources);
      for i := 0 to |paths|
        invariant Valid() && old(clock) <= clock && AllWork(works, old(clock), clock)
        invariant Forgetting(old(db), db, gone, paths, i, pruned)
      {
        var path := paths[i];
        NotYet(paths, i);
        ForgetNext(old(db), db, gone, paths, i, pruned);
        var state := db.sources[path].state;
        if path in gone && (state == Indexed || state == Unchanged) {
          ghost var before := db;
          ghost var mid := clock;
          err := PruneSource(path);
          WorkSplit(works, old(clock), mid, clock);
          if err != Done { return; }
          ForgetThis(old(db), before, db, gone, paths, i, pruned);
          pruned := pruned + {path};
        }
      }
      assert PathsBefore(paths, |paths|) == old(db).sources.Keys;
      err := Done;
    }

    /** One source of a scan: skip it, replace its rows, or report what went wrong. */
    method SyncSource(path: Bytes, group: seq<Artifact>, files: Prints, cancelled: bool)
      returns (halt: bool, status: Status, ghost replaced: bool)
      requires Valid() && forall a :: a in group ==> a.path == path
      modifies this
      ensures Valid() && clock >= old(clock)
      ensures halt <==> cancelled || (files(path) != "" && !works(old(clock)))
      ensures halt ==> db == old(db) && indexed == old(indexed) && (cancelled || !AllWork(works, old(clock), clock))
      ensures !halt ==> Turn(old(db), db, old(indexed), indexed, files, group, path, status, replaced, AllWork(works, old(clock), clock))
    {
      replaced, status := false, Status(path, Failed, "");
      if cancelled { return true, status, false; }
      var fingerprint := files(path);
      if fingerprint == "" { return false, status, false; }
      var queried := Call();
      if !queried { return true, status, false; }
      if path in db.sources && db.sources[path].fingerprint == fingerprint {
        assert Current(db, indexed, path);
        return false, Status(path, Unchanged, fingerprint), false;
      }
      ghost var mid := clock;
      var err := ReplaceSource(path, fingerprint, group);
      WorkSplit(works, old(clock), mid, clock);
      if err != Done { return false, status, false; }
      return false, Status(path, Indexed, fingerprint), true;
    }

    /** The sources of a scan, in path order; live says of each turn whether the context is not cancelled by then. */
    method SyncSources(arts: seq<Artifact>, paths: seq<Bytes>, groups: map<Bytes, seq<Artifact>>, before: seq<Status>,
                       files: Prints, live: nat -> bool)
      returns (halt: bool, statuses: seq<Status>, ghost replaced: set<Bytes>)
      requires Valid() && DistinctKeys(paths, Same)
      requires forall p :: p in paths ==> p in groups && groups[p] == OfPath(arts, p)
      requires forall s :: s in before ==> Plain(s)
      modifies this
      ensures Valid() && clock >= old(clock)
      ensures Synced(old(db), db, arts, replaced) && db.sources == Restated(old(db).sources, files, replaced)
      ensures Honest(db, indexed, statuses, replaced) && Announced(statuses, replaced)
      ensures replaced <= PathsBefore(paths, |paths|)
      ensures !halt ==> Reported(old(db).sources, files, replaced, before, statuses, paths, |paths|)
      ensures Picked(old(db), files, arts, PathsBefore(paths, |paths|), replaced, !halt && AllWork(works, old(clock), clock))
      ensures AllWork(live, 0, |paths|) && AllWork(works, old(clock), clock) ==> !halt
      ensures !halt ==> AllWork(live, 0, |paths|)
    {
      statuses, replaced := before, {};
      NoTurns(db, indexed, files, arts, before, paths);
      for i := 0 to |paths|
        invariant Valid() && clock >= old(clock) && AllWork(live, 0, i)
        invariant Progress(old(db), db, indexed, files, arts, before, statuses, paths, replaced, i, AllWork(works, old(clock), clock))
      {
        var path := paths[i];
        OfPathMembers(arts, path);
        ghost var was, earlier, from := db, indexed, clock;
        var status: Status;
        ghost var done: bool;
        halt, status, done := SyncSource(path, groups[path], files, !live(i));
        OneCall(live, i);
        WorkSplit(live, 0, i, i + 1);
        WorkSplit(works, old(clock), from, clock);
        if halt {
          WorkSplit(live, 0, i + 1, |paths|);
          return;
        }
        NextTurn(old(db), was, db, earlier, indexed, files, arts, before, statuses, paths, replaced, i, status, done,
                 AllWork(works, old(clock), from), AllWork(works, from, clock));
        statuses := statuses + [status];
        if done { replaced := replaced + {path}; }
      }
      halt := false;
    }

    /** The sources that a scan found artifacts for. */
    method SyncFound(raws: seq<Raw>, diagnostics: seq<Status>, stableId: StableId, files: Prints, live: nat -> bool)
      returns (halt: bool, statuses: seq<Status>, ghost replaced: set<Bytes>)
      requires Valid() && forall s :: s in diagnostics ==> Plain(s)
      modifies this
      ensures Valid() && clock >= old(clock)
      ensures Synced(old(db), db, Accepted(stableId, raws), replaced) && db.sources == Restated(old(db).sources, files, replaced)
      ensures Honest(db, indexed, statuses, replaced) && Announced(statuses, replaced)
      ensures !halt ==> diagnostics + Rejected(stableId, raws) <= statuses
      ensures !halt ==> AllReported(old(db).sources, files, replaced, statuses, PathsOf(Accepted(stableId, raws)))
      ensures Picked(old(db), files, Accepted(stableId, raws), PathsOf(Accepted(stableId, raws)), replaced, !halt && AllWork(works, old(clock), clock))
      ensures replaced <= PathsOf(Accepted(stableId, raws))
      ensures AlwaysLive(live) && AllWork(works, old(clock), clock) ==> !halt
    {
      var groups, before := GroupArtifacts(raws, stableId, diagnostics);
      var listed := KeysOf(groups);
      var paths := SortBy(listed, Same);
      MembersOf(listed, paths);
      DistinctPermuted(listed, paths, Same);
      FoundPaths(stableId, raws, groups, paths);
      ghost var sources := db.sources;
      halt, statuses, replaced := SyncSources(Accepted(stableId, raws), paths, groups, before, files, live);
      if !halt {
        forall p | p in PathsOf(Accepted(stableId, raws)) ensures StatusOf(sources, files, replaced, p) in statuses {
          ReportedHave(sources, files, replaced, before, statuses, paths, p);
        }
      }
    }

    /** What follows the sources of a scan: the diagnostics are stored, and sources whose files are gone are forgotten. */
    method Finish(statuses: seq<Status>, ghost replaced: set<Bytes>, gone: set<Bytes>) returns (halt: bool, ghost pruned: set<Bytes>)
      requires Valid() && Honest(db, indexed, statuses, replaced)
      modifies this`db, this`clock
      ensures Valid() && clock >= old(clock)
      ensures Emptied(old(db), db, pruned) && pruned <= gone
      ensures AllVouched(db, indexed, statuses, pruned)
      ensures AllWork(works, old(clock), clock) ==> !halt
      ensures !halt ==> Pruned(Recorded(works, old(clock), old(db).sources, statuses).sources, db.sources, gone, pruned)
    {
      RecordStatuses(statuses);
      ghost var noted, from := db, clock;
      var err: Outcome;
      err, pruned := PruneMissingSources(gone);
      halt := err != Done;
      WorkSplit(works, old(clock), from, clock);
      AfterNoting(old(db), noted, db, pruned);
      VouchedAfter(old(db), db, indexed, statuses, replaced, pruned);
    }

    /**
     A whole scan. The files have the given fingerprints, gone are those that do not exist
     when the index looks for them at the end, and recorded is the number of the first call
     after the sources.
     */
    method Sync(raws: seq<Raw>, diagnostics: seq<Status>, stableId: StableId, files: Prints, live: nat -> bool, gone: set<Bytes>)
      returns (halt: bool, statuses: seq<Status>, ghost replaced: set<Bytes>, ghost pruned: set<Bytes>, ghost recorded: nat)
      requires Valid() && forall s :: s in diagnostics ==> Plain(s)
      modifies this
      ensures Valid() && old(clock) <= recorded <= clock
      ensures AfterScan(old(db), db, Accepted(stableId, raws), replaced, pruned) && pruned <= gone
      ensures Searchable(db, stableId, raws, replaced - pruned)
      ensures AllVouched(db, indexed, statuses, pruned)
      ensures forall s :: s in statuses && Counted(s) && s.state == Indexed ==> s.path in replaced
      ensures Announced(statuses, replaced)
      ensures Picked(old(db), files, Accepted(stableId, raws), PathsOf(Accepted(stableId, raws)), replaced, !halt && AllWork(works, old(clock), clock))
      ensures AlwaysLive(live) && AllWork(works, old(clock), clock) ==> !halt
      ensures !halt ==> diagnostics + Rejected(stableId, raws) <= statuses
      ensures !halt ==> AllReported(old(db).sources, files, replaced, statuses, PathsOf(Accepted(stableId, raws)))
      ensures !halt ==> Pruned(Recorded(works, recorded, Restated(old(db).sources, files, replaced), statuses).sources, db.sources, gone, pruned)
      ensures !halt ==> forall p :: p in gone ==> !Prunable(db.sources, p)
    {
      pruned := {};
      halt, statuses, replaced := SyncFound(raws, diagnostics, stableId, files, live);
      recorded := clock;
      ghost var synced := db;
      NothingForgotten(db, indexed, statuses, replaced);
      if !halt { halt, pruned := Finish(statuses, replaced, gone); }
      WorkSplit(works, old(clock), recorded, clock);
      AfterAll(old(db), synced, db, stableId, raws, replaced, pruned);
    }
  }
}
