/**
 The tables of agentweave/core/index.go: artifacts, their chunks and the
 full-text table are SQL tables changed in transactions. Whether the n-th call on the
 database works is given by a function of n; statements that the model does not tell
 apart are one call. The tables that search does not join are left out.
 */
module IndexTables {
  import opened Bytes
  import opened Decimal
  import opened Sorting
  import opened Wrappers
  import Chunking

  datatype ChunkRow = ChunkRow(artifact: string, ordinal: nat, body: Bytes)

  datatype FtsRow = FtsRow(ref: string, body: Bytes)

  datatype State = Indexed | Unchanged | Unavailable | Unsupported | Failed

  datatype SourceRow = SourceRow(fingerprint: string, state: State)

  /** The tables: artifact id to source path, chunk reference to chunk, row number to search row, path to status. */
  datatype Tables = Tables(
    artifacts: map<string, Bytes>,
    chunks: map<string, ChunkRow>,
    fts: map<nat, FtsRow>,
    nextRow: nat,
    sources: map<Bytes, SourceRow>)

  datatype Artifact = Artifact(id: string, path: Bytes, text: Bytes)

  // ----- references

  function RefOf(id: string, ordinal: nat): string {
    "aw:" + id + ":" + Numeral(ordinal)
  }

  /** What follows the last colon, counted from the back. */
  function AfterColon(s: string): nat {
    if s == "" || s[|s| - 1] == ':' then 0 else 1 + AfterColon(s[..|s| - 1])
  }

  lemma {:induction false} AfterColonOf(a: string, m: string)
    requires ':' !in m
    ensures AfterColon(a + ":" + m) == |m|
  {
    var whole := a + ":" + m;
    if m != "" {
      AfterColonOf(a, m[..|m| - 1]);
      assert whole[..|whole| - 1] == a + ":" + m[..|m| - 1];
    }
  }

  lemma ColonSplits(a: string, b: string, m: string, n: string)
    requires a + ":" + m == b + ":" + n && ':' !in m && ':' !in n
    ensures a == b && m == n
  {
    AfterColonOf(a, m);
    AfterColonOf(b, n);
    var whole := a + ":" + m;
    assert whole[..|a|] == a && whole[|a| + 1..] == m;
    assert whole[..|b|] == b && whole[|b| + 1..] == n;
  }

  /** A reference names one artifact and one ordinal, whatever the identifiers look like. */
  lemma RefInjective(a: string, m: nat, b: string, n: nat)
    requires RefOf(a, m) == RefOf(b, n)
    ensures a == b && m == n
  {
    ColonSplits("aw:" + a, "aw:" + b, Numeral(m), Numeral(n));
    assert ("aw:" + a)[3..] == a && ("aw:" + b)[3..] == b;
    NumeralInjective(m, n);
  }

  // ----- the invariant

  type Artifacts = map<string, Bytes>
  type Chunks = map<string, ChunkRow>
  type Rows = map<nat, FtsRow>

  ghost predicate ChunksOk(artifacts: Artifacts, chunks: Chunks) {
    forall ref :: ref in chunks ==>
      chunks[ref].artifact in artifacts && ref == RefOf(chunks[ref].artifact, chunks[ref].ordinal)
  }

  ghost predicate RowsOk(chunks: Chunks, fts: Rows) {
    && (forall r :: r in fts ==> fts[r].ref in chunks && fts[r].body == chunks[fts[r].ref].body)
    && (forall r, s :: r in fts && s in fts && fts[r].ref == fts[s].ref ==> r == s)
  }

  ghost predicate HasRow(fts: Rows, ref: string) {
    exists r :: r in fts && fts[r].ref == ref
  }

  ghost predicate AllHaveRows(chunks: Chunks, fts: Rows) {
    forall ref :: ref in chunks ==> HasRow(fts, ref)
  }

  /** Chunk rows and search rows have the same references and bodies, one to one; every chunk's artifact exists. */
  ghost predicate Consistent(t: Tables) {
    && ChunksOk(t.artifacts, t.chunks)
    && RowsOk(t.chunks, t.fts)
    && AllHaveRows(t.chunks, t.fts)
    && (forall r :: r in t.fts ==> r < t.nextRow)
  }

  // ----- the rows of one source and the rows of all others

  function NotOf(artifacts: Artifacts, path: Bytes): Artifacts {
    map id | id in artifacts && artifacts[id] != path :: artifacts[id]
  }

  function Mine(artifacts: Artifacts, chunks: Chunks, path: Bytes): set<string> {
    set ref | ref in chunks && chunks[ref].artifact in artifacts && artifacts[chunks[ref].artifact] == path
  }

  function Without(fts: Rows, refs: set<string>): Rows {
    map r | r in fts && fts[r].ref !in refs :: fts[r]
  }

  datatype View = View(artifacts: Artifacts, chunks: Chunks, fts: Rows)

  /** What belongs to other sources. */
  function Others(t: Tables, path: Bytes): View {
    var refs := Mine(t.artifacts, t.chunks, path);
    View(NotOf(t.artifacts, path), t.chunks - refs, Without(t.fts, refs))
  }

  function MyArtifacts(t: Tables, path: Bytes): set<string> {
    set id | id in t.artifacts && t.artifacts[id] == path
  }

  function MyChunks(t: Tables, path: Bytes): Chunks {
    map ref | ref in Mine(t.artifacts, t.chunks, path) :: t.chunks[ref]
  }

  // ----- deletion

  /** The deletions of a source's rows. */
  function Cleared(t: Tables, path: Bytes): Tables {
    var rest := Others(t, path);
    t.(artifacts := rest.artifacts, chunks := rest.chunks, fts := rest.fts)
  }

  lemma RowsAfterDelete(chunks: Chunks, fts: Rows, refs: set<string>)
    requires RowsOk(chunks, fts)
    ensures RowsOk(chunks - refs, Without(fts, refs))
  {
  }

  lemma RowAfterDelete(fts: Rows, refs: set<string>, ref: string)
    requires HasRow(fts, ref) && ref !in refs
    ensures HasRow(Without(fts, refs), ref)
  {
    var r :| r in fts && fts[r].ref == ref;
    assert r in Without(fts, refs);
  }

  lemma HaveRowsAfterDelete(chunks: Chunks, fts: Rows, refs: set<string>)
    requires AllHaveRows(chunks, fts)
    ensures AllHaveRows(chunks - refs, Without(fts, refs))
  {
    forall ref | ref in chunks - refs ensures HasRow(Without(fts, refs), ref) {
      RowAfterDelete(fts, refs, ref);
    }
  }

  lemma ClearedConsistent(t: Tables, path: Bytes)
    requires Consistent(t)
    ensures Consistent(Cleared(t, path))
  {
    var refs := Mine(t.artifacts, t.chunks, path);
    RowsAfterDelete(t.chunks, t.fts, refs);
    HaveRowsAfterDelete(t.chunks, t.fts, refs);
  }

  lemma NoneMine(artifacts: Artifacts, chunks: Chunks, path: Bytes)
    ensures Mine(NotOf(artifacts, path), chunks - Mine(artifacts, chunks, path), path) == {}
  {
  }

  lemma WithoutNone(fts: Rows)
    ensures Without(fts, {}) == fts
  {
  }

  lemma ClearedArtifacts(artifacts: Artifacts, path: Bytes)
    ensures NotOf(NotOf(artifacts, path), path) == NotOf(artifacts, path)
  {
  }

  lemma ClearedRows(t: Tables, path: Bytes)
    requires Consistent(t)
    ensures Others(Cleared(t, path), path) == Others(t, path)
    ensures MyArtifacts(Cleared(t, path), path) == {} && MyChunks(Cleared(t, path), path) == map[]
  {
    var u := Cleared(t, path);
    NoneMine(t.artifacts, t.chunks, path);
    assert Mine(u.artifacts, u.chunks, path) == {};
    WithoutNone(u.fts);
    ClearedArtifacts(t.artifacts, path);
    assert u.chunks - {} == u.chunks;
  }

  // ----- insertion

  function WithArtifact(t: Tables, id: string, path: Bytes): Tables {
    t.(artifacts := t.artifacts[id := path])
  }

  lemma ArtifactInserted(t: Tables, id: string, path: Bytes)
    requires Consistent(t) && id !in t.artifacts
    ensures var u := WithArtifact(t, id, path);
            && Consistent(u)
            && Others(u, path) == Others(t, path)
            && MyArtifacts(u, path) == MyArtifacts(t, path) + {id}
            && MyChunks(u, path) == MyChunks(t, path)
  {
    var u := WithArtifact(t, id, path);
    assert Mine(u.artifacts, u.chunks, path) == Mine(t.artifacts, t.chunks, path);
    assert NotOf(u.artifacts, path) == NotOf(t.artifacts, path);
  }

  /** Insert a chunk row and its search row. */
  function WithChunk(t: Tables, id: string, c: Chunking.Chunk): Tables {
    var ref := RefOf(id, c.ordinal);
    t.(chunks := t.chunks[ref := ChunkRow(id, c.ordinal, c.body)],
       fts := t.fts[t.nextRow := FtsRow(ref, c.body)],
       nextRow := t.nextRow + 1)
  }

  lemma RowsAfterInsert(chunks: Chunks, fts: Rows, n: nat, ref: string, row: ChunkRow)
    requires RowsOk(chunks, fts) && ref !in chunks && n !in fts
    ensures RowsOk(chunks[ref := row], fts[n := FtsRow(ref, row.body)])
  {
  }

  lemma HaveRowsAfterInsert(chunks: Chunks, fts: Rows, n: nat, ref: string, row: ChunkRow)
    requires AllHaveRows(chunks, fts) && n !in fts
    ensures AllHaveRows(chunks[ref := row], fts[n := FtsRow(ref, row.body)])
  {
    var after := fts[n := FtsRow(ref, row.body)];
    forall other | other in chunks[ref := row] ensures HasRow(after, other) {
      if other == ref {
        assert after[n].ref == ref;
      } else {
        var r :| r in fts && fts[r].ref == other;
        assert after[r].ref == other;
      }
    }
  }

  lemma ChunkConsistent(t: Tables, id: string, c: Chunking.Chunk)
    requires Consistent(t) && id in t.artifacts && RefOf(id, c.ordinal) !in t.chunks
    ensures Consistent(WithChunk(t, id, c))
  {
    var ref, row := RefOf(id, c.ordinal), ChunkRow(id, c.ordinal, c.body);
    RowsAfterInsert(t.chunks, t.fts, t.nextRow, ref, row);
    HaveRowsAfterInsert(t.chunks, t.fts, t.nextRow, ref, row);
  }

  lemma MineAfterInsert(artifacts: Artifacts, chunks: Chunks, path: Bytes, ref: string, row: ChunkRow)
    requires ref !in chunks && row.artifact in artifacts && artifacts[row.artifact] == path
    ensures Mine(artifacts, chunks[ref := row], path) == Mine(artifacts, chunks, path) + {ref}
  {
  }

  lemma DropInserted(chunks: Chunks, refs: set<string>, ref: string, row: ChunkRow)
    requires ref !in chunks
    ensures chunks[ref := row] - (refs + {ref}) == chunks - refs
  {
  }

  lemma WithoutInserted(fts: Rows, refs: set<string>, n: nat, ref: string, body: Bytes)
    requires n !in fts && forall r :: r in fts ==> fts[r].ref != ref
    ensures Without(fts[n := FtsRow(ref, body)], refs + {ref}) == Without(fts, refs)
  {
  }

  lemma MyChunksAfterInsert(t: Tables, u: Tables, path: Bytes, ref: string, row: ChunkRow)
    requires u.chunks == t.chunks[ref := row]
    requires Mine(u.artifacts, u.chunks, path) == Mine(t.artifacts, t.chunks, path) + {ref}
    ensures MyChunks(u, path) == MyChunks(t, path)[ref := row]
  {
  }

  lemma ChunkRows(t: Tables, id: string, c: Chunking.Chunk, path: Bytes)
    requires Consistent(t) && id in t.artifacts && t.artifacts[id] == path && RefOf(id, c.ordinal) !in t.chunks
    ensures var u := WithChunk(t, id, c);
            && Others(u, path) == Others(t, path)
            && MyArtifacts(u, path) == MyArtifacts(t, path)
            && MyChunks(u, path) == MyChunks(t, path)[RefOf(id, c.ordinal) := ChunkRow(id, c.ordinal, c.body)]
  {
    var u, ref, row := WithChunk(t, id, c), RefOf(id, c.ordinal), ChunkRow(id, c.ordinal, c.body);
    var refs := Mine(t.artifacts, t.chunks, path);
    MineAfterInsert(t.artifacts, t.chunks, path, ref, row);
    DropInserted(t.chunks, refs, ref, row);
    WithoutInserted(t.fts, refs, t.nextRow, ref, c.body);
    MyChunksAfterInsert(t, u, path, ref, row);
  }

  // ----- the rows a group of artifacts asks for

  const LIMIT: nat := 3200

  function ChunksOf(a: Artifact): seq<Chunking.Chunk> {
    Chunking.Chunks(a.text, 0, LIMIT, 0)
  }

  function AddChunks(rows: Chunks, id: string, cs: seq<Chunking.Chunk>): Chunks {
    if cs == [] then rows
    else
      var c := cs[|cs| - 1];
      AddChunks(rows, id, cs[..|cs| - 1])[RefOf(id, c.ordinal) := ChunkRow(id, c.ordinal, c.body)]
  }

  function RowsOf(group: seq<Artifact>): Chunks {
    if group == [] then map[]
    else AddChunks(RowsOf(group[..|group| - 1]), group[|group| - 1].id, ChunksOf(group[|group| - 1]))
  }

  function IdsOf(group: seq<Artifact>): set<string> {
    set a | a in group :: a.id
  }

  predicate DistinctIds(group: seq<Artifact>) {
    forall i, j :: 0 <= i < j < |group| ==> group[i].id != group[j].id
  }

  lemma {:induction false} AddChunksMeaning(rows: Chunks, id: string, cs: seq<Chunking.Chunk>, ref: string)
    requires Chunking.IncreasingFrom(cs, 0)
    ensures ref in AddChunks(rows, id, cs) <==> ref in rows || exists c :: c in cs && ref == RefOf(id, c.ordinal)
    ensures forall c :: c in cs && ref == RefOf(id, c.ordinal) ==>
              AddChunks(rows, id, cs)[ref] == ChunkRow(id, c.ordinal, c.body)
    ensures ref in AddChunks(rows, id, cs) && (forall c :: c in cs ==> ref != RefOf(id, c.ordinal)) ==>
              AddChunks(rows, id, cs)[ref] == rows[ref]
    decreases |cs|
  {
    if cs != [] {
      var front, last := cs[..|cs| - 1], cs[|cs| - 1];
      assert last in cs;
      AddChunksMeaning(rows, id, front, ref);
      forall c | c in cs && ref == RefOf(id, c.ordinal)
        ensures AddChunks(rows, id, cs)[ref] == ChunkRow(id, c.ordinal, c.body)
      {
        if ref == RefOf(id, last.ordinal) { RefInjective(id, c.ordinal, id, last.ordinal); }
      }
    }
  }

  /** The artifact has a chunk with this reference. */
  ghost predicate Asks(a: Artifact, ref: string) {
    exists c :: c in ChunksOf(a) && ref == RefOf(a.id, c.ordinal)
  }

  lemma AddedMeaning(rows: Chunks, a: Artifact, ref: string)
    ensures ref in AddChunks(rows, a.id, ChunksOf(a)) <==> ref in rows || Asks(a, ref)
  {
    Chunking.OrdinalsIncrease(a.text, 0, LIMIT, 0);
    AddChunksMeaning(rows, a.id, ChunksOf(a), ref);
  }

  /** The references of a group's rows are exactly those of its artifacts' chunks. */
  lemma {:induction false} RowsMeaning(group: seq<Artifact>, ref: string)
    ensures ref in RowsOf(group) <==> exists a :: a in group && Asks(a, ref)
  {
    if group != [] {
      var front, last := group[..|group| - 1], group[|group| - 1];
      RowsMeaning(front, ref);
      AddedMeaning(RowsOf(front), last, ref);
      assert forall a :: a in group <==> a in front || a == last;
    }
  }

  /** Adding one artifact's chunks leaves another's rows alone. */
  lemma OtherArtifactKept(rows: Chunks, a: Artifact, id: string, ordinal: nat)
    requires id != a.id && RefOf(id, ordinal) in rows
    ensures var after, ref := AddChunks(rows, a.id, ChunksOf(a)), RefOf(id, ordinal);
            ref in after && after[ref] == rows[ref]
  {
    Chunking.OrdinalsIncrease(a.text, 0, LIMIT, 0);
    AddChunksMeaning(rows, a.id, ChunksOf(a), RefOf(id, ordinal));
    forall d | d in ChunksOf(a) ensures RefOf(id, ordinal) != RefOf(a.id, d.ordinal) {
      if RefOf(id, ordinal) == RefOf(a.id, d.ordinal) { RefInjective(id, ordinal, a.id, d.ordinal); }
    }
  }

  lemma OwnChunk(rows: Chunks, a: Artifact, c: Chunking.Chunk)
    requires c in ChunksOf(a)
    ensures var after, ref := AddChunks(rows, a.id, ChunksOf(a)), RefOf(a.id, c.ordinal);
            ref in after && after[ref] == ChunkRow(a.id, c.ordinal, c.body)
  {
    Chunking.OrdinalsIncrease(a.text, 0, LIMIT, 0);
    AddChunksMeaning(rows, a.id, ChunksOf(a), RefOf(a.id, c.ordinal));
  }

  /** And each chunk of each artifact has its own row. */
  lemma {:induction false} RowOfChunk(group: seq<Artifact>, i: nat, c: Chunking.Chunk)
    requires DistinctIds(group) && i < |group| && c in ChunksOf(group[i])
    ensures var ref := RefOf(group[i].id, c.ordinal);
            ref in RowsOf(group) && RowsOf(group)[ref] == ChunkRow(group[i].id, c.ordinal, c.body)
    decreases |group|
  {
    var front, last := group[..|group| - 1], group[|group| - 1];
    if i < |front| {
      RowOfChunk(front, i, c);
      OtherArtifactKept(RowsOf(front), last, group[i].id, c.ordinal);
    } else {
      OwnChunk(RowsOf(front), last, c);
    }
  }

  // ----- transactions

  datatype Outcome = Done | Broken | DuplicateArtifact

  ghost predicate AllWork(works: nat -> bool, from: nat, upto: nat) {
    forall n :: from <= n < upto ==> works(n)
  }

  ghost predicate AlwaysLive(live: nat -> bool) {
    forall n :: AllWork(live, 0, n)
  }

  lemma WorkSplit(works: nat -> bool, from: nat, mid: nat, upto: nat)
    requires from <= mid <= upto
    ensures AllWork(works, from, upto) <==> AllWork(works, from, mid) && AllWork(works, mid, upto)
  {
    if AllWork(works, from, mid) && AllWork(works, mid, upto) {
      forall n | from <= n < upto ensures works(n) { if n < mid {} else {} }
    }
  }

  lemma OneCall(works: nat -> bool, from: nat)
    ensures AllWork(works, from, from + 1) <==> works(from)
  {
  }

  /** The outcome of these calls: broken exactly when one of them fails. */
  ghost predicate Went(works: nat -> bool, from: nat, upto: nat, err: Outcome) {
    from <= upto && (err == Broken <==> !AllWork(works, from, upto))
  }

  /** Two artifacts of the group share an identifier, or one has an identifier that another source holds. */
  ghost predicate Clash(t: Tables, path: Bytes, group: seq<Artifact>) {
    !DistinctIds(group) || exists a :: a in group && a.id in t.artifacts && t.artifacts[a.id] != path
  }

  lemma AddChunksSnoc(rows: Chunks, id: string, cs: seq<Chunking.Chunk>, c: Chunking.Chunk)
    ensures AddChunks(rows, id, cs + [c]) == AddChunks(rows, id, cs)[RefOf(id, c.ordinal) := ChunkRow(id, c.ordinal, c.body)]
  {
    assert (cs + [c])[..|cs|] == cs;
  }

  /** No chunk of this artifact has this ordinal or a later one. */
  ghost predicate OnlyBefore(t: Tables, id: string, ordinal: nat) {
    forall ref :: ref in t.chunks && t.chunks[ref].artifact == id ==> t.chunks[ref].ordinal < ordinal
  }

  /** Inserting a chunk never meets an existing reference. */
  lemma NoChunkConflict(t: Tables, id: string, ordinal: nat)
    requires Consistent(t) && OnlyBefore(t, id, ordinal)
    ensures RefOf(id, ordinal) !in t.chunks
  {
    var ref := RefOf(id, ordinal);
    if ref in t.chunks {
      RefInjective(id, ordinal, t.chunks[ref].artifact, t.chunks[ref].ordinal);
    }
  }

  /** From t to u the first k chunks were inserted. */
  ghost predicate Inserted(t: Tables, u: Tables, id: string, cs: seq<Chunking.Chunk>, k: nat, path: Bytes)
    requires k <= |cs|
  {
    && Consistent(u) && u.artifacts == t.artifacts && u.sources == t.sources
    && (k < |cs| ==> OnlyBefore(u, id, cs[k].ordinal))
    && Others(u, path) == Others(t, path)
    && MyChunks(u, path) == AddChunks(MyChunks(t, path), id, cs[..k])
  }

  lemma StillOnlyBefore(u: Tables, id: string, c: Chunking.Chunk, n: nat)
    requires OnlyBefore(u, id, c.ordinal) && c.ordinal < n
    ensures OnlyBefore(WithChunk(u, id, c), id, n)
  {
  }

  lemma ChunkInserted(t: Tables, u: Tables, id: string, cs: seq<Chunking.Chunk>, k: nat, path: Bytes)
    requires k < |cs| && Inserted(t, u, id, cs, k, path) && Chunking.IncreasingFrom(cs, 0)
    requires id in t.artifacts && t.artifacts[id] == path
    ensures Inserted(t, WithChunk(u, id, cs[k]), id, cs, k + 1, path)
  {
    NoChunkConflict(u, id, cs[k].ordinal);
    ChunkConsistent(u, id, cs[k]);
    ChunkRows(u, id, cs[k], path);
    AddChunksSnoc(MyChunks(t, path), id, cs[..k], cs[k]);
    assert cs[..k + 1] == cs[..k] + [cs[k]];
    if k + 1 < |cs| { StillOnlyBefore(u, id, cs[k], cs[k + 1].ordinal); }
  }

  /** Insert the chunks of an artifact that has none yet. */
  method InsertChunks(works: nat -> bool, from: nat, t: Tables, id: string, cs: seq<Chunking.Chunk>, path: Bytes)
    returns (err: Outcome, u: Tables, upto: nat)
    requires Consistent(t) && id in t.artifacts && t.artifacts[id] == path
    requires forall ref :: ref in t.chunks ==> t.chunks[ref].artifact != id
    requires Chunking.IncreasingFrom(cs, 0)
    ensures err != DuplicateArtifact && Went(works, from, upto, err)
    ensures err == Done ==> Consistent(u) && u.artifacts == t.artifacts && u.sources == t.sources
    ensures err == Done ==> Others(u, path) == Others(t, path)
    ensures err == Done ==> MyChunks(u, path) == AddChunks(MyChunks(t, path), id, cs)
  {
    u, upto := t, from;
    for k := 0 to |cs|
      invariant upto == from + k && AllWork(works, from, upto)
      invariant Inserted(t, u, id, cs, k, path)
    {
      ChunkInserted(t, u, id, cs, k, path);
      u, upto := WithChunk(u, id, cs[k]), upto + 1;
      OneCall(works, from + k);
      WorkSplit(works, from, from + k, upto);
      if !works(from + k) { return Broken, t, upto; }
    }
    assert cs[..|cs|] == cs;
    err := Done;
  }

  lemma GroupSnoc(group: seq<Artifact>, a: Artifact)
    ensures RowsOf(group + [a]) == AddChunks(RowsOf(group), a.id, ChunksOf(a))
    ensures IdsOf(group + [a]) == IdsOf(group) + {a.id}
  {
    assert (group + [a])[..|group|] == group;
  }

  /** The rows of the source are those the group asks for. */
  ghost predicate Holds(t: Tables, path: Bytes, group: seq<Artifact>) {
    MyArtifacts(t, path) == IdsOf(group) && MyChunks(t, path) == RowsOf(group)
  }

  /** Insert an artifact and its chunks. */
  method InsertArtifact(works: nat -> bool, from: nat, t: Tables, a: Artifact, ghost group: seq<Artifact>)
    returns (err: Outcome, u: Tables, upto: nat)
    requires Consistent(t) && Holds(t, a.path, group)
    ensures Went(works, from, upto, err)
    ensures err == DuplicateArtifact ==> a.id in t.artifacts
    ensures err == Done ==> a.id !in t.artifacts && Consistent(u) && u.sources == t.sources
    ensures err == Done ==> Others(u, a.path) == Others(t, a.path) && Holds(u, a.path, group + [a])
  {
    OneCall(works, from);
    if !works(from) { return Broken, t, from + 1; }
    if a.id in t.artifacts { return DuplicateArtifact, t, from + 1; }
    ArtifactInserted(t, a.id, a.path);
    GroupSnoc(group, a);
    Chunking.OrdinalsIncrease(a.text, 0, LIMIT, 0);
    var chunks := Chunking.ArtifactChunks(a.text, LIMIT);
    err, u, upto := InsertChunks(works, from + 1, WithArtifact(t, a.id, a.path), a.id, chunks, a.path);
    WorkSplit(works, from, from + 1, upto);
  }

  lemma KnownIds(t: Tables, start: Tables, path: Bytes, group: seq<Artifact>, id: string)
    requires Others(t, path) == Others(start, path) && MyArtifacts(t, path) == IdsOf(group)
    ensures id in t.artifacts <==> id in IdsOf(group) || (id in start.artifacts && start.artifacts[id] != path)
  {
    assert id in Others(t, path).artifacts <==> id in Others(start, path).artifacts;
    assert id in t.artifacts && t.artifacts[id] == path <==> id in MyArtifacts(t, path);
  }

  /** No clash among the first k artifacts. */
  ghost predicate ClearUpTo(t: Tables, path: Bytes, group: seq<Artifact>, k: nat)
    requires k <= |group|
  {
    && DistinctIds(group[..k])
    && forall j :: 0 <= j < k ==> !(group[j].id in t.artifacts && t.artifacts[group[j].id] != path)
  }

  lemma OneMoreClear(t: Tables, path: Bytes, group: seq<Artifact>, k: nat)
    requires k < |group| && ClearUpTo(t, path, group, k)
    ensures ClearUpTo(t, path, group, k + 1) <==>
            !(group[k].id in IdsOf(group[..k]) || (group[k].id in t.artifacts && t.artifacts[group[k].id] != path))
  {
    if group[k].id in IdsOf(group[..k]) {
      var j :| 0 <= j < k && group[..k][j].id == group[k].id;
      assert group[..k + 1][j].id == group[..k + 1][k].id;
    }
  }

  lemma AllClear(t: Tables, path: Bytes, group: seq<Artifact>)
    ensures ClearUpTo(t, path, group, |group|) <==> !Clash(t, path, group)
  {
    assert group[..|group|] == group;
  }

  lemma ClashAt(t: Tables, path: Bytes, group: seq<Artifact>, k: nat)
    requires k < |group|
    requires group[k].id in IdsOf(group[..k]) || (group[k].id in t.artifacts && t.artifacts[group[k].id] != path)
    ensures Clash(t, path, group)
  {
    if group[k].id in IdsOf(group[..k]) {
      var j :| 0 <= j < k && group[..k][j].id == group[k].id;
      assert group[j].id == group[k].id;
    } else {
      assert group[k] in group;
    }
  }

  /** The first k artifacts of the group are in place of the source's rows. */
  ghost predicate Replaced(t: Tables, u: Tables, path: Bytes, group: seq<Artifact>, k: nat)
    requires k <= |group|
  {
    && Consistent(u) && u.sources == t.sources
    && Others(u, path) == Others(t, path) && Holds(u, path, group[..k])
    && ClearUpTo(t, path, group, k)
  }

  /** An identifier that is in the way when its artifact's turn comes is a clash, and otherwise there is none yet. */
  lemma NextId(t: Tables, u: Tables, path: Bytes, group: seq<Artifact>, k: nat)
    requires k < |group| && Replaced(t, u, path, group, k)
    ensures group[k].id in u.artifacts ==> Clash(t, path, group)
    ensures group[k].id !in u.artifacts ==> ClearUpTo(t, path, group, k + 1)
  {
    KnownIds(u, t, path, group[..k], group[k].id);
    OneMoreClear(t, path, group, k);
    if group[k].id in u.artifacts { ClashAt(t, path, group, k); }
  }

  method InsertNext(works: nat -> bool, from: nat, t: Tables, u: Tables, path: Bytes, group: seq<Artifact>, k: nat)
    returns (err: Outcome, v: Tables, upto: nat)
    requires k < |group| && group[k].path == path && Replaced(t, u, path, group, k)
    ensures Went(works, from, upto, err)
    ensures err == Done ==> Replaced(t, v, path, group, k + 1)
    ensures err == DuplicateArtifact ==> Clash(t, path, group)
  {
    NextId(t, u, path, group, k);
    ghost var sofar := group[..k];
    assert group[..k + 1] == sofar + [group[k]];
    err, v, upto := InsertArtifact(works, from, u, group[k], sofar);
  }

  /** The transaction of replaceSource before its commit: delete the source's rows, insert the group. */
  method Replacement(works: nat -> bool, from: nat, t: Tables, path: Bytes, group: seq<Artifact>)
    returns (err: Outcome, u: Tables, upto: nat)
    requires Consistent(t) && forall a :: a in group ==> a.path == path
    ensures Went(works, from, upto, err)
    ensures err == Done ==> Replaced(t, u, path, group, |group|)
    ensures err == DuplicateArtifact ==> Clash(t, path, group)
  {
    upto := from + 1;
    OneCall(works, from);
    if !works(from) { return Broken, t, upto; }
    u := Cleared(t, path);
    ClearedConsistent(t, path);
    ClearedRows(t, path);
    for k := 0 to |group|
      invariant Replaced(t, u, path, group, k) && from <= upto && AllWork(works, from, upto)
    {
      assert group[k] in group;
      ghost var mid := upto;
      err, u, upto := InsertNext(works, upto, t, u, path, group, k);
      WorkSplit(works, from, mid, upto);
      if err != Done { return; }
    }
    err := Done;
  }

  // ----- sources do not disturb each other

  function MyRows(t: Tables, path: Bytes): Rows {
    map r | r in t.fts && t.fts[r].ref in Mine(t.artifacts, t.chunks, path) :: t.fts[r]
  }

  /** Everything search can find of this source is the same. */
  ghost predicate SameSource(t: Tables, u: Tables, path: Bytes) {
    MyArtifacts(t, path) == MyArtifacts(u, path) && MyChunks(t, path) == MyChunks(u, path) && MyRows(t, path) == MyRows(u, path)
  }

  lemma OtherArtifacts(t: Tables, path: Bytes, p: Bytes)
    requires p != path
    ensures MyArtifacts(t, p) == set id | id in Others(t, path).artifacts && Others(t, path).artifacts[id] == p
  {
  }

  lemma OtherMine(t: Tables, path: Bytes, p: Bytes)
    requires p != path
    ensures Mine(t.artifacts, t.chunks, p) == Mine(Others(t, path).artifacts, Others(t, path).chunks, p)
  {
  }

  lemma OtherChunks(t: Tables, path: Bytes, p: Bytes)
    requires p != path
    ensures MyChunks(t, p) == map ref | ref in Mine(t.artifacts, t.chunks, p) :: Others(t, path).chunks[ref]
  {
  }

  lemma OtherRows(t: Tables, path: Bytes, p: Bytes)
    requires p != path
    ensures MyRows(t, p) ==
            map r | r in Others(t, path).fts && Others(t, path).fts[r].ref in Mine(t.artifacts, t.chunks, p) :: Others(t, path).fts[r]
  {
  }

  /** When the rows of all sources but one are the same, so are those of each of them. */
  lemma OthersAreSame(t: Tables, u: Tables, path: Bytes, p: Bytes)
    requires Others(t, path) == Others(u, path) && p != path
    ensures SameSource(t, u, p)
  {
    OtherArtifacts(t, path, p);
    OtherArtifacts(u, path, p);
    OtherMine(t, path, p);
    OtherMine(u, path, p);
    OtherChunks(t, path, p);
    OtherChunks(u, path, p);
    OtherRows(t, path, p);
    OtherRows(u, path, p);
  }
}
