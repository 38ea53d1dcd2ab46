# Verified models of the repository's core algorithms

This project models, in Dafny, the parts of the repository whose correctness is not
visible in one function: a Merkle commitment with proofs, the locking and branch
updates of a concurrent git propagator, a sandbox daemon's binary formats and exec
transaction, a splitter of archives over several files, a search index kept in step with
the text it indexes, a marker-file parser with its printer, a shell tokenizer and
a service supervisor. `dafny verify dfyconfig.toml` checks all of it.

Code that changes state step by step is modelled by methods and classes that do the
same steps, each proved against a specification function; what the code is for is then
proved about that function as lemmas, over all inputs, runs or reachable states.

| module | models |
|---|---|
| `Merkle`, `CanonicalEncoding` | `commitment/`: tree building, inclusion proofs, payload encodings |
| `LockProtocol`, `LockDescent`, `LockDeadlock`, `LockPulls`, `LockExposure`, `LockFetches`, `LockTheorems` | `gitall/`: goroutines that recurse over local remotes under per-repository mutexes, as a step system; when they deadlock, and what runs outside the mutexes |
| `BranchUpdates` | `gitall/`: fast-forward, merge and rebase by ref plumbing, over a commit graph with arbitrary answers from git |
| `MachO`, `MachOLimits` | `sandbox/daemon/`: the in-place rewrite of a load-command table, and where it leaves its input |
| `Codec`, `ExecTransaction` | `sandbox/protocol/` and `sandbox/daemon/`: message codec, frames, one exec transaction |
| `PathNormalize` | `sandbox/common/path.c` |
| `MemberPaths`, `ArchiveParts`, `ArchiveRepack` | `archive-repack/`: safe member names, claims, archives split over parts |
| `Chunking`, `IndexTables`, `IndexScan`, `SearchIndex` | `agentweave/core/`: text chunking, the index tables and their transactions, scans |
| `PrTag`, `PrTagGrammar` | `prtag/`: the marker file's parser and printer, and which texts it accepts |
| `ShellTokens`, `PosixQuoting` | `extclean/`: shell words and leading assignments, compared with POSIX quoting |
| `Supervisor` | `pulse/`: restarts and backoff |
| `Layouts` | the bytes of hash inputs, payloads, messages, frames and load commands |
| `Bytes`, `Sequences`, `Sorting`, `Decimal`, `Wrappers` | shared definitions |

## How the outside world appears

* Hashes are an arbitrary function on byte strings; a collision is always exhibited from
  the inputs at hand, since one exists somewhere for every function into fixed-size digests.
* git, the disk, the database, the guest and the supervised commands may answer anything:
  their answers are parameters, or functions that say what the n-th call answers, so each
  contract holds for every pattern of failures and says what follows from which.
* Go's library sort is modelled as an insertion sort; `Sorting.SortUnique` shows that the
  algorithm does not matter where it is used.
* Machine integers are unbounded unless a wrap-around can be observed; there it is written
  out (32-bit lengths and sizes, 64-bit durations and identifiers).
* A slice that the source re-slices while scanning is a position in the whole text.

## Where the code differs from what is said about it

* `commitment/tree.go:43` truncates lengths to 32 bits, so soundness and injectivity need
  lengths below 2^32 (`Merkle.LongLeavesAreAmbiguous`, `CanonicalEncoding.LongItemsAreAmbiguous`).
  Keys are joined by NUL bytes, so `Build` may call two different leaves duplicates when
  a tool or kind holds a NUL, and exactly then a key can be mistaken for that of a leaf without
  (`Merkle.KeyInjective`, `Merkle.MistakableIff`, `Merkle.NulMakesKeysAmbiguous`).
* `gitall/main.go:347` says that all access to a repository is serialized. `ensurePushable` (line 461) and
  the checkout of a pushed-to local remote (line 477) change it without its mutex; `LockTheorems.UnguardedIff`
  says for which repositories, and `LockTheorems.PushesOverlap` shows one goroutine checking a repository
  out while another one works there. The fetch from a local remote in `pullRepo` (line 891) reads it without its
  mutex (`LockTheorems.LooselyFetchedIff`, `LockTheorems.PullsOverlap`). Pulls, syncs and pushes are serialized (`LockTheorems.OneWorkerPerRepository`).
* The recursion stack (`gitall/main.go:354`) ends the recursion on every graph (`LockTheorems.RunsAreBounded`)
  but does not prevent deadlock: `LockTheorems.PushDeadlockIff` and `LockTheorems.PullDeadlockExactly` say when.
* A dry run of `updateBranchFromRemote` reports a moved tip that has not moved
  (`BranchUpdates.MovedIsTruthful`), and a rebase drops the old tip from the history unless the remote
  tip already had it (`BranchUpdates.RebaseKeepsTipIff`, `BranchUpdates.RebaseCanLoseCommits`).
* `rewriteMachO` stores the new table size in 32 bits: the result is well-formed exactly when
  it fits (`MachO.RewriteIsTableEdit`, `MachOLimits.HugeTableWraps`). On malformed tables it may index past
  the end of its input (`MachOLimits.PanicsIff`, `MachOLimits.CutFilePanics`).
* An operation identifier is used up even when its request cannot be encoded or framed, so the
  identifiers on the wire increase, and count 1, 2, 3, … exactly when no such request stands before one
  that is sent (`ExecTransaction.IdsConsecutiveIff`, `ExecTransaction.OversizedSkipsId`).
* `sb_normalize_path` drops what does not fit; the exact conditions are `PathNormalize.KeptAllIff`
  (`PathNormalize.ShortBufferDrops`), and for the segment array and a one-byte buffer the outcomes of
  `PathNormalize.NormalizePath` (`PathNormalize.DeepPathOverflows`).
* The archive set's last clean-up removes whatever is at the path of a failed attempt
  (`archive-repack/main.go:549`), also a file that was there before the run. `ArchiveParts.LossIff` says for
  which file that can happen: the one with the first taken name of a later part, if the repacking may
  reach it (`ArchiveParts.SecondNameLost`). All other files are safe, and all of them in a run
  that returns nil (`ArchiveRepack.Run`).
  A set without entries whose close fails as too large reports success and leaves no archive.
* `agentweave/core/index.go:148` says that changed files replace all their artifacts. A file that
  yields no valid artifact any more forms no group, so its old rows stay (`IndexScan.StaleIff`,
  `IndexScan.BlankKeepsStaleRows`). A source whose last status is an error is not pruned when its file
  disappears (`SearchIndex.Index.PruneMissingSources`).
* `Format` of a body that contains a delimiter line is not read back
  (`PrTag.FormatThenParse` gives the exact condition); bodies that come from `Parse` have none.
* Between double quotes the tokenizer drops a backslash before every character, where section 2.2.3
  of POSIX.1-2017 Shell Command Language keeps it before most; and it keeps the newline of a line continuation
  (section 2.2.1). `PosixQuoting.PosixIff` says that nothing else differs, as far as quoting goes.
* The supervisor's doubling wraps at 2^63 nanoseconds before the cap is applied
  (`Supervisor.BackoffIff`, `Supervisor.BackoffSafeBelow`, `Supervisor.SecondDelayWraps`).

## Model

| member | source | states |
|---|---|---|
| `Merkle.KeyInjective` | commitment/tree.go:36-39 | without NUL bytes in tool and kind, equal keys are equal tool, kind and identifier |
| `Merkle.NulMakesKeysAmbiguous` | commitment/tree.go:37-39 | with a NUL byte two different leaves share a key |
| `Merkle.MistakableIff` | commitment/tree.go:37-39 | a leaf has the key of another leaf whose tool and kind are NUL-free exactly when its own tool or kind holds a NUL byte |
| `Merkle.LeafInputInjective` | commitment/tree.go:41-58 | the hashed bytes determine the leaf, for fields shorter than 2^32 |
| `Layouts.HashInputs` | commitment/tree.go:48-69 | a leaf is hashed as a zero byte, tool, kind, identifier and payload, each behind its length with the most significant byte first; a node as a one, left and right |
| `Merkle.LongLeavesAreAmbiguous` | commitment/tree.go:41-46 | at 2^32 bytes the length prefix wraps and two leaves have the same hashed bytes |
| `Merkle.Build` | commitment/tree.go:94-133 | the sorting, indexing and level-growing loops build the tree, or report no leaves or a duplicate, as specified |
| `Merkle.BuildSucceedsIff` | commitment/tree.go:91-109 | Build succeeds exactly on non-empty lists with pairwise different keys |
| `Merkle.BuildIgnoresOrder` | commitment/tree.go:91-101 | permuting the leaves changes neither the tree nor the error |
| `Merkle.LevelCount` | commitment/tree.go:114-130 | the number of levels above the leaves is the ceiling of log2 of the leaf count |
| `Merkle.ApexOfThree` | commitment/tree.go:112-130 | of three nodes the first two are joined, and then with the third, which is carried up unchanged |
| `Merkle.ProofFor` | commitment/tree.go:142-162 | the loop over levels collects the sibling, side or carry of the halved index |
| `Merkle.StepsAreSiblings` | commitment/tree.go:148-160 | the k-th step belongs beside the leaf position halved k times on level k: its other half, on the proper side, or a carry for the last of an odd number |
| `Merkle.ClimbReachesTop` | commitment/tree.go:148-160 | from any level, the steps from an index lead the running hash through the halved indices to the root |
| `Merkle.VerifyProof` | commitment/tree.go:168-181 | the loop computes the climb from the freshly hashed leaf and compares with the root |
| `Merkle.Completeness` | commitment/tree.go:141-181 | every accepted leaf has a proof that verifies, of length exactly the ceiling of log2 of the leaf count |
| `Merkle.ProofsForLeavesOnly` | commitment/tree.go:142-146 | there is a proof for a key exactly when a leaf has that key |
| `Merkle.RootStandsForLeaves` | commitment/tree.go:135-139 | the root is the digest of a binary tree that holds exactly the sorted leaves |
| `Merkle.ProofDescends` | commitment/tree.go:168-181 | steps that climb to a tree's digest lead to one of its leaves or to two colliding inputs of proof and tree |
| `Merkle.Soundness` | commitment/tree.go:164-181 | an accepted proof, with any steps, is for a committed leaf, or two different inputs of proof and tree have the same hash |
| `Merkle.RootBinding` | commitment/tree.go:91-139 | equal roots come from the same sorted leaves, whatever the sizes, or two different inputs of the trees have the same hash |
| `CanonicalEncoding.EncodeKV` | commitment/encode.go:11-24 | the loops write the sorted keys and values with length prefixes |
| `CanonicalEncoding.EncodeKVInjective` | commitment/encode.go:8-24 | equal bytes exactly for equal maps |
| `Layouts.KVBytes` | commitment/encode.go:8-24 | of two fields the one whose key is smaller at the first differing byte, or ends first, stands first, each key before its value |
| `CanonicalEncoding.EncodeStringSet` | commitment/encode.go:29-45 | the loops write the distinct items in order with length prefixes |
| `CanonicalEncoding.EncodeStringSetInjective` | commitment/encode.go:26-45 | equal bytes exactly for lists with the same set of items |
| `CanonicalEncoding.LongItemsAreAmbiguous` | commitment/encode.go:29-45 | above the bound two different sets have the same bytes |
| `Sorting.SortUnique` | commitment/tree.go:99-101 | a list with distinct keys has one sorted permutation |
| `LockProtocol.StepKeepsShape` | gitall/main.go:349-484 | every step keeps the shape of the recursion: only started code holds mutexes, and pulls, syncs and pushes of a repository stand in the code of its own critical section |
| `LockProtocol.StepMovesLocks` | gitall/main.go:157-172 | a step takes at most one mutex, and only a free one |
| `LockTheorems.RunsAreBounded` | gitall/main.go:349-484 | on every graph, with cycles too, a run ends within a number of steps computed from the graph and the start |
| `LockTheorems.OneWorkerPerRepository` | gitall/main.go:346-363 | on every graph at most one goroutine pulls, syncs or pushes a repository at a time, the sync with a local remote counting for both, and only while its mutex is held |
| `LockDescent.Descend` | gitall/main.go:399-415 | a push can recurse along any walk over local remotes without a repetition up to the sync phase at its end, holding exactly the mutexes of the walk |
| `LockDeadlock.StepKeepsOrder` | gitall/main.go:349-484 | when no cycle can be reached, every step keeps the order in which mutexes are taken: local remotes after the repositories that have them |
| `LockTheorems.DeadlockFree` | gitall/main.go:349-484 | when no cycle of local remotes can be reached from the roots, every reachable state is finished or can take a step |
| `LockDeadlock.KnotStays` | gitall/main.go:157-172 | critical sections that wait for each other do so for ever |
| `LockTheorems.PushDeadlockIff` | gitall/main.go:399-484 | a push can end with unfinished goroutines that all wait exactly when a cycle of local remotes, of one repository or more, can be reached from the roots |
| `LockTheorems.PullDeadlockIff` | gitall/main.go:349-396 | when all local remotes of the roots are roots, a pull can end so exactly when two or more of them form a cycle |
| `LockTheorems.CyclicRemotesCanDeadlock` | gitall/main.go:354-361 | two repositories that are each other's local remote can block each other for ever, when both are pulled or one is pushed |
| `LockPulls.DeadlockIsGridlock` | gitall/main.go:349-396 | the walks whose mutexes a deadlocked pull holds are a gridlock: without repetition, closed under prefixes, with different ends, and each that goes no further asks for the end of another |
| `LockTheorems.PullDeadlockExactly` | gitall/main.go:349-396 | for any roots, a pull can deadlock exactly when the graph has a gridlock of walks from the roots |
| `LockTheorems.SingleRootPulls` | gitall/main.go:353-356 | from one root along single local remotes a pull never deadlocks, on a cycle either |
| `LockExposure.StepTouches` | gitall/main.go:349-484 | a step opens no new way to change a repository without its mutex |
| `LockTheorems.UnguardedIff` | gitall/main.go:346-479 | a repository is changed outside its mutex exactly by pushes, and exactly when some walk from a root without a repetition ends in a repository that has it as a local remote, with none of the walk's repositories among the remotes before it; never by pulls |
| `LockTheorems.ExposedAreMirrors` | gitall/main.go:454-479 | these are local remotes of repositories reached from the roots, and all of them when no cycle can be reached |
| `LockTheorems.PushesOverlap` | gitall/main.go:457-479 | a push from one repository checks its local remote out while another goroutine works there under the mutex |
| `LockTheorems.PullsOverlap` | gitall/main.go:888-895 | a pull fetches from a local remote while another goroutine works there under the mutex |
| `LockFetches.StepFetches` | gitall/main.go:349-896 | a step opens no new way to fetch from a repository outside its critical sections |
| `LockTheorems.LooselyFetchedIff` | gitall/main.go:882-896 | a local remote is fetched from outside its critical sections exactly when a walk from a root without a repetition, and not over it, ends in a pulled repository that has it as a local remote: any such walk when pulling, one that leaves the root when pushing |
| `BranchUpdates.Repository.UpdateBranchFromRemote` | gitall/main.go:562-611 | the ref and the reported outcome are those of the plan, for every answer git gives |
| `BranchUpdates.Repository.MergeUpdateBranch` | gitall/main.go:652-679 | outside dry runs the branch moves exactly when the merge was made, every conflicted path is Cargo.lock or ends in /Cargo.lock, the tree without these was written if there are any, and commit and ref update worked; the new tip has both parents and the merged tree, or the stripped one after conflicts |
| `BranchUpdates.Repository.RebaseUpdateBranch` | gitall/main.go:683-720 | outside dry runs the branch moves exactly when the commits were listed, each of them has a parent, merges without conflict and answers every call, and the ref update worked; it moves to a chain whose k-th commit has the k-th merged tree, message and author |
| `BranchUpdates.ReplayIff` | gitall/main.go:692-718 | the replay succeeds exactly when every listed commit can be replayed, and then makes the chain of copies; no commit with a conflict is replayed |
| `BranchUpdates.LockPathIff` | gitall/main.go:664 | the file-name test passes exactly for Cargo.lock and paths that end in /Cargo.lock, slashes behind them or not |
| `BranchUpdates.UpdateInLine` | gitall/main.go:571-590 | when git says that one tip has the other, the branch stays, or is fast-forwarded to the remote tip |
| `BranchUpdates.UpdateUnanswered` | gitall/main.go:563-584 | an unknown tip or a broken ancestry question about a revision that does not exist moves nothing and is an error |
| `BranchUpdates.UpdateDiverged` | gitall/main.go:591-611 | when git says that neither tip has the other, the branch is rebased, merged or left alone, with exactly these conditions for success |
| `BranchUpdates.UpdateKeepsHistory` | gitall/main.go:562-611 | without rebase the old tip is an ancestor of the new one |
| `BranchUpdates.NoCommitLost` | gitall/main.go:562-611 | over any sequence of non-rebase updates every old tip stays an ancestor of its branch's tip |
| `BranchUpdates.MergeReachesRemote` | gitall/main.go:591-611 | a successful merge-enabled update has the remote tip among its ancestors exactly when it is no dry run or nothing had to move |
| `BranchUpdates.FailureMovesNothing` | gitall/main.go:562-720 | a sequence of updates ends where the sequence of its successful updates ends |
| `BranchUpdates.MovedIsTruthful` | gitall/main.go:585-610 | the report that the tip moved is true exactly outside dry runs, or where the tips and the two ancestry answers leave nothing to move; for merges, fast-forwards and rebases |
| `BranchUpdates.RebaseBuildsChain` | gitall/main.go:683-720 | a rebase builds one new commit per listed commit, in order, each with its merged tree, on the remote tip |
| `BranchUpdates.RebaseAccountsForAll` | gitall/main.go:688-719 | with an honest rev-list every old commit is still reachable or is one of those copied |
| `BranchUpdates.RebaseKeepsTipIff` | gitall/main.go:683-720 | after a rebase the old tip is reachable exactly when the remote tip already reached it |
| `BranchUpdates.RebaseCanLoseCommits` | gitall/main.go:683-720 | two diverged commits after whose rebase the old tip is not reachable |
| `MachO.RewriteMachO` | sandbox/daemon/main.go:876-954 | the scan, the room check and the in-place edit give the specified bytes, refusal or panic, for every input |
| `MachO.ScanCommands` | sandbox/daemon/main.go:889-912 | the scan loop finds the anchor, or stops with an error or an out-of-range access |
| `MachO.ChooseMeaning` | sandbox/daemon/main.go:901-910 | the last signing-and-source pair is chosen; without a pair, a source command at the very end; else nothing |
| `MachO.ScanFindsChoice` | sandbox/daemon/main.go:889-912 | on a well-formed table the byte scan finds exactly the chosen commands |
| `MachO.Shift` | sandbox/daemon/main.go:929-940 | the overlapping move, right or left, keeps the moved bytes and everything outside |
| `MachO.PutDylib` | sandbox/daemon/main.go:941-950 | zeroing and field writes leave exactly the new command between unchanged bytes |
| `MachO.DylibCarriesName` | sandbox/daemon/main.go:916-950 | the new command is aligned, states its own size, has timestamp and versions in their fields and holds the name with its terminator |
| `Layouts.MagicBytes` | sandbox/daemon/main.go:877-879 | exactly files that begin with the bytes cf fa ed fe have the magic number that is asked for |
| `Layouts.Le32Bytes` | sandbox/daemon/main.go:944-952 | words have their least significant byte first |
| `MachO.RewriteSucceedsIff` | sandbox/daemon/main.go:913-928 | on a well-formed table there is no panic, and success exactly when there is a command to replace and the table grows by no more than the zero bytes behind it; each refusal has its own reason |
| `MachO.RewriteIsTableEdit` | sandbox/daemon/main.go:876-954 | a success changes only the table and its two counts; the commands are the old prefix, the new one, the old suffix, and the table is well-formed exactly when its size fits 32 bits |
| `MachOLimits.ScanPanics` | sandbox/daemon/main.go:889-912 | on any bytes the scan stops with an error at the first unsized command, panics exactly at a cut-off pair, and else chooses the last pair |
| `MachOLimits.PanicsIff` | sandbox/daemon/main.go:876-954 | the rewrite indexes past its input exactly when a 16-byte signature-requirements command, not the last, has fewer than 8 bytes after it, or the new command does not fit between the last pair and the end of the file although the table has room |
| `MachOLimits.CutFilePanics` | sandbox/daemon/main.go:901-907 | a file of 48 bytes on which it does |
| `MachOLimits.HugeTableWraps` | sandbox/daemon/main.go:917-952 | a well-formed file whose rewrite succeeds with a table of 2^32 bytes, so that the size field wraps |
| `Codec.FieldRoundTrip` | sandbox/protocol/protocol.go:163-267 | a field within the limits is read back and the rest is left alone |
| `Codec.FieldCanonical` | sandbox/protocol/protocol.go:218-267 | a field that is read was written by its own value only |
| `Codec.DecodeUndoesEncode` | sandbox/protocol/protocol.go:99-276 | decoding an encoded list of fields gives it back |
| `Codec.EncodeUndoesDecode` | sandbox/protocol/protocol.go:99-276 | every accepted byte string encodes again to itself |
| `Codec.PrefixFree` | sandbox/protocol/protocol.go:268-276 | no accepted encoding is a proper prefix of another |
| `Codec.MessagesRoundTrip` | sandbox/protocol/protocol.go:99-156 | the four message types decode to what was encoded |
| `Layouts.RequestBytes` | sandbox/protocol/protocol.go:99-106 | an exec request is path, directory, arguments and environment, strings behind their big-endian lengths and vectors behind their counts, or refused exactly beyond 65536 bytes a string or 256 items a vector |
| `Layouts.ResultBytes` | sandbox/protocol/protocol.go:112-120 | an exec result is verdict, path, arguments, environment and message, or refused exactly beyond the limits |
| `Layouts.OperationBytes` | sandbox/protocol/protocol.go:126-137 | an operation is identifier, kind, path, arguments, directory, environment, prompt and capture flag, or refused exactly beyond the limits |
| `Layouts.ReplyBytes` | sandbox/protocol/protocol.go:143-151 | a reply is identifier, success, exit code in two's complement, data and message; it is refused exactly when a string exceeds 65536 bytes |
| `Codec.Encoder.Vec` | sandbox/protocol/protocol.go:191-200 | the loop appends the vector's encoding and records whether it fits |
| `Codec.Decoder.Vec` | sandbox/protocol/protocol.go:256-267 | the loop reads what the specification reads, errors included |
| `Codec.Decoder.Finished` | sandbox/protocol/protocol.go:268-276 | success exactly when all bytes were decoded without an error |
| `Codec.EncodeExecRequest` | sandbox/protocol/protocol.go:99-106 | the fields in their order, or an error when one exceeds its limit |
| `Codec.EncodeExecResult` | sandbox/protocol/protocol.go:112-120 | the fields in their order, or an error when one exceeds its limit |
| `Codec.EncodeOperation` | sandbox/protocol/protocol.go:126-137 | the fields in their order, or an error when one exceeds its limit |
| `Codec.EncodeOperationResult` | sandbox/protocol/protocol.go:143-151 | the fields in their order, or an error when one exceeds its limit |
| `Codec.DecodeExecRequest` | sandbox/protocol/protocol.go:107-111 | the message whose fields the bytes decode to, else an error |
| `Codec.DecodeExecResult` | sandbox/protocol/protocol.go:121-125 | the message whose fields the bytes decode to, else an error |
| `Codec.DecodeOperation` | sandbox/protocol/protocol.go:138-142 | the message whose fields the bytes decode to, else an error |
| `Codec.DecodeOperationResult` | sandbox/protocol/protocol.go:152-156 | the message whose fields the bytes decode to, else an error |
| `ExecTransaction.FrameRoundTrip` | sandbox/protocol/protocol.go:68-97 | reading a written frame gives it back and leaves the rest of the stream |
| `ExecTransaction.FrameIff` | sandbox/protocol/protocol.go:83-97 | a frame is read from exactly the bytes that are one, within the limit, and something after it |
| `Layouts.FrameLayout` | sandbox/protocol/protocol.go:68-82 | a frame is its type and payload behind a big-endian length that counts both |
| `ExecTransaction.StreamUnique` | sandbox/protocol/protocol.go:68-97 | a stream is the concatenation of one list of frames only |
| `ExecTransaction.Connection.WriteFrame` | sandbox/protocol/protocol.go:68-82 | a frame is sent whole, or not at all when it is too big, or the connection breaks |
| `ExecTransaction.Connection.ReadFrame` | sandbox/protocol/protocol.go:83-97 | the next frame of the input or an error, with what is consumed |
| `ExecTransaction.GuestOperations.Operate` | sandbox/daemon/main.go:279-310 | one request, which decodes to the operation as it was asked for with the next identifier, followed by one reply, exactly when the operation is not cancelled, fits and meets no broken connection, else nothing on the wire; a result is returned exactly for a reply that answers this request |
| `ExecTransaction.HandleProtocol` | sandbox/daemon/main.go:312-337 | every run writes the magic first and is a transaction on the guest's first frame: at most one operation is outstanding, the k-th request carries the k-th of the calls that go, of those served before the connection broke, if it did, with its identifier, and the identifiers count 1, 2, 3 unless a call that cannot be sent stands before one that can; what is read are the first frames of the input |
| `ExecTransaction.RequestAt` | sandbox/daemon/main.go:280-291 | every call that goes is among the requests, unchanged but for its identifier, which is the number of calls so far that were not cancelled |
| `ExecTransaction.RequestDetermines` | sandbox/daemon/main.go:284-288 | a request frame carries one operation only |
| `ExecTransaction.OneResult` | sandbox/daemon/main.go:319-337 | one final result is sent, as the last frame, exactly when an exec request was read, the connection is whole and the result fits: the decided one, or a refusal of a request that does not decode; else none |
| `ExecTransaction.IdsConsecutiveIff` | sandbox/daemon/main.go:283-291 | the identifiers on the wire count 1, 2, 3, … exactly when no uncancelled operation that cannot be sent stands before one that is |
| `ExecTransaction.OversizedSkipsId` | sandbox/daemon/main.go:283-291 | after an operation with too long a prompt the next one goes out with identifier 2 |
| `PathNormalize.ScanIsFold` | sandbox/common/path.c:18-41 | the pointer scan computes the fold of dot and dot-dot over the slash-separated parts |
| `PathNormalize.NormalSegments` | sandbox/common/path.c:25-37 | no kept segment is empty, dot or dot-dot |
| `PathNormalize.NormaliseIdempotent` | sandbox/common/path.c:8-59 | normalising a normalised path changes nothing |
| `PathNormalize.NormalStep` | sandbox/common/path.c:22-37 | one more part: an empty one or a dot changes nothing, a dot-dot undoes the last segment and nothing at the root, any other part is a new segment |
| `PathNormalize.KeptAllIff` | sandbox/common/path.c:43-53 | the whole path is written exactly when the buffer leaves the room that the size test asks for |
| `PathNormalize.RoomyBuffer` | sandbox/common/path.c:12-53 | a buffer three bytes longer than the path takes everything and has enough segment slots |
| `PathNormalize.CollectSegments` | sandbox/common/path.c:18-41 | the scan fills the array with the normalised segments, exactly when its deepest stack fits |
| `PathNormalize.WriteSegments` | sandbox/common/path.c:43-54 | the writing loop stays in a buffer of two bytes or more and writes the rooted path of the segments that fit |
| `PathNormalize.NormalizePath` | sandbox/common/path.c:8-59 | when each outcome happens, and what the buffer holds then |
| `PathNormalize.DeepPathOverflows` | sandbox/common/path.c:12-37 | the path a/b/c has more segments than slots for a buffer of two bytes |
| `PathNormalize.ShortBufferDrops` | sandbox/common/path.c:43-53 | a name of three letters is dropped from a buffer of five bytes that would hold it |
| `MemberPaths.SafeMemberPath` | archive-repack/main.go:98-117 | the loop over parts keeps the ordinary ones, or reports an unsafe path |
| `MemberPaths.SafeIsClean` | archive-repack/main.go:98-117 | an accepted name consists of the ordinary parts of the given one in order: no backslash, no empty, dot or dot-dot part, no colon in the first part |
| `MemberPaths.SafeIff` | archive-repack/main.go:98-117 | a name is accepted exactly when, with backslashes as slashes, it does not begin with a slash, has no dot-dot part and has an ordinary part whose first one holds no colon |
| `MemberPaths.SafeFixedPoints` | archive-repack/main.go:98-117 | the names accepted unchanged are exactly the clean ones |
| `MemberPaths.TrailingSlash` | archive-repack/main.go:104-107 | a slash, or a slash and a dot, behind a clean name is dropped |
| `MemberPaths.Claims.CanAdd` | archive-repack/main.go:362-382 | the walk over parents and the search below give the specified verdict |
| `MemberPaths.FreshIff` | archive-repack/main.go:362-382 | a name is accepted exactly when it is new and nothing then lies below a file, and skipped exactly when it is a directory already there |
| `ArchiveParts.PartPathInjective` | archive-repack/main.go:411-416 | different parts have different names |
| `ArchiveParts.PathsAreParts` | archive-repack/main.go:568-571 | the recorded output paths are exactly the part names so far |
| `ArchiveParts.WritingIff` | archive-repack/main.go:509-526 | an archive is written whole exactly when its name is free and opening, every entry and closing work; else at most a torn file is left at a free name |
| `ArchiveParts.WritePrefixKeeps` | archive-repack/main.go:540-555 | writing a part touches no other file; at a taken name it fails with an error that is not "too large", and the file there is as it was or gone |
| `ArchiveParts.EveryPrefixTried` | archive-repack/main.go:538-556 | there is one attempt for every length, from the whole down to the one that is written |
| `ArchiveParts.ClosingSpares` | archive-repack/main.go:528-566 | for all answers of the disk, closing leaves every file but its own part as it was, except possibly the one with the first taken name of a later part, and that only with an error |
| `ArchiveParts.LossIff` | archive-repack/main.go:528-566 | some answers of the disk make closing lose a file exactly when it has the first taken name of a later part, with fewer parts before it than there are entries |
| `ArchiveParts.SecondNameLost` | archive-repack/main.go:549 | a disk with an unrelated file under the name of the second part, which closing a set of two entries can remove |
| `ArchiveRepack.WriteEntries` | archive-repack/main.go:509-526 | nil exactly when the name was free and every call worked, then one whole archive; else at most a torn file there |
| `ArchiveRepack.ArchiveSet.Rollover` | archive-repack/main.go:418-456 | the current part is rebuilt whole and a fresh one begun, exactly when the removal, every call of the rebuilding and opening the next free name work; only own paths are written |
| `ArchiveRepack.ArchiveSet.Add` | archive-repack/main.go:458-507 | for a new name nil exactly when the first attempt works, or fails as too large on a part with entries and removal, rebuilding, the next part and the second attempt work: then the old entries are a finished part and the entry is the first of the next; a skipped entry changes nothing and a refused one no file; all accepted entries are in finished parts and the current one in order, only own paths are written, and after any error the set can be closed |
| `ArchiveRepack.LongestPrefix` | archive-repack/main.go:538-556 | the files and answer are those of the specification for the disk's answers; the prefix written is the longest that was not refused as too large; a file that is in the way stays, or goes when the clean-up can remove it, and the call fails |
| `ArchiveRepack.ArchiveSet.Repack` | archive-repack/main.go:537-566 | the loop ends, does to the files what the specification says for the disk's answers, its parts are greedy prefixes and together with the finished parts hold the accepted entries in order; without entries it succeeds and writes nothing |
| `ArchiveRepack.ArchiveSet.Close` | archive-repack/main.go:528-566 | closing, also after errors, does to the files what the specification says for the disk's answers; earlier files are safe but possibly one, with an error; on nil a set without errors has the accepted entries, in part order, in its finished parts |
| `ArchiveRepack.Run` | archive-repack/main.go:783-828 | a run in which every call works, except that parts become full, returns nil; a run that returns nil leaves exactly the accepted entries, in order, in whole archives under the part names, the first at the destination if anything was accepted, found no file there, and leaves every other file as it was; a run with an error, its clean-up included, loses at most one file that was there before, with the name of a later part |
| `ArchiveRepack.AcceptIff` | archive-repack/main.go:458-507 | a directory that is already there is skipped, a new entry whose name leaves nothing below a file is accepted with its kind, time and content under its safe name, and everything else is refused |
| `ArchiveRepack.AcceptedUnpack` | archive-repack/main.go:458-507 | whatever is requested, accepted names are clean and distinct and nothing lies below a file |
| `ArchiveRepack.GreedyIsFewest` | archive-repack/main.go:533-566 | when parts of archives that fit also fit, no other split has fewer parts |
| `Chunking.ArtifactChunks` | agentweave/core/extract.go:277-299 | the loop ends for every text and limit, 3200 in place of one that is not positive, and returns the specified chunks |
| `Chunking.BodiesAreGood` | agentweave/core/extract.go:283-297 | every body is trimmed, not empty and at most the limit long |
| `Chunking.OrdinalsIncrease` | agentweave/core/extract.go:283-297 | ordinals strictly increase |
| `Chunking.OrdinalIsPiece` | agentweave/core/extract.go:283-297 | a chunk's ordinal is the number of its piece, pieces that are blank counted |
| `Chunking.CutPrefersNewline` | agentweave/core/extract.go:284-290 | a cut inside the text is at the last newline of the window, or at its end when its second half has no newline |
| `Chunking.ChunksCoverText` | agentweave/core/extract.go:277-299 | the text is the bodies in order with only blanks before, between and after them |
| `Chunking.ChunksConserveInk` | agentweave/core/extract.go:277-299 | the bodies together have the text's non-blank bytes in order |
| `IndexTables.RefInjective` | agentweave/core/extract.go:296 | a chunk reference determines artifact and ordinal, whatever the identifiers look like |
| `IndexTables.NoChunkConflict` | agentweave/core/index.go:264-271 | inserting a chunk never meets an existing reference |
| `IndexTables.RowsMeaning` | agentweave/core/index.go:264-271 | the references of a group's rows are exactly those of its artifacts' chunks |
| `IndexTables.RowOfChunk` | agentweave/core/index.go:264-271 | every chunk of every artifact has its own row with its body |
| `IndexTables.ClearedConsistent` | agentweave/core/index.go:218-229 | the deletions keep search rows and chunk rows one to one and every chunk's artifact present |
| `IndexTables.ClearedRows` | agentweave/core/index.go:218-229 | the deletions remove all rows of the source and none of any other |
| `IndexTables.ChunkConsistent` | agentweave/core/index.go:265-270 | the two insertions keep search rows and chunk rows one to one |
| `IndexTables.Replacement` | agentweave/core/index.go:218-272 | inside the transaction the source's rows become exactly the group's, other sources keep theirs; it breaks exactly when one of its calls fails, and a duplicate identifier is reported only for a clash |
| `IndexTables.OthersAreSame` | agentweave/core/index.go:212-334 | when all rows but one source's are unchanged, every other source is searchable as before |
| `SearchIndex.Index.ReplaceSource` | agentweave/core/index.go:212-277 | all or nothing: success exactly when every call works and no identifier clashes, and then the source's rows are the group's; on any failure nothing changes |
| `SearchIndex.Index.PruneSource` | agentweave/core/index.go:311-331 | all or nothing: the source's rows and status go, others stay |
| `SearchIndex.Index.PruneMissingSources` | agentweave/core/index.go:293-334 | success exactly when every call works, and then exactly the indexed or unchanged sources without a file are forgotten |
| `SearchIndex.Index.SyncSource` | agentweave/core/index.go:164-187 | a turn halts exactly when cancelled or when the query fails; a source is replaced exactly when its file can be read, has another fingerprint, every call works and no identifier clashes; its status says which |
| `SearchIndex.Index.SyncSources` | agentweave/core/index.go:164-187 | after any failures every source has its new rows or its old ones, and its status, in path order, says which; only sources that are due are replaced, and all of them when nothing fails or clashes |
| `SearchIndex.Index.Sync` | agentweave/core/index.go:148-198 | a whole scan keeps the tables consistent; the rows of each artifact of a replaced source together have the text it came from up to blanks, and no other artifact is there; exactly the due sources are replaced when nothing fails or clashes, and never another; all others keep their rows; a completed scan has a status for every source and a diagnostic for every invalid artifact, and has pruned exactly the missing sources that were indexed or unchanged; an unchanged status means the rows of the scan that last read the same bytes |
| `IndexScan.StaleIff` | agentweave/core/index.go:146-188 | a source that a scan treats as changed ends with the rows of the scan exactly when the scan accepted artifacts for it or it had none before |
| `IndexScan.BlankKeepsStaleRows` | agentweave/core/index.go:152-159 | a file whose only artifact has become blank keeps its old artifacts in the index |
| `IndexScan.GroupArtifacts` | agentweave/core/index.go:152-159 | artifacts are grouped by source in their order, and each invalid one becomes a diagnostic |
| `IndexScan.NormalizeMeaning` | agentweave/core/model.go:58-82 | exactly artifacts with an agent, a kind, a path and a text that is not blank are accepted; they keep their path, their own identifier if they have one, and their text without the blanks at its ends |
| `IndexScan.AcceptedOrRejected` | agentweave/core/index.go:152-159 | every artifact of a scan is accepted or has a diagnostic |
| `IndexScan.ScanIsSearchable` | agentweave/core/index.go:212-272 | a replaced source can be searched for the text of every acceptable artifact that the scan found for it, up to blanks, and holds no other artifact |
| `IndexScan.RecordedMeaning` | agentweave/core/index.go:188-197 | when all calls work, every source with a diagnostic has the state of its last one, and no other status changes |
| `PrTag.Parse` | prtag/prtag.go:31-97 | the line-reading loops give the specified tag or error |
| `PrTagGrammar.NewlineLaw` | prtag/prtag.go:151-156 | a carriage return with a newline, and every other carriage return, becomes one newline, and nothing else changes |
| `PrTagGrammar.PlainIff` | prtag/prtag.go:31-71 | a tag without metadata is read from exactly the files that are a name line and the body, with no delimiter line in it |
| `PrTagGrammar.MarkedIff` | prtag/prtag.go:48-97 | a tag with metadata is read from exactly the files that are a name line, the body without delimiter lines, a delimiter line, blank lines, the header in brackets and blanks |
| `PrTagGrammar.ErrorsIff` | prtag/prtag.go:31-97 | each error is reported for exactly these files: no name line; only blanks after the delimiter; a next line that is no header in brackets; something after that header |
| `PrTag.TextRead` | prtag/prtag.go:103-134 | canonical text is read back exactly when no line of the body is a delimiter |
| `PrTagGrammar.FormatExample` | prtag/prtag.go:103-134 | the text of a small tag |
| `PrTag.FormatThenParse` | prtag/prtag.go:99-134 | formatting the canonical tag gives the same text, and parsing gives the canonical tag exactly when no body line is a delimiter |
| `PrTag.ParsedGood` | prtag/prtag.go:31-97 | an accepted tag has a valid name and header and no delimiter line in its body |
| `PrTag.ParseThenFormat` | prtag/prtag.go:31-134 | what is parsed can be formatted; parsing that gives the same name, the body up to one final newline, the same header or the default; formatting again gives identical text |
| `ShellTokens.TokenizeShell` | extclean/resolve.go:15-68 | the loop is the automaton of the specification |
| `ShellTokens.TokenizeInvertsQuoting` | extclean/resolve.go:12-68 | joining the single-quoted forms of any words and tokenizing gives the words back |
| `ShellTokens.TokensIffLine` | extclean/resolve.go:15-68 | the tokens are given exactly when the input is a line of the grammar that spells these words |
| `ShellTokens.ErrorsIff` | extclean/resolve.go:60-65 | each error occurs exactly for inputs that end inside a quote, or after an open backslash |
| `ShellTokens.BackslashInDoubleQuotes` | extclean/resolve.go:31-43 | a backslash between double quotes disappears before every character |
| `ShellTokens.SeparatorsIff` | extclean/resolve.go:51-56 | exactly a space or a tab between two letters separates them |
| `PosixQuoting.PosixIff` | extclean/resolve.go:31-43 | the tokens of a line are its words after POSIX quote removal exactly when, between double quotes, backslashes stand only before a dollar sign, a backquote, a double quote or a backslash, and outside none stands before a newline |
| `PosixQuoting.DifferingEscapes` | extclean/resolve.go:31-43 | the two escapes that are read differently, each in a line of one word |
| `ShellTokens.MatchesAssignment` | extclean/resolve.go:10 | exactly the tokens that start with a name and an equals sign match |
| `ShellTokens.StripEnvPrefix` | extclean/resolve.go:70-78 | what is left is the suffix after the longest run of leading assignments |
| `Supervisor.ComputeDelay` | pulse/task_supervisor.go:94-100 | the doubling loop, with its wrap-around, computes the specified delay |
| `Supervisor.BackoffIff` | pulse/task_supervisor.go:94-100 | the delay after every k-th failure is the smaller of min * 2^(k-1) and max exactly when the doublings reach max below 2^63 |
| `Supervisor.BackoffSafeBelow` | pulse/task_supervisor.go:94-100 | a maximum of at most 2^62 is always enough |
| `Supervisor.BackoffWraps` | pulse/task_supervisor.go:95-96 | otherwise some delay is negative |
| `Supervisor.SecondDelayWraps` | pulse/task_supervisor.go:94-100 | a minimum of 2^62 nanoseconds and a maximum one above it give a negative second delay |
| `Supervisor.RunService` | pulse/task_supervisor.go:51-110 | the loop ends, whatever verifier, runner and context do, with the trace that their answers determine |
| `Supervisor.StartsIff` | pulse/task_supervisor.go:51-110 | a service is started more than j times exactly when in round j the context is alive and the verifier accepts, and each earlier round ran it, it failed by exit code or runner, nothing was cancelled and a restart was left |
| `Supervisor.TraceReports` | pulse/task_supervisor.go:57-74 | the verdicts and exits in the trace are those of their rounds |
| `Supervisor.FailingServiceStarts` | pulse/task_supervisor.go:88-106 | a service that always fails, with nothing cancelled or refused, is started exactly RestartMaxAttempts plus one times |
| `Supervisor.TraceHasForm` | pulse/task_supervisor.go:51-110 | the trace is a number of failed rounds, each verified, run and slept, and a last round |
| `Supervisor.RestartsBounded` | pulse/task_supervisor.go:88-106 | over a whole run at most RestartMaxAttempts plus one starts, with the specified delay after each failure |
| `Supervisor.RunsAreVerified` | pulse/task_supervisor.go:57-70 | every start directly follows a successful verification, and nothing follows a clean exit or a refusal |
| `Supervisor.RunRapidService` | pulse/task_supervisor.go:78-87 | the loop of a rapid service does what the answers determine; it never sleeps and runs only after a successful verification |
| `Supervisor.RapidStartsIff` | pulse/task_supervisor.go:78-87 | a rapid service is started more than j times exactly when all checks up to round j pass and nothing cancels it before: exits do not matter |

## Left out

- Hash functions, compression, tar and zip formats, SQL and full-text ranking, git's own algorithms: abstracted as said above.
- Sockets, signals, timers, descriptor passing, logging, flags, process spawning, the C side of the exec protocol: plumbing.
- LockProtocol: the boolean results, the registry's own mutex, and path resolution; repositories are already resolved and the graph is fixed during a run.
- LockTheorems.OneWorkerPerRepository: covers the commands that run under a mutex; those that run without one are covered by LockTheorems.UnguardedIff.
- BranchUpdates: pull-request fallback, working trees and the contents of merged trees; a ref update either happens or not.
- MachO: reading and writing the file, signing.
- ExecTransaction: the policy decision is an arbitrary list of guest operations and a final result; identifiers start over after 2^64 operations.
- PathNormalize: failure of malloc, and resolving against the working directory.
- MemberPaths.Claims.CanAdd: names are those that safeMemberPath returned, on a system whose separator is a slash.
- ArchiveRepack: walking the source directory, which may fail at any point, and reading members; addDir and addFile are one method, since they differ in the entry's kind only.
- Chunking: white space is ASCII, and a cut may fall inside a multi-byte character as it does in the source.
- SearchIndex: the tables for projects, revisions, relations and workflows (their statements may fail), columns that search does not join, path cleaning, concurrent writers.
- PrTag: text is a sequence of Unicode characters; invalid UTF-8 is not modelled.
- ShellTokens: text is a sequence of Unicode characters; resolving the command on the file system.
- PosixQuoting: expansions, operators, comments and unquoted newlines, which the tokenizer treats as ordinary characters.
- Supervisor: jobs, log lines, and starting several services at once; RunRapidService assumes that the context is cancelled at some time.
- Register and updateHash of the daemon: single map updates without a hard property.
- restoreconflict: the marker search is not part of this model.
