# REMI: migration of filesets between a client and a provider

REMI moves a set of files from a client to a provider. The client resolves a
fileset into an ordered set of names, opens the files, and asks the provider to
start an operation; the provider creates the targets and hands out an operation
identifier. The data then travels in one of three ways: write requests sent one
after the other, write requests overlapped with reads through two buffers, or
one bulk transfer between mapped files. A final request closes the operation,
and the source may be removed.

The project models both sides and proves what they guarantee together.

| file | what it models |
|---|---|
| `Codes.dfy`, `Transfer.dfy` | return codes; chunks, `pwrite`, the acceptance test of a chunk, gather and scatter of the bulk transfer |
| `Sender.dfy`, `Requests.dfy` | one client as an automaton: the next request, and what a reply does to it; the logs it produces, described without it |
| `Protocol.dfy`, `Invariant.dfy`, `Preservation.dfy` | any number of clients and handler threads, one table mutex, one mutex per operation, arbitrary interleaving; the inductive invariant |
| `Safety.dfy`, `Liveness.dfy` | what holds in every reachable state and over every continuation; absence of deadlock, termination, the final state |
| `Solo.dfy` | a protocol handler nobody interferes with: what its phases amount to |
| `Names.dfy`, `Paths.dfy`, `FileTree.dfy` | ordered name sets, path strings, a tree of regular files and directories |
| `Mkdirs.dfy`, `Walk.dfy` | `mkdirs` (in place, over a character buffer), `listFiles`, `removeRec` |
| `SourceRemoval.dfy`, `Survival.dfy` | what removal of the source deletes, compared with what was migrated; which directories it leaves |
| `Filesets.dfy`, `ClientLoops.dfy`, `Client.dfy` | the fileset class, the sender loops over arrays and file objects, `remi_fileset_migrate` |
| `Registry.dfy`, `Provider.dfy` | migration classes and their free functions; the provider class with its handlers |
| `Serialization.dfy` | every interleaved run compared with one that serves the same requests one by one |
| `Refinement.dfy`, `Histories.dfy` | the provider's methods simulated by protocol handlers; whole histories of a serial provider as runs of the protocol |
| `EndToEnd.dfy` | the client, the protocol and the removal of the source put together |

The sender loops are verified against a channel that may answer anything: their
requests and the replies form a run of the `Sender` automaton. The protocol
runs the same automaton, one copy per client, against interleaved handlers.
`EndToEnd` shows that every run of the protocol gives each client such a log,
and that the jobs of the client are jobs of the protocol.

The provider is a class over a file tree, with descriptors, modes, classes and
callbacks. `Refinement` relates its states to those of the protocol and shows
that each of its four methods, from related states, does what one protocol
handler does when it runs alone. `Histories` extends this to any sequence of
calls of any clients, so that the guarantees of the protocol hold for the
provider's tree: bytes, modes, callbacks, and files that were there before.
`Serialization` shows that overlap of handlers makes no difference in the
protocol: some run that serves the same requests one by one ends alike.

What the proofs found where the code and its promises part:

- The early reply of `migrate_write` is safe: the operation mutex is held until
  the `pwrite` has returned, so `migrate_end` cannot overtake it, and a short
  write of an acknowledged chunk always turns into a non-success end.
- `remi_fileset_set_root` stores a root as it is. Without a final slash the walk
  (which opens root, slash, directory) and the removal (root directly followed
  by the directory) look at different places, and `REMI_REMOVE_SOURCE` can
  delete files that were never migrated. Removal is safe for all trees if and
  only if the root ends in a slash.
- A plain file registered as a directory, spelled without a final slash, is
  deleted by `removeRec` although no walk reports it. With a proper root this is
  the only way to lose data.
- `remi_fileset_register_directory` promises that all the files and
  subdirectories in the directory are migrated. For files this holds exactly
  when there are none, or the registered name is empty or ends in a slash and
  none of them is hidden or lies in a hidden directory (a hidden file can still
  be registered by its own name). A subdirectory has a counterpart at the
  destination exactly when, with a name so spelled, a visible file lies below
  it: empty subdirectories do not arrive, although removal of the source
  deletes them.
- A directory that removal gets to survives exactly when something hidden and
  not migrated is beneath it, as long as no directory is registered
  in a hidden place below it. If one is, the directory may stay behind empty:
  with `q/` and the empty `q/.h/` registered, the first is spared for the sake
  of the second, which is then removed.
- The size test of `migrate_write` adds two `size_t` values, and a sum that
  wraps passes it. No file outgrows its declared size all the same, because the
  offset of such a chunk is one that `pwrite`, whose offset is signed, refuses:
  the chunk is acknowledged, nothing of it is stored, and the migration fails.
- `mkdirs` must not be given an empty string, but `migrate_start` does so for
  a target right below `/`, and for no other absolute target.
- A class without a before-callback is refused with `REMI_ERR_USER`, unless one
  of the targets exists, which is reported first.
- A short bulk transfer leaves its operation in the table for ever; nothing else does.
- The error paths of `migrate_write` and `migrate_mmap` erase an operation
  without closing its descriptors. For a chunked migration that started, they
  are closed, once, exactly when every chunk it asked for passes the two tests.
- `migrate_end` re-creates an entry for a class that was deregistered meanwhile.
  After its last deregistration a class has an entry exactly when it was
  registered anew or a `migrate_end` looked it up; if the `migrate_end` came
  first, the entry is empty and registering the class is refused.
- A failed start leaves the client's fileset with the remote root, the resolved
  files and no directories.

## Model

| member | source | states |
|---|---|---|
| Safety.SuccessMeansWritten | src/remi-server.cpp:341-393 | In every interleaving of any number of clients: a chunked migration that was answered SUCCESS has had every chunk accepted and stored in full, no `pwrite` fell short, and the targets hold exactly the effect of the whole plan, although each chunk was acknowledged before it was written |
| Safety.SuccessMeansDelivered | src/remi-client.cpp:404-502 | SUCCESS to an honest client, in any of the three modes, means user status 0, both callbacks passed with 0, and every target equal to its source byte for byte |
| Safety.SuccessMeansCallbacksPassed | src/remi-server.cpp:127-135 | A client told SUCCESS, honest or not, was let pass with 0 before the migration and after it |
| Safety.WrittenPrefix | src/remi-server.cpp:380-389 | At any moment of a started, so far unfailed migration, the files hold exactly the acknowledged chunks except the one still being written, of which there is at most one |
| Safety.ShortWriteSurfaces | src/remi-server.cpp:390-392 | After a failed or short `pwrite` of an acknowledged chunk no continuation whatsoever lets that client return SUCCESS |
| Safety.RunIsLater | src/remi-server.cpp:331-337 | Over any run: a failure, a start and the removal of an operation are never undone, an outcome never changes, and a refused client never succeeds |
| Safety.RefusalIsSticky | src/remi-client.cpp:407-419 | A client whose operation was erased during the transfer never gets it back, never asks for migrate_end and never returns SUCCESS, even the sequential sender, which goes on sending and looks at the last reply only |
| Safety.ExactOutcome | src/remi-server.cpp:188-213 | The result of an honest chunked migration that finished, in both directions: if it started, every chunk was acknowledged, descriptors were closed exactly once, and the result is REMI_ERR_IO when some write fell short and otherwise what the after-callback decides; if it did not start, it failed and closed nothing |
| Safety.Overlap | src/remi-server.cpp:172-220 | Two live handlers of one operation: one is writing its acknowledged chunk under the operation's mutex, the other has not passed that mutex; whichever handler is about to erase the operation is alone with it |
| Safety.MutualExclusion | src/remi-server.cpp:178-200 | No two handlers are inside the table section at once, nor inside the section of one operation, error clean-up included; who is inside the latter owns its lock |
| Safety.DescriptorDiscipline | src/remi-server.cpp:188-194 | Descriptors are closed at most once, never while a write is under way or still to come, and have been closed whenever migrate_end cleans up |
| Safety.ClosedExactly | src/remi-server.cpp:341-373 | The descriptors of a started and finished chunked migration are closed, exactly once, if and only if every chunk it asked for passes the index and size tests |
| Safety.ClosedWhenAnswered | src/remi-server.cpp:188-194 | In any mode, the descriptors of a started and finished migration are closed, exactly once, if and only if every transfer request, the pull of the bulk mode included, was answered SUCCESS |
| Safety.WrappedChunkSurfaces | src/remi-server.cpp:368-393 | A migration with a chunk whose sum wraps never ends with SUCCESS; if all its chunks are accepted, all are acknowledged and it ends with REMI_ERR_IO |
| Safety.UnstorableStoresNothing | src/remi-server.cpp:385-392 | The write of an acknowledged chunk at an offset pwrite refuses changes no file and is noted as a failure |
| Safety.SizeBound | src/remi-server.cpp:368-392 | Whatever chunks are requested, no target grows beyond its declared size in any reachable state |
| Safety.DisjointTargets | src/remi-server.cpp:116-155 | No two migrations own a file in common, no migration owns a file that was there first, and those files stay as they were |
| Safety.StepsStayAtHome | src/remi-server.cpp:385-389 | A step of a handler leaves every existing file alone that its own migration has not created |
| Preservation.StepKeepsInv | src/remi-server.cpp:94-396 | Every request of a client and every phase of a handler, with any decision of the environment, keeps the whole invariant |
| Preservation.RunsKeepInv | src/remi-server.cpp:94-396 | The invariant holds after every legal run |
| Preservation.StepIsolated | src/remi-server.cpp:116-155 | One phase changes no existing file except those its own migration has created |
| Invariant.SendKeepsInv | src/remi-client.cpp:415-491 | A client issuing its next request keeps the invariant of all sessions |
| Liveness.Progress | src/remi-server.cpp:177-220 | No deadlock: whenever somebody has not returned, some step is possible |
| Liveness.HandlerProgress | src/remi-server.cpp:341-356 | A waiting handler leads, along the mutex it waits for, to a handler that can move |
| Liveness.RunsAreBounded | src/remi-client.cpp:404-491 | Each step of a run uses up at least one unit of the measure over remaining requests and phases |
| Liveness.Termination | src/remi-client.cpp:404-491 | No interleaving takes more steps than a number fixed by the jobs in advance |
| Liveness.EndsClean | src/remi-server.cpp:217-220 | A run that cannot go on has let everybody return with every mutex free; an operation is left in the table if and only if its bulk transfer came up short, so chunked migrations leave it empty |
| Liveness.CanFinish | src/remi-client.cpp:404-491 | From every reachable state the run can be continued until everybody has returned |
| Refinement.StartServed | src/remi-server.cpp:94-168 | From related states, whatever the provider's MigrateStart does the protocol can do by one handler running alone, to the same reply and a related state; what the protocol remembers of the before-callback is what the callback of the class returned for this fileset, or 1 for a class without one |
| Refinement.WriteServed | src/remi-server.cpp:320-396 | The same for MigrateWrite: unknown identifier, rejected chunk, and accepted chunk with any result of pwrite |
| Refinement.PullServed | src/remi-server.cpp:225-318 | The same for MigrateMmap, for every set of files that cannot be mapped, number of bytes that arrive and result of msync: these alone decide whether the protocol's transfer is whole, short or failed |
| Refinement.EndServed | src/remi-server.cpp:170-223 | The same for MigrateEnd; what the protocol remembers of the after-callback is what the callback of the class returned, or 0 for a class without one |
| Histories.Serve | src/remi-server.cpp:398-406 | The provider's methods, each for the request meant for it and with any decisions of the system, produce the calls that make up a history |
| Histories.HistoryRuns | src/remi-server.cpp:94-396 | Every sequence of calls of any clients to a provider, classes coming and going in between, is a run of the protocol with the same replies, to a related state |
| Histories.HistoryDelivers | src/remi-server.cpp:94-396 | Over any such history a client told SUCCESS finds each of its files in the provider's tree with the bytes and the mode of the source, its class had a before-callback that returned 0 at its first call and an after-callback that returned 0, or none, at its last, and files that were there first keep their bytes |
| Histories.HistoryCallbacks | src/remi-server.cpp:127-135 | A client told SUCCESS met its class, at its first call, with a before-callback that returned 0 and left it, at its last call, with an after-callback that returned 0 or was missing |
| Histories.HistoryDirectories | src/remi-server.cpp:140-145 | Over any history: a directory that was not there, and towards which no other client sends, is in the provider's tree after SUCCESS if and only if it lies on the way to one of the client's files |
| Histories.LogReplays | src/remi-client.cpp:383-502 | The requests and replies of a client of a history take its automaton to the state it ends in |
| Serialization.Serializable | src/remi-server.cpp:94-396 | For every run of any number of clients some run serves the same requests one by one and ends with the same files, each client and operation being where its decided requests have taken it |
| Serialization.SerializableOutcome | src/remi-server.cpp:94-396 | Once everybody has returned, files, table and the outcome of every client are those of a run that served the requests one by one |
| Transfer.DeliverAppend | src/remi-server.cpp:385-389 | Delivering a plan in two parts is delivering it in one |
| Transfer.StoreKeepsSizes | src/remi-server.cpp:368-389 | Whatever pwrite can store of an accepted chunk keeps all files within their declared sizes |
| Transfer.AcceptedFitsExactly | src/remi-server.cpp:368 | An accepted chunk ends within the declared size if and only if the sum of offset and length does not wrap, and a wrapping one has an offset pwrite refuses |
| Transfer.AcceptsExactly | src/remi-server.cpp:360-373 | The two tests told without wrapping arithmetic: the file number is known, and the chunk ends within the declared size or passes the largest `size_t` by no more than that size |
| Transfer.WrappedSumIsAccepted | src/remi-server.cpp:368-373 | For every declared size and payload there is an offset whose sum wraps and passes the test |
| Transfer.ChunkPartition | src/remi-client.cpp:408-418 | The chunks of a file follow each other without gap or overlap from offset to end, carry the source bytes of their range, are full but for the last, and are as many as the size over the transfer size, rounded up |
| Transfer.RequestCount | src/remi-client.cpp:437-474 | Requests per file: the rounded-up quotient, except one empty write for an empty file when pipelined |
| Transfer.PlanCopies | src/remi-client.cpp:404-481 | Both write loops, for any sizes and any positive transfer size, turn empty targets into copies of all sources |
| Transfer.PlanAccepted | src/remi-server.cpp:360-373 | Every chunk of an honest sender passes the index and size tests without wrap |
| Transfer.SpreadScatter | src/remi-server.cpp:264-290 | Skipping empty files and laying the stream over the others gives each file its own piece of the stream |
| Transfer.ScatterAt | src/remi-server.cpp:264-296 | The piece of file number i starts at the total of the sizes before it |
| Transfer.GatheredLength | src/remi-client.cpp:252-277 | The client's non-empty segments are as long together as all declared sizes, and line up with the server's non-empty files |
| Transfer.BulkCopies | src/remi-server.cpp:258-296 | Splitting the gathered segments by the declared sizes gives back every file, empty ones included |
| Transfer.ModeIndependence | src/remi-client.cpp:188-192 | The sequential, the pipelined and the bulk way leave the same targets, whatever the two transfer sizes |
| Sender.ReplayAppend | src/remi-client.cpp:383-502 | A log of requests and replies can be replayed piecewise |
| Requests.ChunkedLog | src/remi-client.cpp:383-502 | Every complete log of the automaton over a chunked job: return code and `*status` are those of the last reply as the code picks them; the writes of each file start at 0, follow each other, carry the source bytes, have exactly the transfer size unless they end the file, and once all are sent reach its end with the rounded-up number of requests; the sequential loop sends them all whatever the replies, the pipelined one stops at the first failure |
| Requests.BulkLog | src/remi-client.cpp:286-329 | The same for the bulk mode: start, one transfer request that exposes the non-empty files in order, all their bytes and nothing else, and migrate_end, each only if the request before it succeeded |
| Requests.PlanByFile | src/remi-client.cpp:406-418 | Of the whole plan, the requests for one file are exactly the chunks of that file, in order |
| ClientLoops.SendFile | src/remi-client.cpp:407-419 | The chunk loop of one file sends the file's part of the plan and nothing else, whatever the replies |
| ClientLoops.SendSequential | src/remi-client.cpp:404-419 | All requests of the sequential plan are sent in order, and the last reply is what is returned |
| ClientLoops.Pump | src/remi-client.cpp:450-474 | The double-buffered loop: the buffer in flight is never the one read into, each request is the next of the plan with the source bytes at its offset, and a failure stops the loop |
| ClientLoops.SendFilePipelined | src/remi-client.cpp:431-478 | First read, swap and pump send the file's part of the pipelined plan |
| ClientLoops.SendPipelined | src/remi-client.cpp:421-481 | The requests are a prefix of the pipelined plan, all of it on SUCCESS |
| ClientLoops.Channel.Wait | src/remi-client.cpp:454-464 | What is sent asynchronously is what the buffer held when the request was issued, which needs the buffer unchanged until then |
| Client.OpenAll | src/remi-client.cpp:350-370 | Succeeds exactly when every file opens; sizes, modes and open files are in the order of the set |
| Client.MapAll | src/remi-client.cpp:236-272 | The same for mapping, with segments for exactly the non-empty files |
| Client.MigrateUsingAbtio | src/remi-client.cpp:331-503 | For the files of the tree and the fileset's transfer size: what is sent is as Requests.ChunkedLog has it, the start request announcing each file's size and mode; `*status` is written only by a start refused with REMI_ERR_USER and by migrate_end; the fileset gets its members back except after a failed start |
| Client.MigrateUsingMmap | src/remi-client.cpp:216-329 | The same for the bulk mode, with one transfer request for the non-empty files |
| Client.SuccessComesFromEnd | src/remi-client.cpp:483-502 | A log after which SUCCESS is returned ends with a migrate_end answered SUCCESS, and leaves status 0 |
| Client.RemoveAll | src/remi-client.cpp:203-206 | The removal loop over the migrated files |
| Client.RemoveDirectories | src/remi-client.cpp:207-210 | The removal loop over the registered directories |
| Client.Migrate | src/remi-client.cpp:162-214 | `*status` is what a start refused with REMI_ERR_USER reported, what migrate_end reported with it, 0 after any other reply of migrate_end, and otherwise what the caller had there; the requests are those of the mode and the fileset's transfer size, to the slashed remote root; SUCCESS implies status 0, a successful migrate_end and a restored fileset; the source tree changes only on SUCCESS with removal asked for, and is untouched on every failure |
| Client.Slashed | src/remi-client.cpp:179-181 | The remote root is kept if it ends in a slash and otherwise gets one; it denotes the same place |
| Client.JobIsHonest | src/remi-client.cpp:372-402 | What the client announces and sends is an honest job of the protocol |
| Names.LessTotal | src/remi-fileset.hpp:22 | The order of names is total and irreflexive |
| Names.LessExactly | src/remi-fileset.hpp:22 | One name comes before another if and only if they agree up to a point where the first ends and the second goes on, or where the first has the smaller character |
| Names.LessTransitive | src/remi-fileset.hpp:22 | The order of names is transitive |
| Names.InsertKeepsOrder | src/remi-fileset.cpp:146 | Insertion keeps the enumeration increasing and adds exactly one element, once |
| Names.RemoveKeepsOrder | src/remi-fileset.cpp:162 | Erasure keeps it increasing and takes exactly that element |
| Names.EnumerationUnique | src/remi-fileset.hpp:22 | Two increasing enumerations of the same set are equal: index i is the same name everywhere |
| Names.RebuiltSetAligns | src/remi-fileset.hpp:26-35 | A set rebuilt on the other side, from its elements in any order, enumerates them as the sender did |
| Mkdirs.MkdirsReaches | src/fs-util.hpp:16-30 | The tree stays well formed, nothing is lost or changed, only prefixes of the path are added, and the path is a directory afterwards if and only if no prefix was a regular file |
| Mkdirs.MakePrefix | src/fs-util.hpp:24-28 | Cutting the buffer at a slash makes exactly that prefix, and the buffer is restored |
| Mkdirs.MakePrefixes | src/fs-util.hpp:23-28 | The in-place scan makes every proper prefix after its parent and leaves the buffer as it was |
| Mkdirs.MakeDirs | src/fs-util.hpp:16-30 | The whole scan makes the directories of the path, however its slashes are repeated |
| Paths.ComponentsOfJoin | src/fs-util.hpp:34 | Joining with a slash concatenates components |
| Paths.ComponentsOfGlue | src/fs-util.hpp:39-42 | Joining without one lengthens the last component |
| Walk.ListFiles | src/fs-util.hpp:32-46 | Adds to the ordered set exactly the names `Listing` describes, for any order of readdir |
| Walk.ListingTerminated | src/fs-util.hpp:32-46 | For a name that ends in a slash, the recursion reports exactly the regular files reached without entering anything hidden |
| Walk.ListedNamesTidy | src/fs-util.hpp:38-42 | Whatever the directory is called, each reported name is that of the directory followed by a relative name without a leading, trailing or doubled slash |
| Walk.RemoveDirent | src/fs-util.hpp:50-57 | One round of the loop removes what its entry stands for and leaves the other entries intact |
| Walk.RemoveRec | src/fs-util.hpp:48-61 | Deletes exactly `Removed` and keeps the tree well formed, for any order of readdir |
| Walk.RemovedTerminated | src/fs-util.hpp:48-61 | For a name that ends in a slash: exactly the visible files, and the visible directories with nothing hidden below |
| Walk.EntryPath | src/fs-util.hpp:53-55 | Where name plus entry leads: to the child after a slash, otherwise to a longer-named sibling of the directory |
| SourceRemoval.WalksAgree | src/fs-util.hpp:32-61 | Every file removeRec deletes was reported by listFiles, with one exception: a plain file registered as a directory without a slash |
| SourceRemoval.LossExactly | src/remi-client.cpp:202-211 | With a root that ends in a slash, removal loses an unmigrated file if and only if some registered directory is spelled without a slash and is a regular file outside the fileset; survivors are unchanged |
| SourceRemoval.NoDataLoss | src/remi-client.cpp:202-211 | With properly spelled root and directories nothing unmigrated is deleted |
| SourceRemoval.PlainFileLost | src/remi-client.cpp:207-210 | For any tree and proper root, a regular file registered as a directory without a slash is lost |
| SourceRemoval.RootMatters | src/remi-fileset.cpp:128-136 | Removal is safe for all trees and all well-spelled directories if and only if the root ends in a slash |
| SourceRemoval.UnsafeRoot | src/remi-fileset.cpp:134 | For every other root, a tree in which an unmigrated file is deleted |
| Survival.DirectorySurvives | src/remi-client.cpp:202-211 | The whole removal, files and all directories: if no directory is registered in a hidden place below it, a directory survives if and only if no registered directory gets to it or something hidden and not migrated is beneath it, and then something hidden is still beneath it |
| Survival.SurvivesCalls | src/remi-client.cpp:207-210 | For any list of well-spelled directories: a directory survives all calls if and only if each call that gets to it finds something hidden beneath it at that time |
| Survival.StrandedDirectory | src/remi-client.cpp:207-210 | With a directory and a hidden empty one in it both registered, the order of the set makes the outer one stay behind with nothing beneath it |
| Survival.RemoveFilesExactly | src/remi-client.cpp:203-206 | The file loop takes exactly the migrated files |
| SourceRemoval.FileListedExactly | src/fs-util.hpp:32-46 | A file below a registered directory is migrated on that account if and only if the name is empty or ends in a slash and no component below the directory starts with a dot |
| SourceRemoval.DirectoryMigratedExactly | include/remi/remi-common.h:195-200 | The documented promise that all files of a registered directory are migrated holds if and only if it has none, or its name is empty or ends in a slash and nothing in it is hidden |
| SourceRemoval.SubdirectoryArrivesExactly | include/remi/remi-common.h:195-200 | A migrated file of a registered directory lies below one of its subdirectories if and only if the name is well spelled and a visible file lies below the subdirectory |
| SourceRemoval.LossAtAnyRoot | src/remi-client.cpp:202-211 | For any migrated names and any root and directories whose concatenations end in a slash (the root itself need not): removal loses a file of the given tree if and only if a visible file below some root and directory is not among the migrated ones |
| Filesets.SkipSlashes | src/remi-fileset.cpp:144-145 | Stops at the first character that is not a slash |
| Filesets.Fileset.Create | src/remi-fileset.cpp:20-37 | Accepts exactly the absolute roots; the stored root is the given one, with a final slash added if it lacks one, and the transfer size is 1 MiB |
| Filesets.Fileset.SetRoot | src/remi-fileset.cpp:128-136 | Takes any string unchanged |
| Filesets.Fileset.SetXferSize | src/remi-fileset.cpp:47-56 | Takes every size but zero, which is refused and changes nothing |
| Filesets.Fileset.RegisterFile | src/remi-fileset.cpp:138-148 | Adds the name without leading slashes, keeping the order |
| Filesets.Fileset.DeregisterFile | src/remi-fileset.cpp:150-164 | Takes that name away, or reports that it is unknown |
| Filesets.Fileset.RegisterDirectory | src/remi-fileset.cpp:179-189 | Adds the directory without leading slashes; a final slash is neither required nor added |
| Filesets.Fileset.DeregisterDirectory | src/remi-fileset.cpp:191-205 | Takes the directory away, or reports that it is unknown |
| Filesets.Fileset.Walkthrough | src/remi-fileset.cpp:220-240 | Every file registered directly or reached through any directory exactly once, each before those that come after it character by character |
| Filesets.Fileset.ComputeSize | src/remi-fileset.cpp:303-344 | Succeeds exactly when every file opens, and then gives the total size counting each file once |
| Registry.StepKeepsAccounts | src/remi-server.cpp:510-546 | Registration, deregistration and the lookup of migrate_end keep each owed free call either done once or due from one entry |
| Registry.FreedExactlyOnce | src/remi-server.cpp:416-424 | Over any history and one finalize, each successful registration with a free function has it called exactly once, and nothing else is freed |
| Registry.RecreatedEntryExactly | src/remi-server.cpp:205-206 | Over any history: after its last deregistration a class has an entry if and only if it was registered anew or a migrate_end looked it up; if the latter came first, the entry has neither callback and nothing to free, and registrations of the class are refused |
| Provider.NoDirExactly | src/remi-server.cpp:141-144 | The directory handed to mkdirs is empty if and only if the target lies right below the file system's root |
| Provider.DirPartIsParent | src/remi-server.cpp:141-144 | The directory mkdirs prepares is the parent open needs |
| Provider.MkdirsThenOpen | src/remi-server.cpp:142-145 | After mkdirs, open cannot fail for a missing parent: it fails if and only if the target is a directory or a file stands on the way |
| Provider.OpensExactly | src/remi-server.cpp:137-147 | In the creation loop, whether the next target can be created, told from the tree before the first: its name does not end in a slash, no regular file is on its way, and it is neither below an earlier target nor on the way to one |
| Provider.CreationGrows | src/remi-server.cpp:140-145 | Preparing and creating a target loses and changes nothing and adds only the target and directories on the way to it |
| Provider.DirectoryCreatedExactly | src/remi-server.cpp:140-145 | An accepted start creates a directory that was not there if and only if it lies on the way to one of the targets |
| Provider.Provider.RegisterClass | src/remi-server.cpp:510-530 | Refuses a class that exists and changes nothing; otherwise the class has the given callbacks and a registration of its own |
| Provider.Provider.DeregisterClass | src/remi-server.cpp:532-546 | The class is gone, its free function called if it had one; an unknown class is refused |
| Provider.Provider.Finalize | src/remi-server.cpp:416-424 | One pass over the entries, in any order, calls each remaining free function once |
| Provider.Provider.CloseAll | src/remi-server.cpp:192-194 | Each descriptor is open when its turn comes, so it is closed exactly once |
| Provider.Provider.CreateFiles | src/remi-server.cpp:137-155 | Succeeds exactly when no file is refused by the system and every target can be created; then every target is there, empty, with the mode of its index and a descriptor of its own; otherwise it stops at the first file for which that fails, the ones before it are there and all descriptors opened so far are closed again |
| Provider.Provider.Admit | src/remi-server.cpp:106-135 | The order of refusals: unknown class, an existing target, no before-callback (status 1), a before-callback that returns non-zero (which is the status); a callback that returns 0 admits |
| Provider.Provider.MigrateStart | src/remi-server.cpp:94-168 | The reply is fixed by registry, tree, before-callback and the files the system refuses: once admitted it is SUCCESS if and only if no file is refused and every target can be created. A refused start leaves table, descriptors and (unless opening failed) the tree as they were; an accepted one registers one operation whose targets did not exist before, and stays disjoint from all others |
| Provider.Provider.Fits | src/remi-server.cpp:358-373 | The two tests of migrate_write amount to the acceptance predicate |
| Provider.Provider.MigrateWrite | src/remi-server.cpp:320-396 | Unknown identifiers change nothing, a bad chunk erases the operation and nothing else, an accepted one is stored at the right place as far as the system takes it (not at all at a negative offset), a short write is noted, and no other operation is touched |
| Provider.Provider.MigrateEnd | src/remi-server.cpp:170-223 | The operation and its descriptors go, nobody else's; the sticky error wins, otherwise the status is what the after-callback of the class returns, 0 without one, and the reply is SUCCESS if and only if it is 0 |
| Provider.Provider.MapFiles | src/remi-server.cpp:264-290 | Succeeds exactly when every non-empty file can be truncated and mapped; non-empty files get their declared sizes in order, empty ones are skipped, and a failure leaves the files behind it alone |
| Provider.Provider.Land | src/remi-server.cpp:292-296 | The stream is split over the mapped files in file order |
| Provider.Provider.TotalSize | src/remi-server.cpp:258-261 | The declared sizes added up |
| Provider.Provider.MigrateMmap | src/remi-server.cpp:225-318 | The reply is fixed by what the system decides: REMI_ERR_IO if a non-empty file cannot be mapped, else REMI_ERR_MIGRATION if the bytes that arrive are not as many as declared, else REMI_ERR_IO if msync fails, else SUCCESS. REMI_ERR_IO erases the operation, nothing else does. SUCCESS means the segments arrived whole and every file has its piece; in any case empty files stay as they were, and once all are mapped every other file has its declared size |
| EndToEnd.JobIsWellFormed | src/remi-client.cpp:372-384 | A fileset resolved in increasing order is a job the protocol can run |
| EndToEnd.SizeThenMigrate | src/remi-fileset.cpp:322-344 | compute_size followed by a migration: the first succeeds if and only if the second gets past opening its files and sends its start request, and the size is the total of the sizes in that request, as the provider adds them up |
| EndToEnd.StepReply | src/remi-server.cpp:94-396 | A phase of a handler leaves the client alone or answers the request it is waiting on |
| EndToEnd.SessionsReplay | src/remi-client.cpp:383-502 | In every run, the replies of each client form a log of the automaton the client loops follow |
| EndToEnd.Delivered | src/remi-client.cpp:162-214 | After SUCCESS of a fileset's migration each of its files is at the remote root under its name, byte for byte |
| EndToEnd.ClientDelivered | src/remi-client.cpp:162-214 | In every interleaving: when the log of a client's migrate call is that of a session and it returned SUCCESS, each of its files is at the remote root under its name, byte for byte |
| EndToEnd.DeliveredInTree | src/remi-client.cpp:162-214 | Over any history of the provider: after SUCCESS the entry at the remote root equals the entry at the source, bytes and mode |
| EndToEnd.SubdirectoryArrives | include/remi/remi-common.h:195-200 | Over any history: a directory that was not at the destination, and towards which nobody else sends, is there after SUCCESS if and only if some migrated file lies below it at the source |
| EndToEnd.MigrateAgainst | src/remi-client.cpp:162-214 | The migrate call itself, against any history in which its log is that of a client: SUCCESS means every file of the fileset has the same entry at the destination, and every file missing from the source afterwards is one of them |
| EndToEnd.NothingLostInTree | src/remi-client.cpp:202-211 | Over any history: a source file deleted by a successful migration with removal is in the provider's tree with the same bytes and mode |
| EndToEnd.NothingLost | src/remi-client.cpp:202-211 | Whatever the interleaving: a source file deleted by a successful migration with removal is at the destination with the same bytes |

## Left out

- Thallium, Margo, Mercury and Argobots, serialization, RPC exceptions and timeouts, endpoint lookup: a request is a step, its reply another.
- Null arguments and null handles, getters and setters, provider-handle reference counts, the table of registered providers, `src/remi-bedrock.cpp`, devices and ABT-IO's own machinery: easy members or plumbing.
- POSIX permissions, umask, symbolic links, FIFOs and sockets, `..`, aliasing of paths: the tree has regular files and directories only. A special file in a registered directory would be deleted by `removeRec` without having been listed.
- Failures of `fstat`, reads that return less than asked (their results are ignored by the code), source files that change during a migration, a failed client-side `mmap`, `opendir` that fails for lack of permission, and a directory opened as a file.
- `open` and `mkdir` interrupted in between by other programs; in the protocol the checks and the creation of files in `migrate_start` are one atomic step.
- Operation identifiers are assumed fresh; an operation is named after the migration that started it. The 32-bit file number and the wrap of `totalSize` are not modelled.
- Clients that crash or have more than one outstanding request. Callbacks are functions of the fileset: they neither edit it nor the file system.
- The lifetime of an operation whose mutex is destroyed while locked: the record is kept after its removal from the table.
- Concurrent use of the class registry, which the code does not protect: registry histories are sequential.
- Metadata of a fileset, also in `remi_fileset_compute_size`.
- Parsing of modes and `st_mode`: a mode is a number carried with its file; in the protocol only the start request has it, and the provider's tree keeps it.
- Working directories: relative paths, which `remi_fileset_set_root` allows as a root, are taken from the file system's root.
- Provider.Provider.MigrateStart: requires targets with a directory part and vectors of equal length, as the client sends them (with shorter vectors, or a target right below `/`, the code indexes out of bounds), and targets that are pairwise different as paths, so two spellings of one file in a fileset are not modelled.
- Histories.HistoryRuns: the provider serves one request at a time; handlers that overlap are the protocol's, whose files are a map from names to bytes, and for which directories never stand in the way of a start.
- SourceRemoval.LossAtAnyRoot: leaves out a root without a final slash together with an empty or unterminated directory name, where what a call deletes depends on what earlier calls have left.
- Provider.Provider.MigrateMmap: says which sizes the files have, but nothing about the bytes a short transfer leaves, which may be anything. A file that can be truncated but not mapped counts as one that cannot be truncated. A transfer without segments counts as zero bytes.
- Client.Migrate: the fileset is borrowed for one call; that other threads see its members swapped meanwhile is not modelled.
- Liveness.Termination: assumes that RPCs, callbacks and file operations return.
