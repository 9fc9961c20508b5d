# Verified model of the savecraft cores

This project models, in Dafny, the parts of the repository whose correctness is not visible from any one
function, and states and proves what those parts promise. `dafny verify dfyconfig.toml` checks the whole project.

- **Passive-tree segmentation** (`Graphs`, `DfsTree`, `SearchOrder`, `SegmentTheory`, `Branches`, `Segmentation`,
  `SegmentProperties`). The iterative low-link search over an allocated passive tree and the branches it emits. The
  search state is a class updated step by step; its abstract value carries two history fields (ancestor sets and the
  number of adjacency entries handled) with which the loop invariant is stated. The results are about the graph:
  walks, bridges, reachability after removal. The only assumption is that adjacency is symmetric; repeated neighbours,
  self-loops and neighbours outside `nodes` are allowed.
- **GVAS parser** (`GvasTypes`, `GvasDecode`, `GvasReader`, `GvasEncode`, `GvasNumbers`, `GvasText`, `GvasUnicode`,
  `GvasRoundTrip`, `GvasLocality`, `GvasConform`, `GvasNames`, `GvasNesting`). `GvasReader` is the parser as written,
  a reader object whose position moves; each of its methods agrees with a decoding function on values. An encoder,
  which the repository does not have, is the decoder's partner; it writes a text as bytes where they fit and as UTF-16
  otherwise, so that every text the parser can return can be written. `GvasUnicode` holds what is read against UTF-8
  and UTF-16 as RFC 3629 and RFC 2781 define them, byte by byte, and `GvasNames` against the names of the types.
- **LuaJIT process pool** (`PoolModel`, `ProcessPool`, `PoolSystem`, `PoolProperties`, `PoolAnswers`, `PoolRecency`).
  `ProcessPool` is the pool object with its lock held; `PoolSystem` lets callers, spawns, timers and process deaths
  interleave in any order. TTL and idle timers are first running and can be stopped; once a timer has gone off its
  closure waits for the lock and can not.
- **Delta pushes from daemon to server** (`DaemonSync`, `SaveDb`, `SaveStore`, `Reconcile`, `PushLaws`, `StoreRuns`,
  `SyncRuns`, `SyncLaws`). Both ends as objects, the statement batches of the server as transactions over tables with
  the constraints of the schema, and runs of the two together. `PushLaws` and `SyncLaws` say what happens in terms of
  the rows, the parses and the messages alone.
- **Gem-name suggestions** (`EditDistance`, `GemSuggest`), **audit budgets** (`LeafBudget`), **delta memo**
  (`DeltaMemo`, `NearbyFilter`, `DeltaRequests`, `MemoOrigins`) and **build diffs** (`BuildDiff`, `TreeDiff`). The
  memo has three users: nearby searches, the power reports of `cmd/pob-server/power_report.go`, which take the same
  steps, and audits. The two functions that split a request by what is memoised, `splitNearbyByCacheLocked` and
  `splitAuditSinglesByCache`, differ only in the type of the list and are one method, `SplitByCache`. `Options`,
  `Sets`, `Sorting`, `Alphabet` and `Arithmetic` are shared.

## Assumptions

- A push that the connection accepts arrives (`internal/wsconn/client.go` drops messages silently while disconnected;
  `LostPushStays` shows that such a loss is never repaired by repeating the parse). A push that the connection refuses
  with an error is part of the runs.
- Parse times strictly increase, the section hash is injective, one file writes each save, one account and source push
  them, and no save is linked or deleted in the middle of such a run. `StoreRuns` drops these assumptions for what the
  tables alone must satisfy.
- The database enforces its foreign keys and unique indexes, statement by statement, and runs a batch as a
  transaction.
- A holder of a process returns it once. Clocks are parameters; the recency results assume a strictly increasing one.
- The build calculation is deterministic: a function of build, node and metric, separate for adding and removing.
- What the Lua side extracts from a build is true: a candidate's `alloc` flag says whether the build has the node
  allocated, and the graph of an audit holds allocated nodes only, with its edges both ways. That added and removed
  nodes of a build are never the same is derived from this (`KeysDisjoint`).

## Where the code and its comments differ

- `segmentDFS` says its four maps share one key set; the parent map lacks the root and the children map lacks leaves
  (`DfsTree.Parents`, `DfsTree.Children`).
- `unpinIfEpochCurrent` says that calls made stale by a touch become no-ops. That holds within one pin lifetime
  (`OnlyLatestTimerUnpins`). `unpinLocked` deletes the epoch, so epochs restart at 1, and a timer left over from an
  earlier lifetime can remove a newer pin: `OldTimerUnpinsExactly` says when. `OldTimerCanUnpin` gives a run in which
  the timer goes off before its pin is replaced, so that stopping timers does not prevent it.
- An idle timer is to kill a process nobody has used for a while. `killIdle` does not check again that the process is
  idle, so a closure that went off just before an acquire kills the process in its new holder's hands
  (`IdleClosureKillsHeld` gives the run); `HeldKilledExactly` says which acquires can end so.
- `AcquireForBuild` calls a failed acquire "every slot is pinned-and-busy". With dead processes in the idle list it
  can fail while a live process is idle and nothing is busy (`ExhaustedWithLiveIdle` gives the run);
  `ExhaustedExactly` gives the exact condition in terms of the pool before the call.
- `buildUpdateBatch` justifies its single NOT-IN scan by the incoming sections being among the announced ones. The
  scan deletes the same rows as two scans in any case (`OneScanIsTwo`); the inclusion is what keeps the index in step
  (`UpdateInStepExactly`).
- `reconcileOrphanSaves` says that it adopts a source's orphan saves and that of two copies the newer wins. A note
  keeps its save from being deleted (`worker/migrations/0008_fix_notes_fk.sql`), and the function, unlike every other
  deletion of saves, does not delete notes first. If a newer orphan is to replace a save that has a note, the whole
  batch is undone: all orphans of the source stay, the stale copy is kept, and the link code is already used up
  (`worker/src/index.ts:2270-2277`). `LinkCanBeRefused` gives the run, and `LinkSucceedsInRunExactly` says when it
  happens.
- The server ignores a full push whose summary and sections are those stored. Sections that the push no longer
  announces then stay: `CopiedExactly` says when a save is a copy of the parse.
- The nesting limit is said to guard type trees and struct properties; `readProperties` does not apply it, and structs
  of any depth are read (`AnyDepthIsRead`), as far as the program's stack reaches.
- `gearModsDiff` says that a build's list holds the mods unique to it. With three or more builds it also holds mods
  shared by some of the others; `OwnListsAreUniqueExactly` says when the comment is right and `SharedModListedTwice`
  gives three builds for which it is not.
- `compareTreeDiff` says that builds without tree data get an empty list; the code then reports no diff at all
  (`ComputeTreeDiff`).

## Model

| member | source | states |
|---|---|---|
| Segmentation.Search | cmd/pob-server/audit_segment.go:143-194 | the search terminates on every symmetric graph, visits exactly the nodes reachable from the root, and ends in a complete search: no cross edges, low values bounded and attained |
| Segmentation.SearchState.PushTreeEdge | cmd/pob-server/audit_segment.go:197-203 | the whole new search state is that of discovering the neighbour |
| Segmentation.SearchState.ConsiderBackEdge | cmd/pob-server/audit_segment.go:208-215 | the whole new state is that of a back edge, the tree parent excepted |
| Segmentation.SearchState.Retreat | cmd/pob-server/audit_segment.go:183-189 | the whole new state is that of passing low to the parent |
| DfsTree.InitInv | cmd/pob-server/audit_segment.go:148-160 | the invariant of the search holds at the start |
| DfsTree.PushInv | cmd/pob-server/audit_segment.go:172-175 | discovering a neighbour keeps numbering, tree, no-cross-edge and low-value invariants |
| DfsTree.BackInv | cmd/pob-server/audit_segment.go:178-178 | a back edge keeps them |
| DfsTree.PopInv | cmd/pob-server/audit_segment.go:182-190 | leaving an exhausted node keeps them |
| SegmentTheory.SearchComplete | cmd/pob-server/audit_segment.go:162-194 | with an empty stack every entry of every visited node has been handled |
| SegmentTheory.VisitsReachable | cmd/pob-server/audit_segment.go:139-142 | the visited nodes are exactly those reachable from the root inside `nodes` |
| SegmentTheory.EdgesFollowTree | cmd/pob-server/audit_segment.go:162-194 | every graph edge among visited nodes joins an ancestor and a descendant |
| SegmentTheory.LowDescends | cmd/pob-server/audit_segment.go:183-188 | a node's low value is at most that of each of its descendants |
| SegmentTheory.LowIsMinimum | cmd/pob-server/audit_segment.go:183-215 | low is the least number reachable from the subtree by at most one non-tree edge |
| SegmentTheory.OnlyExit | cmd/pob-server/audit_segment.go:17-27 | from an emitted subtree there is no edge out except to its anchor |
| SegmentTheory.BridgeIffLow | cmd/pob-server/audit_segment.go:117-126 | the strict low-value test holds exactly when the tree edge is a bridge of the graph |
| SegmentTheory.EmittedIffBridge | cmd/pob-server/audit_segment.go:117-126 | away from the root a subtree is emitted exactly when its edge to the parent is a bridge |
| SegmentTheory.NestedOrDisjoint | cmd/pob-server/audit_segment.go:217-236 | two search subtrees are nested or disjoint |
| Segmentation.CollectSubtree | cmd/pob-server/audit_segment.go:221-236 | the stack walk lists the subtree in preorder with its leaves, and terminates |
| Segmentation.PreorderMembers | cmd/pob-server/audit_segment.go:221-236 | that order holds exactly the descendants, each once |
| Segmentation.LeavesOfMembers | cmd/pob-server/audit_segment.go:228-231 | the leaves are exactly the listed nodes without children |
| SegmentProperties.NodesInOrder | cmd/pob-server/audit_segment.go:221-236 | Nodes starts with Head, has every node before what is below it, and of two nodes in different parts of the tree the one found later first |
| SegmentProperties.LeavesInOrder | cmd/pob-server/audit_segment.go:228-231 | leaves keep the order of the nodes |
| SearchOrder.PushTimely | cmd/pob-server/audit_segment.go:197-203 | discovering a node keeps the numbers in order: subtree after subtree, children as they are found |
| Segmentation.ClassifyTerminal | cmd/pob-server/audit_segment.go:242-288 | the terminal is a best candidate of the branch: keystones first, then depth, then id; none only when there is no candidate |
| Segmentation.TerminalUnique | cmd/pob-server/audit_segment.go:238-241 | there is only one best candidate, so the order of the nodes does not matter |
| SegmentProperties.TerminalMeans | cmd/pob-server/audit_segment.go:238-287 | a branch has no terminal exactly when it has neither a Notable nor a Keystone; else a Keystone if it has one, and of that type the node found last |
| Segmentation.SegmentGraph | cmd/pob-server/audit_segment.go:77-115 | without a root no branches, otherwise one complete branch per emitted subtree, ascending by head |
| SegmentProperties.NodesAndLeaves | cmd/pob-server/audit_segment.go:56-74 | Nodes are exactly the descendants of Head and Leaves the childless ones, without repeats; the anchor is outside |
| SegmentProperties.BranchesAreBridges | cmd/pob-server/audit_segment.go:17-23 | between reachable nodes other than the root, the bridges of the graph are exactly the anchor-head pairs of branches |
| SegmentProperties.OnlyAttachment | cmd/pob-server/audit_segment.go:17-23 | the anchor is the only outside node a branch is joined to, and away from the root only through its head |
| SegmentProperties.RemovalSafe | cmd/pob-server/audit_segment.go:56-63 | removing all Nodes of a branch, or any one of its Leaves, leaves every other reachable node reachable from the root |
| SegmentProperties.BranchesNest | cmd/pob-server/audit_segment.go:77-115 | any two branches are nested or disjoint |
| SegmentProperties.RootBranchesPartition | cmd/pob-server/audit_segment.go:25-27 | the branches anchored at the root partition the reachable nodes other than the root |
| SegmentProperties.SegmentationUnique | cmd/pob-server/audit_segment.go:73-76 | one search has one segmentation, whatever order the map is walked in |
| GvasReader.Reader.Read | plugins/gvas/reader.go:22-29 | the next bytes, or a failure when too few remain; the position moves with the decoder |
| GvasReader.Reader.ReadFString | plugins/gvas/reader.go:88-131 | agrees with the decoder on both encodings and every error |
| GvasUnicode.NarrowMeans | plugins/gvas/reader.go:88-115 | a length that is not negative gives that many bytes without a terminating zero, or exactly the stated errors |
| GvasUnicode.WideMeans | plugins/gvas/reader.go:89-130 | a negative length gives the UTF-8 form, as RFC 3629 defines it, of the text whose UTF-16 form, as RFC 2781 defines it, the stored units are, with U+FFFD for every lone surrogate; or exactly the stated errors |
| GvasUnicode.Utf8Inverse | plugins/gvas/reader.go:129-129 | what is written as UTF-8 decodes to the same code points |
| GvasUnicode.Utf16Means | plugins/gvas/reader.go:129-129 | decoding units gives code points whose UTF-16 form they are, lone surrogates replaced |
| GvasReader.Reader.ReadGuid | plugins/gvas/reader.go:133-152 | agrees with the decoder |
| GvasReader.ReadHeader | plugins/gvas/parse.go:65-140 | agrees with the decoder, version-dependent fields included |
| GvasReader.ReadTypeTree | plugins/gvas/parse.go:146-170 | agrees with the decoder, depth and count limits included |
| GvasReader.ReadProperties | plugins/gvas/parse.go:172-227 | agrees with the decoder and terminates on every input |
| GvasReader.ReadPropertyValue | plugins/gvas/parse.go:229-350 | agrees with the decoder for every kind of tag |
| GvasReader.ReadStructValue | plugins/gvas/parse.go:414-542 | agrees with the decoder for fixed, raw and property structs |
| GvasReader.ReadArrayProperty | plugins/gvas/parse.go:544-606 | agrees with the decoder |
| GvasReader.ReadValueByType | plugins/gvas/parse.go:608-713 | agrees with the decoder |
| GvasReader.ReadMapProperty | plugins/gvas/parse.go:715-755 | agrees with the decoder |
| GvasReader.ReadSetProperty | plugins/gvas/parse.go:757-792 | agrees with the decoder |
| GvasReader.ParseBytes | plugins/gvas/parse.go:28-63 | the whole parse is the decoding function, on every input for which memory suffices |
| GvasDecode.Properties | plugins/gvas/parse.go:172-227 | every recursive read has strictly fewer bytes left, and what remains is never longer than the input |
| GvasRoundTrip.HeaderPut | plugins/gvas/parse.go:65-140 | decoding an encoded header gives it back and stops right after it |
| GvasRoundTrip.TreePut | plugins/gvas/parse.go:146-170 | the same for every type tree within the depth limit |
| GvasText.StringPut | plugins/gvas/reader.go:88-131 | every text that either form of the format can hold is read back, the empty one included |
| GvasText.StringBound | plugins/gvas/reader.go:88-131 | every text that is read is one that the format can hold |
| GvasRoundTrip.StructPut | plugins/gvas/parse.go:414-542 | the same for every struct value |
| GvasRoundTrip.MemberPut | plugins/gvas/parse.go:608-713 | the same for every array, set or map member, nested to any depth |
| GvasRoundTrip.TagPut | plugins/gvas/parse.go:229-350 | the same for every tag value, unknown kinds kept as raw bytes |
| GvasRoundTrip.PropertiesPut | plugins/gvas/parse.go:172-227 | the same for every property list with its terminator |
| GvasRoundTrip.ParseEncode | plugins/gvas/parse.go:28-63 | parsing the encoding of any well-formed save gives exactly that save |
| GvasLocality.ParseConsumesPrefix | plugins/gvas/parse.go:28-63 | a successful input is what was consumed followed by Extra, and other trailing bytes change nothing but Extra |
| GvasConform.PropertiesDecoded | plugins/gvas/parse.go:172-350 | every decoded property has the value form its type tree names |
| GvasConform.ParseConforms | plugins/gvas/parse.go:28-63 | every parsed save is well-formed: values match their type trees, all limits hold |
| GvasConform.ReencodeParsed | plugins/gvas/parse.go:28-63 | parsing, encoding and parsing again gives the same save, for every input |
| GvasConform.WellFormedExactly | plugins/gvas/parse.go:28-63 | the well-formed saves are exactly those that parsing can return |
| GvasNames.PropertyNames | plugins/gvas/parse.go:229-412 | in every parsed save the kind of a value tells the name of its type, structs by the short name, and only other names are kept raw |
| GvasNames.MemberNames | plugins/gvas/parse.go:608-713 | the same for the members of lists and maps |
| GvasNames.MapSkips | plugins/gvas/parse.go:722-735 | removed keys of a map are read as keys and dropped |
| GvasNames.SetSkips | plugins/gvas/parse.go:764-776 | removed elements of a set are read as elements and dropped |
| GvasNames.NestedBool | plugins/gvas/parse.go:608-713 | a bool in a list is true for every byte but zero |
| GvasNames.FlagsAreBits | plugins/gvas/parse.go:19-25 | the flags of a tag are the bits 0, 1, 2 and 4 |
| GvasNesting.AnyDepthIsRead | plugins/gvas/parse.go:172-227 | structs nested to any depth for which the stack suffices are read in full: no limit is applied |
| GvasText.Utf16Inverse | plugins/gvas/reader.go:115-130 | decoding the UTF-16 form of any Unicode text (sections 2.1 and 2.2 of RFC 2781) gives the text back |
| GvasText.WidePut | plugins/gvas/reader.go:115-130 | a text stored as UTF-16 with a negative length is read as its UTF-8 form |
| GvasText.PanicExactly | plugins/gvas/reader.go:88-131 | reading a text fails at run time exactly on the least 32-bit length |
| ProcessPool.LockedPool.constructor | cmd/pob-server/process.go:243-263 | an empty pool with pins limited to its size |
| ProcessPool.LockedPool.TakePinnedIdle | cmd/pob-server/process.go:415-434 | the pinned process if it is idle and alive, else none; a dead one loses its pin and its place |
| ProcessPool.LockedPool.PopUnpinnedIdle | cmd/pob-server/process.go:436-454 | the last live unpinned idle process; dead ones after it are dropped |
| ProcessPool.LockedPool.StealLRUPinnedIdle | cmd/pob-server/process.go:456-488 | the least recently touched pinned idle process, unpinned; none if it is dead |
| ProcessPool.LockedPool.AcquireForBuild | cmd/pob-server/process.go:281-322 | the five attempts in order, with the slot reserved before a spawn |
| ProcessPool.LockedPool.Pin | cmd/pob-server/process.go:330-372 | the pin is the specified one and all four maps agree afterwards |
| ProcessPool.LockedPool.SwapAffinity | cmd/pob-server/process.go:374-395 | the pin moves to the new build, replacing that build's own |
| ProcessPool.LockedPool.UnpinLocked | cmd/pob-server/process.go:564-581 | all four maps lose the build together |
| ProcessPool.LockedPool.TouchAffinity | cmd/pob-server/process.go:535-548 | the use time and the epoch are renewed |
| ProcessPool.LockedPool.UnpinIfEpochCurrent | cmd/pob-server/process.go:553-560 | the pin goes exactly when the captured epoch is the current one |
| ProcessPool.LockedPool.SpawnFailed | cmd/pob-server/process.go:305-309 | a failed spawn gives the reserved slot back and changes nothing else |
| ProcessPool.LockedPool.Release | cmd/pob-server/process.go:584-600 | the slot is freed; only a live process becomes idle |
| ProcessPool.LockedPool.KillIdle | cmd/pob-server/process.go:603-627 | the process leaves the idle list and loses its pin, whether or not it was idle |
| PoolModel.PinOk | cmd/pob-server/process.go:330-372 | pinning keeps the maps mutually inverse with one key set and within the pin limit |
| PoolModel.SwapOk | cmd/pob-server/process.go:374-395 | swapping keeps them so |
| PoolModel.UnpinOk | cmd/pob-server/process.go:564-581 | unpinning keeps them so |
| PoolAnswers.SwapMoves | cmd/pob-server/process.go:374-395 | the process that the old build had goes to the new build, the old build and what the new one had lose their pin, and every other build keeps its process, use time and epoch |
| PoolAnswers.PinMoves | cmd/pob-server/process.go:330-372 | the build gets this process; only its own earlier pin, the process's earlier pin and, when the others fill the limit, the least recently used of them go |
| PoolAnswers.KillTakes | cmd/pob-server/process.go:603-627 | an idle closure takes its process out of the list and its pin away, and touches nothing else |
| PoolAnswers.ExpireTakes | cmd/pob-server/process.go:553-581 | a TTL closure takes the pin of its build when the epochs agree, and touches nothing else |
| PoolAnswers.AcquireAnswers | cmd/pob-server/process.go:281-322 | which process an acquire hands out, read off the pool before the call, in every case |
| PoolAnswers.LiveStay | cmd/pob-server/process.go:415-488 | apart from the one handed out every live idle process stays in the list |
| PoolAnswers.PinsStay | cmd/pob-server/process.go:415-488 | only the pin of the build's own dead process and of the process considered for stealing go; a hit renews its pin |
| PoolSystem.StepInv | cmd/pob-server/process.go:281-322 | every step of every participant keeps accounting, affinity maps and both kinds of timer in order |
| PoolSystem.StepLimits | cmd/pob-server/process.go:243-263 | no step changes the pool's size or its pin limit |
| PoolSystem.PoolSafe | cmd/pob-server/process.go:198-232 | in every interleaving busy is held plus spawning, busy and idle fit the size the pool was made with, idle has no duplicates, nobody shares a process, the maps agree and hold no more pins than that size |
| PoolProperties.OnlyLatestTimerUnpins | cmd/pob-server/process.go:528-560 | within a pin lifetime only the closure of the latest touch removes the pin, and while its timer is still running none does |
| PoolProperties.OldTimerUnpinsExactly | cmd/pob-server/process.go:550-581 | a timer of an ended lifetime removes a newer pin exactly when the epoch counts coincide |
| PoolProperties.OldTimerCanUnpin | cmd/pob-server/process.go:535-581 | a run, with timers stopped as in the code, in which a closure that went off in an earlier lifetime takes a held process's newer pin away |
| PoolProperties.IdleProcessesTimed | cmd/pob-server/process.go:584-600 | in every interleaving each idle process has an idle closure to come |
| PoolProperties.RunKeepsLoose | cmd/pob-server/process.go:517-526 | while a process is held no new idle closure about it goes off, whatever everyone else does |
| PoolProperties.HeldKilledExactly | cmd/pob-server/process.go:596-627 | a process that an acquire hands out may be killed by an idle closure before it is given back exactly when a closure about it was past stopping at the acquire |
| PoolProperties.IdleClosureKillsHeld | cmd/pob-server/process.go:596-627 | a run, with timers stopped as in the code, in which an idle closure kills a live process in its new holder's hands |
| PoolProperties.ExhaustedExactly | cmd/pob-server/process.go:281-322 | when an acquire gives up, in terms of the pool before the call: nothing live is idle but processes of other builds, these and the busy ones fill the pool, and the least recently used of these, if any, is dead |
| PoolProperties.ExhaustedMeansFull | cmd/pob-server/process.go:319-321 | with all idle processes alive it gives up exactly when nothing is idle and every slot is busy |
| PoolProperties.ExhaustedWithLiveIdle | cmd/pob-server/process.go:296-321 | a run from the empty pool after which an acquire gives up with a live process idle and nothing busy |
| PoolProperties.StealOnlyWhenForced | cmd/pob-server/process.go:296-317 | another build's process is taken only when nothing live is unpinned, no slot is free, and it is the least recently used of the idle ones; it loses its pin |
| PoolProperties.FoundUnpinnedOrHit | cmd/pob-server/process.go:284-298 | the first two attempts never take another build's process |
| PoolAnswers.IdleInOrder | cmd/pob-server/process.go:584-594 | in every interleaving the idle list is in the order in which its processes were given back |
| PoolAnswers.LastReturnedFirst | cmd/pob-server/process.go:436-454 | of the live processes without a pin an acquire takes the one given back last, in every interleaving |
| PoolRecency.PinIsListPin | cmd/pob-server/process.go:330-372 | pinning is the operation of a bounded recency list: only its oldest entry is evicted |
| PoolRecency.SwapIsListSwap | cmd/pob-server/process.go:374-395 | swapping puts the new build at the recent end in place of the old one |
| PoolRecency.HitIsListTouch | cmd/pob-server/process.go:415-434 | a pin hit moves its entry to the recent end |
| PoolRecency.StealAges | cmd/pob-server/process.go:456-488 | stealing takes the first entry of the list whose process is idle |
| PoolRecency.StepAges | cmd/pob-server/process.go:330-395 | every step of every participant is an operation on the list that looks at no use time and chooses no victim |
| PoolRecency.PinsAgeAsList | cmd/pob-server/process.go:224-232 | under a strictly increasing clock, at every point of every interleaving, the pins and their use times are those of the list built by these operations from the empty one, never longer than the pin limit |
| DaemonSync.Daemon.ResolveIdentity | internal/daemon/daemon.go:1214-1225 | an empty name becomes the last known one, else the fallback; only real names are remembered |
| DaemonSync.Daemon.FilterChangedSections | internal/daemon/daemon.go:1325-1353 | the changed sections and all new hashes, against the last push under the same name |
| DaemonSync.Daemon.Convert | internal/daemon/daemon.go:1230-1266 | the readable sections, each listed once |
| DaemonSync.Daemon.PushState | internal/daemon/daemon.go:1227-1318 | what is sent, and that the cache changes only when it was sent |
| DaemonSync.Daemon.ParseAndPush | internal/daemon/daemon.go:1179-1203 | one parse end to end: name, message and memory |
| DaemonSync.SilentExactly | internal/daemon/daemon.go:1273-1280 | nothing is sent exactly when every section is cached under this name with its present hash |
| DaemonSync.RemovalNotSent | internal/daemon/daemon.go:1273-1280 | a parse that only lost sections is not reported |
| SyncLaws.NamesInRun | internal/daemon/daemon.go:1205-1225 | in every run a parse is filed under its own name, else the one its file told last, else the fixed text; and a message carries exactly that name |
| SyncLaws.MessageInRun | internal/daemon/daemon.go:1227-1318 | in every run, when a message goes out and exactly what is in it: the sections that the last message of the file did not have under this name, all readable names, the parse's summary and display name |
| SaveStore.BuildSectionStatements | worker/src/store.ts:22-45 | a replacement and an index insert for every section, each once, and nothing else |
| SaveStore.BuildUpdateBatch | worker/src/store.ts:62-124 | the statements of an update in their order: the save first, the index purge before the section writes, the section purge last |
| SaveStore.Store.SectionsMatch | worker/src/store.ts:355-368 | true exactly when every incoming section is stored with this description and data |
| SaveStore.Store.InsertNewSave | worker/src/store.ts:233-270 | the new save with its sections and one index row each, nothing else changed |
| SaveStore.Store.StorePush | worker/src/store.ts:272-348 | insert, ignore as stale or identical, or update; and the full effect of each |
| SaveStore.Store.ConflictingSaves | worker/src/store.ts:389-402 | every rival of an orphan is found under its game and name |
| SaveStore.Store.ReconcileOrphanSaves | worker/src/store.ts:375-434 | every orphan is adopted, merged or discarded as specified, or the transaction is undone; which of the two is decided by the notes of the saves to be removed |
| SaveDb.SectionStatementsWrite | worker/src/store.ts:22-45 | run in any order, the section statements write exactly the sections and add exactly one index row each |
| SaveDb.UpdateBatchEffect | worker/src/store.ts:62-124 | row by row, what the whole batch leaves: announced and unsent sections kept with their rows, sent ones replaced, others gone |
| SaveDb.OneScanIsTwo | worker/src/store.ts:47-61 | the single NOT-IN scan deletes the same rows as deleting the incoming and then the stale rows |
| SaveDb.UpdateInStepExactly | worker/src/store.ts:54-58 | after an update the index is in step exactly when what was sent is among what was announced |
| SaveDb.PushKeepsDb | worker/src/store.ts:272-348 | a push keeps the tables in order and ends in a save owned by the pusher |
| PushLaws.PushMeans | worker/src/store.ts:272-348 | the whole answer to a push: ignored exactly when stale or without news; else what becomes of the row, of its display name and of each section; nothing of other saves changes |
| PushLaws.RepeatIgnored | worker/src/store.ts:311-330 | an applied push sent again, at whatever time, changes nothing |
| PushLaws.IndexMeans | worker/src/store.ts:22-45 | every section is in the index once with its description and data, and nothing else is there as a section |
| SaveDb.UpdateAccepted | worker/src/store.ts:62-124 | no constraint of the schema refuses the batch of an update |
| SaveDb.InsertAccepted | worker/src/store.ts:233-270 | nor the insertion of a save that the lookup did not find, nor its sections |
| Reconcile.BatchAcceptedExactly | worker/src/store.ts:404-433 | the batch of a link runs whole unless a save it removes has a note; no other constraint ever refuses it |
| Reconcile.LinkSucceedsExactly | worker/src/store.ts:370-434 | no orphan of the source is left exactly when no save to be removed has a note; otherwise nothing changes |
| Reconcile.NoOrphansLeft | worker/src/store.ts:370-434 | when the batch is accepted, no orphan of the source is left, losers leave no section or index row, survivors keep theirs |
| Reconcile.LaterOneWins | worker/src/store.ts:404-430 | when the batch is accepted, of an orphan and its rival exactly the later one is kept, ties keep the user's; all other saves stay |
| Reconcile.ReconcileKeepsDb | worker/src/store.ts:375-434 | an accepted link keeps the tables in order, the notes' references included |
| StoreRuns.RunKeepsDb | worker/src/store.ts:272-434 | over any run of pushes, links and notes added or removed: one save per key, every reference resolved, one index row per stored section with its text |
| StoreRuns.RunKeepsOwners | worker/src/index.ts:1824-1901 | over any such run only saves that belong to someone have notes |
| StoreRuns.DisplayInRun | worker/src/store.ts:76-84 | in every run the display name of a save is that of the latest applied push that gave one, and none if no push did; links and notes keep it |
| StoreRuns.RunKeepsNotesIndexed | worker/src/mcp/tools.ts:1919-1942 | in every run the index has exactly one row for every note, under the note's save, and no other about notes |
| StoreRuns.LinkSucceedsInRunExactly | worker/src/store.ts:370-434 | in every run a link leaves no orphan of its source exactly when no newer orphan would replace a save of the user that has a note; otherwise the tables do not change |
| StoreRuns.LinkCanBeRefused | worker/src/store.ts:413-433 | a run from the empty tables at whose end a link is refused: the newer copy stays an orphan, the stale one the user's |
| SyncRuns.PushOutcome | worker/src/store.ts:272-348 | what a fresh push leaves, section by section, whether inserted, ignored or applied |
| SyncRuns.StepInv | internal/daemon/daemon.go:1227-1318 | each parse keeps the daemon's cache true of the server |
| SyncRuns.Agreement | internal/daemon/daemon.go:1320-1324 | at every point of every run each save holds every section of its latest parse that was delivered or found unchanged, exactly, across name flips, empty names and refused sends |
| SyncRuns.AppliedExactly | worker/src/store.ts:111-121 | after an applied push the save holds the parse and nothing else |
| SyncRuns.CopiedExactly | worker/src/store.ts:317-330 | after a parse that was not refused the save is a copy of it exactly when the push was applied or the save held no other section before |
| SyncLaws.LastParseHeld | internal/daemon/daemon.go:1320-1324 | in every run a parse whose message the connection took, or would have taken, is held with every readable section until the file is parsed again under that name |
| SyncLaws.AppliedInRun | worker/src/store.ts:62-124 | in every run an applied push leaves the save of this account, game and name with the parse's summary, time, display name and exactly its sections, and no other save touched |
| SyncRuns.IndexInStep | worker/src/store.ts:47-61 | the search index is in step at every point of every run |
| SyncRuns.Relay | internal/daemon/daemon.go:1303-1317 | the two objects, called in turn, take exactly the steps the runs are made of |
| SyncRuns.LostPushStays | internal/wsconn/client.go:209-218 | a message lost after being accepted is not made up for by the same parse |
| EditDistance.Levenshtein | cmd/pob-server/gemfuzzy.go:12-39 | the rolling rows compute the recursive distance |
| EditDistance.NotCheaper | cmd/pob-server/gemfuzzy.go:9-11 | no edit script costs less than the distance |
| EditDistance.Best | cmd/pob-server/gemfuzzy.go:9-11 | some edit script costs exactly the distance |
| EditDistance.DistanceIsShortest | cmd/pob-server/gemfuzzy.go:9-11 | the distance is the length of the shortest chain of single-letter edits |
| EditDistance.ZeroExactly | cmd/pob-server/gemfuzzy.go:12-39 | zero exactly for equal texts |
| EditDistance.Symmetric | cmd/pob-server/gemfuzzy.go:12-39 | the same in both directions |
| EditDistance.Triangle | cmd/pob-server/gemfuzzy.go:12-39 | never longer than by way of a third text |
| GemSuggest.SuggestGemNames | cmd/pob-server/gemfuzzy.go:46-80 | the loops compute the specified suggestions |
| GemSuggest.OrderIrrelevant | cmd/pob-server/gemfuzzy.go:41-45 | the suggestions do not depend on the order of the names |
| GemSuggest.LeadingBest | cmd/pob-server/gemfuzzy.go:67-78 | all suggested are close enough; one left out is too far or ranks no better than any suggested |
| GemSuggest.SuggestionsMean | cmd/pob-server/gemfuzzy.go:41-80 | names of the list, close enough and the closest first, alphabetical among equals; a name left out is too far away or there was no room and none suggested is worse |
| Alphabet.LessMeans | cmd/pob-server/gemfuzzy.go:60-65 | one text is before another when it is a proper beginning of it or smaller at the first difference |
| LeafBudget.SelectBranchesToEvaluate | cmd/pob-server/audit_rank.go:304-322 | twice the limit of branches, or all of them, largest first, and none left out is larger than one selected |
| LeafBudget.SelectionUnique | cmd/pob-server/audit_rank.go:312-320 | there is only one such selection, whatever the order of the branches |
| LeafBudget.SelectionMeans | cmd/pob-server/audit_rank.go:304-322 | length, order and what may be left out, in node counts and heads |
| LeafBudget.GatherLeaves | cmd/pob-server/audit_rank.go:342-378 | terminates, takes exactly the smaller of limit and total, each branch a prefix of its leaves: all of them, or r+1 for the first k branches and r for the others |
| LeafBudget.TakenIsShares | cmd/pob-server/audit_rank.go:357-376 | the number taken is the sum of those shares |
| LeafBudget.NoStarvation | cmd/pob-server/audit_rank.go:330-334 | no branch with leaves left is more than one behind another, nor behind a later one |
| LeafBudget.RoundsGrow | cmd/pob-server/audit_rank.go:357-376 | what is taken is a prefix of the full round-robin order, whatever the limit |
| LeafBudget.SharesMean | cmd/pob-server/audit_rank.go:357-376 | each branch is filed with its leading leaves: all of them, or one per round it took part in |
| LeafBudget.TakenInTurn | cmd/pob-server/audit_rank.go:357-376 | leaf j of a branch is taken in round j, branch by branch, and everything before the point where the budget ran out is taken |
| DeltaMemo.DeltaStore.PutDeltasBatch | cmd/pob-server/store.go:340-373 | all rows are upserted, or none when the transaction fails |
| DeltaMemo.DeltaStore.GetDeltasBatch | cmd/pob-server/store.go:378-445 | exactly the stored rows asked for, and the others in the caller's order |
| NearbyFilter.PassingCandidates | cmd/pob-server/nearby_filter.go:58-78 | exactly the candidates that pass every gate, in their order |
| NearbyFilter.FilterByModIndex | cmd/pob-server/handler.go:1252-1267 | exactly those that can affect the leading metric, all of them without an index or a metric |
| DeltaRequests.MergeDeltaMaps | cmd/pob-server/handler.go:1310-1326 | the union, fresh values winning |
| DeltaRequests.Server.SplitByCache | cmd/pob-server/handler.go:1274-1306 | the memoised rows, and the nodes with any metric missing; everything when the memo is unusable |
| DeltaRequests.Server.Perturb | cmd/pob-server/power_report.go:159-221 | answer and table after an adding request, for every pattern of failures |
| DeltaRequests.Server.RunNearbyPerturb | cmd/pob-server/handler.go:1159-1244 | the same for the candidates that the mod index lets pass |
| DeltaRequests.Server.RunAuditPerturb | cmd/pob-server/audit.go:713-760 | the same for a removing request with its branch deltas |
| DeltaRequests.StepSound | cmd/pob-server/audit.go:708-712 | a request of the kind its nodes have keeps every row true, and its answer is the full recomputation |
| DeltaRequests.WriteSound | cmd/pob-server/handler.go:1234-1242 | what a request writes after others have written is still true |
| DeltaRequests.Invisible | cmd/pob-server/handler.go:1153-1158 | over any interleaving of the reads and writes of such requests each answer is the full recomputation, whatever was memoised |
| DeltaRequests.Remembered | cmd/pob-server/audit.go:751-757 | with the store working every delta that an answered request reported is in the table afterwards, and no row it did not ask about is touched |
| DeltaRequests.RepeatIsFree | cmd/pob-server/handler.go:1202-1212 | an adding request that asks for nothing new is answered without the calculation |
| MemoOrigins.LeavesAllocated | cmd/pob-server/audit.go:281-309 | every node an audit removes on its own is a node of the allocated graph |
| MemoOrigins.MadeProper | cmd/pob-server/nearby_filter.go:58-61 | requests as the program makes them add unallocated nodes only and remove allocated ones only |
| MemoOrigins.KeysDisjoint | cmd/pob-server/nearby_filter.go:58-61 | an adding and a removing request for one build share no node |
| MemoOrigins.MemoInvisible | cmd/pob-server/handler.go:1153-1158 | over any interleaving of the reads and writes of nearby searches, power reports and audits, over any builds and with any failures, each answer is the full recomputation, whatever was memoised |
| MemoOrigins.CandidatesAnswer | cmd/pob-server/nearby_filter.go:58-78 | exactly the candidates that pass every gate have deltas, those of adding the node |
| MemoOrigins.AuditAnswer | cmd/pob-server/audit.go:297-312 | exactly the leaves of the two plans have deltas, those of removing the node, and every selected branch has its own, tree before ascendancy |
| MemoOrigins.AuditSplit | cmd/pob-server/audit.go:487-518 | split where the tree's branches end, the branch deltas are each scope's own, in order |
| MemoOrigins.AuditFails | cmd/pob-server/audit.go:722-740 | an audit fails exactly when there is something to remove and no message gets through |
| MemoOrigins.AnswersInRun | cmd/pob-server/handler.go:1153-1158 | in every interleaving every search, report and audit is answered so, whatever was memoised |
| MemoOrigins.ServeCandidates | cmd/pob-server/handler.go:1077-1090 | filtering and serving candidates makes such a request and answers it: the candidates worth trying with their deltas |
| MemoOrigins.PlanScope | cmd/pob-server/audit.go:281-295 | segmenting, selecting and gathering give the largest branches of the scope and their leaves in turn up to the limit |
| MemoOrigins.ServeAudit | cmd/pob-server/audit.go:281-312 | both scopes together make such a request and have it answered: each leaf and each selected branch with its own delta |
| DeltaRequests.SharedKeyLeaks | cmd/pob-server/audit.go:708-712 | were one node of a build asked for both ways, the second answer would be the first one's delta |
| DeltaRequests.BranchDeltasAligned | cmd/pob-server/audit.go:471-518 | each scope gets the deltas of its own branches, in order, empty where too few were reported |
| BuildDiff.Tally | cmd/pob-server/compare.go:1455-1470 | each mod is counted once per build |
| BuildDiff.DedupSorted | cmd/pob-server/compare.go:1498-1510 | strictly ascending, with the same elements |
| BuildDiff.ComputeGearModsDiff | cmd/pob-server/compare.go:1454-1493 | the common list is the sorted intersection, each build's list what it has beyond it, for any number of builds |
| BuildDiff.HavingAll | cmd/pob-server/compare.go:1471-1476 | a tally equal to the number of builds means presence in all |
| BuildDiff.ModsPartition | cmd/pob-server/compare.go:1447-1453 | common and own list together are the build's mods, with nothing in both |
| BuildDiff.DiffMeans | cmd/pob-server/compare.go:1454-1493 | what all builds have is common, a build's own list has what some other build has not, each once and in alphabetical order |
| BuildDiff.ModsDiffUnique | cmd/pob-server/compare.go:1471-1477 | there is one such diff, whatever order the tally is walked in |
| BuildDiff.OwnListsAreUniqueExactly | cmd/pob-server/compare.go:318-326 | the own lists are the unique mods exactly when no mod is shared by some builds but not all |
| BuildDiff.SharedModListedTwice | cmd/pob-server/compare.go:321-325 | three builds for which two own lists hold the same mod |
| TreeDiff.ComputeTreeDiff | cmd/pob-server/compare.go:1137-1159 | no diff exactly with fewer than two successes or one without a tree; otherwise the common nodes and, slot by slot, the nodes no other success has |
| TreeDiff.CommonAllocatedNodes | cmd/pob-server/compare.go:1177-1202 | the nodes of all successes, ascending, named as in the first |
| TreeDiff.UniqueAllocatedNodesPerBuild | cmd/pob-server/compare.go:1212-1254 | slot i of the request holds what no other successful entry has, for any pattern of failed slots |
| TreeDiff.AtPlace | cmd/pob-server/compare.go:1235-1252 | the running counter is the entry's place among the successes |
| TreeDiff.OthersAreOthers | cmd/pob-server/compare.go:1258-1268 | being in no other set means being in no other successful entry |
| TreeDiff.SlotMeans | cmd/pob-server/compare.go:1212-1254 | a build's list in terms of the entries: exactly its nodes that no other success has, by ascending id; empty for a failed build |
| TreeDiff.CommonMeans | cmd/pob-server/compare.go:1177-1202 | the common list in terms of the entries: the ids that every success has, once each, named as in the first success |
| TreeDiff.ListsDisjoint | cmd/pob-server/compare.go:345-360 | lists of different builds share no node and none holds a common node |

## Left out

- Segmentation.SegmentGraph: the textual branch id is not carried; it is determined by anchor and head.
- GvasReader.ParseBytes: the counts of custom versions and of gameplay tags are not limited before a list of that size is allocated, and neither is the tag size of text, unknown and binary struct values (up to 4 GiB) before a buffer of that size is; running out of memory there is not modelled, and the model goes on to find that the input is too short. Error values carry no message text or context path, and reading from a stream that fails other than by ending is not modelled.
- GvasNesting.AnyDepthIsRead: does not model the stack, which at a great enough depth overflows and ends the program.
- GvasDecode.Properties: floats are raw bit patterns; the lookup helpers in `types.go` and map-key lookup are not modelled.
- ProcessPool.LockedPool.AcquireForBuild: the aliveness of processes and the clock are parameters. The object has no timers; `PoolSystem` has both kinds, with the lengths of time left open.
- ProcessPool.LockedPool.Release: the last-loaded build id of a process and its handshake with the Lua side are not modelled.
- DaemonSync.Daemon.PushState: sections are listed in some order without repetition rather than sorted by name; JSON decoding and protobuf conversion either succeed unchanged or skip the section; a section that converts but cannot be serialised for hashing is not modelled.
- DaemonSync.Daemon.ParseAndPush: running the plugin, the parse-completed message and logging are not modelled.
- SyncRuns.Agreement: a file belongs to one game; the server's own checks before storing a push are not modelled; times are integers.
- SaveStore.Store.StorePush: an account is present or absent; the empty account id, which the code treats as absent, is not modelled. The section data is its JSON text.
- SaveStore.Store.InsertNewSave: the two database calls of an insert are taken as one; a failure between them is not modelled.
- SaveStore.Store.ReconcileOrphanSaves: the lookup key joins game and name with a NUL character; it is modelled as the pair. The build snapshots that go with a deleted save are not modelled.
- StoreRuns.RunKeepsDb: editing notes, the limits on their number and size, and who may add them are not modelled, nor is the deletion of saves, which removes their notes first. The two database calls that add or remove a note are taken as one.
- DeltaRequests.Server.RunNearbyPerturb: the mod-source index is a parameter, any test of a candidate against a metric; values are real numbers.
- DeltaRequests.Server.Perturb: the method serves one request with nothing in between; the accesses of other requests between its read and its write are part of `DeltaRequests.Run`, which uses the two halves of its contract, `Answers` and `Writes`.
- MemoOrigins.ServeCandidates: checking and defaulting the requested categories is not modelled.
- GemSuggest.SuggestGemNames: lower-casing and the width of a text in bytes are parameters.
- LeafBudget.SelectBranchesToEvaluate: doubling the limit does not overflow.
- Post-push hooks, source timestamps, display of game names and provider credentials in the server store.
- HTTP handlers, request validation, trade links, the other build diffs (summary, skills, config, modifier sources), floating-point ranking.
- Process start and pipes, the Lua wrapper, SQLite and D1 themselves, hashing, signatures and compression.
- File watching, configuration, discovery, self-update, the WebSocket client, the tray supervisor and all web views.
