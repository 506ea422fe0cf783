# Bedrock: a verified model of its core

Bedrock is a deterministic x86 hypervisor whose virtual machines can be forked copy-on-write. A
kernel module keeps guest memory behind extended page tables (EPT) and lets many threads create,
fork, run and close VMs; a user-space lab builds a tree of checkpoints on top and replays inputs
into branches; small guest programs talk to the host over shared pages. This project models the
parts of that system where correctness spans several functions or several parties, and proves what
they promise.

`dafny verify dfyconfig.toml` checks everything.

## How the model is laid out

| files | what they model |
|---|---|
| Addressing, EptEntry, EptTable, EptTree, EptMap, Counting, EptClone, EptPerms, EptRuns, EptLastWrite, EptPageTable | The 4-level page table in raw 4 KB frames. `EptTable` has the operations over decoded memory; `EptPageTable` has the classes that store 64-bit words through physical addresses, proved equal to them; `EptRuns` has arbitrary runs over many tables in one memory. |
| ForkProtocol, ForkInvariant, ForkSteps, ForkSupport, ForkResults, Handler | Creating, forking, running, closing and destroying VMs by any number of threads, as a transition system with one step per lock region or atomic access, each failure exit included. |
| CowMemory, CowResults, CowMachine, ForkMemory | Guest memory under copy-on-write: the EPT view, the slow rule "own page, else ask the parent", the fault handler and the buffers mapped to user space. `ForkMemory` runs this memory under the protocol above. |
| LabTree, LabRewind, LabGraph, LabReplay | The checkpoint tree, its two hash maps, rewinding, which inserts checkpoints into the middle of ancestry chains, and where the replay of a rewind may end. |
| Scheduler, SchedulerPaths, SchedulerSources, BranchRunner, IoQueue, GuestDelivery, GuestChannel, Replay | Injecting timed I/O actions over runs, checkpoints and forks; branches with a source of their own; the VM's request queue, what reaches the guest, and whole paths driven through the queue with the requests as they are encoded; recording and replay. |
| BashWire, ShellLexer, BashCommand, IoWorkers, IoExchange, BashEndToEnd | Bash requests: host encoding, guest parsing, shell quoting against a POSIX lexer (XCU sections 2.2.1, 2.2.2 and 2.3), and concurrent guest workers sharing one page. |
| FileFetch, Events, EventBuffer, Console, ConsolePath, ConsoleForks | Chunked file transfer over one reused buffer, the event stream, console batching and line reassembly, and the whole path from a guest write to a host line, across forks and through the bytes of the event buffers. |
| Decoder | The MMIO instruction decoder against the encoding tables of the Intel SDM, volume 2A, sections 2.1.3, 2.1.5 and 2.2.1. |
| Options, WireBytes | Shared helpers. |

Code that only computes is modelled by functions. Code that works by changing things is modelled by
classes and methods, each proved against a specification function or an outright property.
Interleavings are modelled by transition systems, and the results are about every reachable state or
every run.

## Where the code does less than expected

Each of these is stated as an exact condition, with a lemma or method that reaches a case where it
fails.

- A RUN checks for children only on entry and a fork never looks at the running flag, so a fork can
  start under an executing VM: `ForkDisturbsExactly`, `ForkMayDisturbRun`.
- `map_4k` leaves existing upper-level entries alone, so `lookup` can report a permission the
  processor withholds. The two agree after a mapping exactly when the entries already present on its
  path grant what it asks for, and throughout a run exactly when that held for every operation:
  `MapAgreesExactly`, `EptRuns.HardwareAgreesExactly`, `MixedPermsDisagree`.
- A mapping without permissions unmaps its page, and the tables it allocates are never linked; a
  clone then has fewer frames than its source: `Map4kUnmaps`, `FrameCount`.
- The rule "own copy-on-write page, else ask the parent" does not answer for a partial last page,
  although the EPT maps it: `EptReadsAgree`, `PartialPageIsMapped`.
- The documentation says that a checkpoint keeps its ancestors alive. The references from the
  registry and from a checkpoint to its replay parent are weak, so a dropped checkpoint hides live
  ancestors from a rewind: `NearestLiveFoundExactly`, `DeadCheckpointHidesAncestor`.
- A stop time of zero means "off". An action at time zero behind actions that are all due by the
  target therefore lets a VM that keeps every stop it is given run to any time:
  `NeverPassesExactly`, `ReplayMayRunAnywhere`, `OverdueStreamPasses`.
- A rewind ignores how its replay ended. The tree stays ordered exactly when the replay stopped in
  the gap, hence in every case exactly when no such action is ahead: `InsertedOrdered`,
  `ReplayOrderExactly`, `RewindBreaksOrder`. The same rewind again finds the checkpoint it made
  exactly when the replay ended at the target: `RewindAgainExactly`, `EarlyReplaysInsertTwice`.
- Actions are queued at exactly their times only if the stream is in order, not overdue, and its
  second action is not at time zero: `PunctualExactly`, `IrregularPath`, `ZeroTimeLosesPunctuality`.
- A branch with its own input source inherits the old pending action and the exhausted flag:
  `OwnSourceExactly`, `SilentExactly`, `InheritedActionIsQueued`.
- A fork of a VM drops requests that were queued and not yet fetched, and a refused action is gone:
  `NothingLostExactly`, `GuestGetsFrontExactly`, `ForkDropsAction`, `ForkLosesRequest`. An empty
  request behind others stalls the queue: `IoQueue.IoChannel.GetRequest`, `EmptyRequestStalls`.
- A replay delivers other bytes to a request of another length: `AnswersExactly`.
- A truncated capture of a container request can decode as a request to the guest host or to another
  container: `CutTargetExactly`, `CutChangesTarget`.
- A request that fits the page can be too long for the command buffer once its quotes are escaped:
  `LineLength`, `FitsPageNotBuffer`.
- An event staged because the buffer was full can be overtaken by a later, smaller one, and a second
  event that does not fit is lost: `EmittedLastExactly`, `FaithfulExactly`, `OvertakenAndLost`. A
  fork takes over no event of its parent's buffer: `PathReadExactly`, `ForkLosesEvents`.
- Worker numbers come from a 32-bit counter. Two live workers share a capture file exactly when a new
  one takes a number that is in use: `DistinctExactly`, `CounterIdsAreFresh`.
- The decoder reports AH, CH, DH and BH as registers 4 to 7: `RegisterIsExact`, `HighByteIsMisread`.
  It keeps the length in 8 bits: `ReliableExactly`, `LengthWraps`.

## Model

| member | source | states |
|---|---|---|
| Addressing.SamePathIffSamePage | crates/bedrock-memory/src/addr.rs:35-52 | the four 9-bit indices of two addresses agree exactly when address bits 47:12 agree |
| EptPageTable.SamePathIffSamePageNumber | crates/bedrock-memory/src/addr.rs:35-52 | the same for the paths a table walk takes |
| EptPageTable.DecodeTableEntry | crates/bedrock-ept/src/entry.rs:51-80 | a table entry reads back the frame and permissions written, and reads back as absent when it has no permission |
| EptPageTable.DecodePageEntry | crates/bedrock-ept/src/entry.rs:59-80 | a leaf reads back bits 51:12 of the host address and its permissions, whatever the memory type bits |
| EptPageTable.TranslateIsMapLookup | crates/bedrock-ept/src/table.rs:68-121 | looking up any address is looking up its page number in a plain map |
| EptPageTable.PageTable.New | crates/bedrock-ept/src/table.rs:35-50 | a new table maps nothing; it fails exactly without a free frame |
| EptPageTable.PageTable.Lookup | crates/bedrock-ept/src/table.rs:68-121 | the word-level walk returns the plain map's answer for every address |
| EptPageTable.PageTable.Map4k | crates/bedrock-ept/src/table.rs:124-154 | for any permission bits, on success the plain map changes at exactly the page of bits 47:12, to the new mapping or, without permissions, to none; on failure not at all; the tree of distinct frames is kept and only the table's own and free frames are written |
| EptPageTable.PageTable.Remap4k | crates/bedrock-ept/src/table.rs:165-220 | for any permission bits, it succeeds exactly on mapped pages, changes the plain map at that page alone and allocates nothing |
| EptPageTable.PageTable.CloneForFork | crates/bedrock-ept/src/table.rs:298-459 | the word-level four-level copy gives a fork in the sense of `CloneIsFork`, fails exactly when the pool has fewer frames than the source has tables, and then gives every frame back |
| EptTree.EachTableReferencedOnce | crates/bedrock-ept/src/table.rs:246-283 | in a well-formed table no two entries refer to the same table |
| EptMap.Map4kUpdatesOnePage | crates/bedrock-ept/src/table.rs:124-154 | for any permissions, on success one page changes and no other; running out of frames at any level changes no translation; the tree invariant is kept either way |
| EptMap.Map4kFailsExactly | crates/bedrock-ept/src/table.rs:124-154 | for any permissions, it fails exactly when the pool holds fewer frames than the path is missing tables |
| EptMap.Map4kUnmaps | crates/bedrock-ept/src/table.rs:246-283 | a mapping without permissions unmaps its page; the tables it allocates stay with the table unlinked |
| EptMap.RetryForgetsFailure | crates/bedrock-ept/src/table.rs:246-283 | a failed call retried with as many frames as the path was missing succeeds and gives the translations it would have given had the first never happened |
| EptMap.Remap4kUpdatesMappedPage | crates/bedrock-ept/src/table.rs:165-220 | for any permissions, remapping succeeds exactly on mapped pages, changes that page alone and allocates nothing |
| EptClone.CloneIsFork | crates/bedrock-ept/src/table.rs:298-459 | the clone maps exactly the source's pages to the same host frames, read-execute only; the source is unchanged; the frames are disjoint and as many as the source has tables |
| EptClone.CloneFailsExactly | crates/bedrock-ept/src/table.rs:298-459 | cloning fails exactly when the pool holds fewer frames than the source has tables |
| EptClone.TablesAreAttached | crates/bedrock-ept/src/table.rs:246-288 | the tables that walks from the root can reach are exactly the attached frames of the table |
| EptClone.ForkFailsExactly | crates/bedrock-ept/src/table.rs:298-459 | cloning fails exactly when the pool holds fewer frames than there are tables walks can reach |
| EptClone.FailedCloneLeavesNoTrace | crates/bedrock-ept/src/table.rs:298-459 | a failed clone returns every frame in order and has written nothing but free frames |
| EptClone.FrameCount | crates/bedrock-ept/src/table.rs:286-288 | a table has exactly as many frames as tables, and so a fork as many frames as its source, unless frames are detached |
| EptPerms.HardwareAgreesWithLookup | crates/bedrock-ept/src/table.rs:120-121 | with full upper-level permissions the AND over four levels is what `lookup` reports, on mapped and unmapped pages |
| EptPerms.AgreesExactly | crates/bedrock-ept/src/table.rs:68-121 | in any table the processor and `lookup` agree on a page exactly when it is unmapped or each of the three upper-level entries on its path grants all the leaf grants |
| EptPerms.MapAgreesExactly | crates/bedrock-ept/src/table.rs:124-154 | after a `map_4k` with enough frames the processor grants exactly what was asked for if and only if every upper-level entry present before on the path grants it |
| EptPerms.MapKeepsAgreement | crates/bedrock-ept/src/table.rs:124-154 | on every other page, and on all pages if the call fails, the two agree afterwards exactly when they did before |
| EptPerms.RemapAgreesExactly | crates/bedrock-ept/src/table.rs:165-220 | the same condition for `remap_4k` of a mapped page |
| EptPerms.ForkAgreesExactly | crates/bedrock-ept/src/table.rs:298-459 | in a fork the two agree on a page exactly when it is unmapped or the source's upper-level entries grant read and execute |
| EptPerms.MixedPermsDisagree | crates/bedrock-ept/src/table.rs:246-283 | two mappings with different permissions after which `lookup` and processor disagree |
| EptPerms.CloneKeepsUniform | crates/bedrock-ept/src/table.rs:343-449 | a clone's upper levels grant everything when the source's do |
| EptRuns.StepKeepsInv | crates/bedrock-ept/src/table.rs:124-459 | with many tables in one memory and any permissions, every operation keeps them all well formed and changes neither translation nor agreement of a page it does not touch, in any table |
| EptRuns.RunKeepsUntouchedPage | crates/bedrock-ept/src/table.rs:124-459 | over any run, a translation and the processor's agreement with it survive whatever is done to other pages and other tables |
| EptRuns.HardwareAgreesAfterEveryRun | crates/bedrock-ept/src/table.rs:120-459 | from an empty world, after any run whose mappings grant everything, processor permissions equal what `lookup` reports on every page of every table |
| EptRuns.StepAgreesExactly | crates/bedrock-ept/src/table.rs:120-459 | from agreement everywhere, an operation with any permissions leaves agreement everywhere exactly when the upper-level entries on its path granted it before |
| EptRuns.HardwareAgreesExactly | crates/bedrock-ept/src/table.rs:120-459 | from an empty world, for runs with any permissions, the two agree on every page of every table throughout exactly when every operation was granted |
| EptLastWrite.LastWriteDecides | crates/bedrock-ept/src/table.rs:124-459 | on one page the last operation that wrote it decides, a mapping, a remapping or the fork that made the table: what `lookup` reports from then on, and that the processor agrees exactly when the entries present on the path granted what was asked; whatever other pages and tables go through before and after |
| EptRuns.ForkReadOnlyUntilRemapped | crates/bedrock-ept/src/table.rs:298-459 | after a fork no run with any permissions makes a page of it writable before that page is mapped or remapped in the fork itself |
| ForkSupport.StepKeepsInv | crates/bedrock/bedrock_main.rs:126-315 | every step of every thread keeps the protocol invariant: exact counts, live parents, distinct ids, one owner per raw pointer |
| ForkResults.CountsAreExact | crates/bedrock/bedrock_main.rs:207-315 | in every interleaving, failure exits included, `children_count` is the live children plus the forks in flight and the reference count is the references that exist |
| ForkResults.RunPassesExactlyWhenChildless | crates/bedrock/vm_file/handlers.rs:164-208 | a RUN passes its check exactly when the VM has no live child and no fork in flight, alone on its VM; otherwise it leaves the flag clear |
| ForkResults.ForkMayDisturbRun | crates/bedrock/bedrock_main.rs:207-315 | a reachable state in which a fork starts under an executing VM |
| ForkResults.ForkDisturbsExactly | crates/bedrock/vm_file/handlers.rs:164-208 | a step makes an executing VM have children exactly when it starts a fork of an executing VM |
| ForkResults.GuardedRunsAreUndisturbed | crates/bedrock/vm_file/handlers.rs:164-208 | without such forks no VM ever executes with a child or a fork in flight |
| ForkResults.AncestorsAreLive | crates/bedrock/vm_file/core.rs:124-140 | the whole ancestor chain of a live VM is live and referenced, ids decrease strictly along it and it ends |
| ForkResults.ReapTakesNoAncestor | crates/bedrock/vm_file/forked.rs:146-182 | no destruction takes an ancestor of a VM that stays alive |
| ForkResults.ForkIsYounger | crates/bedrock/bedrock_main.rs:207-315 | a VM being forked gets a larger id than its parent has |
| ForkResults.EveryVmIsRooted | crates/bedrock/vm_file/forked.rs:146-182 | every live VM has a descendant, possibly itself, with an open descriptor or a thread at work |
| ForkResults.QuiescentIsEmpty | crates/bedrock/vm_file/forked.rs:146-182 | when all descriptors are closed and all calls have returned, no VM is left |
| ForkResults.FindIsExact | crates/bedrock-vmx/src/handler.rs:152-165 | lookup by id finds exactly the listed VM with that id |
| ForkResults.IdNamesOneVm | crates/bedrock-vmx/src/handler.rs:112-165 | whatever follows, only the VM given an id ever carries it |
| ForkResults.IdIsNeverReused | crates/bedrock-vmx/src/handler.rs:112-165 | once the VM is gone its id is never carried or found again |
| ForkResults.CounterOnlyGrows | crates/bedrock-vmx/src/handler.rs:112-119 | over any run the id counter never goes back |
| Handlers.Handler.constructor | crates/bedrock-vmx/src/handler.rs:91-102 | the handler starts in the protocol's initial state |
| Handlers.Handler.AllocVmId | crates/bedrock-vmx/src/handler.rs:105-119 | an id exactly when the list is not full, and then one that no listed VM has; no listed id ever reaches the counter |
| Handlers.Handler.AddVm | crates/bedrock-vmx/src/handler.rs:121-137 | a VM added under a new id is found by it, and every other id finds what it found before |
| Handlers.Handler.Register | crates/bedrock/bedrock_main.rs:162-217 | allocating and adding: the VM is found under an id that found nothing before, and no other id is affected |
| Handlers.Handler.RemoveVm | crates/bedrock-vmx/src/handler.rs:143-146 | the filtering loop removes exactly the entries of that VM and keeps the order; the ids stay below the counter |
| Handlers.Handler.FindVmById | crates/bedrock-vmx/src/handler.rs:152-165 | the loop finds the protocol's first entry with that id |
| CowMemory.CowIsInvisible | crates/bedrock-vmx/src/vm/forked.rs:388-482 | copying a page changes no VM's view of any page, by the EPT or by the slow rule |
| CowMemory.WriteIsLocal | crates/bedrock-vmx/src/vm/forked.rs:345-386 | a write shows on its own page of its own VM and nowhere else, by either route |
| CowMemory.ForkViews | crates/bedrock/bedrock_main.rs:207-315 | a new fork sees what its parent sees, by either route; no other view moves |
| CowResults.StepKeepsInv | crates/bedrock-vmx/src/vm/forked.rs:388-759 | every memory step keeps ownership: each frame is one VM's copy of one page and each mapping is backed by the VM or an ancestor |
| CowResults.ReadPageDefined | crates/bedrock-vmx/src/vm/forked.rs:696-707 | the slow rule answers exactly for the pages wholly inside the root's memory |
| CowResults.EptReadsAgree | crates/bedrock/vm_file/forked.rs:280-360 | in every reachable state and on every mapped page the EPT view equals the slow rule exactly when the page lies wholly inside memory; otherwise the rule gives nothing |
| CowResults.PartialPageIsMapped | crates/bedrock-vmx/src/vm/root.rs:260-271 | a reachable root whose only, partial page is mapped and not answered for by the slow rule |
| CowResults.ForkWritesItsOwnCopy | crates/bedrock-vmx/src/vm/forked.rs:388-482 | a whole page, a fork, a fault and a write: fork and root see different bytes, by both routes |
| CowResults.EptFramesAreOwned | crates/bedrock-vmx/src/vm/forked.rs:388-482 | every mapped frame is that page of the VM itself or of a live ancestor |
| CowResults.SharedFrames | crates/bedrock-vmx/src/vm/forked.rs:388-482 | VMs that share a frame share it at one page, below one owner, and only the owner may write it |
| CowResults.OnlyOwnWritesShow | crates/bedrock-vmx/src/vm/forked.rs:388-482 | over any run, only a VM's own writes to a page change what it reads there |
| CowResults.ForkIsSnapshot | crates/bedrock-vmx/src/vm/forked.rs:106-252 | until it writes the page itself, a fork reads what its parent had when forked, whatever anyone does |
| CowResults.MappingNeverGoesStale | crates/bedrock/vm_file/forked.rs:280-360 | once a page is the VM's own, a user-space mapping of its frame stays the frame the guest writes |
| ForkMemory.ProtocolProtectsMemory | crates/bedrock/vm_file/handlers.rs:164-208 | in every interleaving without forks of executing VMs the protocol admits no memory step that copy-on-write forbids, so memory is always in a state the results above cover |
| ForkMemory.ChainIsAncestry | crates/bedrock/vm_file/core.rs:124-140 | the memory chain of a VM is its chain of live ancestors |
| ForkMemory.EptFramesAreLive | crates/bedrock/vm_file/core.rs:124-140 | in whatever order descriptors are closed, each host page in a live VM's EPT belongs to it or to a live ancestor |
| ForkMemory.RootIsBuilt | crates/bedrock/bedrock_main.rs:126-187 | a root VM with memory is reached by the protocol's own steps |
| CowMachine.SamePageSameKey | crates/bedrock-vmx/src/cow.rs:28-78 | addresses on one page give one key of the copy-on-write map |
| CowMachine.SameKeySamePage | crates/bedrock-vmx/src/cow.rs:28-78 | one key means one page: the key carries bits 63:12 |
| CowMachine.CowPageMap.Get | crates/bedrock-vmx/src/cow.rs:52-55 | any address of a page finds the page |
| CowMachine.CowPageMap.Contains | crates/bedrock-vmx/src/cow.rs:75-78 | true exactly when some page holds the address |
| CowMachine.CowPageMap.Insert | crates/bedrock-vmx/src/cow.rs:66-72 | afterwards every address of that page and no other finds the new page; the count follows the keys |
| CowMachine.Machine.HandleCowFault | crates/bedrock-vmx/src/vm/forked.rs:388-482 | a fault copies once, is seen by no VM and fails exactly without a frame, outside the root's memory or on an unmapped page |
| CowMachine.Machine.CowFeedbackBuffer | crates/bedrock-vmx/src/vm/forked.rs:488-573 | the buffer's pages become the VM's own as far as frames last; pages already owned keep their frame; no view changes |
| CowMachine.Machine.ResolvePages | crates/bedrock/vm_file/forked.rs:317-360 | the host pages mapped are the slow rule's, all of them or none |
| LabTree.TreeIsAcyclic | crates/bedrock-lab/src/inner.rs:78-117 | no checkpoint of an ordered tree is its own ancestor, so both walks end |
| LabTree.ReparentedOrdered | crates/bedrock-lab/src/inner.rs:94-107 | moving a checkpoint keeps the order exactly when the new parent precedes it |
| LabTree.InsertedOrdered | crates/bedrock-lab/src/checkpoint.rs:398-412 | an insertion keeps the order exactly when the replay ended in [best, child) |
| LabTree.InsertionKeepsAncestry | crates/bedrock-lab/src/checkpoint.rs:398-412 | an insertion keeps every old ancestor relation and adds none; the new node is above exactly the child's side and below exactly the ancestor's |
| LabRewind.NearestIsLatest | crates/bedrock-lab/src/checkpoint.rs:382-426 | the first checkpoint at or before the target on the walk is the latest such, equal times decided by id |
| LabRewind.NearestLiveFoundExactly | crates/bedrock-lab/src/checkpoint.rs:360-426 | the walk finds the nearest live ancestor at or before the target exactly when nothing dead lies between, and otherwise finds nothing |
| LabRewind.DeadCheckpointHidesAncestor | crates/bedrock-lab/src/checkpoint.rs:360-426 | two checkpoints and a drop reach a tree in which the dropped one hides a live one |
| LabRewind.GapSplits | crates/bedrock-lab/src/checkpoint.rs:398-440 | the gap a rewind fills has a child on the walk directly under the nearest ancestor, so the fallback to the starting checkpoint is not needed |
| LabRewind.RewindAgainExactly | crates/bedrock-lab/src/checkpoint.rs:382-446 | after a rewind whose replay ended anywhere in its gap, the same rewind finds the checkpoint it made if and only if the replay ended at exactly the target; otherwise it fills the gap above or below it |
| LabRewind.EarlyReplaysInsertTwice | crates/bedrock-lab/src/checkpoint.rs:382-446 | two rewinds to the same target whose replays end early leave two checkpoints, neither at the target |
| LabRewind.HistoryKeepsAncestry | crates/bedrock-lab/src/checkpoint.rs:382-440 | over every history of checkpoints, drops and rewinds, the replays ending before, at or after their targets but in the gap, the tree stays ordered and no old checkpoint gains or loses an old ancestor |
| LabGraphs.LabGraph.constructor | crates/bedrock-lab/src/inner.rs:55-66 | the empty graph is valid |
| LabGraphs.LabGraph.RegisterCheckpoint | crates/bedrock-lab/src/inner.rs:78-92 | registration adds one node and keeps the children index the exact inverse of the parent map |
| LabGraphs.LabGraph.Release | crates/bedrock-lab/src/inner.rs:109-117 | dropping a checkpoint only makes it unreachable for upgrades |
| LabGraphs.LabGraph.Reparent | crates/bedrock-lab/src/inner.rs:94-107 | a live child moves in both maps, which stay exact inverses |
| LabGraphs.LabGraph.RewindCandidates | crates/bedrock-lab/src/checkpoint.rs:414-426 | the cursor loop collects exactly the walk's checkpoints at or before the target, in order |
| LabGraphs.LabGraph.LogicalChildAfter | crates/bedrock-lab/src/checkpoint.rs:428-440 | the loop finds the node of the walk just above the gap |
| LabGraphs.LabGraph.FindAt | crates/bedrock-lab/src/checkpoint.rs:382-398 | the first candidate at exactly the target, none exactly when there is none |
| LabGraphs.LabGraph.Latest | crates/bedrock-lab/src/checkpoint.rs:382-398 | the maximum by time, then id |
| LabGraphs.LabGraph.Choose | crates/bedrock-lab/src/checkpoint.rs:382-398 | the checkpoint at the target or the nearest before it, or the proof that the walk has none |
| LabGraphs.LabGraph.InsertBetween | crates/bedrock-lab/src/checkpoint.rs:398-412 | registering and moving amount to one insertion, in both maps |
| LabGraphs.LabGraph.Rewind | crates/bedrock-lab/src/checkpoint.rs:382-412 | all four outcomes with their exact meaning; both maps stay inverses; the tree stays ordered exactly when the replay ended in the gap |
| LabReplay.NeverPassesExactly | crates/bedrock-lab/src/branch.rs:788-872 | for every stream, sorted or not, overdue or not, and whatever the queue answers: a run by a VM that keeps its stops never passes the target exactly when no action at time zero stands behind actions that are all due by the target |
| LabReplay.ReplayKeepsOrder | crates/bedrock-lab/src/checkpoint.rs:398-412 | then the checkpoint a rewind inserts keeps the tree ordered, wherever the replay ended |
| LabReplay.ReplayOrderExactly | crates/bedrock-lab/src/checkpoint.rs:382-446 | for every gap of every tree: every replay by such a VM leaves the tree ordered if and only if no such action is ahead of the checkpoint it starts from |
| LabReplay.ReplayMayRunAnywhere | crates/bedrock/vm_file/handlers.rs:611-647 | with such an action ahead the VM may leave at any time from the target on |
| LabReplay.OverdueStreamPasses | crates/bedrock-lab/src/checkpoint.rs:160-190 | a root made well after time zero with two overdue actions is such a case |
| LabReplay.RewindBreaksOrder | crates/bedrock-lab/src/checkpoint.rs:382-412 | from an empty lab, a root at 10, a checkpoint at 30 and a rewind with such a replay leave a checkpoint later than its child |
| Scheduler.PrepareConserves | crates/bedrock-lab/src/branch.rs:804-872 | preparing loses, adds and reorders no action |
| Scheduler.RefusedIsLost | crates/bedrock-lab/src/branch.rs:804-872 | a hard queue error loses exactly the action offered |
| Scheduler.PrepareNotEarly | crates/bedrock-lab/src/branch.rs:804-872 | no action is queued before its time |
| Scheduler.LoopConserves | crates/bedrock-lab/src/branch.rs:598-662 | a whole run conserves the stream in order and queues nothing early |
| SchedulerPaths.PathConserves | crates/bedrock-lab/src/branch.rs:977-1008 | along any path of runs, checkpoints and forks without a refusal, queued ++ pending ++ source is the original stream |
| SchedulerPaths.QueuedIsPrefix | crates/bedrock-lab/src/branch.rs:598-662 | from a fresh start the queued actions are a prefix of the stream |
| SchedulerPaths.ExhaustedQueuesNothing | crates/bedrock-lab/src/checkpoint.rs:326-353 | a checkpoint that had run dry silences every source given to its branches |
| SchedulerPaths.LoopPunctual | crates/bedrock-lab/src/branch.rs:598-662 | with a VM that keeps to its stops and a second action not at time zero, a run queues each action at exactly its time and ends at or before its target |
| SchedulerPaths.PathPunctual | crates/bedrock-lab/src/branch.rs:598-662 | the same along every path of runs, checkpoints and forks |
| SchedulerPaths.PunctualExactly | crates/bedrock-lab/src/branch.rs:804-872 | for every stream and every state: every path of every VM that keeps to its stops is punctual if and only if what was queued was on time, what is ahead is in order and not overdue, and the second action ahead, if any, is not at time zero |
| SchedulerPaths.IrregularPath | crates/bedrock-lab/src/branch.rs:804-838 | with an action out of order or overdue, or one queued late already, there is a path of such a VM with an action queued late |
| SchedulerPaths.ZeroTimeLosesPunctuality | crates/bedrock/vm_file/handlers.rs:611-647 | for an orderly stream whose second action is at time zero, with any target, such a VM may run to any time before that action is queued |
| SchedulerSources.BranchQueues | crates/bedrock-lab/src/checkpoint.rs:322-353 | along any path a branch with its own source queues nothing if the old one had run dry, else the inherited action, if any, and then its own stream from the start |
| SchedulerSources.OwnSourceExactly | crates/bedrock-lab/src/checkpoint.rs:326-353 | it queues only its own stream on every path if and only if the checkpoint had nothing pending |
| SchedulerSources.SilentExactly | crates/bedrock-lab/src/checkpoint.rs:326-353 | it queues nothing on any path if and only if the old source had run dry or there is nothing to queue |
| SchedulerSources.InheritedActionIsQueued | crates/bedrock-lab/src/checkpoint.rs:326-353 | a run, a checkpoint and a branch in which the inherited action enters a foreign stream |
| GuestDelivery.PathDelivers | crates/bedrock-vmx/src/vm_state.rs:357-408 | over runs, fetches, checkpoints and forks, settled ++ waiting ++ ahead is the stream, and what is settled stays settled |
| GuestDelivery.NothingLostExactly | crates/bedrock-vmx/src/vm_state.rs:357-369 | no action of the stream is lost on its way to the guest exactly when the queue refuses none and nothing waits at any fork of the path |
| GuestDelivery.GuestGetsFrontExactly | crates/bedrock-vmx/src/exits/vmcall.rs:459-506 | from a new branch: fetched ++ waiting ++ ahead is the stream if and only if the queue refuses nothing and nothing waits at any fork |
| GuestDelivery.ForkDropsAction | crates/bedrock-vmx/src/vm_state.rs:357-369 | a run and a fork after which the only action of the stream is lost |
| GuestChannel.Offer | crates/bedrock/vm_file/handlers.rs:778-855 | for every action, as encoded: what does not fit the buffer or finds no memory is refused, a full queue is busy, and an accepted action waits last |
| GuestChannel.FetchNext | crates/bedrock-vmx/src/exits/vmcall.rs:459-506 | the guest gets the next waiting action, as encoded, or nothing exactly when none waits |
| GuestChannel.ForkChannel | crates/bedrock-vmx/src/vm_state.rs:357-369 | the fork's channel holds what the model says: everything fetched and nothing that waited |
| GuestChannel.DriveRun | crates/bedrock-lab/src/branch.rs:598-668 | a whole run against the channel is the run of the model with the channel's own answers |
| GuestChannel.DrivePath | crates/bedrock-lab/src/branch.rs:788-872 | from a new branch, any runs, fetches and forks against the channel: it has handed out exactly what the model says the guest got, and holds exactly what waits |
| GuestChannel.FittingPathAccepted | crates/bedrock/vm_file/handlers.rs:799-816 | when every action fits the buffer and allocations succeed, the path refuses none |
| GuestChannel.FetchedParses | guest/bedrock-io/bedrock-io.c:431-493 | what the guest parses from its page is the target, command and flag that were scheduled |
| BranchRunner.Branch.PrepareNextIoInput | crates/bedrock-lab/src/branch.rs:804-872 | the method's field updates are the specified preparation, refusal included |
| BranchRunner.Branch.SetStopAt | crates/bedrock-lab/src/branch.rs:414-426 | the VM ends up with the stop asked for although it is only told when the cached value differs |
| BranchRunner.Branch.RunTo | crates/bedrock-lab/src/branch.rs:598-662 | the loop over VM exits computes the specified run and outcome, and in each pass the VM has exactly the stop prepared for it |
| IoQueue.IoChannel.PromoteNextPending | crates/bedrock-vmx/src/vm_state.rs:376-395 | only a free slot is filled, from the front, and nothing accepted is lost |
| IoQueue.IoChannel.QueueIoAction | crates/bedrock/vm_file/handlers.rs:778-855 | the four results exactly, and an accepted non-empty request goes to the end of the log of all requests |
| IoQueue.IoChannel.GetRequest | crates/bedrock-vmx/src/exits/vmcall.rs:459-506 | the guest gets the slot's request, the log is conserved, and the queue stalls exactly behind an empty request |
| IoQueue.IoChannel.CloneForFork | crates/bedrock-vmx/src/vm_state.rs:357-369 | a fork's channel has lost nothing exactly when no request was waiting |
| IoQueue.ForkLosesRequest | crates/bedrock-vmx/src/vm_state.rs:357-369 | from a new channel: a request queued and gone in the fork |
| IoQueue.EmptyRequestStalls | crates/bedrock-vmx/src/vm_state.rs:376-395 | from a new channel: a request left waiting behind a free slot |
| Replay.InputRecording.RecordRandomness | crates/bedrock-lab/src/rng.rs:103-139 | the recording stays the image of all randomness records so far |
| Replay.InputRecording.RecordSignal | crates/bedrock-lab/src/rng.rs:103-139 | the recording stays the decodable requests so far, each with its time |
| Replay.RecordAndReplay | crates/bedrock-lab/src/rng.rs:103-279 | record a run and replay it, inputs interleaved in any way: the k-th request for randomness gets the recorded bytes exactly when it asks for as many, the same answer exactly when it is also of the recorded kind, requests past the end get nothing or zeros, and the inputs come back in order |
| Replay.AnswersExactly | crates/bedrock-lab/src/rng.rs:246-271 | one record delivers the bytes it was served with exactly to a request of the same length, a word counting as eight |
| Replay.SignalsAreRecorded | crates/bedrock-lab/src/rng.rs:103-139 | requests the host encoded are recorded as they were, in order, with their times |
| BashWire.GuestReadsWhatHostWrote | crates/bedrock-vm/src/io_channel.rs:87-106 | the guest parses an encoded request on a dirty page to exactly its container, command and flag |
| BashWire.DecodeRoundTrip | crates/bedrock-vm/src/io_channel.rs:120-138 | the host's decoder undoes its encoder |
| BashWire.HostAgreesWithGuest | guest/bedrock-io/bedrock-io.c:439-493 | on every page the guest accepts the host decodes the same request, though it ignores the declared length |
| BashWire.CutDecodesToPrefixes | crates/bedrock-vm/src/io_channel.rs:109-138 | any truncation decodes to prefixes of the fields with the same flag, and to nothing exactly inside the first eight bytes |
| BashWire.CutDecodesExactly | crates/bedrock-vm/src/io_channel.rs:109-138 | what an encoded request cut to n bytes decodes to, for every n |
| BashWire.CutTargetExactly | crates/bedrock-vm/src/io_channel.rs:109-138 | from which cut on it names its target, looks like a host request, names another container, or survives whole, each as an if-and-only-if |
| BashWire.CutChangesTarget | crates/bedrock-vm/src/io_channel.rs:109-138 | cuts that turn every container request into a host request and into one to another container |
| BashCommand.AppendShellQuoted | guest/bedrock-io/bedrock-io.c:187-215 | all writes in bounds; succeeds exactly when the quoted form and its NUL fit, and then appends exactly that |
| BashCommand.AppendLiteral | guest/bedrock-io/bedrock-io.c:224-237 | the same for fixed text |
| BashCommand.CommandNameIsTag | guest/bedrock-io/bedrock-io.c:254-293 | the tag's name is never empty and has no slash and no white space |
| BashCommand.CommandNameIsBasename | guest/bedrock-io/bedrock-io.c:254-293 | the name is the first token after its last slash, with the stand-in exactly when that is empty |
| BashCommand.ExtractCommandName | guest/bedrock-io/bedrock-io.c:254-293 | it succeeds exactly when name and NUL fit, and then the buffer holds them |
| BashCommand.BuildCommand | guest/bedrock-io/bedrock-io.c:315-388 | it succeeds exactly when line, NUL and name fit their buffers, and then the buffer holds the line |
| BashCommand.ShellSeesExactStrings | guest/bedrock-io/bedrock-io.c:315-388 | for any container and command, a POSIX shell lexes the line to the fixed words and operators with those exact strings as single words |
| BashCommand.OutputPathIsPlain | guest/bedrock-io/bedrock-io.c:431-467 | capture paths need no quoting |
| BashCommand.OutputPathInjective | guest/bedrock-io/bedrock-io.c:431-467 | different workers have different capture paths |
| IoWorkers.RunKeepsInv | guest/bedrock-io/bedrock-io.c:390-587 | every interleaving of workers that take free numbers keeps mutual exclusion, own files, own output and what each worker knows at its phase |
| IoWorkers.RunKeepsBase | guest/bedrock-io/bedrock-io.c:390-587 | every interleaving whatever, numbers reused or not, keeps mutual exclusion and what each worker knows of its request and response |
| IoWorkers.DistinctExactly | guest/bedrock-io/bedrock-io.c:605-613 | live workers have distinct numbers throughout a run exactly when each new one takes a number no live worker has |
| IoWorkers.CounterIdsAreFresh | guest/bedrock-io/bedrock-io.c:605-613 | numbers from the 32-bit counter are free as long as it has not gone all the way round |
| IoWorkers.ResponsesAreTheWorkersOwn | guest/bedrock-io/bedrock-io.c:535-555 | at each PUT_RESPONSE the page holds that worker's header and the output buffer starts with that worker's own capture |
| IoWorkers.HostDecodesOwnResponse | crates/bedrock-vm/src/io_channel.rs:142-152 | the host decodes each response to that worker's status, exit code and output length |
| IoWorkers.WorkersExclude | guest/bedrock-io/bedrock-io.c:431-467 | two workers are never in critical sections at once, whatever their numbers, and do not share a capture file if numbers were free when taken |
| IoWorkers.WorkerHasItsRequest | guest/bedrock-io/bedrock-io.c:431-493 | past its first critical section a worker has the exact strings of the request delivered to it |
| IoExchange.WorkerStarts | guest/bedrock-io/bedrock-io.c:390-493 | from any state with the mutex free, whatever others are doing, a new worker gets to run the request it fetched |
| IoExchange.WorkerAnswers | guest/bedrock-io/bedrock-io.c:495-587 | from any such state with a worker running a request, recorded or not: whatever its command writes and returns, the host decodes exactly that exit code and gets exactly that output, up to the buffer size, and everything else is as it was |
| IoExchange.TwoWorkersOverlap | guest/bedrock-io/bedrock-io.c:390-587 | two workers run at once and answer in the other order, each with its own command's response |
| BashEndToEnd.WorkerRunsExactStrings | guest/bedrock-io/bedrock-io.c:495-516 | in every interleaving a worker builds, in its 4096-byte buffer, a line in which a POSIX shell sees the host's exact container and command; it refuses exactly the requests that are not runnable |
| BashEndToEnd.LineLength | guest/bedrock-io/bedrock-io.c:315-388 | the length of the line from the request alone, so which requests are runnable |
| BashEndToEnd.QuotesAreRefused | guest/bedrock-io/bedrock-io.c:315-388 | every command that needs the buffer once its quotes are escaped is refused |
| BashEndToEnd.FitsPageNotBuffer | guest/bedrock-io/bedrock-io.c:315-388 | a request that fits the page and is refused |
| FileFetch.ReadUpTo | crates/bedrock-vm/src/file_xfer.rs:211-222 | through short and interrupted reads the buffer is filled with exactly the file's bytes from that offset |
| FileFetch.FileServer.Serve | crates/bedrock-vm/src/file_xfer.rs:123-180 | the answer that overwrites the request is the longest part of the file at that offset that fits, or the missing-file result exactly when the file is missing |
| FileFetch.WriteResult | crates/bedrock-vm/src/file_xfer.rs:202-205 | the result word reads back and the payload is untouched |
| FileFetch.FrameRequest | guest/file-fetch.c:41-129 | the request reads back as its offset and name |
| FileFetch.WriteAll | guest/file-fetch.c:41-129 | through short and interrupted writes everything is appended, or the call fails |
| FileFetch.FetchOne | guest/file-fetch.c:41-129 | the guest ends with exactly the host file, in pieces that depend only on file and capacity, after one call per piece and one more; without failures it succeeds exactly for files the host has |
| FileFetch.PiecesJoin | guest/file-fetch.c:41-129 | the pieces joined are the file |
| FileFetch.PiecesCount | guest/file-fetch.c:41-129 | there are ceil(size / capacity) pieces |
| Events.EventStream.Next | crates/bedrock-vm/src/events.rs:178-191 | on any bytes: the next record or the end; the offset moves strictly forward by a multiple of eight and never out of range |
| Events.Drain | crates/bedrock-vm/src/events.rs:178-191 | draining ends on any bytes with everything the buffer holds |
| Events.CutReadsFitting | crates/bedrock-vm/src/events.rs:178-191 | any cut of a well-framed buffer reads as exactly the records that fit, intact and in order |
| Events.FittingIsLongest | crates/bedrock-vm/src/events.rs:178-191 | a record is read exactly when its header and payload lie within the cut |
| EventBuffers.EmittedLastExactly | crates/bedrock-vmx/src/vm_state.rs:1545-1633 | an event is added whole and last to what will be read exactly when it fits or can be staged whole with nothing else staged |
| EventBuffers.FaithfulExactly | crates/bedrock-vmx/src/vm_state.rs:1443-1633 | over any run of emits and drains the events read and to be read are at every point those emitted exactly when every event was so kept |
| EventBuffers.PromptLosesNothing | crates/bedrock-vmx/src/vm_state.rs:1443-1633 | if the caller drains after each failed emit, nothing is lost or overtaken and events are at most cut to the staging page |
| EventBuffers.OvertakenAndLost | crates/bedrock-vmx/src/vm_state.rs:1545-1633 | from an empty buffer: three emits in which one event overtakes another, and three in which one is lost |
| EventBuffers.DrainedDelivers | crates/bedrock-vmx/src/vm_state.rs:1443-1466 | a drain hands over what was written and brings the staged event to the front |
| EventBuffers.EventBuffer.Write | crates/bedrock-vmx/src/vm_state.rs:1545-1633 | the bytes stay a well-framed record sequence; it fails exactly when the event does not fit and then stages it if nothing is staged |
| EventBuffers.EventBuffer.Clear | crates/bedrock-vmx/src/vm_state.rs:1443-1466 | after a drain the buffer holds exactly the staged event, well framed |
| EventBuffers.EventBuffer.ReaderSees | crates/bedrock-vm/src/events.rs:178-191 | user space reads back the records written, and the fitting prefix from any cut |
| Console.SharedConsole.Emit | guest/bedrock-console/bedrock-console.c:87-119 | the flushes join to the text with CR before each LF, are 1 to 4096 bytes long and never split a CR-LF pair |
| Console.LineAssembler.SerialRecord | crates/bedrock-lab/src/event.rs:132-156 | the byte loop emits the lines the byte-wise specification gives and keeps its rest |
| Console.FeedGivesLines | crates/bedrock-lab/src/event.rs:132-156 | byte-wise feeding from any carried-over line gives the lines of the whole text, each stamped with the record of its first byte |
| Console.CarriedOverLines | crates/bedrock-lab/src/checkpoint.rs:326-353 | wherever checkpoints and forks fall on a path, the lines are those of all its records |
| Console.LinesIgnoreCuts | crates/bedrock-lab/src/event.rs:132-156 | the same bytes give the same lines however they are cut into records |
| Console.ExpandedLines | guest/bedrock-console/bedrock-console.c:87-119 | the lines of the expanded text are the guest's lines, each with the added carriage return |
| Console.GuestLinesArrive | crates/bedrock-lab/src/event.rs:132-156 | records that carry the expanded text, however cut and stamped, give the guest's lines |
| ConsolePath.GuestLinesArriveThroughEvents | crates/bedrock-vmx/src/vm_state.rs:1685-1709 | flushed, one event per flush among any others, buffered and drained by a caller that drains after each failed emit: the host gets exactly the guest's lines |
| ConsoleForks.PathReadExactly | crates/bedrock-lab/src/checkpoint.rs:326-352 | along a path of forks, with such callers, the host has drained everything emitted, in order, exactly when no branch was left with events in its buffer or staged |
| ConsoleForks.ForkLosesEvents | crates/bedrock-lab/src/checkpoint.rs:326-352 | a path of two branches that loses an event |
| ConsoleForks.GuestLinesArriveAcrossForks | crates/bedrock-lab/src/branch.rs:453-490 | wherever checkpoints and forks fall, the host has exactly the guest's lines, each stamped with the flush that holds its first byte |
| ConsoleForks.DriveSegment | crates/bedrock-lab/src/branch.rs:453-490 | one branch on the bytes of its event buffer: the lines assembled are those of the records the model drains |
| ConsoleForks.DrivePath | crates/bedrock-lab/src/branch.rs:453-490 | the whole path on bytes: the lines that come out are those the two results above speak of |
| Decoder.ModrmDisplacementLength | crates/bedrock-vmx/src/decoder.rs:310-363 | the branches compute the specified number of SIB and displacement bytes, or report missing ones |
| Decoder.DecodeInstruction | crates/bedrock-vmx/src/decoder.rs:86-305 | the position-advancing decoder computes the specified result on every byte string |
| Decoder.DecodesEncoded | crates/bedrock-vmx/src/decoder.rs:86-363 | every instruction of the supported formats decodes to its own length, operation, register field and size, whatever follows |
| Decoder.DecodedIsEncoded | crates/bedrock-vmx/src/decoder.rs:86-363 | whatever is accepted starts with such an instruction, and that is what is reported |
| Decoder.CutIsTooShort | crates/bedrock-vmx/src/decoder.rs:86-363 | every strictly shorter prefix of an instruction is reported as too short |
| Decoder.ReliableExactly | crates/bedrock-vmx/src/decoder.rs:86-363 | the result depends only on as many bytes as reported exactly when the first 255 bytes, or all there are, already decode |
| Decoder.LengthWraps | crates/bedrock-vmx/src/decoder.rs:86-140 | behind any 254 or more legacy prefixes the reported length is the true one modulo 256 |
| Decoder.ShorterIsTooShort | crates/bedrock-vmx/src/decoder.rs:86-363 | every prefix shorter than the reported length is too short, for inputs of any length |
| Decoder.RegisterIsExact | crates/bedrock-vmx/src/decoder.rs:86-305 | for whatever is decoded, the reported index is the architectural register exactly unless it is a byte move without REX and with field 4 to 7 |
| Decoder.HighByteIsMisread | crates/bedrock-vmx/src/decoder.rs:86-305 | `mov [rax], ah` is reported as register 4 |

## Left out

- VMX instructions, MSR and descriptor access, per-CPU state and assembly: hardware that cannot be seen through.
- VM exit handlers other than those listed, device emulation, PEBS arming and the instruction counter: what a VM does between exits is a parameter.
- ioctl argument copying, mmap plumbing, command lines, JSON and Graphviz output: formatting and I/O only.
- guest/file-store.c and its server: the mirror image of the fetch protocol.
- Floating-point virtual time: time is an instruction count at one frequency.
- Wrap-around of the 64-bit VM id and checkpoint id counters: ids are unbounded.
- The number of listed VMs under concurrency: an id is not a reservation, so the list may pass its limit, and nothing is claimed about it.
- Allocation failures that the kernel build swallows when it appends to a page table's frame list or to the VM list: appending always succeeds.
- Steps inside one page-table clone seen by other threads: the fork protocol clones in one step, and memory of a VM with forks in flight does not change in runs without forks of executing VMs.
- Host writes through mappings of VMs that have children: assumed not to happen. Inside or outside a RUN, a host write needs a VM without children.
- Non-UTF-8 strings: requests are compared as bytes, without the replacement characters of a lossy conversion.
- The 15-byte limit and the invalid uses of LOCK in the decoder: the decoder does not check them either.
- Other processes that write a worker's capture file: a capture is what the worker's own command wrote.
- ForkMemory.ProtocolProtectsMemory: for runs in which no fork starts on an executing VM, because the code does not prevent such forks (`ForkMayDisturbRun`).
- CowMachine.CowPageMap.Insert: the count is the map's size and insertion succeeds, as in the build on the standard map; the kernel build adds one for an overwrite too and can fail to allocate.
- FileFetch.FetchOne: buffers of at least one header and below 4 GB and files below 2^64 bytes.
- IoWorkers.CounterIdsAreFresh: only for fewer than 2^32 workers since the counter's start; beyond that `DistinctExactly` says what is needed.
