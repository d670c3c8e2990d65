# Verified models of the queue, flow table, poll list and replay tools

This project models, in Dafny, the parts of the repository whose correctness is hard to see by reading
one function, and proves what they are for.

* **The lock-free queue** of `ntnetflow` (`MpmcQueue`, `MpmcSafety`, `MpmcWords`, `MpmcTheorems`,
  `MpmcCalls`, `MpmcLag`, `MpmcSequential`). Any number of threads take turns, one atomic access at a time. The same step function
  is read over 32-bit words (the program) and over unbounded tickets (its specification). An inductive
  invariant over all cells, counters and threads gives the results for the specification; a refinement
  through any number of counter wraps carries them over to the program. `MpmcCalls` follows each value to the call that gave it, and `MpmcLag` has
  runs in which a thread that stands still too long breaks it. `MpmcSequential` has the memory and the two
  operations as written, without interference.
* **The flow table** of `ntnetflow` (`SlotMask`, `FlowKeys`, `FlowBucket`, `FlowChain`, `FlowOverfill`,
  `FlowTable`, `Rx`). Buckets with bit masks, doubly linked chains that grow and shrink, and a hash table of chains are classes
  with heap invariants. The table behaves as a map from entries to live flows with reference counts. `Rx`
  is the client that looks up and adds, and `FlowKeys` holds the direction-normalising key.
* **The poll list and the command flags** of `ntnetflow` (`PollSchedule`, `PollPass`, `PollRing`, `FlowFlags`,
  `FlowEntry`, `FlowThreads`, `FlowTraces`, `FlowLimits`, `FlowListing`, `FlowRelisted`). The pointer ring refines a sequence of
  members with deadlines; when it stays sorted is settled for whole runs, and passes over it are bounded. The flag
  word limits how often commands go to the adapter, in any interleaving of its atomic steps. `FlowThreads` has the
  threads around the word: who asks for what, the queue of requests, and the poll list. Over its runs the limits are
  exact, and so is the condition under which an entry is put on the list twice.
* **Smaller machines with results about whole runs**: the report backlog of `bufferProfile` (`Backlog`), the
  replay schedule of `boundary_replay` (`Replay`), the substitution tree of `addrswap_replay` (`AddrMap`)
  and the stream id allocator of `ntnetflow` (`Streams`).

`Words` and `Bits` define machine words, and bit operations on natural numbers, with the facts about them
that the models use. Integers that can wrap in the program wrap in the model.

## What the proofs found

* A chain size of 2 or more leaves `chain->last` one bucket behind (`FlowChain.Chain.InitBuckets`). Once every
  slot is taken, the next addition cuts the final bucket, with its live entries, out of the list: of one flow more
  than the slots, none of them removed, one is not found (`FlowOverfill.FillAndLose`). The options allow chain sizes
  up to 32. A table is in order exactly for a chain size of at most 1 (`FlowTable.Table.constructor`).
* With 32 entries a bucket, the entry in slot 31 can never be released, because `1 << 31` is negative
  (`SlotMask.Slot31LooksFree`). A release succeeds exactly for a live entry in a slot below 31
  (`FlowBucket.Bucket.Release`, `FlowTable.Table.Dereference`).
* With a poll interval of 0 a pass that nobody disturbs never ends unless the list is empty
  (`PollSchedule.PassLength`). An entry that leaves the list meanwhile can end it.
* The poll list stays sorted by deadline throughout a run if and only if no head is put off to a time before the last
  deadline (`PollSchedule.OrderExactly`). That needs an addition that wraps the counter of operations in one tick:
  runs with fewer than 2^32 operations a tick stay sorted (`PollSchedule.RunsStaySorted`). From such an addition
  on, every addition in a tick with heads to put off breaks the order (`PollSchedule.OffsetOvertakes`), and a pass
  can end although an entry is due (`PollSchedule.PassCanMiss`).
* The program can put an entry on the poll list that is on it already. In any run this happens if and only if a learn
  request for a listed entry is taken after a failed learn command or the end of a flow record has made it untracked,
  and is followed up before the entry is taken off (`FlowListing.AddedTwiceExactly`). Each of the two records leads to it
  (`FlowRelisted.UntrackedIsAddedTwice`), also while the poll thread is about to take the entry off
  (`FlowRelisted.DroppingIsAddedTwice`). `fl_add_poll` asserts that this does not happen, but the build leaves
  assertions out (`ntnetflow/config.mk:5`); then the members behind that entry are never polled again, and if it is
  the last one, the list leads from it to itself (`PollRing.Ring.LinkAgain`).
* An entry removed from the poll list keeps its links (`PollRing.Ring.Remove`), so that the same assertion, where it is not
  left out, stops the program when the entry is added later, although that would be in order (`PollRing.Ring.Link`).
* The reference that `ft_add` takes is given back by nobody: as long as nothing is added twice, the table keeps every
  entry that the poll thread drops (`FlowListing.DropKeepsEntry`).
* The assertion in `ft_deref` compares unsigned numbers and always holds. Giving up more references than there are
  leaves a negative count in the free slot, and the next flow there starts with fewer than one
  (`FlowBucket.Bucket.GiveUpTooMany`).
* The two directions of a conversation have one key but are two flows for the table
  (`Rx.DirectionsAreTwoFlows`).
* The length check of `boundary_replay` converts only the first time stamp of a nanosecond file, so it
  refuses all such files but those with very small stamps (`Replay.NanosecondFilesFail`).
* A replacement by 255.255.255.255 reads as no replacement (`AddrMap.Substitutions.SearchAddrMap`).

## Model

| member | source | states |
|---|---|---|
| MpmcSafety.ReachableInv | ntnetflow/mpmc_queue.h:98-158 | every state of every schedule of any number of pushers and pullers satisfies the invariant: counters at most one capacity apart, each cell free, being filled, full with its ticket's value or being emptied, each unpublished ticket held by the thread on record |
| MpmcSafety.NextKeepsInv | ntnetflow/mpmc_queue.h:98-158 | each atomic step of each thread, from any state that satisfies the invariant, keeps it |
| MpmcSafety.PushScanMeaning | ntnetflow/mpmc_queue.h:141-153 | what a pusher's comparison of the cell's sequence number with its ticket says about the ticket, for every local ticket however old |
| MpmcSafety.PullScanMeaning | ntnetflow/mpmc_queue.h:110-122 | the same for a puller |
| MpmcWords.WordsRefineTickets | ntnetflow/mpmc_queue.h:101-127 | a run of the 32-bit program with signed differences is, state by state, the truncation of the run of the unbounded protocol, through any number of wraps, while the thread that moves has a local ticket that lags at most 2^31 minus the capacity when it scans, and at most 2^32 - 1 when it compares and exchanges |
| MpmcWords.MaskSelectsSlot | ntnetflow/mpmc_queue.h:110 | masking the wrapped counter selects the cell of the unbounded ticket, since the capacity is a power of two |
| MpmcTheorems.PulledInPushOrder | ntnetflow/mpmc_queue.h:99-158 | pull ticket k returns the value recorded for push ticket k; every pull ticket taken is in progress or has returned, never both; nothing is lost, invented or returned twice; pushes lead pulls by at most the capacity |
| MpmcCalls.PushedIsArgument | ntnetflow/mpmc_queue.h:132-158 | for every schedule and every push ticket: it was taken by some thread in the course of a push, which that thread has not left since it began, and its value is the argument that this push was begun with, through every lost or spuriously failed exchange and every retry |
| MpmcCalls.OneTicketPerCall | ntnetflow/mpmc_queue.h:136-154 | no call takes two tickets |
| MpmcCalls.CallGoesOnAsItIs | ntnetflow/mpmc_queue.h:98-158 | in any step a push stays a push and a pull a pull; it returns false without a ticket and true with one, which it keeps until then |
| MpmcCalls.PulledIsArgument | ntnetflow/mpmc_queue.h:98-158 | pull ticket k returns the argument of the call that took push ticket k |
| MpmcTheorems.QuiescentContents | ntnetflow/mpmc_queue.h:99-158 | with no call in progress, exactly the first values pushed have been pulled, the cells hold the rest in order, and the remaining cells are open to pushes |
| MpmcTheorems.OneOwner | ntnetflow/mpmc_queue.h:113-125 | between its compare-exchange and its publishing store a thread is the only one that may touch its cell, in every reachable state |
| MpmcTheorems.FalseMeansNotReady | ntnetflow/mpmc_queue.h:106-120 | pull gives up exactly when its ticket still is the head and that push is not published; push, exactly when its ticket still is the tail and the pull one capacity earlier is not published |
| MpmcTheorems.RetriesArePaidFor | ntnetflow/mpmc_queue.h:137-154 | lock-freedom: a call goes round its loop at most as often as other operations took tickets since it began, spurious failures aside |
| MpmcTheorems.RealTimeOrder | ntnetflow/mpmc_queue.h:99-158 | a push that takes its ticket after another one has returned, or has taken its own, takes a larger one, and so do pulls, in the program as in the protocol; so values leave in the order in which non-overlapping pushes came |
| MpmcLag.LagBoundIsSharp | ntnetflow/mpmc_queue.h:110-152 | for every capacity and for each of the two scans and the two exchanges there is a run of the program, of two threads, that reaches exactly one ticket more of lag and whose next step is not the protocol's |
| MpmcSequential.Queue.constructor | ntnetflow/mpmc_queue.h:54-73 | the initial memory is an empty queue |
| MpmcSequential.Queue.Push | ntnetflow/mpmc_queue.h:131-158 | over wrapping counters: fails exactly when the contents fill the capacity, otherwise appends the value |
| MpmcSequential.Queue.Pull | ntnetflow/mpmc_queue.h:99-128 | fails exactly when the contents are empty, otherwise takes the first value |
| MpmcSequential.HoldsAfterPush | ntnetflow/mpmc_queue.h:155-156 | writing one cell and its wrapped sequence number adds one value to what the memory holds |
| MpmcSequential.HoldsAfterPull | ntnetflow/mpmc_queue.h:124-125 | advancing one sequence number by the capacity removes the first value |
| MpmcSequential.MaskedSlot | ntnetflow/mpmc_queue.h:141 | the masked 32-bit counter goes round the buffer |
| SlotMask.TakeSlot | ntnetflow/flowtable.c:161-176 | the lowest set bit of the 64-bit mask, found in its low word, is the lowest free slot, and clearing it takes that slot and no other |
| SlotMask.ReleaseSlot | ntnetflow/flowtable.c:284-294 | below index 31 the test tells whether the slot is free, and the update frees that slot and no other |
| SlotMask.Slot31LooksFree | ntnetflow/flowtable.c:284-287 | at index 31 of a bucket with 32 entries the test always finds the slot free already |
| FlowBucket.Bucket.LooksFree | ntnetflow/flowtable.c:284-287 | for every bucket size up to 32: the test fails exactly for a live entry below index 31 |
| SlotMask.NextUsed | ntnetflow/flowtable.c:362-371 | one turn of the scan visits a used slot and leaves exactly the other ones to visit |
| FlowBucket.CompareIsMatch | ntnetflow/flowtable.c:322-331 | comparing the memory of a live entry tells whether its flow is a match; stale bytes beyond the key do not matter |
| FlowBucket.MatchesMeaning | ntnetflow/flowtable.c:322-331 | a match is the same hash, the same low 8 bits of the colour, and the same 12 or, by bit 1 of the colour, 36 bytes of the key |
| FlowBucket.FlowOfMeaning | ntnetflow/flowtable.c:228-247 | an entry keeps the hash, the whole colour, and 12 or 36 bytes of the key |
| FlowBucket.Bucket.constructor | ntnetflow/flowtable.c:42-66 | a new bucket of 1 to 32 slots has no live entry and all its mask bits set |
| FlowBucket.Bucket.Full | ntnetflow/flowtable.c:155 | the mask test fails exactly when every slot is live |
| FlowBucket.Bucket.Empty | ntnetflow/flowtable.c:295-296 | the test for freeing succeeds exactly when no slot is live |
| FlowBucket.Bucket.TakeLowest | ntnetflow/flowtable.c:161-187 | the lowest free slot becomes live with the flow and one reference more than the count that the slot was left with, which is none unless too many were given up; the other slots keep theirs |
| FlowBucket.Bucket.TakeFirst | ntnetflow/flowtable.c:214-226 | the same for slot 0 of a new bucket |
| FlowBucket.Bucket.Release | ntnetflow/flowtable.c:284-294 | a slot becomes free exactly if it is live and its index is below 31; the other slots keep theirs |
| FlowBucket.Bucket.AddReferences | ntnetflow/flowtable.c:426-434 | returns the previous count, and changes the count of that entry only |
| FlowBucket.Bucket.GiveUp | ntnetflow/flowtable.c:431-441 | for any slot and any count: the slot is released exactly if it is live, below 31, and its count read as unsigned is at most the one given up |
| FlowBucket.Bucket.GiveUpTooMany | ntnetflow/flowtable.c:431-441 | what follows when more are given up than there are: the next flow in the slot starts with as many references too few |
| FlowBucket.Bucket.Find | ntnetflow/flowtable.c:345-375 | finds a live slot that matches, or there is none |
| FlowChain.Chain.InitBuckets | ntnetflow/flowtable.c:94-106 | links the initial buckets both ways and leaves `last` on the last but one; the chain is in order afterwards exactly for a chain size of at most 1 |
| FlowChain.Chain.AppendBucket | ntnetflow/flowtable.c:42-66 | the new bucket follows the given one both ways; those that followed it before leave the list |
| FlowChain.Chain.AddAt | ntnetflow/flowtable.c:147-269 | wherever `last` points to: the first free slot along the chain becomes live, or, when every slot is taken, slot 0 of a new bucket behind `last`, and what lay beyond is no longer in the chain |
| FlowOverfill.CutOffLoses | ntnetflow/flowtable.c:196-206 | in a chain whose slots are all taken by different flows, one of these flows matches no entry that is left once the final bucket is cut off |
| FlowOverfill.FillAndLose | ntnetflow/flowtable.c:94-269 | for every chain size of 2 or more and every list of different flows, one more than the chain has slots: adding them in turn leaves one that a look-up cannot find, though none was removed |
| FlowChain.Chain.FindSpace | ntnetflow/flowtable.c:150-195 | finds the first bucket of the chain with a free slot, or every slot of the chain is live |
| FlowChain.Chain.Add | ntnetflow/flowtable.c:143-269 | one entry that was not live becomes live with its flow and one reference, nothing else changes, and a bucket is appended exactly when every slot was taken |
| FlowChain.Chain.Lookup | ntnetflow/flowtable.c:346-378 | finds a live entry of the chain that matches, or there is none |
| FlowChain.Chain.JoinNeighbours | ntnetflow/flowtable.c:306-311 | the pointer updates leave every other bucket linked to its neighbours in the list without this one, and `last` on the final one |
| FlowChain.Chain.Unlink | ntnetflow/flowtable.c:306-311 | exactly that bucket leaves the list, the others keep their order, links are mutual |
| FlowChain.Chain.Remove | ntnetflow/flowtable.c:271-320 | an entry that is not live or in slot 31 is left alone; another one goes, with its bucket if that was added at run time and has no other live entry, so that such buckets are never empty |
| FlowTable.OneShows | ntnetflow/flowtable.c:143-146 | what happens to one entry concerns the chain that its hash selects and no other |
| FlowTable.Table.constructor | ntnetflow/flowtable.c:68-111 | for every chain size and 1 to 32 entries a bucket: no live entry and all counters zero, and the table is in order if and only if the chain size is at most 1 |
| FlowTable.Table.Lookup | ntnetflow/flowtable.c:333-404 | for any history of the table: an entry is found exactly when a live entry has the same hash, low 8 colour bits and key, and the one found is such an entry |
| FlowTable.Table.Add | ntnetflow/flowtable.c:143-269 | exactly one live entry more, not live before, with the flow and one reference; the flow counter equals the number of live entries, and learned less unlearned |
| FlowTable.Table.Remove | ntnetflow/flowtable.c:271-320 | exactly that entry less, unless it is in slot 31; the unlearn counter moves exactly when a live one went |
| FlowTable.Table.Reference | ntnetflow/flowtable.c:426-429 | adds to the count of that entry and changes nothing else |
| FlowTable.ReleasedMeaning | ntnetflow/flowtable.c:431-441 | what giving up references means: the entry goes exactly with its last one, unless it is in slot 31; otherwise its count drops by that many, and other entries stay as they are |
| FlowTable.Table.Dereference | ntnetflow/flowtable.c:431-441 | for at most as many references as there are: the entry is released exactly on the step that gives up its last reference, unless it is in slot 31, and the unlearn counter counts the releases |
| FlowTable.Table.LiveIsAllocated | ntnetflow/flowtable.c:302-316 | the memory of a live entry is never freed |
| FlowKeys.Create | ntnetflow/flowkey.h:26-45 | in bytes of the headers: for IPv4 upstream the key is bytes 12 to 20 of the IP header and 0 to 4 of the transport header, downstream both addresses and both ports change places; for IPv6 the same with bytes 8 to 40; no byte beyond it is written |
| FlowKeys.KeyInHeaders | ntnetflow/flowkey.h:32-44 | the key of a tuple of addresses and ports, in bytes of the headers |
| FlowKeys.TypeMeaning | ntnetflow/flowkey.h:7 | the colour bits that tell flows apart are the low 8 |
| FlowKeys.KeysTellConversationsApart | ntnetflow/flowkey.h:32-44 | two packets of one IP version get the same key exactly when their address and port tuples are equal, or reversed if their directions differ |
| FlowKeys.UpstreamInjective | ntnetflow/flowkey.h:32-44 | a key determines addresses and ports |
| FlowKeys.SameTypeSameLen | ntnetflow/flowtable.c:322-331 | colours that compare equal use keys of one length |
| Rx.Process | ntnetflow/rx.c:21-64 | packets handled one after the other never make two live entries that the table cannot tell apart; afterwards the packet's flow has an entry, new exactly if there was none; a learn request goes out exactly for a new missed flow |
| Rx.ProcessAll | ntnetflow/rx.c:66-85 | for any packets on a new table: a learn request goes out for exactly those with bit 9 of the descriptor set and no earlier packet with bit 9 or 10 set, the same upper half and low 8 bits of the descriptor and the same key; each flow of such packets has one entry, and no other flow has one |
| Rx.DescriptorMeaning | ntnetflow/rx.c:26-56 | what is read from a descriptor: bits 9 and 10, the hash in the upper half, the low 16 bits as colour |
| Rx.PrecedesMeaning | ntnetflow/rx.c:41-50 | two packets are of one flow exactly when the upper half and the low 8 bits of their descriptors and their keys agree |
| Rx.FindOrAdd | ntnetflow/rx.c:44-46 | an entry is added exactly when no live entry is the same flow |
| Rx.NewEntryKeeps | ntnetflow/rx.c:43-50 | an entry for an unknown flow makes no duplicates |
| Rx.CountingKeeps | ntnetflow/flowtable.c:426-441 | counting references and releasing entries makes no duplicates |
| Rx.DirectionsAreTwoFlows | ntnetflow/flowkey.h:7-8 | the two directions of a conversation share the key but not the entry |
| PollSchedule.HeadTells | ntnetflow/flowlearn.c:405 | in a sorted list the head is due exactly when some entry is |
| PollSchedule.EventKeeps | ntnetflow/flowlearn.c:111-152 | a tick, putting off the head, adding and removing keep a sorted list sorted if and only if the event does not put off the head to a time before the last deadline; and while the offset is 0 and the counter does not wrap, it does not |
| PollSchedule.OrderExactly | ntnetflow/flowlearn.c:395-412 | throughout any run the list is sorted if and only if no head is put off to a time before the last deadline |
| PollSchedule.OffsetOvertakes | ntnetflow/flowlearn.c:145-150 | with a positive offset, an addition followed by putting off the head leaves the list unsorted |
| PollSchedule.RunsStaySorted | ntnetflow/flowlearn.c:388-447 | every run from the start with fewer than 2^32 additions and removals a tick keeps the offset at 0 and the list sorted |
| PollSchedule.PassCanMiss | ntnetflow/flowlearn.c:395-412 | for every interval there is a run from the start to a pass that ends at its head although an entry is due |
| PollSchedule.PassIsBounded | ntnetflow/flowlearn.c:399-441 | in any interleaving with additions and removals, whatever the offset, a pass puts off no more entries than were due when it began |
| PollSchedule.PassLength | ntnetflow/flowlearn.c:399-411 | undisturbed, a pass over a sorted list can put off n entries if and only if n are due; with interval 0, while the offset is 0, any number unless the list is empty |
| PollRing.Ring.Link | ntnetflow/flowlearn.c:135-144 | an entry that is not a member becomes the last one around the ring; the others keep their order |
| PollRing.Ring.LinkAgain | ntnetflow/flowlearn.c:135-144 | for a member: the walk from the head along the links ends at it, and goes on at the head, or at itself if it was the last one |
| PollRing.Ring.Add | ntnetflow/flowlearn.c:128-152 | an entry without links, which therefore is not a member, becomes the last one around the ring, with its deadline one interval away plus the offset that grows when the counter wraps; while the offset is 0 the deadlines stay sorted |
| PollRing.Ring.JoinNeighbours | ntnetflow/flowlearn.c:115-123 | every other member is linked to its neighbours in the ring without the entry, and the head is right in the singleton and head cases |
| PollRing.Ring.Unlink | ntnetflow/flowlearn.c:115-123 | exactly that member leaves the ring; the others keep order and deadlines |
| PollRing.Ring.Remove | ntnetflow/flowlearn.c:111-126 | exactly that member leaves the ring; the links of the entry itself are not null afterwards |
| PollRing.Ring.Step | ntnetflow/flowlearn.c:403-412 | does something exactly when there is a head and its deadline is not after the current time: puts it off to one interval from now, turns the ring by one, and hands out the new head |
| PollRing.Ring.Pass | ntnetflow/flowlearn.c:399-441 | for any entries that come meanwhile and any that turn out untracked: the pass ends after at most as many steps as entries were due, with the outcome described by `PollPass.Outcome`; if the due ones came first, exactly these have been passed, but perhaps for one more that was handed out last and dropped, and no member is due |
| PollPass.PassingOutcome | ntnetflow/flowlearn.c:405-433 | who stays and who goes: the members are the old ones and those that came, less exactly the untracked ones that were handed out; one is handed out when the one before it is put off; those that were passed and not dropped were due and have been put off by the interval; those not passed come first, in their order and with their deadlines |
| PollPass.PassEnds | ntnetflow/flowlearn.c:405-433 | when the head is not due any more and the due ones came first: all of them were passed, nobody else but perhaps the last one handed out, and nobody is due |
| PollPass.TrackedPass | ntnetflow/flowlearn.c:405-412 | without untracked entries exactly the due ones are put off, nobody goes, and the others come first, in order |
| PollRing.Ring.Drain | ntnetflow/flowlearn.c:655-690 | visits each member once, in order, and stops; or stops at the first failure |
| FlowFlags.CommandsAreLimited | ntnetflow/flowlearn.c:501-562 | from any flags and in any interleaving of the atomic steps, wherever requests come from: learn and unlearn commands number at most one more than polls that cleared the flags, refresh commands at most one more than those and learn-done records together |
| FlowThreads.RequestsHaveSources | ntnetflow/flowlearn.c:346-440 | in any run of the program every request has a source: a receiver asks once, for a learn command; the poll thread for what its last poll of the entry decided; the record thread for a refresh only after a record that found an emulated probe and no unlearn flag |
| FlowThreads.TakenInOrder | ntnetflow/flowlearn.c:723-740 | the program thread takes requests in the order in which they were made, and none is lost |
| FlowThreads.LearnsAreNeeded | ntnetflow/flowlearn.c:544-551 | in any run of the program at most one learn request is on its way, and none is redundant: each leads to a command |
| FlowThreads.RunsAreLimited | ntnetflow/flowlearn.c:326-562 | in any run of the program the first unlearn command needs a poll before it, if the adapter reports on probes only that it was given, and the first refresh command a poll and a learn-done record, and the limit is lower by as many; unlearn commands go only to adapters that can probe, refresh commands only to those that cannot |
| FlowLimits.LimitIsReached | ntnetflow/flowlearn.c:326-562 | for every kind, wherever it is used, and any number of further polls, there is a run of the program, with an adapter that reports on given probes only, which reaches that limit |
| FlowLimits.StrayReportCounts | ntnetflow/flowlearn.c:326-562 | a report on a probe that was not given makes one more unlearn command possible, which is the limit of any interleaving |
| FlowFlags.FlagStep | ntnetflow/flowtable.h:44-52 | a command flag goes down in a poll, or for refresh in a learn-done record, and in no other step |
| FlowFlags.FlagHistory | ntnetflow/flowlearn.c:198-562 | in any run a flag is up exactly if some step that raises it has come and none that lowers it since |
| FlowListing.AddsMember | ntnetflow/flowlearn.c:544-556 | in any run of the program a learn request adds an entry that is on the list if and only if a failed learn command or the end of a record has come since the last request that tracks the flow |
| FlowListing.AddedTwiceExactly | ntnetflow/flowlearn.c:544-556 | for every run of the program: an entry is linked while it is on the list if and only if some learn request meets that condition while it is listed, and is followed up before the entry is taken off |
| FlowListing.TrackedIsAddedOnce | ntnetflow/flowlearn.c:326-374 | as long as no learn command fails and no record ends the tracking, no entry is added twice |
| FlowRelisted.UntrackedIsAddedTwice | ntnetflow/flowlearn.c:213-224 | with either of the two records there is a run of the program that adds an entry twice |
| FlowRelisted.DroppingIsAddedTwice | ntnetflow/flowlearn.c:420-433 | there is such a run while the poll thread is about to take the entry off |
| FlowListing.AdditionsAreLimited | ntnetflow/flowlearn.c:553-556 | an entry is added at most once more than records made it untracked |
| FlowListing.ListingHasAReference | ntnetflow/flowlearn.c:430-433 | until an entry is added twice there is one reference to it, and one more as long as it is listed or about to be; only a listed entry is dropped |
| FlowListing.DropKeepsEntry | ntnetflow/flowtable.c:426-441 | so the poll thread never gives up more references than there are, and never the last one |
| FlowEntry.PollMeaning | ntnetflow/flowlearn.c:420-440 | what a poll decides, from what happened before: an unanswered request is made again, learn before refresh before unlearn; with none, the entry is dropped exactly if an unlearn request came since the last poll or the flow is not tracked; otherwise it is probed exactly if another request came since the last poll or a probe is unanswered |
| FlowEntry.RequestMeaning | ntnetflow/flowlearn.c:501-562 | when a request leads to a command and when it adds the entry to the list, from what happened before |
| FlowEntry.AnswerMeaning | ntnetflow/flowlearn.c:198-232 | once a record has answered a request it does not wait any more |
| FlowEntry.EntryFlags.Limits | ntnetflow/flowlearn.c:477-590 | whatever the four threads have done to one entry in memory, the commands written for it and the polls passed over are within the limits |
| FlowEntry.EntryFlags.Request | ntnetflow/flowlearn.c:483-590 | sets the two flags of the request and, but for unlearn, the tracking flag; takes one step of the run, keeps the commands written within their limit, and counts one poll to pass over exactly for a learn command on flags other than LEARN_PENDING alone |
| FlowEntry.EntryFlags.Status | ntnetflow/flowlearn.c:198-232 | clears the flags that the record answers, which do not wait any more, and the skip counter drops by the number of requests answered |
| FlowEntry.EntryFlags.Poll | ntnetflow/flowlearn.c:414-440 | a poll is passed over exactly if the skip counter is positive, which then is zero; otherwise the flags are cleared and the action is the one that suits what happened before |
| FlowEntry.EntryFlags.Record | ntnetflow/flowlearn.c:326-374 | its atomic steps and what they leave in the word, when it asks for a refresh or an unlearn, and when the entry stays tracked |
| Backlog.PrintedAroundAlerts | bufferProfile/bufferProfile.cpp:597-614 | for every run: the report of tick t is printed if and only if some tick from t - 1 to t + 4, within the run, has an alert |
| Backlog.PrintedInOrder | bufferProfile/backlog.cpp:98-144 | each report is printed at most once, and reports come out in the order of time |
| Backlog.LogMeaning | bufferProfile/backlog.cpp:98-139 | what is printed are the reports that some printing tick found in the five places |
| Backlog.Ring.AddEntry | bufferProfile/backlog.h:55-79 | the report takes the place of the one five ticks older |
| Backlog.Ring.Visit | bufferProfile/backlog.cpp:101-139 | one turn prints the report in its slot exactly when it was not printed before |
| Backlog.Ring.Output | bufferProfile/backlog.cpp:98-144 | prints exactly the reports of the last five ticks that came since the previous output, oldest first |
| Backlog.Reporter.OutputStats | bufferProfile/bufferProfile.cpp:597-614 | after every tick, what has been printed is what the alerts so far determine |
| Replay.StartMeaning | boundary_replay/boundary_replay.c:370-382 | in ticks of 10 ns: the start is the first time at least 100000000 ticks away that is a multiple of m times 100000000, if the 64-bit range allows |
| Replay.RoundUp | boundary_replay/boundary_replay.c:379 | the rounding expression gives the least multiple that is not smaller |
| Replay.CheckFile | boundary_replay/boundary_replay.c:325-348 | a file is accepted if and only if all its packets fit |
| Replay.FitsMeaning | boundary_replay/boundary_replay.c:335-346 | the one unsigned comparison accepts exactly the stamps from the first one to 1000000 ticks, 10 ms, after it |
| Replay.NanosecondFilesFail | boundary_replay/boundary_replay.c:316-323 | the first packet of a nanosecond file fits if and only if its stamp is at most 1111111 |
| Replay.Restamp | boundary_replay/boundary_replay.c:727-737 | rewrites every packet of the segment in place for the iteration, in 64-bit arithmetic |
| Replay.DueMeaning | boundary_replay/boundary_replay.c:454 | whatever wraps on the way, a packet of iteration i is due at begin + i times 10 ms + its distance from the first packet - the path delay |
| Replay.Window | boundary_replay/boundary_replay.c:727-737 | each iteration keeps to a window one boundary long, and windows follow one another |
| Replay.SentInOrder | boundary_replay/boundary_replay.c:663-765 | over the whole run packets are sent in the order of iterations, then stamps; two are due together only at the edge of two windows or with equal stamps |
| Replay.FirstPacketOnTheSecond | boundary_replay/boundary_replay.c:430-456 | without a start time and a path delay, the first packet goes out at the first multiple of m seconds that is at least one second away |
| Replay.SentFromStartTime | boundary_replay/boundary_replay.c:443-454 | with a start time, whatever the adapter time is, even a later one: a packet of iteration i is due at the start time + i times 10 ms + its distance from the first packet - the path delay |
| AddrMap.FindInOrdered | addrswap_replay/btree.c:112-134 | in a search tree the search finds a pair exactly when it is in the tree |
| AddrMap.FindInserted | addrswap_replay/btree.c:49-70 | inserting changes the answer for that key only, and only if there was none |
| AddrMap.InsertedPairs | addrswap_replay/btree.c:49-70 | inserting adds the pair to those of the tree if the key is new, and changes nothing otherwise |
| AddrMap.InsertedKeeps | addrswap_replay/btree.c:49-70 | inserting keeps a search tree |
| AddrMap.Insert | addrswap_replay/btree.c:49-70 | the linked nodes afterwards form the tree with the pair inserted; old nodes stay in place |
| AddrMap.Search | addrswap_replay/btree.c:112-134 | returns the node that the search along the keys finds in the tree, or null |
| AddrMap.FirstWinsMeaning | addrswap_replay/subst_parse.c:190-206 | the first pair with a key decides |
| AddrMap.NothingElse | addrswap_replay/subst_parse.c:190-206 | keys that no pair has are absent |
| AddrMap.HoldsMore | addrswap_replay/subst_parse.c:190-206 | one more pair, duplicate or not, keeps tree and map in agreement, with addresses read as signed integers |
| AddrMap.Substitutions.Load | addrswap_replay/subst_parse.c:144-209 | after loading any list of pairs, the tree is a search tree that answers as the map in which the first pair wins |
| AddrMap.Substitutions.SearchAddrMap | addrswap_replay/subst_parse.c:227-238 | returns the replacement, or -1 if and only if there is none or it is 255.255.255.255 |
| Streams.StreamsUnused | ntnetflow/info.c:190-217 | for ids in any order: fills exactly as many places as asked for, or as the count leaves, with ids that are unused, strictly increasing and smaller than every unused id not given; later places keep their content |
| Streams.GatheredCount | ntnetflow/info.c:201-202 | the count leaves no more ids than there are unused ones |
| Streams.SortedOfMeaning | ntnetflow/info.c:204-205 | sorting keeps the ids and their number |

## Left out

- Weak memory orders and data races: every access of the queue is one step of a sequentially consistent
  interleaving, and each call of the flow table is atomic. The locks of the table, and the flag that keeps
  other threads off a bucket about to be freed, are therefore not modelled beyond their sequential effect.
- `mpmc_queue_size` and the waiting wrappers with their futexes: the size is approximate by design, and a
  wake-up can be lost to a thread that reads the tail before publication.
- A compare-exchange that fails for no reason is a step of the model, but progress is stated for the other
  retries only.
- Lag of a local ticket beyond 2^31 less the capacity at a scan, or beyond 2^32 - 1 at a compare-exchange: excluded from the
  refinement, with runs that reach one ticket more for every capacity (`MpmcLag.LagBoundIsSharp`).
- MpmcSequential.Queue.constructor: memory for the buffer is available; so is memory for buckets and nodes elsewhere.
- FlowTable.Table.constructor: for a chain size of 2 or more the operations of a whole table are not modelled, since its chains are
  not in order; `FlowChain.Chain.AddAt` and `FlowOverfill.FillAndLose` show what they do instead. The second-level hash, which
  is not compiled in, is not modelled, nor is `ft_deinit`.
- FlowTable.Table.Dereference: for no more references than there are. The assertion in the source is meant to demand this but always
  holds; `FlowListing.DropKeepsEntry` shows that its one caller keeps to it until an entry is added twice. What happens otherwise
  is shown for the bucket (`FlowBucket.Bucket.GiveUp`, `FlowBucket.Bucket.GiveUpTooMany`). Counts are unbounded integers.
- Entries are values in a sequence of their bucket, and a pointer to an entry is the bucket with an index; the
  key array is a sequence of 40 bytes. The flags and poll links of an entry are modelled apart (`FlowEntry`, `PollRing`).
- Rx.Process: the stream id that it notes in a new entry, and the packet statistics of `flowinfo`, are not modelled.
- PollRing.Ring.Add: null links are a precondition, as the source asserts; what it does otherwise is in `PollRing.Ring.Link` and
  `PollRing.Ring.LinkAgain`. The deadline and the offset are unbounded numbers of seconds.
- PollRing.Ring.Pass: additions by other threads come between the steps of the pass, and removals are those of the poll thread.
- FlowThreads.RunsAreLimited: what the adapter reports is not bound to the commands it was given, but for reports on probes where that is
  said. A poll that is passed over because of the skip counter is no step: it changes no flag, and the next one is
  handled unless another learn command comes first.
  Requests wait in the queue in order, as `MpmcTheorems.PulledInPushOrder` shows, and those for other entries are left out.
- FlowEntry.EntryFlags.Request: the word is the set of its flags. A failing write ends the program thread and is not modelled. In
  memory, each piece of a thread runs as a whole; the results about runs are for single atomic accesses in any order.
- FlowListing.AddedTwiceExactly: what the list looks like after an entry was added twice is not followed, nor is memory that is freed and
  given to another flow.
- Backlog.Ring.Output: what is written to the file and the delimiters; the stream of reports is what standard output gets.
  One record stands for the nine parallel string arrays.
- Replay.Restamp: the iteration number is unbounded, since its declared type is not a standard one; reading and sending
  segments belongs to the adapter library. `CalculateOffset` only warns about a start time in the past, and so
  `Replay.Begin` takes it as it is.
- AddrMap.Substitutions.Load: YAML tokens and the parsing of addresses; a malformed file loads the pairs before its error.
  The use of replacements in packets is not modelled.
- Streams.StreamsUnused: `qsort` is modelled by a sorting function; stream ids are below 256, and there are at most 256.
- The remaining tools, the adapter library, NTPL, statistics, options and output formats: they would add
  only easy members.
