# Batch Shipyard: verified models

This project models the algorithms and protocols that Batch Shipyard implements
itself, between its calls to Azure services and to shell tools, and proves
properties of them in Dafny 4.11. `dafny verify dfyconfig.toml` checks everything.

Code that changes variables step by step is modelled by methods with loops, or by
classes whose methods update fields; each is tied to functions or step relations,
about which the main results are proved. Services, processes and clocks are
environments that may answer in any order and in any way their interface admits.

**Data ingress** (`convoy/data.py`; `strings`, `split_names`, `ranges`, `packing`,
`transfer*`, `end_to_end`, `worker_loop`). Large files are cut into byte ranges, all
items are packed greedily onto nodes, one thread per node streams its list with
bounded parallelism, and whoever finishes the last piece of a file joins the pieces
with `cat dst.* >> dst`. The threads and the exits of their child processes form a
step system; a run is any interleaving. Runs are bounded, no thread gets stuck, and a
run without a failed process succeeds. The main theorem says for which sources and which
old contents of the destination all successful runs deliver all files: apart from
sources with which none can succeed, exactly those in which every split file is block aligned, has a destination that does not read like a
piece, and has nothing under its pattern `dst.*`, neither another file of the source, such
as a checksum beside it, nor an old file with any content. Found on the way: the read loop
does not clamp its last block, so a split size that is no multiple of 4 MiB makes files
longer; a join takes every file whose name is `dst.` and a rest without a slash, splices
it into `dst` at its place in the order of the names, before or after the pieces, and
deletes it; and of a destination whose last dotted part begins with the split prefix the
first piece is counted for the name without that part. If that name has no countdown the
thread crashes, and no run succeeds; if it has one, the wrong countdown is lowered.

**Image distribution** (`cascade/cascade.py`; `cascade*`). Blobs leased for 60 seconds
and renewed every 15 act as download slots across nodes. Each node has a queue, a set
of downloads in flight, lease and timer maps, download threads and a completion
counter. In a run in which no renewal of a resource raises and none comes 45 seconds
late, at most as many nodes pull it as it has slots. Nothing but the renewals ensures
this: with one renewal that is late by exactly 45 seconds, or that raises, or that is not
made because another pull of the node has failed and ended its event loop, there is one
puller too many, for every number of slots. So the number of pullers is bounded by the
slots in all runs exactly when no more nodes than that list the resource. The check on the
number of downloads of a node is a strict comparison: exactly the nodes that list more
different resources than allowed come to have one more than allowed in flight. A download
whose renewal has failed never leaves the set of downloads, so allowed + 1 failed renewals
make a node that has more to pull wait for ever, without any failed pull; which states
can still end in completion is characterised exactly.

**Task submission, ids, streaming, federation, readiness** (`convoy/batch.py`,
`cargo/recurrent_job_manager.py`; `submission`, `task_ids`, `next_task_id`, `streaming`,
`federation*`, `readiness`). Chunks of tasks are halved when the service calls them too
large, and single tasks are retried after server errors; an error of any other kind
makes the loop skip the chunk without a word, and the callers never look at the outcome
of a block. Generated ids are always new in the pending map; the jump to the last id
agrees with the linear scan exactly for contiguous pending ids, and can lead below the
committed ids. The ids of merge tasks are cut at the prefix without `merge-`: with the
empty prefix none of them can be read, and one committed merge task makes the next call
raise; a prefix such as `e-e-`, which is found from within `merge-` on, fails as well. Streaming needs its second look after completion. In a federation the
dependency graph is renamed isomorphically, except for the merge task, which is given
the ids its fellows had before, and which displaces a task that was called like it is
called then; id ranges beside ids are dropped silently. Waiting for
nodes reboots each at most six times; the recovery from unusable nodes raises in the
very round that deletes them, unless some node is still on its way.

**Autoscale formulas** (`convoy/autoscale.py`; `autoscale*`). The generated text is a
straight-line program; it has a syntax and an evaluator over exact reals here. Every
formula evaluates without an error. Clamping, coverage and the irrelevance of the
preemption rebalance under a preferred node type are proved of the evaluated targets.
The minimums are subtracted from the demand while the targets are not counted from them:
the exact conditions for the demand to be covered all the same are given.

**Configuration merge and file share walk** (`cascade/graph.py`,
`convoy/task_factory.py`; `config_merge`, `fileshare`).

Where the comments of the code say something else, the models follow the code.

## Model

| member | source | states |
|---|---|---|
| SplitNames.TargetOfPiece | convoy/data.py:651-655 | the destination parsed off a piece name is the one it was printed for; the unnumbered first piece is recognised exactly when the destination does not itself read like a piece |
| SplitNames.StrippedIsShorter | convoy/data.py:799-803 | what the parser makes of a destination that reads like a piece: a proper prefix that the destination lies under |
| Strings.PaddedRoundTrip | convoy/data.py:655-655 | int() undoes str() and zfill() |
| Strings.JoinSplit | convoy/data.py:799-801 | joining what was split by a delimiter gives the string back |
| SplitNames.PadWidthIsDigits | convoy/data.py:640-655 | the suffix width computed by logarithm is the number of digits of the number of pieces |
| SplitNames.PieceNamesOrdered | convoy/data.py:640-655 | with the suffix width computed from the number of pieces, code point order of two piece names is the order of their numbers, and different numbers have different names |
| SplitNames.PieceOfOther | convoy/data.py:860-863 | a piece of one destination falls under another destination's pattern only if the first destination itself is the other, or falls under its pattern |
| SplitNames.PatternsNested | convoy/data.py:860-863 | the patterns of two destinations both match a name only if one of them matches the other destination |
| SplitNames.GlobListsPiecesInOrder | convoy/data.py:860-863 | the sorted expansion of `dst.*` over a directory that holds nothing foreign under the pattern is the list of pieces in offset order |
| Ranges.SendRange | convoy/data.py:787-797 | the read loop sends from the range's begin up to the first whole block at or past its end, or the end of the file |
| Ranges.SentLength | convoy/data.py:788-796 | every piece is at least as long as its range, and one that is not the last is longer if the split size is no multiple of the block |
| Ranges.SentWhenAligned | convoy/data.py:788-796 | with a split size of whole blocks every piece is sent as exactly its range |
| Ranges.MisalignedIsLonger | convoy/data.py:788-796 | with any other split size the pieces together are longer than the file |
| Ranges.ReassembledIffAligned | convoy/data.py:645-660 | the pieces of a split file concatenate to the file if and only if the split size is a multiple of the 4 MiB read block |
| Ranges.ReassembledIffMultipleOfFour | convoy/settings.py:2615-2623 | in terms of the setting in MiB: if and only if it is a multiple of four |
| Ranges.FiveMegabyteSplitCorrupts | convoy/data.py:791-796 | a file of 6 MiB with a setting of 5 does not come out as it was |
| Packing.MinIndex | convoy/data.py:649-649 | the chosen bucket is the first with the least load |
| Packing.PieceInLoop | convoy/data.py:645-660 | what the loop computes in round n is the range of piece n, and it ends at the last piece |
| Packing.PlacePieces | convoy/data.py:643-660 | the loop over curr, end and n packs exactly the ceil(fsize / split) pieces of the file, in order, with their names and ranges |
| Packing.BinPack | convoy/data.py:613-665 | the walk packs the items of all files greedily and records the number of pieces of every split file; it raises only without nodes |
| Packing.LoadsAddUp | convoy/data.py:650-663 | bucket loads add up to the bytes packed |
| Packing.SpreadBounded | convoy/data.py:649-663 | after any number of placements no two buckets differ by more than the largest item |
| Packing.MakespanBounded | convoy/data.py:649-663 | m times the fullest bucket is at most the total plus (m - 1) times the largest item |
| Packing.ItemsBoundedBySplit | convoy/data.py:646-650 | with splitting on no item is larger than the split size |
| Packing.ItemsAddUp | convoy/data.py:645-660 | splitting neither loses nor duplicates a byte of the source |
| Packing.SplitMakespan | convoy/data.py:635-664 | with splitting on, m times the fullest bucket is at most the source bytes plus (m - 1) times the split size |
| Packing.SlotsHoldItems | convoy/data.py:656-664 | every item is found in the list of the node it was packed onto |
| Packing.SlotsDistinct | convoy/data.py:656-664 | no two items share a place |
| Packing.SlotsCover | convoy/data.py:656-664 | the lists of the nodes hold nothing but the items |
| TransferInvariant.WorkersStep | convoy/data.py:827-876 | every step of any thread keeps every thread's loop invariant: completed + outstanding == i, at most mpt outstanding, `psdst` aligned with `psprocs`, nothing spawned is lost |
| TransferInvariant.CountsStep | convoy/data.py:853-856 | every step keeps each shared countdown equal to the pieces of its file not yet reaped with code 0 |
| TransferInvariant.CountdownMoves | convoy/data.py:853-856 | reaping a piece moves exactly one countdown by one |
| TransferInvariant.CountPositive | convoy/data.py:853-856 | a countdown is positive as long as one of its pieces is outstanding |
| TransferInvariant.JoinStarted | convoy/data.py:853-870 | only the step that takes a countdown from 1 to 0 starts a join, and it starts exactly that one |
| TransferInvariant.JoinsStep | convoy/data.py:853-870 | every step keeps: a file has a join exactly when its countdown is zero, and never two |
| TransferJoin.CatOfPart | convoy/data.py:860-863 | concatenating a larger set of names in order gives the same bytes if and only if the additional names hold none, and more bytes otherwise |
| TransferJoin.JoinIntactIff | convoy/data.py:860-863 | with all pieces in place, the join leaves their concatenation if and only if everything else the pattern matches is empty, more than that otherwise, and nothing that the pattern matches |
| TransferJoin.JoinTouches | convoy/data.py:860-863 | a join, successful or not, touches only its destination and names that its pattern matches, and creates no other name |
| TransferRemote.AllPiecesDone | convoy/data.py:853-856 | a countdown at zero means that all pieces were reaped with code 0 |
| TransferRemote.ForeignKept | convoy/data.py:853-863 | until the join of a file ends, the files under its pattern that are not its pieces are exactly those of the start |
| TransferRemote.CopyExitStep | convoy/data.py:785-797 | the exit of a transfer, successful or not, keeps what is known about the destination |
| TransferRemote.JoinExitStep | convoy/data.py:860-870 | the exit of a join, successful or not, keeps what is known about the destination |
| TransferRemote.InvAlongRun | convoy/data.py:806-876 | the system invariant holds in every state of every run |
| TransferRuns.JoinOnceAfterAllPieces | convoy/data.py:848-870 | in every reachable state a file has at most one join, and one only after all its pieces were reaped with code 0 |
| TransferRuns.RunKeepsHistory | convoy/data.py:832-876 | joins and exit codes are never taken back |
| TransferRuns.FailedPieceNeverJoined | convoy/data.py:842-847 | a file one of whose pieces fails is never joined, at any time of the run |
| TransferRuns.CoreAlongRun | convoy/data.py:832-876 | whatever the names of the items, the loop invariants and the meaning of the countdowns hold in every state of every run |
| TransferRuns.WaitHasProcess | convoy/data.py:841-841 | the wait is never entered with nothing outstanding |
| TransferRuns.ActiveMeansEnabled | convoy/data.py:832-841 | as long as a thread has not returned some step of the system is possible |
| TransferRuns.WorkDecreases | convoy/data.py:832-875 | every step does some of the finite work of its thread |
| TransferRuns.RunsAreBounded | convoy/data.py:832-875 | no run is longer than six steps per item and one per thread |
| TransferRuns.SuccessJoinsOnce | convoy/data.py:857-870 | when all threads report success every split file was joined exactly once, successfully |
| TransferRuns.SuccessParses | convoy/data.py:799-804 | a split destination that reads like a piece never takes part in a successful run |
| EndToEnd.BuiltPlanOk | convoy/data.py:602-665 | if no file of the source goes under the pattern of a split one, the packing loop builds a plan in which every piece is countable and no join reaches another file |
| EndToEnd.TransferEndToEnd | convoy/data.py:602-876 | for every source without a file under the pattern of a split one, old content of the destination, node count, parallelism and interleaving: on success each file is at its destination byte for byte if and only if it is unsplit, or its split is block aligned and all old files under its pattern but its pieces are empty; nothing is left under these patterns; of the other names exactly the old ones under a pattern have gone and no other has changed |
| TransferSuccess.ExplainedStep | convoy/data.py:841-856 | a thread ends without success only after a process exited with another code than 0, or at a piece whose destination has no countdown |
| TransferSuccess.FailureFreeRunSucceeds | convoy/data.py:832-876 | a run that cannot go on, without a failed process and with all destinations parsed, has succeeded on every thread |
| TransferSuccess.FailureFreeRunDelivers | convoy/data.py:602-876 | from the source files on: if no split destination reads like a piece such a run succeeds, and for sources as above it delivers every file under exactly those conditions |
| TransferSolo.RunWithLastJoin | convoy/data.py:832-876 | every plan for one node whose pieces all have countdowns has a successful run in which the join of any file that gets joined is the last process to exit |
| TransferCounting.CountsDownIff | convoy/data.py:799-856 | the countdowns that are used up are those of the split files whose destination does not read like a piece, or is what is parsed off another split destination |
| TransferDelivery.CanSucceedIff | convoy/data.py:799-856 | for every source: some run succeeds if and only if the name parsed off the first piece of every split file is the destination of a split file |
| TransferDelivery.SiblingLost | convoy/data.py:857-864 | a file under the pattern of a joined one is lost in some successful run |
| TransferDelivery.MisalignedLost | convoy/data.py:788-864 | so is a misaligned split file, whatever its neighbours |
| TransferDelivery.UnjoinedLost | convoy/data.py:799-856 | and one whose countdown is lowered for another name |
| TransferDelivery.AlwaysDeliveredIff | convoy/data.py:602-876 | for every source and old content of the destination: all successful runs deliver all files if and only if none can succeed, or every split file is aligned, does not read like a piece, and has under its pattern no file of the source and no old file with any content |
| TransferDelivery.FileBesideIsSwallowed | convoy/data.py:857-864 | a successful run from an empty destination in which a small file beside an aligned large one ends up inside it |
| TransferDelivery.ChecksumIsSwallowed | convoy/data.py:857-864 | in figures: `a.b` of one byte beside `a` of two blocks |
| WorkerLoop.StepIsLocal | convoy/data.py:832-876 | what a step of the system does to its own thread depends only on that thread and on the answers it gets |
| WorkerLoop.LocalIsStep | convoy/data.py:832-876 | and a local step whose decrement is the one the shared countdowns hold ready is a step of the system |
| WorkerLoop.ListsDiffer | convoy/data.py:848-848 | comparing the two process lists by value tells them apart |
| WorkerLoop.SpawnTransfers | convoy/data.py:833-840 | the spawn loop fills up to mpt processes or to the end of the list, by spawn steps of the system |
| WorkerLoop.WaitMulti | convoy/util.py:637-656 | some outstanding process, the list it is in, its position and its code |
| WorkerLoop.ReapNext | convoy/data.py:841-875 | one wait and reap: the history gets the exit of the process found, with the code that was answered, and its reaping; a code other than 0 ends the thread with that code, else the decrement that was answered decides between going on, a join and a crash; and the loop's measure falls |
| WorkerLoop.ThreadWorker | convoy/data.py:827-876 | the loop terminates whatever exits when and whatever the countdowns answer; its history is one of local steps whose exit codes are those answered; the first code that is not 0 is returned at once, and without one it returns 0 or crashes at a piece without a countdown; return code 0 means that all transfers and joins were reaped with code 0 |
| CascadeQueue.PickConserves | cascade/cascade.py:588-605 | the rotation neither loses nor duplicates an entry, whatever the threads do meanwhile, and takes only what some check found free |
| CascadeQueue.PickFirstFree | cascade/cascade.py:588-605 | it takes the first free entry and moves those before it to the back |
| CascadeQueue.PickNothing | cascade/cascade.py:595-605 | when all entries are downloading it takes nothing and stops at the first one seen again |
| CascadeQueue.PickResource | cascade/cascade.py:588-605 | the loop itself terminates and never calls get on an empty queue |
| CascadeQueue.PickIsFree | cascade/cascade.py:588-605 | with a downloading set that stands still what is taken is not downloading |
| CascadeNode.NodeStepInv | cascade/cascade.py:227-252 | every step of a node keeps the node invariant |
| CascadeNode.Conservation | cascade/cascade.py:583-642 | in every reachable state queued + in hand + started make up exactly the resources enqueued, no two live threads share one, the downloading set is that of the live threads, and at most allowed + 1 are in flight |
| CascadeNode.DoneMeansAllPulled | cascade/cascade.py:649-657 | the completion flag means that all resources were pulled and nothing is queued, in hand or failed |
| CascadeLease.OthersBacked | cascade/cascade.py:611-622 | a step of one node does not take a slot from another whose lease is on time |
| CascadeLease.IdsStayDifferent | cascade/cascade.py:614-618 | lease ids are never shared between nodes |
| CascadeLease.SystemInvReachable | cascade/cascade.py:608-635 | in every reachable state a lease that a node believes in on time is the one the service keeps |
| CascadeLease.SlotHasOneHolder | cascade/cascade.py:611-635 | in every reachable state of any number of nodes a slot has at most one on-time holder |
| CascadeLease.PullersOnTimeBounded | cascade/cascade.py:608-642 | at most N nodes whose renewals are on time pull a resource with N slots |
| CascadeLease.PullsStayHeld | cascade/cascade.py:227-252 | in a run in which no renewal of a resource raises and none is 45 seconds overdue, every node that pulls it has its renewal pending |
| CascadeLease.PullersBounded | cascade/cascade.py:227-252 | so at the end of such a run, of any number of nodes, no more of them pull it than it has slots |
| CascadeRelease.CleanupFrees | cascade/cascade.py:386-407 | a cleanup frees exactly the slot that it asks for, and only with the lease the service has granted it under; every other slot stays as it is |
| CascadeRelease.EndedDownloadFreesSlot | cascade/cascade.py:386-407 | in every run, after a download that ends with its renewal on time, whichever node tries its slot next is granted it |
| CascadeRelease.HoldsOn | cascade/cascade.py:227-252 | from every reachable state a node whose event loop goes on can hold a slot on for as long as it likes, with one renewal every 15 seconds |
| CascadeRelease.StoppedRenewsNothing | cascade/cascade.py:683-687 | an event loop that has ended renews nothing any more |
| CascadeSemaphore.SemaphoreHoldsIff | cascade/cascade.py:608-642 | for every table, setting and resource: the pullers stay within the slots in all runs if and only if no more nodes than slots list the resource, or there are no slots at all |
| CascadeSemaphore.OnePullerTooMany | cascade/cascade.py:227-252 | for every number of slots a run with one puller more, all but one with renewals on time: its renewal is late by exactly 45 seconds, or raised, or its event loop has ended; in the first two cases no pull has failed |
| CascadeBounds.PickProgress | cascade/cascade.py:588-605 | with any queue that has a free entry, repeated entries or not, the loop takes one or leaves the first free one nearer to the front |
| CascadeBounds.InFlightBoundedIff | cascade/cascade.py:583-586 | a node keeps its downloads within the setting in all runs if and only if it lists no more different resources than that, or may pull none |
| CascadeCompletion.CanFinishIff | cascade/cascade.py:386-407 | in every reachable state: some continuation sets the completion flag of a node if and only if it has something to pull, no pull has failed, and, unless its queue is empty, its event loop goes on and the downloads without a lease are at most as many as allowed and of no queued resource |
| CascadeCompletion.LostGrows | cascade/cascade.py:386-407 | a download that has lost its lease never leaves the set of downloads |
| CascadeCompletion.HangReachable | cascade/cascade.py:246-249 | every node that lists more than allowed + 1 resources, more than allowed of them different, can come to wait for ever, with its event loop going on and no pull failed |
| CascadeProcess.DirectDownloadedInv | cascade/cascade.py:583-642 | a whole round of the download logic keeps the node invariant, whatever the service answers |
| CascadeProcess.RoundIsSteps | cascade/cascade.py:574-642 | in every state where a node can begin, a round is one Begin and, if it takes a resource, attempts at its slots in turn up to the first grant or to giving up: the steps lead to what the round computes from the answers of the service |
| CascadeProcess.Process.constructor | cascade/cascade.py:740-746 | the queue is filled with the resources of the table |
| CascadeProcess.Process.DirectDownload | cascade/cascade.py:574-642 | the round over the process's globals is the round that `RoundIsSteps` ties to the node steps |
| CascadeProcess.Process.Acquire | cascade/cascade.py:608-642 | the loop over the blobs takes the first one granted, or puts the resource back |
| CascadeProcess.Process.RenewBlobLease | cascade/cascade.py:238-252 | a renewal reschedules itself; a failed one forgets lease and timer |
| CascadeProcess.Process.IncResourceCount | cascade/cascade.py:653-657 | counting a pull, and the flag at the last one |
| CascadeProcess.Process.FinishThread | cascade/cascade.py:386-407 | the cleanup asks for the release that `CleanupFrees` is about and leaves the downloading set exactly if the timer is still there |
| Submission.CollectRetries | convoy/batch.py:4281-4301 | what is retried are the tasks with a server error, in the order of the results |
| Submission.RetriedInOrder | convoy/batch.py:4298-4304 | what is sent again are the tasks reported with a server error, each once, in the order of the results |
| Submission.ChunksPartition | convoy/batch.py:4256-4310 | the chunks that were not too large lie end to end in order, over all that was gone through |
| Submission.ChainCoversOnce | convoy/batch.py:4258-4261 | each index of such a chain is in exactly one chunk |
| Submission.SubmissionsBounded | convoy/batch.py:4266-4277 | however the service answers there are at most n (1 + log2 slice) chunk submissions for n tasks |
| Submission.Log2IsFloor | convoy/batch.py:4268-4272 | the number of halvings in that bound is the floor of the binary logarithm |
| Submission.TaskStanding | convoy/batch.py:4278-4306 | after every prefix of the calls: tasks ahead are untouched, tasks behind have a status unless their chunk was skipped, and those with a server error are exactly the ones waiting for a retry |
| Submission.WhatIsSent | convoy/batch.py:4300-4304 | a chunk holds tasks without any status, a retry exactly those whose last status is a server error |
| Submission.AddedAtMostOnce | convoy/batch.py:4279-4306 | no task is added twice |
| Submission.ReturnedOutcome | convoy/batch.py:4307-4310 | after a normal return a task is added or has a client error, unless it was skipped, and then nothing is known about it |
| Submission.CompleteIffNoOtherError | convoy/batch.py:4266-4277 | a normal return covers all tasks if and only if no chunk failed for another reason than its size |
| Submission.StoppedIsIncomplete | convoy/batch.py:4268-4269 | a call that raises leaves a task without a verdict |
| Submission.RetryServerErrors | cargo/recurrent_job_manager.py:154-180 | the retry loop ends with nothing to retry or with a call that got no results |
| Submission.SubmitSubCollection | cargo/recurrent_job_manager.py:130-184 | the loop terminates with a legal log of the service's answers; it raises exactly when a one-task chunk is too large or a retry gets no results |
| Submission.AddTaskCollection | convoy/batch.py:4321-4331 | every block of at most 100 tasks is submitted by one call of its own |
| Submission.BlocksOfHundred | convoy/batch.py:4321-4329 | the blocks are a hundred tasks each, the last one what is left |
| Submission.EachEntryOnce | convoy/batch.py:4321-4329 | every entry of the map is in exactly one chunk of one block, unless the call for its block stops before it |
| Submission.CollectionCompleteIff | convoy/batch.py:4323-4331 | the whole map is delivered if and only if every block returned without skipping a chunk |
| TaskIds.FormatInjective | convoy/batch.py:4174-4174 | different numbers have different ids |
| TaskIds.PyIntOfPadded | convoy/batch.py:4174-4174 | int() undoes the zero padding, for negative numbers too |
| TaskIds.SplitPast | convoy/batch.py:4217-4220 | what precedes the prefix does not change the last part, unless the prefix is found from within it on |
| TaskIds.ParseUndoesFormat | convoy/batch.py:4199-4220 | numbers are read back from generated ids, of merge tasks too, under readable prefixes |
| TaskIds.DigitPrefixBreaksParsing | convoy/batch.py:4217-4220 | for a prefix of digits only and any padding, a number whose id is not read back |
| TaskIds.StraddlingPrefixBreaksParsing | convoy/batch.py:4199-4220 | under a prefix that is found from within `merge-` on, no positive number of a merge task is read back |
| TaskIds.EmptyPrefixBreaksMergeIds | convoy/batch.py:4201-4220 | under the empty prefix no id of a merge task ends in a number |
| TaskIds.ParsingExact | convoy/batch.py:4199-4220 | for both kinds of tasks and every padding: the ids of all natural numbers are read back if and only if the prefix is not of digits only and, for merge tasks, is not empty and not found from within `merge-` on |
| TaskIds.ReadsBackIff | convoy/batch.py:4174-4220 | of all integers, exactly those are read back under such a prefix whose printed number does not begin with the prefix |
| NextTaskId.Scan | convoy/batch.py:4227-4239 | probing number by number terminates with a free number |
| NextTaskId.ScanUnique | convoy/batch.py:4227-4239 | that number is the first free one |
| NextTaskId.JumpIsScanIff | convoy/batch.py:4228-4235 | the jump to the last id gives the result of the plain scan if and only if the pending ids are contiguous up to it or, for one below the start, between the two |
| NextTaskId.BelowStartIff | convoy/batch.py:4228-4235 | exactly when the jump leads below the first number tried, where ids may be committed |
| NextTaskId.CommittedAreBelow | convoy/batch.py:4217-4226 | every committed id reads as a number below the first one tried |
| NextTaskId.StartIsNext | convoy/batch.py:4211-4224 | the first number tried is the one next above the committed numbers, 0 without any, or one more exactly if that one is reserved; there is none exactly if some id does not end in a number |
| NextTaskId.NewIdIsUncommitted | convoy/batch.py:4217-4240 | under a readable prefix, an id of either kind that is generated from there on, for a negative number too, is not among the committed ones |
| NextTaskId.CommittedMergeIdRaises | convoy/batch.py:4217-4220 | under the empty prefix, a call that lists a committed merge task raises |
| NextTaskId.GeneratedIdsAreConsecutive | convoy/batch.py:4535-4542 | under a readable prefix or none, k calls in a row for tasks of one kind yield k consecutive numbers from the first one on |
| NextTaskId.Probe | convoy/batch.py:4225-4239 | the probe loop with its single jump terminates with the specified number, absent from the map |
| NextTaskId.SkipReserved | convoy/batch.py:4221-4224 | the reserved number is passed over once |
| NextTaskId.FirstNumber | convoy/batch.py:4217-4224 | the first number tried, or a ValueError |
| NextTaskId.GenerateNextGenericTaskId | convoy/batch.py:4198-4240 | the id returned is absent from the map and the specified one for the committed, reserved and last ids; it raises exactly when one of them does not end in a number |
| NextTaskId.ReturnedListIsStable | convoy/batch.py:4205-4223 | the next call with the returned list starts from the same number |
| Streaming.OutputIsPrefix | convoy/batch.py:3325-3356 | over an append-only file, with short reads and inclusive ranges, the output is always the first curr bytes, and the whole final file on a normal exit |
| Streaming.OutputStays | convoy/batch.py:3306-3345 | bytes once written stay written, and a poll of a node that is not ready or of a missing file writes none |
| Streaming.FirstLookMisses | convoy/batch.py:3347-3353 | when completion is first noticed the output can lack bytes of the file |
| Streaming.OneByteMore | convoy/batch.py:3330-3336 | a read brings at most one byte past the size, and only if the file has grown |
| Streaming.OneByteMoreHappens | convoy/batch.py:3330-3336 | and then it does |
| Streaming.RaisesWhen | convoy/batch.py:3311-3324 | the loop raises exactly at another error or the twenty-first missing file, however far apart they are |
| Streaming.StreamingEnds | convoy/batch.py:3306-3358 | once the task is completed, as many polls as the file has bytes and two more end the loop |
| Streaming.StreamFile | convoy/batch.py:3289-3358 | the loop follows the specified run and stops at its first end; on a normal exit it has written the whole final file |
| Federation.RenameDependencies | convoy/batch.py:6059-6068 | the dependencies are renamed if all of them are tasks of the group |
| Federation.NewIdParts | convoy/batch.py:6056-6056 | the new id is the old one, a dash and the suffix, and different suffixes give different ids |
| Federation.RewriteTask | convoy/batch.py:6054-6081 | a task is rewritten or refused by the stated conditions, and a refused one is left alone |
| Federation.RewriteNext | convoy/batch.py:6051-6081 | one round of the loop over the tasks keeps what is known of all tasks, the map and the counted length |
| Federation.RewriteOthers | convoy/batch.py:6051-6081 | the loop over the tasks rewrites all but the merge task, or stops at the first one that does not pass |
| Federation.RewriteTaskDependencies | convoy/batch.py:6032-6109 | the tasks in place: success exactly when accepted; which tasks are rewritten, also after a failure; with unique job ids nothing changes |
| FederationGraph.AcceptedIff | convoy/batch.py:6051-6101 | the call succeeds exactly if no id gets longer than 64 characters, all dependencies are in the group, no task has id ranges alone or under unique job ids, and the new ids that are counted have at most 64000 characters |
| FederationGraph.EdgesCorrespond | convoy/batch.py:6056-6073 | dependencies correspond one to one under the renaming tid to tid-uid |
| FederationGraph.EdgeHasOrigin | convoy/batch.py:6068-6073 | no dependency is invented |
| FederationGraph.ReturnedTasks | convoy/batch.py:6079-6101 | with or without a merge task, the returned map holds the other tasks and the merge task, except one that was called like the renamed merge task |
| FederationGraph.StaysClosedIff | convoy/batch.py:6060-6068 | a dependency of the other tasks names a task of the returned map if and only if it is not on the one that the merge task has displaced |
| FederationGraph.PathHasOrigin | convoy/batch.py:6056-6073 | every path of the new graph is the image of an old path |
| FederationGraph.AcyclicIff | convoy/batch.py:6056-6081 | the new graph is acyclic if and only if the old one is |
| FederationGraph.RangesAreDropped | convoy/batch.py:6069-6078 | id ranges beside ids pass the check and are gone |
| FederationGraph.MergeDanglesIff | convoy/batch.py:6097-6099 | the merge task's dependencies all name tasks of the returned map if and only if it has no fellows but one that it has displaced |
| FederationGraph.ReportedIdIsFoundIff | convoy/batch.py:6079-6101 | the returned map finds a task under its new id only if another task was called so before |
| Readiness.RebootsBounded | convoy/batch.py:702-728 | in every run each node is rebooted at most six times |
| Readiness.OutOfRetriesMeansAllUsed | convoy/batch.py:713-726 | the loop gives up on a node only after six reboots |
| Readiness.RebootsTheFailed | convoy/batch.py:702-728 | a round reboots exactly the nodes whose start task has failed, each once, in the order of the list; if it gives up, those before the node it gives up on |
| Readiness.FatalIff | convoy/batch.py:658-679 | which resize errors end the wait |
| Readiness.RoundVerdict | convoy/batch.py:692-793 | for each outcome of a round, exactly when it is reached, and which list of nodes it returns |
| Readiness.RoundCalls | convoy/batch.py:702-798 | the calls of a round: the reboots or the deletion, and a resize exactly if one is owed, nodes are missing and none is under way |
| Readiness.ResizesOnlyAfterDeletions | convoy/batch.py:777-797 | a resize is issued exactly while a deletion has not been made up for |
| Readiness.ResizesBounded | convoy/batch.py:795-798 | resizes never outnumber deletions |
| Readiness.ReturnedNodesAreReady | convoy/batch.py:780-793 | a normal return carries nodes as a round listed them, as many as the target, all in end states |
| Readiness.RecoverySurvivesIff | convoy/batch.py:769-793 | with the states that wait_for_pool_ready asks for, the round that deletes unusable nodes goes on if and only if the list has not the target size or some node is still on its way; otherwise it raises |
| Readiness.RebootNodes | convoy/batch.py:702-728 | the reboot loop over the nodes is the specified one |
| Readiness.Poll | convoy/batch.py:655-798 | one round of the loop |
| Readiness.BlockForNodesReady | convoy/batch.py:648-818 | the polling loop makes the calls of the specified run and stops at its first verdict |
| Autoscale.GetMinMax | convoy/autoscale.py:307-352 | limits are what the settings say, unlimited for negative maximums and increments that are not positive; it raises exactly when a minimum exceeds its maximum |
| Autoscale.LimitsExistIff | convoy/autoscale.py:307-352 | there are limits exactly if no minimum exceeds its maximum, a negative one being 16777216 |
| Autoscale.LimitsAllow | convoy/autoscale.py:307-352 | which node counts and increments the limits allow |
| Autoscale.FormulaTasks | convoy/autoscale.py:42-221 | the generator builds the program, and raises exactly for bad limits, scenario or bias |
| AutoscaleMeaning.TargetsMean | convoy/autoscale.py:134-191 | the target statements of all three variants evaluate to the stated numbers |
| AutoscaleMeaning.DemandMeans | convoy/autoscale.py:57-105 | so do the demand statements of both variants |
| AutoscaleMeaning.PreemptionMeans | convoy/autoscale.py:76-124 | and those that decide about a rebalance |
| AutoscaleMeaning.FormulaMeans | convoy/autoscale.py:42-221 | every generated formula evaluates without an error, on every measurement, and sets both targets |
| AutoscaleTargets.TargetsClamped | convoy/autoscale.py:134-189 | no target exceeds its maximum; the second one keeps its minimum |
| AutoscaleTargets.GrowthBounded | convoy/autoscale.py:126-189 | no kind of nodes grows by more than its increment in one evaluation, except up to its minimum |
| AutoscaleTargets.LastSampleRule | convoy/autoscale.py:70-88 | the demand follows the last sample at once when it grows and half way when it falls |
| AutoscaleTargets.DemandRule | convoy/autoscale.py:57-105 | the demand in nodes is what the tasks fill; without the bias any task is worth a node |
| AutoscaleTargets.PreemptedRule | convoy/autoscale.py:76-108 | the same for preempted nodes, the other way round |
| AutoscaleTargets.RebalanceRule | convoy/autoscale.py:109-124 | a rebalance is due when the preempted nodes are at least the configured part of all nodes |
| AutoscaleTargets.FirstMinimumIff | convoy/autoscale.py:163-189 | the first target keeps its minimum if and only if the increment lets the pool grow that far |
| AutoscaleTargets.RebalanceIsNoOp | convoy/autoscale.py:163-169 | with a preferred node type the redistributed value is the first one cut at the capacity |
| AutoscaleTargets.AutoRebalanceMattersIff | convoy/autoscale.py:134-150 | without one, the rebalance changes the targets if and only if it is on, nodes were preempted, and the dedicated share leaves demand as well as dedicated capacity |
| AutoscaleTargets.FastFormulaAgrees | convoy/autoscale.py:162-189 | with a preferred node type the formula without any look at preemptions evaluates to the same targets |
| AutoscaleTargets.DemandCovered | convoy/autoscale.py:162-189 | with a preferred node type the targets sum to the residual demand or both capacities |
| AutoscaleTargets.AutoLeavesDemand | convoy/autoscale.py:134-158 | without one, demand can be left over although there is capacity |
| AutoscaleTargets.AutoCoversIff | convoy/autoscale.py:134-158 | without one: the exact condition, on share, limits, preemptions and flag, for the targets to sum to the residual demand or both capacities |
| AutoscaleTargets.RawCoverageIff | convoy/autoscale.py:126-189 | with a preferred node type: the exact condition, on demand, minimums and capacities, for the targets to cover the whole demand or both capacities |
| AutoscaleTargets.MinimumsHideDemand | convoy/autoscale.py:126-132 | so with any positive dedicated minimum there is a demand that is not met although there is capacity |
| AutoscaleTargets.EvaluatedTargets | convoy/autoscale.py:42-221 | clamping, coverage of the residual demand and the exact condition for coverage of the whole demand, of the evaluated targets, for every valid configuration and every measurement |
| ConfigMerge.MergeByFields | cascade/graph.py:379-384 | a merge is defined, and looks, as the merges of its fields |
| ConfigMerge.MergeDict | cascade/graph.py:367-385 | the loop over the second dictionary computes the merge, or raises where it is undefined |
| ConfigMerge.EmptyIsIdentity | cascade/graph.py:378-385 | the empty dictionary is a two-sided identity |
| ConfigMerge.MergeIdempotent | cascade/graph.py:378-385 | merging a dictionary onto itself changes nothing |
| ConfigMerge.MergeKeys | cascade/graph.py:378-385 | the keys are the union |
| ConfigMerge.MergeAt | cascade/graph.py:379-384 | at the end of every path the later value wins, except that two dictionaries are merged |
| ConfigMerge.MergeDefinedIff | cascade/graph.py:376-377 | a merge raises exactly if some path leads to a dictionary in the first and to something else in the second |
| ConfigMerge.MergeAssociativeIff | cascade/graph.py:409-414 | when a and b can be merged, the two ways of merging three files are defined together and agree |
| ConfigMerge.OneOrderOnly | cascade/graph.py:376-382 | where a plain value meets a dictionary only one of the two orders is defined |
| ConfigMerge.LoadConfiguration | cascade/graph.py:409-414 | the three files are merged in order, and any result is that of merging the last two first |
| FileShare.ListAllFiles | convoy/task_factory.py:173-188 | the stack walk terminates and yields exactly the multiset of the recursive enumeration, each path once |
| FileShare.ListDirectory | convoy/task_factory.py:176-188 | listing one directory yields its files and pushes its directories, and lowers the measure |
| FileShare.EachFileOnce | convoy/task_factory.py:181-184 | no path comes up twice in the enumeration of a well-named tree |
| FileShare.PathsAreWritten | convoy/task_factory.py:173-188 | a path is listed exactly if it is the names that lead to a file, with slashes between them and, below a directory, after it |

## Left out

- Shell command strings, quoting, ssh and rsync options, creation of remote directories, file modes, logging, statistics: a transfer or join is one process that succeeds or fails.
- Include and exclude filters, directory entries matched by `dst.*`, and an expansion of `dst.*` in another order than by code points.
- Rounding in `math.ceil(fsize / split)` and `math.log10`: integers are exact here.
- Node keys of the packing dictionaries: nodes are positions in insertion order, which is the order ties are broken in.
- Partial output of a running transfer: its bytes are there when it exits; a failed one may have left anything under its own name, a failed join anything under its destination and some pieces removed.
- TransferEndToEnd: what every single file is after a successful run is said only for sources none of whose files goes to a name that `dst.*` of a split file matches (or, with a slash, that is parsed as its piece); for all sources `AlwaysDeliveredIff` says when all files arrive in all successful runs. What a join does to a file whose transfer is still under way is not modelled.
- Interleavings inside one lease acquisition and its registration, one renewal, or one cleanup of a download thread: each is one step, as are the check and the rotation of the queue in the step system (`PickConserves` allows threads to leave the set in between).
- The backoff of `_pull_and_save`, exceptions of the measurements after a pull was counted, and the pull commands themselves.
- RenewBlobLease: a renewal that raises is modelled; what its exception handler logs is not.
- PullersBounded: a condition on the renewals of a run; the condition on the tables is in `SemaphoreHoldsIff`. How late renewals come in practice is not modelled.
- CanFinishIff: says what some continuation can reach; that the service, the pulls and the event loop do their part is not assumed anywhere.
- SubmitSubCollection: terminates under the assumption that the service stops giving server errors for a task after finitely many results; the results about its log need no such assumption.
- AddTaskCollection: the blocks are submitted one after the other, each with a service of its own that may answer anything; how they interleave is part of those answers.
- GenerateNextGenericTaskId: `int()` is modelled with signs and underscores but without white space and digits outside ASCII.
- StreamFile: writing to disk or decoding to the terminal, and the choice of a job and task to stream.
- RewriteTaskDependencies: ids and dependencies only; the other fields of a task are not touched by the code.
- BlockForNodesReady: waiting times, statistics, diagnostics uploads and retrieval of outputs.
- `_formula_day_of_week`, the node deallocation option and the text of the formulas: the model is the program the text denotes, over exact reals and one number per measured average.
- EvaluatedTargets: counts of nodes that the service measures are assumed not to be negative.
- MergeDict: anything that is not a dictionary is one plain value; key order is not modelled.
- `_get_storage_entities` and the filters applied to the listed paths.
- Azure calls, credentials, command line, configuration validation and provisioning: calls without logic of their own.
