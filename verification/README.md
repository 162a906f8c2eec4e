# Verification of the download server

The server keeps a queue of downloads and a second list with one record for every
worker thread. Forked handlers put client requests into one message queue, a single
controller serves them and puts its replies into another. Commands, the sweep that
starts waiting downloads, and the workers all write the same entries at the same
time. This project models that machinery in Dafny and proves what it keeps.

The code is modelled as it is written. Where it departs from its evident intent, the
project states the consequence, and then exactly when the code does meet the
intent. For the scheduler this is done by six independent repairs, the fields of
`Scheduler.Code`; `AS_WRITTEN` makes none and `REPAIRED` makes all. A seventh repair
is taken for granted by all of them, `AS_WRITTEN` included: removing the head of a
list moves `root`. (No run that breaks a property takes out the head of the queue: each
keeps another entry there. Some take out the first thread record.) The theorems about whole runs hold either for all 64
combinations and every limit, or, for each limit by itself, exactly when a condition
on the fields holds or the limit is zero: then nothing ever starts. For every other
combination there is a run that breaks the property at each limit above zero, the
default of 20 included. Runs start from an empty queue, or from a loaded one whose
names are distinct and none of whose entries is active or CANCELLED:

| property of all runs | holds exactly when the limit is zero, or |
|---|---|
| names in the queue are distinct; CANCELLED is never reached; an entry that left never returns | (always) |
| at most `max_concurrent_downloads` entries are STARTING or STARTED | both states are counted, and PAUSE and CANCEL stop a starting worker |
| at most that many worker threads run | both states are counted, and PAUSE, CANCEL and completion drop the record of the worker |
| every change of status is an intended edge | STARTING is written before the thread is created, and a starting worker can be stopped |
| COMPLETED stays, while the entry is queued | the same two |
| CANCEL removes exactly its entry and leaves no worker of it; a save between requests leaves no worker of a queued entry | PAUSE, CANCEL and completion drop the record of the worker |
| PAUSE stops exactly its download; a save before any access of a sweep, or between requests, leaves no worker of a queued entry | that, and STARTING is written first |
| the queue and the thread list agree, up to the one entry already marked whose thread is about to be created | all of that, and an unopened file pauses its entry |

"PAUSE, CANCEL and completion drop the record" stands for three repairs: a starting
worker can be stopped, `download_cancel` removes by name, and a completed worker takes
its record along.

## Layers

- `LinkedLists.dfy`: `list.c` and `node.c` as a class of linked nodes, against a ghost sequence.
- `Entries.dfy`, `Scheduler.dfy`: the records; the scheduler as a transition system. A
  step is one command, one access of the sweep (including every element of the nested
  count, and the gap between the creation of a thread and the write of STARTING, in
  either order), or one step of a worker. The creation of a thread with its record is a
  single step, and so is the completion of a worker with what becomes of its record.
  `SweepStep` is `queue_update`; `QueueAdd`, `QueuePause`,
  `QueueCancel`, `QueueRestart`, `DownloadPause`, `DownloadCancel`, `WorkerStep` and
  `Progress` follow the functions of those names in `queue.c` and `downloadmanager.c`.
- `SchedulerInvariants.dfy`, `SweepTheory.dfy`, `Reachability.dfy`, `SchedulerSafety.dfy`, `SchedulerAgreement.dfy`,
  `SchedulerLifecycle.dfy`, `WorkerRecords.dfy`, `Saving.dfy`, `CommandEffects.dfy`,
  `LiveWorkers.dfy`: what every step and every run keeps. `Witnesses.dfy`: the runs that
  break a property, at every limit above zero.
- `Steps.dfy`: single accesses of the sweep and single steps of a worker, field by field,
  and the life of a worker that nobody disturbs.
- `Commands.dfy`, `Requests.dfy`, `QueueServer.dfy`: whole requests, and what they are
  answered; the class `Server` runs the commands
  on two linked lists that share no node, walking and relinking them as the source does,
  and is proved to do what the transition system does.
- `Protocol.dfy`, `MessageOrder.dfy`, `AtomicCalls.dfy`, `ServerRuns.dfy`: handlers,
  controller and workers together, with lost messages, and with workers running in the
  middle of the controller's sweeps.
- `Scanning.dfy`, `IndexFile.dfy`, `IndexText.dfy`, `Reload.dfy`, `Lifetimes.dfy`: the index
  file, from single digits to its text and to save-load-save, and any number of restarts of
  the server.
- `MessageRetry.dfy`, `ProgressReports.dfy`, `Files.dfy`, `OptionFile.dfy`,
  `ServerOptions.dfy`, `ClientOptions.dfy`, `OptionText.dfy`: bounded retry, progress, log rotation, directories, option file.

`dafny verify dfyconfig.toml` checks everything.

## Departures of the code

- Removing the head of a list leaves `root` at the freed node, so the list is no longer
  sound (`LinkedLists.List.RemoveItem`). `Server` removes with `RemoveItemMovingRoot`,
  the same removal followed by the missing move of `root`.
- `list_insert` assigns where it means to compare and so dereferences null on every
  insertion within the list. With the comparison it still drops the list when inserting
  at the end and loses a node inserted at the head.
- `queue_entry_exists` starts from an uninitialised result, so a new name may be refused.
- The retry counters are shorts, so a limit above 32767 is never reached and the
  retries go on for as long as the message queue is full.
- `queue_restart` overwrites its refusals with SUCCESS. An unknown command leaves the
  response as it was; if that happens to be PROCESSING, the handler hangs.
- An empty index file loads as one blank entry, which the sweep then starts.
- The `remaining` of a progress report is the whole size, and a speed is a rate only
  when the sample spans one second.
- With two handlers waiting, replies reach whoever reads first: a request is safe exactly
  when no other handler waits at the time.
- In the option file a host or a directory that contains a later key is read in the
  place of that key's own line.
- A directory that cannot be made is noticed only once a messenger has been set. Both
  callers run before that, so a failed mkdir goes unnoticed: the loop goes on and answers
  true (`Files.DeniedUnnoticed`).
- `recursive_mkdir` subtracts from a null pointer in its last step; the model takes the
  full path there, as is evidently meant.

## Model

| member | source | states |
|---|---|---|
| LinkedLists.SetPrevious | src/common/node.c:34-44 | repairs the link in both directions, and touches nothing when the node is null |
| LinkedLists.SetNext | src/common/node.c:47-56 | the same, forward |
| LinkedLists.List.GoTo | src/common/list.c:48-58 | stops at the position, or at the end with the length as its count |
| LinkedLists.List.GoToEnd | src/common/list.c:61-69 | finds the last node, or null in an empty list |
| LinkedLists.List.Count | src/common/list.c:78-91 | the number of elements |
| LinkedLists.List.Append | src/common/list.c:100-116 | appends to the sequence; links agree both ways, no node repeats, and all nodes before are the same |
| LinkedLists.List.Insert | src/common/list.c:126-150 | as written: crashes exactly when the position is within the list or at its end |
| LinkedLists.List.InsertCompared | src/common/list.c:126-150 | with the comparison meant: inserts properly inside; at the end of a non-empty list leaves only the new node; at the head loses it |
| LinkedLists.List.InsertMended | src/common/list.c:126-150 | with the head and the end seen to as well: the sequence with the element inserted, at every position up to the length, and nothing beyond it |
| LinkedLists.List.LinkBefore | src/common/list.c:142-146 | the relinking in front of a node gives the sequence with the node inserted, exactly when it is not the head |
| LinkedLists.List.Unlink | src/common/list.c:172-177 | what remains is one chain with agreeing links, the removed node is detached |
| LinkedLists.List.Remove | src/common/list.c:159-180 | returns the detached node at the position; the list reachable from `root` is the sequence without it unless it was the head |
| LinkedLists.RemovalExact | src/common/list.c:172-177 | that is the sequence without the element exactly when it was not the head |
| LinkedLists.List.RemoveMovingRoot | src/common/list.c:159-180 | with `root` moved: the sequence without the element at the position, whichever it is, and that node detached; the list is sound |
| LinkedLists.List.GetItem | src/common/list.c:299-322 | the first match, or null |
| LinkedLists.List.RemoveItem | src/common/list.c:189-223 | removes and frees the first match; the list holds no freed node afterwards exactly when the match was not the head |
| LinkedLists.List.RemoveItemMovingRoot | src/common/list.c:189-223 | with `root` moved: the sequence of the same nodes without the first match, the list is sound, and the removed node is detached and released |
| LinkedLists.List.ForEachCompare | src/common/list.c:234-256 | threads the result through the elements in order and stops at the first success when unique |
| LinkedLists.ExistenceTest | src/server/downstream/queue.c:73-102 | the existence test is true exactly when there is a match or its uninitialised result held true |
| LinkedLists.CountingTraversal | src/server/downstream/queue.c:42-70 | a counting comparison visits every element and adds up the matches |
| Commands.CountStartedTraversal | src/server/downstream/queue.c:63-70 | that traversal of the queue is the count on which the sweep decides |
| Commands.ExistsTraversal | src/server/downstream/queue.c:96-102 | the traversal of the queue finds a name exactly when it is queued, or answers what was there before |
| SchedulerInvariants.RunWellFormed | src/server/downstream/queue.c:150-191 | names in the queue are distinct after every run of every code |
| SchedulerInvariants.CancelRows | src/server/downstream/queue.c:418-458 | CANCEL takes out exactly the named entry and leaves order and contents of all others |
| SchedulerInvariants.NextKeepsWorkers | src/server/downstream/downloadmanager.c:134-178 | each step keeps the agreement between the phase of a record and the status of its queued entry, once a starting worker can be stopped |
| Reachability.ReachDormant | src/server/downstream/queue.c:122 | with a limit of zero nothing ever starts, in any run of any code |
| Witnesses.ReachFilled | src/server/downstream/queue.c:150-191 | any number of further downloads can be added and started, as long as the count leaves room for them |
| SweepTheory.SweepRun | src/server/downstream/queue.c:105-148 | the fine-grained sweep, undisturbed, is the uninterrupted one |
| SweepTheory.FullSweepExact | src/server/downstream/queue.c:105-148 | a sweep turns WAITING into STARTING exactly at the elements picked, starts their workers in queue order, and changes nothing else |
| SweepTheory.SweepFills | src/server/downstream/queue.c:117-135 | with both states counted: the first min(max - active, waiting) entries move, and then slots are full or nothing waits |
| SweepTheory.SweepAllOrNothing | src/server/downstream/queue.c:63-70 | as written: every waiting entry is started, or none |
| SweepTheory.AsWrittenSweepWithinCap | src/server/downstream/queue.c:63-70 | as written: one sweep stays within the cap exactly when the active entries and all it starts do |
| SchedulerSafety.CapExact | src/server/downstream/queue.c:105-148 | for each limit: at most that many entries are active in every state of every interleaving exactly for the codes that count STARTING and stop starting workers, or when it is zero |
| SchedulerSafety.TallyExact | src/server/downstream/queue.c:63-70 | what is counted there is the number of entries that are STARTING or STARTED |
| SchedulerSafety.CapSufficient | src/server/downstream/queue.c:63-70 | those two repairs suffice, for every cap, start and schedule |
| SchedulerSafety.CapNeedsBothCounted | src/server/downstream/queue.c:63-70 | counting STARTED alone, one addition more than any limit above zero breaks it |
| SchedulerSafety.CapNeedsStopping | src/server/downstream/queue.c:390-405 | a paused STARTING entry whose worker runs on breaks every limit above zero, once the slots are full |
| SchedulerSafety.NextKeepsCap | src/server/downstream/queue.c:117-135 | the inductive step: a running count bounds the active entries it has passed from above |
| SchedulerAgreement.AgreementExact | src/server/downstream/downloadmanager.c:216-305 | for each limit: in every reachable state each active queued entry has exactly one record, live, except the one entry marked whose thread is about to be created, which has none; names differ, and there is no other record: exactly with five repairs, or a limit of zero |
| SchedulerAgreement.AgreementNeedsMarking | src/server/downstream/queue.c:123-124 | with STARTING written last, a record precedes the status of its entry |
| SchedulerAgreement.AgreementNeedsStopping | src/server/downstream/queue.c:390-405 | a paused starting entry keeps its record and its worker |
| SchedulerAgreement.AgreementNeedsName | src/server/downstream/downloadmanager.c:281-305 | removal by the wrong key leaves a stale record behind |
| SchedulerAgreement.AgreementNeedsReaping | src/server/downstream/downloadmanager.c:174-178 | a completed worker leaves its record behind |
| SchedulerAgreement.AgreementNeedsParking | src/server/downstream/downloadmanager.c:146-149 | a worker that cannot open its file leaves its entry STARTING without a live thread |
| SchedulerLifecycle.LifecycleExact | src/server/downstream/queue.c:374-504 | for each limit: every change of status in every run is an intended edge, exactly when STARTING is written first and starting workers can be stopped, or the limit is zero |
| SchedulerLifecycle.CompletedExact | src/server/downstream/downloadmanager.c:177 | for each limit: COMPLETED is absorbing in every run, while the entry stays queued, exactly when STARTING is written first and a starting worker can be stopped, or the limit is zero |
| SchedulerLifecycle.CompletedStays | src/server/downstream/downloadmanager.c:177 | the sufficient half, for every run from a state in which records and statuses agree |
| SchedulerLifecycle.CompletedNeedsMarking | src/server/downstream/queue.c:123-124 | otherwise the write of STARTING overtakes a whole download |
| SchedulerLifecycle.CompletedNeedsStopping | src/server/downstream/queue.c:401-404 | otherwise RESTART gives a paused entry a second worker, which starts it again after the first is done |
| SchedulerLifecycle.NeverReturns | src/server/downstream/queue.c:448 | an entry that left the queue never comes back |
| SchedulerLifecycle.NeverCancelled | src/server/downstream/queue.c:418-446 | no run of any code reaches CANCELLED |
| SchedulerLifecycle.AsWrittenIsUnsafe | src/server/downstream/queue.c:122-124 | with every limit above zero the code as written violates cap, agreement, lifecycle and the permanence of COMPLETED; repaired, it keeps all four |
| WorkerRecords.ReachActive | src/server/downstream/downloadmanager.c:216-305 | with three repairs, each record belongs to a queued entry that is active or about to be marked, and no two to the same one |
| CommandEffects.PausesExact | src/server/downstream/queue.c:374-415 | for each limit: in every reachable state PAUSE stops the named download and no other, leaving no worker of it: exactly with four repairs, or a limit of zero |
| CommandEffects.CancelsExact | src/server/downstream/queue.c:418-458 | for each limit: in every reachable state CANCEL removes exactly its entry and leaves no worker of it: exactly with three repairs, or a limit of zero, whenever STARTING is written |
| LiveWorkers.LiveCapExact | src/server/downstream/queue.c:117-135 | for each limit: at most that many worker threads run in any state of any interleaving: exactly when both states are counted and three repairs are made, or it is zero |
| LiveWorkers.LiveCountExact | src/server/downstream/downloadmanager.c:187-213 | what is counted there is the number of records whose worker has not ended |
| Commands.AddExact | src/server/downstream/queue.c:150-191 | DOWNLOAD is refused exactly when the name is queued or the junk answer is true; otherwise one entry is appended, with that name and URL, WAITING and zero in every other field |
| Commands.FindUnique | src/server/downstream/queue.c:73-94 | a search by name answers with the one entry of that name |
| Commands.CancelForgets | src/server/downstream/queue.c:418-458 | after CANCEL its name finds nothing and every other name finds what it found |
| Commands.ServeReplies | src/server/downstream/controller.c:53-84 | every request gets between one and length + 1 replies, only the last terminal, except what an unknown command leaves unset |
| Requests.AnswerExact | src/server/downstream/queue.c:150-504 | DOWNLOAD, PAUSE, CANCEL and RESTART get one reply with their command and name: FAILURE exactly when the name is not queued (for DOWNLOAD: when it is, or the junk answer is true), else SUCCESS |
| Requests.StatusExact | src/server/downstream/queue.c:205-237 | STATUS gets a PROCESSING reply with every entry and its name, in queue order, then one SUCCESS, and changes nothing |
| Requests.RefusedExact | src/server/downstream/queue.c:163-166 | a refused request changes nothing |
| Requests.DownloadServed | src/server/downstream/queue.c:150-191 | an accepted DOWNLOAD leaves its entry last, with name and URL of the request, WAITING or STARTING, and empty; of the others some may have gone from WAITING to STARTING |
| Requests.PauseExact | src/server/downstream/queue.c:374-415 | PAUSE in every state and for every code: whose status it writes and which record goes |
| Requests.CancelExact | src/server/downstream/queue.c:418-458 | CANCEL in every state and for every code: the element that leaves, the status written, and whether the record goes or stays behind, ended |
| Commands.ServeIsRun | src/server/downstream/controller.c:53-84 | serving a request is a run of the fine-grained steps |
| Saving.SaveExact | src/server/downstream/queue.c:256-299 | a save prints every entry in order with STARTING and STARTED turned into WAITING, and leaves the queue so, for every code |
| Saving.SaveEntryExact | src/server/downstream/queue.c:256-263 | an active entry waits after it is saved, and the first record of its name is gone |
| Saving.SaveEmptiesThreads | src/server/downstream/queue.c:256-299 | with three repairs a save empties the thread list, unless it falls between the creation of a thread and the write of STARTING |
| Saving.IdleSaveStopsExact | src/server/downstream/queue.c:260-263 | for each limit: after a save between requests no worker of a queued entry is live, in every reachable state, exactly with three repairs, or a limit of zero |
| Saving.SaveStopsExact | src/server/downstream/controller.c:86-91 | the same for a save that may also come before any access of a sweep: exactly with four repairs, or a limit of zero |
| QueueServer.Server.CountStarted | src/server/downstream/queue.c:63-70 | the traversal of the nodes computes the tally |
| QueueServer.Server.EntryExists | src/server/downstream/queue.c:96-102 | the traversal of the nodes answers whether the name is queued, or what its result held |
| QueueServer.Server.FindEntry | src/server/downstream/queue.c:381 | the search finds the node of the first entry of the name |
| QueueServer.Server.FindThread | src/server/downstream/downloadmanager.c:263 | the search finds the node of the first record of the name |
| QueueServer.Server.StopDownload | src/server/downstream/downloadmanager.c:263-271 | the entry of the first record of the name is PAUSED and its thread stopped, in place |
| QueueServer.Server.DropRecord | src/server/downstream/downloadmanager.c:273 | the first record of the name is unlinked from the thread list, and the queue is not touched |
| QueueServer.Server.PauseDownload | src/server/downstream/downloadmanager.c:256-278 | search, write and relinking together are the step of the transition system |
| QueueServer.Server.CancelDownload | src/server/downstream/downloadmanager.c:281-305 | the same for cancelling; with the wrong key nothing is unlinked |
| QueueServer.Server.StartDownload | src/server/downstream/downloadmanager.c:216-236 | a new record is linked at the end of the thread list |
| QueueServer.Server.UpdateEntry | src/server/downstream/queue.c:105-148 | one visit of the sweep, with its nested count |
| QueueServer.Server.Update | src/server/downstream/queue.c:190 | the walk along the nodes is the sweep of the transition system, and the queue keeps its nodes |
| QueueServer.Server.AddEntry | src/server/downstream/queue.c:168-177 | a new entry is linked at the end of the queue |
| QueueServer.Server.Add | src/server/downstream/queue.c:150-191 | new state and reply of DOWNLOAD |
| QueueServer.Server.Pause | src/server/downstream/queue.c:374-415 | new state and reply of PAUSE |
| QueueServer.Server.RemoveEntry | src/server/downstream/queue.c:448 | the first entry of the name is unlinked from the queue, and the thread list is not touched |
| QueueServer.Server.Cancel | src/server/downstream/queue.c:418-458 | new state and reply of CANCEL |
| QueueServer.Server.Restart | src/server/downstream/queue.c:460-504 | new state and reply of RESTART |
| QueueServer.Server.Status | src/server/downstream/queue.c:205-237 | the replies of STATUS, in the order of the nodes |
| QueueServer.Server.ProcessRequest | src/server/downstream/controller.c:53-84 | on the linked lists, state and replies of every command are those of the transition system, and each but STATUS is answered as its name demands; the lists stay sound and share no node |
| QueueServer.Server.Save | src/server/downstream/queue.c:276-299 | the walk leaves the state and prints the rows that the specification says |
| QueueServer.Server.Load | src/server/downstream/queue.c:302-371 | the appends and their sweep give the loaded and swept queue |
| Protocol.RunConserves | src/server/upstream/server.c:53-59 | waiting handlers = requests pending + controller busy + terminal replies pending + losses, for any handlers and any schedule |
| Protocol.QuiescentExact | src/server/downstream/controller.c:137-150 | a state is at rest exactly when no receive, send or forward is enabled |
| Protocol.RestExact | src/server/upstream/server.c:55-59 | at rest exactly as many handlers hang as messages were lost or left unset |
| Protocol.NoDeadlock | src/server/upstream/server.c:53-59 | without losses a waiting handler means that a message can move |
| Protocol.NextDrains | src/server/downstream/controller.c:137-150 | every move decreases a measure that charges each pending request the replies it may fetch |
| Protocol.RunDrains | src/server/downstream/controller.c:137-150 | without new requests every schedule makes at most that many moves |
| Protocol.DrainedMeansIdle | src/server/upstream/server.c:53-59 | a drained run without losses leaves every handler idle |
| Protocol.QuietConserved | src/server/upstream/server.c:32-64 | the idle server satisfies the balance |
| MessageOrder.ServedInOrder | src/server/downstream/controller.c:137-150 | for any handlers, schedule and losses: the requests served and those pending are, in this order, the requests sent |
| MessageOrder.RunProjects | src/server/downstream/controller.c:137-150 | what the scheduler does in any run of the server: a command for the oldest pending request at each receive, and every access of the sweep and step of a worker in between |
| MessageOrder.DeliveredInOrder | src/server/upstream/server.c:55-59 | replies leave the controller, and those not lost the output queue, oldest first, and every handler has got exactly those it took |
| MessageOrder.RunWaits | src/server/upstream/server.c:53-59 | a handler waits exactly when it has asked once more than it got terminal replies |
| AtomicCalls.QuietAtomic | src/server/upstream/server.c:32-64 | and the refinement invariant |
| AtomicCalls.RunAtomic | src/server/downstream/controller.c:137-150 | for any number of handlers: as long as each asks only while none waits, and nothing is lost, every interleaving refines a sequence of atomic calls |
| AtomicCalls.ClientGetsItsReplies | src/server/upstream/server.c:55-59 | then each client has got replies to its own requests only, in order, and all of them once its handler is idle |
| AtomicCalls.MixUp | src/server/upstream/server.c:55-59 | from every net with two handlers waiting and a message pending, whatever was lost before, some continuation hands one of them a reply to another's request |
| AtomicCalls.AskExact | src/server/upstream/server.c:53-59 | after any polite run a request is safe, in that no schedule of what is pending lets a reply go astray, exactly when no handler waits at the time |
| AtomicCalls.RepliesMixedUp | src/server/upstream/server.c:55-59 | so any two requests of two handlers, one sent before the other is answered, can be mixed up |
| ServerRuns.RunChained | src/server/downstream/controller.c:137-150 | each request is served in the state the one before it left, up to its sweep and worker steps before, during and after it, for any handlers, schedule and losses |
| ServerRuns.ChainedStart | src/server/downstream/controller.c:136-137 | the server that has served nothing is so chained, from whatever state it starts in |
| ServerRuns.StatusCall | src/server/downstream/queue.c:205-237 | for every STATUS of a polite run, an idle client has got in one piece the snapshots in queue order and one SUCCESS, of a state the server was in just then, which serving it left unchanged |
| ServerRuns.RunReachable | src/server/downstream/controller.c:137-150 | every protocol run keeps the scheduler within its reachable states |
| ServerRuns.ServerSafe | src/server/downstream/controller.c:137-150 | so names stay distinct, and with the repairs both caps and the agreement hold, under every protocol run |
| Scanning.DecimalValue | src/server/downstream/queue.c:265-269 | what is printed has the value of the number and no leading zero |
| Scanning.IntReadBack | src/server/downstream/queue.c:342-345 | %i and %li in base 0 read back every printed integer and stop behind it |
| Scanning.FixedReadBack | src/server/downstream/queue.c:342-345 | %lf reads back every printed number of six decimals, of either sign |
| Scanning.WordReadBack | src/server/downstream/queue.c:342-345 | %s with a width reads back every word that fits |
| Scanning.LineReadBack | src/server/downstream/queue.c:342-345 | a line of any fields is read back by matching directives, up to the start of the next line |
| Scanning.PrintedInt | src/server/downstream/queue.c:265-269 | %i and %li print a minus sign for a negative number, and its digits without leading zeros |
| Scanning.PrintedFixed | src/server/downstream/queue.c:265-269 | %lf prints whole digits, a point and six decimals with the value of the number |
| Scanning.OctalRead | src/server/downstream/queue.c:342-345 | a leading zero makes a number octal |
| Scanning.HexadecimalRead | src/server/downstream/queue.c:342-345 | 0x makes it hexadecimal |
| Scanning.LongWordRead | src/server/downstream/queue.c:342-345 | a word longer than the width is cut there, and its rest is read next |
| IndexFile.GetNameFromUrl | src/common/util.c:410-419 | the backward search finds the base name exactly when a '/' follows the first character |
| IndexFile.BaseName | src/common/util.c:410-419 | the part of the URL behind its last '/', which has none itself |
| IndexFile.ReadRows | src/server/downstream/queue.c:331-366 | the reading loop ends on every text and reads what the specification says |
| IndexFile.RowReadBack | src/server/downstream/queue.c:265-269 | one printed entry is read back whole, and reading stops right behind its line |
| IndexFile.RowsReadBack | src/server/downstream/queue.c:331-366 | a printed file is read back row by row, an empty one as a blank row |
| IndexFile.RoundTripExact | src/server/downstream/queue.c:331-366 | reading gives back what was written exactly when something was written |
| IndexText.SavedText | src/server/downstream/queue.c:256-299 | a save writes for every entry, in queue order, its base name, status number, URL, size, remaining, complete, speed, start and measured, separated by spaces |
| IndexText.LinesLoaded | src/server/downstream/queue.c:331-366 | any such lines, not none, load as exactly those entries in that order |
| Reload.IndexRoundTrip | src/server/downstream/queue.c:256-371 | loading gives back the saved entries, each named after its URL, exactly for a non-empty queue |
| Reload.LoadedNamesExact | src/server/downstream/queue.c:342-356 | loaded names are distinct exactly when the base names are |
| Reload.SaveUndoesSweep | src/server/downstream/queue.c:256-271 | a save after load and sweep prints the loaded entries, even when names collide, whichever of the new workers have started by then |
| Reload.SaveLoadSave | src/server/downstream/queue.c:256-371 | save, load with its sweep, save, with any workers starting in between: the second file is the first, character by character |
| Reload.EmptyFileStartsBlank | src/server/downstream/queue.c:331-368 | an empty file loads as one blank entry and a worker is started for it |
| Lifetimes.LoadedReachable | src/server/downstream/controller.c:125-142 | then the load with its sweep leads to a reachable state in which requests are awaited |
| Lifetimes.ReloadStartsExact | src/server/downstream/controller.c:86-91 | what is saved in any reachable state of any code loads as a start exactly when the base names of the queued URLs are distinct |
| Lifetimes.LivesStart | src/server/downstream/controller.c:86-125 | across any number of restarts every life begins in a start |
| MessageRetry.Send | src/common/util.c:255-291 | true exactly when the last attempt succeeded, and then exactly one copy is queued; at most max(1, limit) attempts |
| MessageRetry.Receive | src/common/util.c:302-332 | true exactly when one message was taken out and copied; otherwise the queue is as it was and the result zeroed |
| MessageRetry.EndsExact | src/common/util.c:264-288 | the loop ends exactly when the limit is within a short or some attempt is not EAGAIN |
| MessageRetry.CounterExact | src/common/util.c:272-273 | the counter of failed attempts wraps around like a 16-bit number |
| ProgressReports.SpeedsTelescope | src/server/downstream/downloadmanager.c:21-55 | the speeds an entry shows after each sample add up to the change of `complete`, over any run of reports of its worker |
| ProgressReports.SamplesApart | src/server/downstream/downloadmanager.c:31-44 | its samples are at least a second apart, also when the clock steps back |
| ProgressReports.SizeLatches | src/server/downstream/downloadmanager.c:27-30 | its `size` keeps the first total that is not zero |
| ProgressReports.ReportsShown | src/server/downstream/downloadmanager.c:21-55 | over any run of reports of one worker its entry shows size, start, last sample and speed as the reports say, and no other entry, record or status changes |
| ProgressReports.RemainingExact | src/server/downstream/downloadmanager.c:46-47 | `remaining` after a sample is right exactly when nothing had arrived |
| Steps.WholeDownload | src/server/downstream/downloadmanager.c:134-178 | an undisturbed worker leaves its entry COMPLETED and showing its reports, ends, and touches nothing else |
| ProgressReports.SpeedIsRateExact | src/server/downstream/downloadmanager.c:40-42 | a speed is a rate per second exactly when the sample spans one second or nothing arrived |
| Files.RenameIfExists | src/common/util.c:131-173 | the file moves to the least free suffix, nothing is overwritten, all other files stay; ends on every finite file system |
| Files.RotatedInjective | src/common/util.c:153 | different suffix numbers give different names |
| Files.RotatedExact | src/common/util.c:153 | the suffix is the number in at least three digits, the first of them .000 |
| Files.RotatedFits | src/common/util.c:142-153 | the new name and its terminator fit the buffer |
| Files.TakenCandidates | src/common/util.c:151-169 | fewer rotated names are taken than there are files |
| Files.RecursiveMkdir | src/common/util.c:335-402 | answers false exactly when a messenger is set and a missing directory cannot be made; makes a missing directory exactly when nothing up to it is in the way, after its parents, and nothing else; parents always exist |
| Files.DeniedUnnoticed | src/common/util.c:343-349 | without a messenger, a path whose first directory is denied is answered with true, and nothing is made |
| OptionFile.ReadLine | src/common/options.c:60-85 | the reading loop finds the first line that contains the key |
| OptionFile.LineContains | src/common/options.c:73 | a printed line contains a key in its own key or in its value, never across the '=' |
| OptionFile.ContainedKey | src/common/options.c:73 | a key inside another has the same middle part and shares ends with the outer parts |
| OptionFile.FindInFile | src/common/options.c:60-85 | in a printed file the search finds the first setting that mentions the key |
| OptionFile.FoundExact | src/common/options.c:60-85 | a key finds its own line exactly when no value printed before it contains the key |
| ServerOptions.ServerKeysApart | src/common/options.c:103-123 | no server key contains a later one |
| ServerOptions.ShortReadBack | src/common/options.c:98-100 | a short printed in either sign is stored as the same 16 bits |
| ServerOptions.NoKeyInNumber | src/common/options.c:115-122 | a printed number contains no key, so only the host and the directories can be mistaken for a setting |
| ServerOptions.OwnLinesExact | src/common/options.c:60-123 | every server key is read from its own line exactly when neither the host nor a directory contains a key printed after it |
| ServerOptions.ServerRoundTrip | src/common/options.c:103-123 | and then reading the written file recovers every field, whatever the fields held |
| ServerOptions.HostHidesLimit | src/common/options.c:103-123 | with a host that contains a later key, a written field is never read |
| ClientOptions.ClientKeysApart | src/common/options.c:125-139 | no client key contains a later one |
| ClientOptions.OwnClientLinesExact | src/common/options.c:60-139 | every client key is read from its own line exactly when the host contains no key printed after it |
| ClientOptions.ClientRoundTrip | src/common/options.c:125-139 | and then reading the written file recovers every field |
| ClientOptions.HostHidesTimeout | src/common/options.c:125-139 | with a host that contains a later key, a written field is never read |
| ServerOptions.ClientKeyMissing | src/common/options.c:125-130 | a client key is missing from a server file exactly when neither the host nor a directory contains it |
| ServerOptions.LoadServerRoundTrip | src/common/options.c:158-235 | loading resets the timeout to 10, and the client's pass over a server file changes nothing |
| OptionText.ServerText | src/common/options.c:114-123 | the server file, line by line, key by key |
| OptionText.ClientText | src/common/options.c:133-139 | the client file, line by line |
| OptionText.LegalExact | src/common/options.c:60-123 | the server's options fit their lines exactly when the host has at most 236 characters and the directories 232 and 231, and all are words |
| OptionText.LegalClientExact | src/common/options.c:60-139 | the client's exactly when the host is a word of at most 236 |

## Left out

- Entries and thread records are positions in a store, and the nodes of both lists hold such positions; memory that is freed keeps its contents, and the comparison with the bytes of the record in `download_cancel` is taken never to match.
- `Server` runs one command at a time, without workers; the interleavings are those of `Scheduler` and `Protocol`, which represent both lists as sequences.
- pthread_cancel takes effect at once. The termination handler is a save after which the process exits. It may come before any access of a sweep or between requests, but not inside a command, nor between pthread_create and the list_append of its record, nor in the relinking of a list.
- The creation of a thread and the appending of its record are one step, and so are a worker's write of COMPLETED, its end and the removal of its record; what others may see in between is not modelled.
- Mutexes: those in the source are local and uninitialised (`queue_add` locks twice), so commands run one at a time because there is one controller.
- Failures of malloc, pthread_create and fopen, and a null thread list.
- Byte layout of the messages: field lengths, the payload copied over the URL, shorts written over flags. Texts of replies and log messages.
- The snapshots of one STATUS reply are taken of one state; workers may in fact write between two of them.
- Receives that fail in a handler, which then takes its zeroed reply for SUCCESS, and receives that fail in the controller.
- Sockets, accept, fork, libcurl, SSL and the command lines of server and client.
- Floating point: sizes and speeds are millionths, so numbers print exactly; exponents, hexadecimal, infinity and overflow in scanning. A %hi beyond the range of a short wraps around.
- Status numbers outside the enumeration in an index file.
- get_name_from_url without a '/' behind the first character, which returns nothing defined, is reported as not found.
- trim at the end of a line, and URLs with white space.
- Path normalisation: ".." and repeated separators are directory names like any other, and with a trailing separator ".../logs" and ".../logs/" count as two directories.
- URLs of more than 511 characters, which overflow the 512-byte field that the index file is scanned into without a width.
- InsertCompared: does not restore the intended insertion at the head and at the end, because the source with the comparison does not either.
- RecursiveMkdir: models the last step as the full path, because the source's subtraction from a null pointer has no defined value.
