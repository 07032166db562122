# Verification of the EMS communication core

A Dafny model of the parts of the energy management system on which its data exchange rests, and proofs about
them. `dafny verify dfyconfig.toml` checks everything.

| file | models |
|---|---|
| `RingSpec.dfy` | what a ring of buffers holds after any history of puts |
| `RingProtocol.dfy`, `RingTornRead.dfy`, `RingTightness.dfy` | one writer and up to 255 readers on a ring, one atomic operation or one copied byte a step; what a reader gets, and schedules that show the bounds are exact |
| `RingPolls.dfy` | what a poll of the holders means, and how often a get and a put poll |
| `RingInit.dfy` | many callers of the initialisation of one queue, failing allocations, and the gate of get and put |
| `RingQueue.dfy` | the queue object: buffers overwritten in place, polling loops, a ghost history of puts |
| `IntervalTable.dfy`, `FlatView.dfy`, `ListReads.dfy`, `SyncList.dfy` | the address table over rings: validation, binary search, coverage test, spanning reads, and the flat register space behind them |
| `SharedQueue.dfy`, `AnyTable.dfy`, `SpanningRuns.dfy` | such reads as the shipped loop makes them, on tables that failed the check, and while other threads publish |
| `SwapGroups.dfy`, `RegisterTransfer.dfy` | the in-place reversal of register groups, and the library calls that carry the words |
| `PollingSpec.dfy`, `Polling.dfy`, `PollingInvariants.dfy`, `OfflineReach.dfy` | the polling of slaves that share a protocol table: link states, read schedule, whole runs |
| `PollingTrail.dfy`, `PollingHistory.dfy` | what a sync call does item by item, and the schedule as a function of the log |
| `ConnectBitmap.dfy`, `PowerPlant.dfy`, `LinkMirror.dfy` | the connection word, the power distribution, and the agreement of the word with the link states |
| `Ipv4.dfy` | the recogniser of IPv4 addresses |
| `Modular.dfy` | division and remainder |

The ring is modelled twice. `RingProtocol` is a step relation: `Apply` executes the next operation of one thread,
`Exec` a list of actions, and a statement about every list is a statement about every interleaving. `RingQueue` is
the object as one thread sees it, with the holder readings that other threads cause as an input of each call. Both
are measured by the same `RingSpec`.

Clock readings, device replies and the words they carry, memory left by the allocator, and the success of every
allocation are inputs. The clock of the polling model advances by arbitrary delays between its readings, so every
monotone clock is covered.

What the code does, where that differs from its comments or from what one would expect:

- A get is safe only by ring distance. With d stores to the latest index between a reader's load of it and its
  increment of the read holder, on a ring of n units, the bytes are those published at the load exactly when
  d < n - 1 (`FreshIff`), and they are the unit as it was at the increment exactly when d is
  not n - 1 modulo n (`ConsistentIff`).
- A put is laid over what its unit held n puts ago. Partial puts are not merged with the value published before
  them, except on a ring of one unit (`MergedForwardIff`).
- A call of init on a queue in use moves the state off 0xAA55, and every later get and put is refused
  (`LateInitShutsGate`). The claim is exclusive below 0x55AD claims in all and not at 0x55AD
  (`SecondBuilderPossible`). A builder whose allocation fails gives the claim back by storing 0, and exactly one of
  the callers that claim after that builds (`OneBuilderAndGate`).
- The loop of a spanning read names the queue of the first interval for every segment
  (`modbus_slave_sync_list.c`, line 451). `DataGet` models this with `ownQueue` false and the evident intent, each
  segment from its own queue, with `ownQueue` true. As shipped a read can succeed with bytes that are not those of
  the flat register space exactly when its ends lie in different intervals and every later segment is no longer than
  the first interval (`WrongBytesIff`; `ShippedSpanRepeats` is the smallest case). If a later segment is longer, the
  read always fails.
- The last address of a window is truncated to 16 bits. A window that runs past 0xFFFF can pass the coverage test,
  and the call then reports success without writing a byte, or a failed queue (`AcceptsIff`, `WrappedWindow`).
- A bad table does not stop the initialisation of the list, and the list counts as initialised as soon as its first
  queue is (`SyncList.List.Init`). Such a list is read like any other: what its searches find had its end filled in by
  the check, as long as the other ends were configured below their starts, and a successful read returns the flat view
  of the intervals it meets (`FailedCheckIsUsable`, `ReadOfAnyTable`).
- The sync loops compare an item's feedback with -1, which no item produces, so no link ever goes down. The
  invariants are proved for every test of failure, and `CanGoOfflineIff` says which tests can take a link down.
- A read that brings its slave on line does not count as the read of that connection: the records are cleared after
  it was marked, so an item read once per connection is read again (`PollingTrail.Rescheduled`).
- A read reverses the buffer of coils like that of registers, and a write does not, so coils survive a write and a read
  exactly when their item is empty or its step moves nothing (`CoilsSurviveIff`).
- The availability test is "not in mode 2, or connected", while its comment says "not faulty and on line". A device
  that is available without being connected takes a share that nobody is allotted: with all modes 0 and one device
  connected, 31 of 32 shares (`AvailableWithoutConnection`, `OneOfThirtyTwo`). The request is distributed up to the
  remainder of the division exactly when the average is 0, or every available device is connected and none is capped
  (`FullDistributionIff`).
- put returns bit 2 on a timeout; its comment says bit 3.

Preconditions the code leaves to its callers: one writer for each ring and at most 255 readers; `offset + size` below
2^32; a timeout below 2^32 - 1; a cell size of at most 0x7FFF bytes, so that a cell offset fits in 32 bits; fewer
than 2^30 intervals, so that the midpoint of the search fits in an `int32_t`; for a read of the list, a list with at
least one queue set up, a window whose found intervals have their ends filled in (every window of a valid table), and
a destination that holds the window (the assertions of the list are compiled in, as its header defines their switch);
for the connection word, slaves with distinct device numbers and one channel that owns the word (the RTU channel uses
device 0 of the same word, so the two must not run together); device numbers below 31 in the link callbacks, and 31 on
compilers that wrap, as `1 << deviceId` shifts a signed `int`; at least one available device for the distribution,
which divides by their number; for the group reversal, a last group that does not carry the 16-bit counter past
0xFFFF; and a register length of at most 253, the size of the buffers.

## Model

| member | source | states |
|---|---|---|
| RingSpec.LastCoveringPut | middleware/ring_lockfree_sync_queue/ring_lockfree_sync_queue.c:298-323 | after any history each byte of a unit is the source byte of the last put of that unit whose range covers it, and untouched memory if there is none |
| RingSpec.LastPutIsVisible | middleware/ring_lockfree_sync_queue/ring_lockfree_sync_queue.c:215-247 | a window inside the last put's range reads back that put's bytes |
| RingSpec.PublishesOverOldUnit | middleware/ring_lockfree_sync_queue/ring_lockfree_sync_queue.c:299-320 | what a put publishes is laid over what was published n puts earlier |
| RingSpec.MergedForwardIff | middleware/ring_lockfree_sync_queue/ring_lockfree_sync_queue.c:299-320 | a put is merged with the value before it, for every memory and history, if and only if it covers the whole unit or the ring has one unit |
| RingQueue.Queue.Init | middleware/ring_lockfree_sync_queue/ring_lockfree_sync_queue.c:25-91 | the four outcomes and the state each leaves; success gives fresh units, an empty history and 0xAA55, a refused argument resets the state, a second init counts it up |
| RingQueue.Queue.Deinit | middleware/ring_lockfree_sync_queue/ring_lockfree_sync_queue.c:98-116 | the queue refuses access afterwards |
| RingQueue.Queue.Get | middleware/ring_lockfree_sync_queue/ring_lockfree_sync_queue.c:188-250 | every status and when it is returned; it copies after the first poll that finds no writer and fewer than 255 readers, and times out if and only if none of timeout + 1 polls does; success writes exactly the window of what the put history leaves in the latest unit and nothing else, failure writes nothing |
| RingQueue.Queue.Put | middleware/ring_lockfree_sync_queue/ring_lockfree_sync_queue.c:265-326 | every status and when it is returned; it copies after the first poll that finds neither reader nor writer, and times out if and only if none of timeout + 1 polls does; success appends the put to the history that the buffers agree with, failure changes no byte |
| RingQueue.Queue.CopyOut | middleware/ring_lockfree_sync_queue/ring_lockfree_sync_queue.c:243 | the copy out of a unit writes the window at the destination and leaves the rest |
| RingQueue.Queue.CopyIn | middleware/ring_lockfree_sync_queue/ring_lockfree_sync_queue.c:318 | the copy into a unit changes exactly the bytes of the range |
| RingQueue.TimeoutIff | middleware/ring_lockfree_sync_queue/ring_lockfree_sync_queue.c:228-247 | under any environment the timeout is reported if and only if all timeout + 1 polls found the unit busy |
| RingProtocol.WriterKeepsUnit | middleware/ring_lockfree_sync_queue/ring_lockfree_sync_queue.c:298-323 | every operation of the writer keeps a unit's counters and its bytes in agreement with the put history and the current copy |
| RingProtocol.ReaderKeepsCount | middleware/ring_lockfree_sync_queue/ring_lockfree_sync_queue.c:229-246 | with at most 255 readers every operation of a reader keeps the read counter equal to the readers in their copy sections, without an 8-bit wrap |
| RingProtocol.RunKeepsInv | middleware/ring_lockfree_sync_queue/ring_lockfree_sync_queue.c:215-323 | every interleaving from a fresh queue keeps the invariant of all units |
| RingProtocol.WholeRun | middleware/ring_lockfree_sync_queue/ring_lockfree_sync_queue.c:215-323 | over whole runs the latest index is the number of puts modulo n, the writer aims at the next unit and never at the published one, at most one write holder is 1 and it tells which unit is written, each read holder counts its readers, and the published unit holds the published puts |
| RingPolls.BusyMeansCopying | middleware/ring_lockfree_sync_queue/ring_lockfree_sync_queue.c:232-233 | in every state of a run the test of get finds a unit busy if and only if 255 readers or the writer are copying in it, and the test of put if and only if any thread is |
| RingPolls.ReaderDecides | middleware/ring_lockfree_sync_queue/ring_lockfree_sync_queue.c:228-242 | after a poll a reader goes on to its increment if and only if it saw fewer than 255 readers and the writer is not copying into the unit; otherwise it polls again or gives up without a byte |
| RingPolls.WriterDecides | middleware/ring_lockfree_sync_queue/ring_lockfree_sync_queue.c:298-317 | after a poll the writer goes on to its claim if and only if it saw no reader copying; otherwise it starts over or gives up |
| RingPolls.WriterTestsBoth | middleware/ring_lockfree_sync_queue/ring_lockfree_sync_queue.c:307 | in any state at all a poll of the writer passes only when both counters are 0 |
| RingPolls.GetPollsBounded | middleware/ring_lockfree_sync_queue/ring_lockfree_sync_queue.c:228-247 | whatever the other threads do, a get times out if and only if timeout + 1 of its polls found the unit taken, goes on exactly at a poll that did not, and makes no more polls |
| RingPolls.PutPollsBounded | middleware/ring_lockfree_sync_queue/ring_lockfree_sync_queue.c:297-323 | whatever the readers do, a put times out if and only if timeout + 1 of its polls saw a reader copying, and goes on exactly at a poll that did not |
| RingTornRead.ExclusiveCopy | middleware/ring_lockfree_sync_queue/ring_lockfree_sync_queue.c:215-247 | if the stores between load and increment are not n - 1 modulo n, nobody writes the unit until the decrement and the bytes copied are the unit's at the increment |
| RingTornRead.NoTornRead | middleware/ring_lockfree_sync_queue/ring_lockfree_sync_queue.c:215-247 | with fewer than n - 1 stores in between, no byte of the unit changes from the load to the decrement and the bytes copied are those published at the load |
| RingTornRead.GetIsLinearizable | middleware/ring_lockfree_sync_queue/ring_lockfree_sync_queue.c:188-250 | such a get returns the window of what the puts published by its load leave in the current unit |
| RingTightness.SoloPutRefines | middleware/ring_lockfree_sync_queue/ring_lockfree_sync_queue.c:298-323 | the writer running alone through all its operations does what the abstract put does |
| RingTightness.TornReadPossible | middleware/ring_lockfree_sync_queue/ring_lockfree_sync_queue.c:229-246 | for every number of stores equal to n - 1 modulo n there is a schedule in which a get copies a mixture of two puts |
| RingTightness.UnpublishedReadPossible | middleware/ring_lockfree_sync_queue/ring_lockfree_sync_queue.c:229-246 | for the same numbers of stores, and units of any size, there is a schedule in which a get returns a byte of a put not yet published |
| RingTightness.StaleUnitPossible | middleware/ring_lockfree_sync_queue/ring_lockfree_sync_queue.c:215-247 | for n stores or more there is a schedule in which a get returns bytes published after its load |
| RingTightness.ConsistentIff | middleware/ring_lockfree_sync_queue/ring_lockfree_sync_queue.c:215-247 | all gets with d stores in between copy the unit as it was at their increment if and only if d is not n - 1 modulo n |
| RingTightness.FreshIff | middleware/ring_lockfree_sync_queue/ring_lockfree_sync_queue.c:215-247 | all gets with d stores in between return what was published at their load if and only if d < n - 1 |
| RingInit.RunKeepsInv | middleware/ring_lockfree_sync_queue/ring_lockfree_sync_queue.c:49-90 | every interleaving of fewer than 0x55AD claims, whichever allocations fail, keeps one builder at most and the state in step with the claims |
| RingInit.OneBuilderAndGate | middleware/ring_lockfree_sync_queue/ring_lockfree_sync_queue.c:49-90 | at most one caller builds at a time; the claims won are those given back after a failed allocation and exactly one more once anybody has claimed since; the gate is open only with all buffers in place, and if and only if READY was stored and nobody has claimed since |
| RingInit.FailureGivesBack | middleware/ring_lockfree_sync_queue/ring_lockfree_sync_queue.c:57-88 | a builder whose allocation fails returns bit 2, publishes nothing, and makes the next claim win, whatever happens in between |
| RingInit.LateInitShutsGate | middleware/ring_lockfree_sync_queue/ring_lockfree_sync_queue.c:49-53 | after a claim on a ready queue the gate stays shut and nobody builds in every continuation |
| RingInit.SecondBuilderPossible | middleware/ring_lockfree_sync_queue/ring_lockfree_sync_queue.c:49-53 | with 0x55AD claims there is a run with two builders |
| IntervalTable.UniqueInterval | middleware/modbus_slave/modbus_slave_sync_list.c:304-347 | in a valid table an address lies in one interval at most, the one a linear scan finds |
| IntervalTable.ConfiguredIff | middleware/modbus_slave/modbus_slave_sync_list.c:206-226 | the check passes a table if and only if every interval has an address, all addresses are 16-bit, and those of an earlier interval lie below those of a later one |
| IntervalTable.TouchingPass | middleware/modbus_slave/modbus_slave_sync_list.c:219-223 | two intervals that touch pass the check |
| IntervalTable.ValidWasConfigured | middleware/modbus_slave/modbus_slave_sync_list.c:206-226 | every valid table passes the check |
| IntervalTable.SearchIsScan | middleware/modbus_slave/modbus_slave_sync_list.c:327-339 | in a valid table the binary search finds what the linear scan finds |
| IntervalTable.EndsAscend | middleware/modbus_slave/modbus_slave_sync_list.c:415-416 | in any table, sorted or not, the ends of an accepted window inside the address space are found in ascending order |
| IntervalTable.AcceptsIff | middleware/modbus_slave/modbus_slave_sync_list.c:414-421 | a window inside the address space is accepted if and only if every address in it is covered; one that runs past 0xFFFF if and only if its first and its truncated last address are covered |
| IntervalTable.PlanTiles | middleware/modbus_slave/modbus_slave_sync_list.c:426-458 | in any table whose found intervals have their ends filled in, the segments of an accepted window lie in their intervals, cover consecutive addresses and add up to the length |
| FlatView.TilesDeliverFlat | middleware/modbus_slave/modbus_slave_sync_list.c:436-458 | such segments, each from its own unit, deliver exactly the flat register space |
| ListReads.SpanRead.NextSegment | middleware/modbus_slave/modbus_slave_sync_list.c:436-457 | at every turn of the loop the segment stays in its interval, in the destination and in 32 bits, and the 16-bit subtraction does not wrap |
| ListReads.SuccessfulRead | middleware/modbus_slave/modbus_slave_sync_list.c:414-461 | a successful read returns exactly the cells of the window of the flat space and writes nothing beyond, with own queues, or as shipped inside one interval |
| ListReads.OwnQueueFailsIff | middleware/modbus_slave/modbus_slave_sync_list.c:449-455 | with own queues a segment fails if and only if its queue is not in use or stays busy for all its polls |
| ListReads.WrappedWindow | middleware/modbus_slave/modbus_slave_sync_list.c:414-461 | an accepted window past 0xFFFF reads nothing: success with no byte written if its ends lie in different intervals, a failed queue otherwise |
| ListReads.OutcomeIsUnique | middleware/modbus_slave/modbus_slave_sync_list.c:436-461 | list, polls and destination determine how many segments are read and every byte of the destination |
| SharedQueue.WrongBytesIff | middleware/modbus_slave/modbus_slave_sync_list.c:436-458 | for a legal table and an accepted window inside the address space, some contents, polls and destination give a successful shipped read that is not the flat view if and only if the ends lie in different intervals and no later segment is longer than the first interval |
| SharedQueue.SuccessMeansFit | middleware/modbus_slave/modbus_slave_sync_list.c:449-455 | in any table a shipped read succeeds only if no later segment is longer than the first interval |
| SharedQueue.ShippedSpanRepeats | middleware/modbus_slave/modbus_slave_sync_list.c:449-455 | two adjacent intervals, both queues idle: as shipped the read succeeds with the first queue's cell twice, with own queues it delivers both cells |
| SharedQueue.WrappedWindowReadsNothing | middleware/modbus_slave/modbus_slave_sync_list.c:416-421 | two cells at 0xFFFF in a table that covers 0xFFFF and 0 are accepted, and the read succeeds without a byte |
| AnyTable.ReadOfAnyTable | middleware/modbus_slave/modbus_slave_sync_list.c:414-461 | in any table whose found intervals have their ends filled in, those intervals are a valid table of their own, and a successful read returns exactly its flat view of the window |
| AnyTable.FailedCheckIsUsable | middleware/modbus_slave/modbus_slave_sync_list.c:206-226 | after a check that stopped early every window meets only intervals with their ends filled in, if no interval is empty and the ends not filled in lie below their starts |
| SpanningRuns.SpanningReadAtLoads | middleware/modbus_slave/modbus_slave_sync_list.c:436-458 | while other threads publish, a read with own queues returns the flat space in which every interval shows what was published at the load of its own segment |
| SyncList.CheckedIsValid | middleware/modbus_slave/modbus_slave_sync_list.c:206-226 | a table that passes the check has its ends filled in and is sorted without overlap |
| SyncList.List.ConfigCheck | middleware/modbus_slave/modbus_slave_sync_list.c:185-229 | returns 0 if and only if the addresses of the intervals ascend; the ends it has filled in, also when it stops early |
| SyncList.List.InitQueues | middleware/modbus_slave/modbus_slave_sync_list.c:266-277 | the first queue that cannot be initialised, all earlier ones then deinitialised, later ones untouched |
| SyncList.List.Init | middleware/modbus_slave/modbus_slave_sync_list.c:239-280 | the return value as a function of table and queues; 0 only for a valid table with all queues in use and empty; the flag set as soon as one queue is, and then reads are defined whether or not the table passed |
| SyncList.List.Find | middleware/modbus_slave/modbus_slave_sync_list.c:304-347 | what it finds contains the address in any table; in a valid one it is the linear scan, so -1 exactly when no interval contains it |
| SyncList.List.ContinuityCheck | middleware/modbus_slave/modbus_slave_sync_list.c:349-385 | true if and only if both ends were found and no gap lies between them |
| SyncList.List.ReadLoop | middleware/modbus_slave/modbus_slave_sync_list.c:436-458 | how many segments were read, that the next one failed if any is left, and the destination byte for byte |
| SyncList.List.DataGet | middleware/modbus_slave/modbus_slave_sync_list.c:387-462 | the outcome for every window, as shipped and with own queues, and what was written, also on lists whose table did not pass the check; 0 if and only if the window is accepted and no segment fails |
| SwapGroups.SwapInPlace | middleware/modbus_master/modbus_master_data_interaction.c:85-112 | the array becomes the group reversal of what it held, and its multiset is kept |
| SwapGroups.GroupElement | middleware/modbus_master/modbus_master_data_interaction.c:97-111 | for a step that divides the number, element g*s+i becomes element g*s+s-1-i |
| SwapGroups.AnyGroupElement | middleware/modbus_master/modbus_master_data_interaction.c:93-111 | the same for every step that passes the 8-bit test of the remainder, with a shorter last group |
| SwapGroups.OnlyTheGroupsMove | middleware/modbus_master/modbus_master_data_interaction.c:90-96 | words past the number stay, and step 0 or a remainder that is not 0 in 8 bits changes nothing |
| SwapGroups.ReversedTwice | middleware/modbus_master/modbus_master_data_interaction.c:231-319 | the flip of a write and the flip of a read undo each other |
| RegisterTransfer.DeliverRead | middleware/modbus_master/modbus_master_data_interaction.c:231-238 | the callback of a read gets the group reversal of the words the library left in the buffer |
| RegisterTransfer.PrepareWrite | middleware/modbus_master/modbus_master_data_interaction.c:311-347 | the library call of a write by register type and length, with the reversed words for registers and the bytes as they are for coils |
| RegisterTransfer.WriteThenRead | middleware/modbus_master/modbus_master_data_interaction.c:231-323 | holding registers that answer with what was written to them give the callback the words that the source supplied |
| RegisterTransfer.ReadCall | middleware/modbus_master/modbus_master_data_interaction.c:194-219 | a read asks for the whole item with the function code of its register type |
| RegisterTransfer.WriteCall | middleware/modbus_master/modbus_master_data_interaction.c:311-347 | a write carries the whole item, with the single-write code exactly for an item of one |
| RegisterTransfer.CoilsSurviveIff | middleware/modbus_master/modbus_master_data_interaction.c:231-347 | coils that answer with what was written give the callback the bytes of the source if and only if the item is empty or its step moves nothing |
| Polling.Channel.RegisterInfoRead | middleware/modbus_master/modbus_master_data_interaction.c:152-245 | updates schedule, clock and log as the read step of the specification: the call by register type, the words the callback gets, and the record of the read |
| Polling.Channel.RegisterInfoWrite | middleware/modbus_master/modbus_master_data_interaction.c:265-360 | updates clock and log as the write step of the specification: the call by register type and length, with the words sent |
| Polling.Channel.SetSlaveOnline | middleware/modbus_master/modbus_master_data_interaction.c:401-428 | updates the link and clears the records of all items read once per connection |
| Polling.Channel.SetSlaveOffline | middleware/modbus_master/modbus_master_data_interaction.c:369-392 | updates the link and schedules the next attempt if the last handshake is too old |
| Polling.Channel.ReadableInfosSync | middleware/modbus_master/modbus_master_data_interaction.c:447-525 | one read sync is one call of the specification, whose items `PollingTrail` lists |
| Polling.Channel.WritableInfosSync | middleware/modbus_master/modbus_master_data_interaction.c:544-622 | one write sync is one call of the specification, whose items `PollingTrail` lists |
| PollingTrail.ReadOneTurns | middleware/modbus_master/modbus_master_data_interaction.c:176-239 | the turn of a readable item in the fields of item, link and answer: request, log, schedule, link and clock |
| PollingTrail.WriteOneTurns | middleware/modbus_master/modbus_master_data_interaction.c:265-360 | the turn of a writable item in the same terms |
| PollingTrail.ReadSyncCoversItems | middleware/modbus_master/modbus_master_data_interaction.c:483-520 | a read sync past its gate takes every item in ascending order and makes exactly one request for each whose interval has passed or whose record is clear at its check, and none for any other |
| PollingTrail.WriteSyncCoversItems | middleware/modbus_master/modbus_master_data_interaction.c:580-618 | a write sync past its gate takes every item in ascending order and sends exactly those with a source, data, a passed interval and a writable type |
| PollingTrail.GateShut | middleware/modbus_master/modbus_master_data_interaction.c:483-487 | before the handshake time a call does nothing |
| PollingHistory.ScheduleIsHistory | middleware/modbus_master/modbus_master_data_interaction.c:176-239 | after every run an item read once per connection counts as read exactly when it was read successfully since a slave last came on line, and a periodic item carries the time of its last successful read |
| PollingInvariants.RunKeepsInv | middleware/modbus_master/modbus_master_data_interaction.c:447-622 | every run keeps the invariant of links, schedules and log, for every test of failure and all answers |
| PollingInvariants.LinkStates | middleware/modbus_master/modbus_master_data_interaction.c:369-428 | connected means no retries, there is one retry at most, every scheduled delay is the plain retry interval, no later call sends a request before the scheduled attempt, and the first handshake is never after the last |
| PollingInvariants.ReadSchedule | middleware/modbus_master/modbus_master_data_interaction.c:176-239 | successful reads of one item on one device are at least its interval apart, or, for interval 0, a slave of the table came on line in between |
| OfflineReach.CanGoOfflineIff | middleware/modbus_master/modbus_master_data_interaction.c:495-520 | some run takes a link down if and only if the test of failure accepts a feedback that a slave in range produces |
| OfflineReach.ShippedTestNeverFires | middleware/modbus_master/modbus_master_data_interaction.c:505 | with the shipped comparison no run takes a link down; with the feedback of a failed read some run does |
| LinkMirror.WordZeroIffAllDown | app/pvpcs/pvpcs_tcp_communication_thread.c:61-87 | over whole runs a bit of the connection word is set exactly for connected slaves, so the word is zero, and the channel is reconnected, exactly when no slave is connected |
| ConnectBitmap.SetBitSets | app/pvpcs/pvpcs_hw_110kw/pvpcs_hw_110kw_link_api.c:18 | setting bit i sets it and leaves every other bit |
| ConnectBitmap.ClearBitClears | app/pvpcs/pvpcs_hw_110kw/pvpcs_hw_110kw_link_api.c:9 | clearing bit i clears it and leaves every other bit |
| ConnectBitmap.RunMirrors | app/pvpcs/pvpcs_hw_110kw/pvpcs_hw_110kw_link_api.c:7-21 | after any run of connect and lose calls from the zero state bit i is the connection state of device i, and the word is zero exactly when no device is connected |
| PowerPlant.Plant.LinkLose | app/pvpcs/pvpcs_hw_110kw/pvpcs_hw_110kw_link_api.c:7-12 | the new word and the new state, still in agreement |
| PowerPlant.Plant.LinkConnect | app/pvpcs/pvpcs_hw_110kw/pvpcs_hw_110kw_link_api.c:16-21 | the new word and the new state, still in agreement |
| PowerPlant.Plant.SingleIfAvailable | app/pvpcs/pvpcs_data_interaction/pvpcs_data_interaction.c:603-613 | available as the code tests it, also for numbers outside the table |
| PowerPlant.Plant.AvailabilityNum | app/pvpcs/pvpcs_data_interaction/pvpcs_data_interaction.c:615-624 | counts the available devices |
| PowerPlant.Plant.Distribute | app/pvpcs/pvpcs_data_interaction/pvpcs_data_interaction.c:626-645 | each connected device gets at most its maximum and at most the average, and one of the two; the others keep their value; what the connected devices are given and the 32-bit running difference add up to the request |
| PowerPlant.AvailableAreAllButOutOfService | app/pvpcs/pvpcs_data_interaction/pvpcs_data_interaction.c:603-624 | the number of available devices is that of all devices less those in mode 2 that are not connected |
| PowerPlant.NeverMoreThanRequested | app/pvpcs/pvpcs_data_interaction/pvpcs_data_interaction.c:628-642 | at no point of the loop has more been allotted than requested, so the unsigned subtraction never wraps |
| PowerPlant.RemainderIs | app/pvpcs/pvpcs_data_interaction/pvpcs_data_interaction.c:626-645 | what remains is the remainder of the division, one average for every available device that is not connected, and what capped devices cannot take |
| PowerPlant.FullDistributionIff | app/pvpcs/pvpcs_data_interaction/pvpcs_data_interaction.c:626-645 | exactly the remainder of the division is left, which is below the number of devices, if and only if the average is 0, or every available device is connected and none is capped |
| PowerPlant.AvailableWithoutConnection | app/pvpcs/pvpcs_data_interaction/pvpcs_data_interaction.c:603-645 | while no device reports mode 2 all 32 count as available, and at least the shares of those not connected are allotted to nobody |
| PowerPlant.OneOfThirtyTwo | app/pvpcs/pvpcs_data_interaction/pvpcs_data_interaction.c:603-645 | with all modes 0 and one device connected at least 31 of 32 shares are allotted to nobody |
| Ipv4.IsValidIpv4 | middleware/modbus_master/modbus_master_tcp_init.c:27-67 | true exactly for the strings of the IPv4address rule in section 3.2.2 of RFC 3986, and false for a null pointer |
| Ipv4.OctetTest | middleware/modbus_master/modbus_master_tcp_init.c:46-53 | the three tests of a segment of at most three digits are the rule dec-octet |
| Ipv4.FieldsMeetGrammar | middleware/modbus_master/modbus_master_tcp_init.c:34-66 | reading four fields from the left recognises the grammar |
| Ipv4.AddressIffPrint | middleware/modbus_master/modbus_master_tcp_init.c:27-67 | the accepted strings are exactly the prints of four octets |
| Ipv4.ShowIsInjective | middleware/modbus_master/modbus_master_tcp_init.c:27-67 | no string is the print of two quadruples |

## Left out

- The order of the last two stores of init (lines 78 and 79 of the ring): a put that passes the gate between them publishes an index that init then resets to 0; `RingInit` has no puts and `RingProtocol` starts after both stores.
- Several writers on one ring: the polls and the claim are separate operations and do not exclude a second writer.
- Memory ordering weaker than sequential consistency: the atomic operations use the default order, and the byte copies are modelled as interleaved single bytes.
- RingQueue.Queue.Deinit: freeing the units and buffers is not modelled, nor are dangling pointers in init and deinit and the uninitialised pointer that the exit path of a refused init tests.
- The null-pointer checks of the ring, the list, and the polling calls: objects are not null in the model, except for the address string.
- RingQueue.Queue.Get: the checks of an index out of range and of a missing buffer are not modelled, because a queue in use has neither.
- Polling.Channel.RegisterInfoWrite: no spacing of periodic writes is stated, because the code never updates their last time and sends them in every call once their first interval has passed.
- The status bits that the sync calls return: they are formed with `&=` from 0 and are always 0 behind the gate.
- The 64-bit wrap of time stamps, and the floating-point power of the retry delay: its exponent is proved to be 0, and an integer power stands for it.
- LinkMirror.WordZeroIffAllDown: the word belongs to one channel whose slaves have distinct devices; two channels that share the word are not modelled.
- SyncList.List.DataGet: nothing is published during a call, as the class is one thread (`SpanningRuns` has what other threads publish in between); and windows that meet an interval whose end the check has not filled in are not modelled, as the segments then depend on whatever was configured there.
- The check of the read-back callback against null: `Polling` records the words it would get.
- Request decoding and replies of the Modbus slave, sockets, serial ports, threads and sleeping: not part of this model.
- The update wrappers of the slave's register list, the data map of the plant, the other getters and setters, printing, and the CAN recovery in `main.c`.
- `pvpcs_loss_update` and `pvpcs_connect_state_update`: they set the array without the word, and nothing calls them.
