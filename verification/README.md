# Logging and connection engines, modelled and proved

The program is a network server with two engines that are hard to get right, and this project models
both in Dafny and proves what they promise. Nothing here was executed; every statement is a contract or
a lemma that the Dafny verifier checks (`dafny verify dfyconfig.toml`).

**The logger** (`log/`). Each logging thread packs a message into its own lock-free ring; one background
poller merges the rings by timestamp, renders the messages and writes them to a file.

- `RingMachine` is the ring as a state machine in which each turn makes one access to shared memory, so
  that its theorems hold for every interleaving of producer and consumer. `RingCode` is the ring as a
  class over its real fields; each access in its methods is shown to be one turn of the machine.
- `ArgCodec` packs and unpacks the arguments of a log call, up to a theorem through the ring.
- `SeqLock` is the clock's parameters behind a sequence lock, all interleavings.
- `LogRegistry` is the registration of call sites in two stages, all interleavings.
- `FormatRewrite` replaces the names in format strings: what a format string means, the rewriting, and the
  proof that it preserves the meaning and exactly when. `FormatScan` is the scanning loop, the buffer it
  writes into and the header pattern.
- `LogFile`, `LogMerge`, `LogRecords` and `LogBackend` are the poller: file position, heap, sweep and merge,
  records and their reports, flush buffer. `LogRun` is a run of any length.
- `PollRace` is the poller's sweep and merge interleaved with running threads.

**The connection engine** (`net/`). A pool of connection slots on an intrusive free list, reassembly of
packets from arbitrary pieces, a filter for stale events and a trimmed queue of received packets.

- `PacketParser` is the plain parser of a byte stream that reassembly must agree with.
- `ServerState` is the invariant of the whole server and the lemmas that each step keeps it.
- `ServerSocket` is the server as a class, down to the event loop and a run of any length.

## Assumptions

- Shared memory of the ring and of the seqlock is sequentially consistent, one access per step.
- A message's rounded-up size fits 32 bits; `pop` follows a `front` that returned a block.
- `param_seq_` is modelled with its 32-bit wrap. The 64-bit counters `iCurrsequence` and the indices of
  the ring are unbounded (the latter are proved to stay below BLK_CNT).
- In `LogBackend` queues are quiet while one poll runs, and `front()` with the test of `shouldDeallocate`
  (log/fmtlog-inl.h:444-445) is one step. `PollRace` drops both assumptions and keeps only the queues'
  order; the ring's theorems cover pushes at any time.
- Memory addresses are keys of a map, and freeing removes the key. A thread buffer's key is never used
  again; a packet buffer may come back at any address not in use.
- Slot addresses are even, `accept` returns non-negative descriptors, and epoll reports only pointers it
  was handed. What `recv`, `accept`, `ioctl` and `epoll_ctl` do is a parameter of the step.
- `render` (header and body of a record) and `tsc2ns` are arbitrary functions in the poller.

## Where the code differs from what it promises

- `decodeArgs` finds the end of every text with `strlen`, so a string argument with a NUL inside is cut
  and what follows it is misread (`ArgCodec.DecodeEncode` gives the exact condition).
- A format string that mixes named with automatic fields is accepted by the call but prints nothing
  once names have become numbers (`FormatRewrite.NumberingPreservesPrint`, `MixedFieldsExample`).
- A header pattern that uses a name twice prints whatever the earlier field's slot held before
  (`FormatRewrite.ReorderingPreservesIffDistinct`, `DuplicateNameExample`).
- A header pattern of more than 25 fields, up to 256, always directs an argument beyond the header's slots,
  and in general one does exactly when some name is last used beyond the 25th (`FormatRewrite.InsideIff`,
  `InsideIffFew`, `FormatScan.SetHeaderPattern`).
- The buffer for a rewritten format allows five characters for each named argument, however often it is
  used: seven fields naming the eleventh argument overrun it (`FormatScan.FitsIff`, `OverrunExample`).
- `setLogFile(const char*)` takes the new file's position before it closes the old file; if that still
  had text buffered, every later callback's position is too large by its length
  (`LogBackend.Backend.SetLogFileByName`, `LogRun.ReportAfterReopening`).
- log/fmtlog.h:111 promises that a forced poll flushes. It does not when no thread buffer survives the
  sweep, since log/fmtlog-inl.h:453 returns first (`LogBackend.Backend.Poll`, `LogRun.ForcedPollLeavesText`).
- A thread that logs and ends between the `front()` that finds its queue empty and the test of
  `shouldDeallocate` loses those messages (`PollRace.LosesIff`, `LossExample`).
- The seqlock's reader accepts a mixed set of parameters if 2^32 - 1 or more stores to the sequence number,
  of 2^31 saves, fall into one read; with fewer it never does (`SeqLock.SafeBelowIff`, `MixedRead`).
- `setnonblocking` compares the result of `ioctl` with 1, which it never returns, so a failure passes as
  success and the socket stays blocking (`ServerState.FailureUnseen`).

## Model

| member | source | states |
|---|---|---|
| RingMachine.EveryAccessInBounds | log/fmtlog.h:185-226 | In no interleaving of producer and consumer, one shared access per turn, does an index leave the ring, a read run past a message or the free count go below zero. |
| RingMachine.PoppedIsPrefixOfPushed | log/fmtlog.h:176-226 | The ring refines a FIFO queue: the messages read and popped are, id and payload byte for byte, the first ones pushed, over all runs, wraps and refusals. |
| RingMachine.FrontIsOldestIntact | log/fmtlog.h:185-221 | A message held from `front` is the oldest unpopped one, and no next step of the producer changes a byte of it or of the read index. |
| RingMachine.HeldPayload | log/fmtlog.h:213-226 | The bytes behind the held header are exactly the payload of the oldest unpopped message. |
| RingMachine.FrontAnswersExactly | log/fmtlog.h:213-221 | `front` ends with "empty" only if every pushed message has been popped, and with a block only if one has not. |
| RingMachine.FreeCountNeverOverstates | log/fmtlog.h:185-211 | In every reachable state the cached free count is at least 1 and at most the real free space, behind the reader too; unpopped messages total at most BLK_CNT - 1 blocks; the word at the write index is 0. |
| RingMachine.CallDecides | log/fmtlog.h:188-188 | In every reachable state a call goes straight on exactly if the message fits the cached free count, and then it fits up to the reader or the end with a block to spare. |
| RingMachine.LoadDecides | log/fmtlog.h:189-205 | From the consumer's index as loaded, in every reachable state: go on at the write index exactly if the message and one more block fit up to the reader or the end; start a wrap exactly if they do not fit up to the end and the reader has left block 0; else refuse. |
| RingMachine.MarkDecides | log/fmtlog.h:194-204 | The marker goes to the old write index, and the wrap ends in block 0 with room, or a refusal, by where the consumer was. |
| RingMachine.RunInv | log/fmtlog.h:171-234 | Every state of every run satisfies the ring invariant: unpopped messages tile the blocks from the read index to the writer, or to the wrap marker and from block 0. |
| RingMachine.PushKeeps | log/fmtlog.h:176-176 | Publishing the size makes the reserved blocks the next message of the tiling. |
| RingMachine.MarkKeeps | log/fmtlog.h:192-197 | The wrap marker closes the near part of the tiling at the old write index and opens an empty far part at block 0. |
| RingMachine.PopKeeps | log/fmtlog.h:223-226 | Advancing by the rounded-up size steps over exactly the oldest message. |
| RingMachine.WrapKeeps | log/fmtlog.h:215-218 | Following the marker turns the far part of the tiling into the near one. |
| RingMachine.ProducerTurnKeeps | log/fmtlog.h:185-211 | Each single store or load of `alloc`, the payload writes and `push` keeps the invariant. |
| RingMachine.ConsumerTurnKeeps | log/fmtlog.h:213-226 | Each single access of `front` and `pop` keeps the invariant. |
| RingCode.SpscVarQueue.constructor | log/fmtlog.h:229-233 | The ring starts in the initial state of the machine: all blocks zero, all of them free, nothing pushed or popped. |
| RingCode.SpscVarQueue.Refresh | log/fmtlog.h:189-201 | The slow path: exactly when the message does not fit up to the end and the reader has left block 0, the marker is stored and block 0 is next; else memory and write index stay. The free count becomes the real one; every access is one turn of the machine. |
| RingCode.SpscVarQueue.Alloc | log/fmtlog.h:185-211 | Accepts at the write index exactly if the message and one more block fit there up to the reader or the end, else, if the reader is not ahead of it and has left block 0, at block 0 exactly if they fit up to the reader, else refuses - all by the indices before the call; says exactly what is written; a refusal leaves the exact free count; a trace of producer turns. |
| RingCode.SpscVarQueue.Reserve | log/fmtlog.h:206-210 | The blocks are taken at the write index and the size behind them is cleared. |
| RingCode.SpscVarQueue.WriteAndPush | log/fmtlog.h:682-687 | Writing id and payload and pushing appends exactly that message, as a trace of producer turns. |
| RingCode.SpscVarQueue.Log | log/fmtlog.h:678-692 | One log call with blocking off: accepted if and only if, by the indices before it, the message and one more block fit up to the reader, up to the end or from block 0 up to the reader; then appended, else the queue is unchanged. |
| RingCode.SpscVarQueue.Front | log/fmtlog.h:213-221 | Answers None exactly when nothing is pending, else the index of the oldest unpopped message, intact; a trace of consumer turns. |
| RingCode.SpscVarQueue.Pop | log/fmtlog.h:223-226 | Removes exactly the message `front` returned; a trace of consumer turns. |
| RingCode.Drain | log/fmtlog.h:213-226 | A consumer left alone pops everything that was pushed, in order, and terminates. |
| RingCode.LogWhenDrained | log/fmtlog.h:185-221 | Progress: from every reachable position of the indices with nothing pending, any message of fewer than BLK_CNT blocks is accepted after at most one refusal followed by one `front`. |
| ArgCodec.PackedSize | log/fmtlog.h:432-491 | Packing fills exactly the bytes `getArgSizes` computed. |
| ArgCodec.AllocatedIsWritten | log/fmtlog.h:678-687 | The size requested from the queue is the size of the timestamp plus the packed arguments. |
| ArgCodec.ArgumentsMean | log/fmtlog.h:440-489 | What each kind of argument means and which bytes it packs to: C memory up to its NUL, a string and a NUL, a value's own bytes; a name changes neither. |
| ArgCodec.DecodePackedOne | log/fmtlog.h:515-566 | Unpacking one packed argument in place gives its value and the position after it; for a string with a length and a NUL inside, another text. |
| ArgCodec.DecodeEncode | log/fmtlog.h:462-566 | Unpacking a packed argument list anywhere in memory gives the same values and stops where packing stopped, if and only if no string with a length contains a NUL. |
| ArgCodec.NulInStringExample | log/fmtlog.h:473-478 | A three-byte string with a NUL in the middle does not come back. |
| ArgCodec.TscRoundTrip | log/fmtlog.h:684-685 | The eight timestamp bytes read back as the signed timestamp stored. |
| ArgCodec.HeldMessageDecodes | log/fmtlog.h:666-692 | End to end through the ring: in every interleaving, unpacking the held message in place gives the timestamp and arguments of its log call and ends at the end of the message. |
| SeqLock.SnapshotIsConsistent | log/fmtlog.h:285-294 | In every interleaving of one writer and any readers, a value returned by `tsc2ns` used three parameters of one and the same save, the last finished one, with no save under way, unless 2^32 - 1 or more sequence stores fell into the read. |
| SeqLock.SafeBelowIff | log/fmtlog.h:285-294 | Reads with fewer than `bound` sequence stores always return snapshots, in every interleaving, if and only if the bound is at most 2^32 - 1. |
| SeqLock.MixedRead | log/fmtlog.h:285-294 | For any two saves that differ in the first parameter and in another there is a run with 2^32 - 1 stores during the read, begun during a save, and one with 2^32, begun between saves, whose result no save stored. |
| SeqLock.Escapes | log/fmtlog.h:285-294 | Those runs in full: the one result of each, with the first parameter of the old save and the others of the new. |
| SeqLock.SavesRun | log/fmtlog.h:344-355 | k saves by a writer left alone advance the sequence number by 2k modulo 2^32 and leave the last save's parameters. |
| SeqLock.RunKeeps | log/fmtlog.h:344-355 | Every turn of `saveParam` and `tsc2ns`, in any order, keeps the seqlock invariant. |
| SeqLock.LoneReaderReturns | log/fmtlog.h:285-294 | Between saves, in every reachable state, a reader left alone returns at its first try, with the last save's parameters. |
| SeqLock.WriterKeeps | log/fmtlog.h:344-355 | Each store of `saveParam` keeps what running readers rely on. |
| SeqLock.ReturnKeeps | log/fmtlog.h:287-292 | Comparing the masked first with the unmasked second sequence number admits only snapshots taken wholly between two saves. |
| SeqLock.SameStage | log/fmtlog.h:287-292 | Masked and second number agree modulo 2^32 only if no sequence store happened in between and the first number was even. |
| LogRegistry.HandledWithOwnInfo | log/fmtlog-inl.h:496-503 | In every interleaving of id checks, registrations, enqueues, batch moves and handling, each handled message is formatted with the entry of the site that logged it. |
| LogRegistry.IdIsForever | log/fmtlog-inl.h:425-432 | Once a site has an id it keeps it, the id names its entry across every later batch move, and no other entry is its. |
| LogRegistry.RegisterKeeps | log/fmtlog-inl.h:496-503 | Registering under the lock gives a fresh nonzero id, or keeps the one another thread has just assigned. |
| LogRegistry.MoveKeeps | log/fmtlog-inl.h:425-432 | The batch move keeps every index, and after it every queued id is known. |
| LogRegistry.HandleKeeps | log/fmtlog-inl.h:461-465 | Handling a known message keeps every other queued message, id and entry right. |
| LogRegistry.HandleOutputs | log/fmtlog-inl.h:461-465 | A known message is output with its own site's entry and leaves the queue. |
| LogRegistry.LoggedIsOutput | log/fmtlog.h:672-692 | In every reachable state a log call followed by a batch move and handling outputs its message with its own site's entry, registered before or not. |
| FormatRewrite.RewriteIsSound | log/fmtlog.h:607-664 | For every string the rewriting throws exactly when the string is malformed or names an unknown argument; else its tokens are those of the input with names replaced: always by numbers, and with names dropped exactly when each name is followed by a character other than an opening brace. |
| FormatRewrite.NumberingPreservesPrint | log/fmtlog.h:653-655 | The numbered format prints what the named one prints, if and only if the format does not mix named with automatic fields. |
| FormatRewrite.MixedFieldsExample | log/fmtlog.h:653-655 | The format `{}{a}` prints by name, and its rewriting `{}{1}` does not print. |
| FormatRewrite.NumberedPrintsSame | log/fmtlog.h:653-655 | The same equivalence from any point of the format and any state of the numbering. |
| FormatRewrite.ParseDecimal | log/fmtlog.h:654-654 | The number written for a name reads back as its argument position. |
| FormatRewrite.ReorderingPreservesPrint | log/fmtlog-inl.h:121-160 | A header pattern with different names prints, from the reordered arguments, what it prints by name, whatever the slots held before. |
| FormatRewrite.ReorderingPreservesIffDistinct | log/fmtlog-inl.h:121-160 | For header patterns of at most 25 known, delimited names this holds for all values and all old slot contents if and only if no name occurs twice. |
| FormatRewrite.HeaderPrintsIff | log/fmtlog-inl.h:121-160 | For given values, the header prints the same exactly when every field's slot holds the value of its own name. |
| FormatRewrite.FieldGetsItsValue | log/fmtlog-inl.h:304-307 | Distinct used names have slots of their own, and unused ones, all sent to slot 24, never overwrite a used slot, even with all 25 in use. |
| FormatRewrite.EarlierFieldIsStale | log/fmtlog.h:650-652 | With a name used twice, the slot of its earlier field is never stored to. |
| FormatRewrite.OnceUsedFieldGets | log/fmtlog-inl.h:304-307 | A field whose name occurs once gets the value of its name, whatever the other fields; only the last of 25 shares its slot with unused names, of which the last wins. |
| FormatRewrite.FieldsRightIffDistinct | log/fmtlog-inl.h:121-160 | All slots are right for all values and old contents exactly when the names are distinct. |
| FormatRewrite.AssignedTo | log/fmtlog-inl.h:124-126 | The table sends an argument to its name's last position in the pattern, counted in a byte, or to the last slot if unused. |
| FormatRewrite.ReorderedPrintsSame | log/fmtlog.h:650-652 | Named fields printed in order from position `next` equal the fields printed by name exactly when the arguments from there on are the named values. |
| FormatRewrite.DuplicateNameExample | log/fmtlog-inl.h:121-160 | The pattern `{t}{t}` does not always print what it says by name. |
| FormatRewrite.InsideIff | log/fmtlog-inl.h:304-307 | For any pattern no argument is directed beyond the 25 slots if and only if each name is last used, counting in a byte, among the first 25 fields. |
| FormatRewrite.InsideIffFew | log/fmtlog-inl.h:304-307 | Up to 256 fields: the slots suffice if and only if there are at most 25. |
| FormatScan.UnNameFormat | log/fmtlog.h:607-664 | The scanning loop returns the specified rewriting of the part before the first NUL, None where it throws, the input without named arguments; fills the buffer as far as specified; and leaves the table assigned as specified. |
| FormatScan.ReplaceField | log/fmtlog.h:631-660 | One field of the scan extends the rewritten prefix and the table by exactly that field. |
| FormatScan.ScanName | log/fmtlog.h:637-648 | The longest name at a position and the first argument carrying it. |
| FormatScan.ScanIsTokens | log/fmtlog.h:637-652 | The names met while scanning characters are the names of the format's tokens, in order. |
| FormatScan.StoredAt | log/fmtlog.h:497-507 | A name stands for the first argument that has it, by its position among all arguments. |
| FormatScan.NotStored | log/fmtlog.h:497-507 | A name no argument has stands for none. |
| FormatScan.HeaderArgsStored | log/fmtlog-inl.h:127-132 | The header's names, all its arguments being named, are numbered in their order. |
| FormatScan.EmittedIs | log/fmtlog.h:616-661 | What the loop writes is the rewritten string, as long as the input plus the growth of its names; never more than that when it throws, and never more than the input when names are dropped. |
| FormatScan.FitsIff | log/fmtlog.h:616-616 | The writes of a rewriting by numbers fit the allocated buffer if and only if the names grow by at most five characters for each named argument, and one. |
| FormatScan.HeaderFits | log/fmtlog.h:616-616 | Dropping names always fits. |
| FormatScan.OverrunExample | log/fmtlog.h:616-616 | One named argument in the eleventh place: n uses overrun the buffer if and only if n is at least 7. |
| FormatScan.NumberExample | log/fmtlog.h:653-655 | The name of the eleventh argument becomes `{10}`. |
| FormatScan.SetHeaderPattern | log/fmtlog-inl.h:121-160 | For every pattern: resets the table, rewrites the pattern, stores all 25 values in order of their arguments where the table says, and tells whether a store went beyond the argument array. With different names and at most 25 fields, each slot holds the value of its field's name if that is used once; a pattern as documented then prints the value of each name in its field. |
| FormatScan.HeaderPrintsValues | log/fmtlog-inl.h:121-160 | A pattern whose fields are different known names, closed or with a specification, prints for each field the value of its name and the rest as it stands. |
| FormatScan.DefaultHeader | log/fmtlog-inl.h:103-103 | The default pattern is such a pattern over the program's 25 names, its fields are arguments 19, 14, 13 and 6, and it is rewritten as it should be. |
| LogFile.AppendRecord | log/fmtlog-inl.h:386-402 | Appending a record and a newline to the buffer extends file plus buffer by that line, which lies at the position reported. |
| LogFile.ReportsAreExact | log/fmtlog-inl.h:397-401 | With the file position exact, every reported position is the offset of its record in the file plus buffer, now and after any later output. |
| LogFile.OwedAtLine | log/fmtlog-inl.h:397-401 | Reports computed by counting lengths lie at the lines of their records. |
| LogFile.ReportsSince | log/fmtlog-inl.h:397-401 | With the reports exact before and after, those made in between are exactly those owed for the records in between. |
| LogFile.ReportExactIff | log/fmtlog-inl.h:544-558 | With the file position off by a fixed amount, a reported position is right exactly when that amount is zero. |
| LogFile.Flushed | log/fmtlog-inl.h:315-324 | Writing out the buffer keeps the stream of records. |
| LogMerge.RootIsLeast | log/fmtlog-inl.h:408-420 | In a heap no node is before the root, absent heads counting as later than all. |
| LogMerge.SiftStep | log/fmtlog-inl.h:408-420 | Moving the least child up moves the only violation down to the child's place and keeps the multiset of nodes. |
| LogMerge.CacheKeeps | log/fmtlog-inl.h:441-444 | Caching a missing head keeps the sweep invariant. |
| LogMerge.RemoveKeeps | log/fmtlog-inl.h:445-450 | Replacing a dead empty buffer's node by the last one keeps the sweep invariant: nothing else is dropped, nothing skipped. |
| LogMerge.SweptAll | log/fmtlog-inl.h:441-451 | After the sweep every surviving node's cached head is its queue's front, and exactly the empty buffers of ended threads are gone. |
| LogMerge.RootIsNext | log/fmtlog-inl.h:460-464 | The root of the heap of heads is not after any message still queued. |
| LogMerge.HeadIsLeast | log/fmtlog-inl.h:460-464 | The cached root is at most every queued message, for each sorted queue. |
| LogMerge.PopKeepsOrder | log/fmtlog-inl.h:460-468 | Emitting the root keeps the output sorted and not after anything left. |
| LogMerge.PopKeepsSplit | log/fmtlog-inl.h:460-468 | Each queue as it was stays equal to its part of the output followed by what is left of it. |
| LogMerge.MergeIsExact | log/fmtlog-inl.h:460-468 | With sorted queues and known ids the output is sorted, keeps each queue's order, takes of each queue exactly the messages before `tsc`, and leaves exactly the rest. |
| LogMerge.HistoryPop | log/fmtlog-inl.h:460-468 | Handling a root keeps every buffer's log equal to its handled messages followed by its queue. |
| LogMerge.HandledIsPrefix | log/fmtlog-inl.h:441-468 | Per thread the handled messages are a prefix of those logged, and all of them once the buffer is destroyed. |
| LogMerge.ReplaceBuffer | log/fmtlog-inl.h:444-444 | Appending to a queue, or ending its thread, between polls keeps every cached head equal to its queue's front. |
| LogRecords.AllStayIff | log/fmtlog-inl.h:402-405 | A series of records stays buffered whole if and only if none is urgent and all of it is shorter than the flush size; else what is left is a shorter end of it. |
| LogRecords.RenderedStays | log/fmtlog-inl.h:385-391 | Neither later registrations nor later threads change a handled message's text. |
| LogRecords.AskedAppend | log/fmtlog-inl.h:397-397 | Nor whether it was to be reported. |
| LogBackend.Backend.constructor | log/fmtlog-inl.h:95-113 | The four entries for unregistered messages at their levels, no buffers, standard output unmanaged, the default delays and sizes, no callback; the invariant holds. |
| LogBackend.Backend.LeastOfFamily | log/fmtlog-inl.h:410-415 | Among a node and its children, one that none of the others is before; the node itself unless a child is strictly before it. |
| LogBackend.Backend.AdjustHeap | log/fmtlog-inl.h:408-420 | Restores the heap from one violated at a single node, permuting the nodes, and terminates. |
| LogBackend.Backend.BuildHeap | log/fmtlog-inl.h:455-458 | Makes a heap of any array of nodes, as a permutation of them. |
| LogBackend.Backend.Sweep | log/fmtlog-inl.h:441-451 | Caches every missing head and destroys exactly the buffers that are empty and whose threads have ended, with `i` wrapping below zero and back. |
| LogBackend.Backend.Merge | log/fmtlog-inl.h:460-468 | Handles exactly a sorted merge of the queues up to the first head that is absent, not yet due or not yet registered; each handled message adds its rendering to the records, is marked for report by its level, and fills or flushes the buffer by size and level; terminates. |
| LogBackend.Backend.HandleRoot | log/fmtlog-inl.h:461-467 | Handles the root's message with its own thread name and entry, reports it at the buffer's end if its level asks for it, pops that queue only, and restores heap and cached head. |
| LogBackend.Backend.HandleLog | log/fmtlog-inl.h:355-406 | File plus buffer grow by the rendered line and nothing else; it is reported with its position exactly if a callback is set and its level is not below the callback's; the buffer is written exactly if it has grown to the flush size or the level is not below the flush level. |
| LogBackend.Backend.RenderLine | log/fmtlog-inl.h:386-402 | The rendering of the message with its own entry and a newline are added to the buffer, and reported. |
| LogBackend.Backend.FlushLogFile | log/fmtlog-inl.h:315-324 | File plus buffer is unchanged, the buffer empty, the position moved by what a managed file received. |
| LogBackend.Backend.CloseLogFile | log/fmtlog-inl.h:326-331 | What was buffered is in the file when it is let go of; nothing stays buffered and no file is open. |
| LogBackend.Backend.SetLogFileByName | log/fmtlog-inl.h:544-558 | The old file has got what was buffered; the new file's tracked position is too large by exactly the text that was buffered for a managed file. |
| LogBackend.Backend.SetLogFile | log/fmtlog-inl.h:560-572 | Taking over an open file always gives an exact position. |
| LogBackend.Backend.FlushAfterPoll | log/fmtlog-inl.h:470-481 | An unmanaged or forced poll writes all text; a managed one writes text with a deadline exactly if that has passed, leaving text and deadline alone otherwise, and gives text without one the deadline now plus delay; the file grows by exactly what is written. |
| LogBackend.Backend.TakeRegistrations | log/fmtlog-inl.h:425-439 | Registered entries are appended in order, each new buffer gets one node without a cached head. |
| LogBackend.Backend.MergeSurvivors | log/fmtlog-inl.h:453-481 | The part of a poll after the sweep: nothing without a buffer, else heap, merge and flush. |
| LogBackend.Backend.Poll | log/fmtlog-inl.h:422-482 | One poll over quiet queues: exactly the buffers that are empty with their threads ended are destroyed and the others merged; exactly the handled messages are recorded, rendered, in order; exactly those at the callback's level are reported, each at its record's offset; what the merge left buffered is written exactly if unmanaged, forced or past its deadline; a forced poll leaves text exactly when there was some and no buffer survives. |
| LogBackend.Backend.Preallocate | log/fmtlog-inl.h:288-302 | A new buffer, known to no node yet, is announced to the poller. |
| LogBackend.Backend.Log | log/fmtlog-inl.h:460-468 | A message logged between polls joins the end of its queue and disturbs no cached head. |
| LogBackend.Backend.RegisterLogInfo | log/fmtlog-inl.h:496-503 | A site that already has an id keeps it; else the id returned is nonzero and indexes the new entry among moved and waiting ones. |
| LogBackend.Backend.ThreadExit | log/fmtlog-inl.h:169-174 | Ending a thread marks its buffer and disturbs nothing queued. |
| LogRun.Run | log/fmtlog-inl.h:422-482 | In any run of threads starting, logging and ending, registrations, file changes and polls: each thread's handled messages are a prefix of what it logged, all of it once its buffer is destroyed; file plus buffer is the file as opened followed by the record of every message handled since, in order; exactly the messages at the callback's level are reported, each at its offset if the position was taken right. Each operation has done its work when the run ends with it; after a poll, with each thread's messages in order and ids known, all due messages have been handled. |
| LogRun.NothingDueLeft | log/fmtlog-inl.h:441-468 | With each thread's messages in order and their ids known, every message logged before a poll's time has been handled after it. |
| LogRun.ReportAfterReopening | log/fmtlog-inl.h:552-555 | After opening a file by name the first report is off by exactly what was buffered, so it is right if and only if no managed file had text buffered. |
| LogRun.ForcedPollLeavesText | log/fmtlog-inl.h:453-453 | A run that ends with a forced poll and a record unwritten. |
| PollRace.HandledIsPrefix | log/fmtlog-inl.h:441-468 | With every push, end, `front`, test and `pop` a turn of its own: in every interleaving each thread's handled messages are a prefix of what it logged; the rest is queued or, of a destroyed buffer, what was pushed after the `front` that found it empty. |
| PollRace.PollerMoves | log/fmtlog-inl.h:441-468 | In every reachable state the poller, free to go on, handles the oldest message of a live buffer it turns to, or destroys it if it is empty and its thread has ended. |
| PollRace.LosesIff | log/fmtlog-inl.h:444-445 | Messages are lost in a sweep if and only if between `front` and the test the thread pushes and then ends. |
| PollRace.LossExample | log/fmtlog-inl.h:444-445 | A run that loses a message. |
| PacketParser.ParseAppend | net/xfly_socket_request.cpp:9-53 | Parsing does not depend on how the stream is cut. |
| PacketParser.OnePacket | net/xfly_socket_request.cpp:86-140 | Two bytes that are, the higher first, a length from 8 to 29000, with as many bytes counting them, are one packet, whatever these are and whatever follows. |
| PacketParser.NoPacket | net/xfly_socket_request.cpp:95-106 | Two bytes with any other length cost the stream the 8 bytes of that header. |
| PacketParser.ParseConcat | net/xfly_socket_request.cpp:86-140 | A stream of packets, each of 8 to 29000 bytes as its first two bytes say, parses back to exactly them. |
| PacketParser.ParsedAreWellFormed | net/xfly_socket_request.cpp:97-129 | Every packet parsed has between 8 and 29000 bytes, as many as its first two bytes say, the higher first. |
| PacketParser.RestIsIncomplete | net/xfly_socket_request.cpp:97-129 | What is left over holds neither a complete packet nor a complete bad header. |
| ServerState.EnqueuedIsParse | net/xfly_socket_request.cpp:9-53 | In every reachable state, for every ownership there ever was, the packets enqueued from it are a plain parse of the bytes it received, and a live slot holds exactly the unfinished rest. |
| ServerState.BuffersConserved | net/xfly_socket_request.cpp:109-161 | Live packet buffers are the queued ones and those of slots in a body phase, without overlap or sharing; the queue has fewer than 1000 entries and is the latest part of the enqueue history. |
| ServerState.StaleMessageExact | net/xfly_socket_request.cpp:114-116 | A queued message carries its slot's current sequence number if and only if the slot has not been closed since the message's header was parsed. |
| ServerState.FilterExact | net/xfly_socket.cpp:257-270 | A tagged event passes the stale filter if and only if its slot is owned and has been acquired an even number of times since tagging. |
| ServerState.FreeListExact | net/xfly_socket_conn.cpp:8-45 | Following the links from the list head meets the counted number of slots, each once, then ends; they are exactly those without a socket and with an even sequence number. |
| ServerState.AcquireKeeps | net/xfly_socket_conn.cpp:8-33 | Taking the first free slot keeps the server invariant. |
| ServerState.ReleaseKeeps | net/xfly_socket_conn.cpp:34-52 | Closing an owned slot in any phase keeps the server invariant, freeing just its unfinished buffer. |
| ServerState.ReleasedIs | net/xfly_socket_conn.cpp:34-52 | A release in plain terms: socket gone, sequence number one on, first in the free list; only the unfinished buffer freed; queue, streams and other slots as they were. |
| ServerState.ReceiveHeadKeeps | net/xfly_socket_request.cpp:57-85 | Header bytes land at the cursor, inside the header array, and extend what the slot holds. |
| ServerState.ReceiveBodyKeeps | net/xfly_socket_request.cpp:57-85 | Body bytes land at the cursor, inside the slot's own buffer, and touch no other buffer. |
| ServerState.AdvanceKeeps | net/xfly_socket_request.cpp:18-23 | A partial receive moves the cursor so that it still ends at the end of header or packet. |
| ServerState.BadHeaderKeeps | net/xfly_socket_request.cpp:97-106 | A header with a length below 8 or above 29000 costs the stream exactly its 8 bytes. |
| ServerState.GoodHeaderKeeps | net/xfly_socket_request.cpp:108-129 | After a good header the slot owns a fresh buffer of the announced length and waits for the body, or holds a complete packet. |
| ServerState.EnqueueKeeps | net/xfly_socket_request.cpp:131-161 | Moving a complete packet to the queue and trimming keeps the server invariant: ownership of the buffer passes on, the oldest entries are freed. |
| ServerState.HeaderHandledIs | net/xfly_socket_request.cpp:86-130 | What a complete header leads to, by its two length bytes: dropped, a fresh buffer and the wait for the body, or a queued packet of 8 bytes. |
| ServerState.AcceptedIs | net/xfly_socket_accept.cpp:69-111 | An accepted and readied socket has the first free slot, the request handler, its listener's listening socket, the next sequence number, and a tagged entry in epoll. |
| ServerState.GivenBack | net/xfly_socket_accept.cpp:87-111 | A connection that cannot be made ready leaves the pool as it was, but for its slot's sequence number, and touches no other slot. |
| ServerState.FailureUnseen | net/xfly_socket.cpp:130-135 | Of the two results ioctl has, a failure passes as success, and the new socket keeps its slot though it is blocking. |
| ServerState.ListenerStarts | net/xfly_socket.cpp:163-185 | A new listener takes the first free slot, with socket, index, accept handler and tagged pointer. |
| ServerState.InitialInv | net/xfly_socket.cpp:145-158 | The pool as built satisfies the server invariant. |
| ServerSocket.CSocket.GetConnection | net/xfly_socket_conn.cpp:8-33 | None exactly when no slot is free; else the first free slot, reset and under the next sequence number. |
| ServerSocket.CSocket.FreeConnection | net/xfly_socket_conn.cpp:34-45 | The slot is pushed on the free list, its unfinished buffer and nothing else freed. |
| ServerSocket.CSocket.CloseConnection | net/xfly_socket_conn.cpp:46-52 | Only owned slots are closed; the state becomes the released one. |
| ServerSocket.CSocket.RecvProc | net/xfly_socket_request.cpp:57-85 | A retryable error changes nothing, another error or end of stream closes the slot, data of any length is stored within the bytes asked for. |
| ServerSocket.CSocket.WaitRequestHandler | net/xfly_socket_request.cpp:9-53 | One readiness event on a client slot: unchanged on a retryable error, released on another or at the end of the stream, else exactly the first irecvlen of the waiting bytes, or all, are added to what its owner has received and handled, keeping the invariant. |
| ServerSocket.CSocket.ProcP1 | net/xfly_socket_request.cpp:86-130 | By the header's first two bytes, the higher first: below 8 or above 29000 it is dropped; 8 is enqueued as a packet; else the slot gets a buffer of that length and waits for the body. |
| ServerSocket.CSocket.StartPacket | net/xfly_socket_request.cpp:107-129 | A good header: the buffer is allocated with slot, sequence number and header, and the slot waits for the body, or the packet is enqueued. |
| ServerSocket.CSocket.ProcPlast | net/xfly_socket_request.cpp:131-140 | The complete packet becomes the newest queue entry and the slot starts over. |
| ServerSocket.CSocket.InMsgRecvQueue | net/xfly_socket_request.cpp:141-147 | The queue becomes the old one plus the buffer, or the latest 500 of these if they are 1000; the freed buffers are exactly those dropped. |
| ServerSocket.CSocket.TrimMsgRecvQueue | net/xfly_socket_request.cpp:148-161 | Below 1000 entries nothing changes; else the oldest are freed and the latest 500 stay. |
| ServerSocket.CSocket.AllocPacket | net/xfly_socket_request.cpp:108-119 | A fresh buffer of the announced length with slot, sequence number and received header in front. |
| ServerSocket.CSocket.AdvanceCursor | net/xfly_socket_request.cpp:18-23 | The slot after a partial receive, from either phase of header or body. |
| ServerSocket.CSocket.AcceptSocket | net/xfly_socket_accept.cpp:69-112 | The accepted socket gets a slot, handler and tagged epoll entry, or the slot is given back. |
| ServerSocket.CSocket.EventAccept | net/xfly_socket_accept.cpp:12-114 | One accept with the single fallback from accept4; a failed accept or an empty pool changes nothing; else the socket has been given the first free slot, or the slot has been given back. |
| ServerSocket.CSocket.EpollAddEvent | net/xfly_socket.cpp:188-215 | The pointer handed out is tagged with the slot's instance flag at this acquisition. |
| ServerSocket.CSocket.ProcessEvent | net/xfly_socket.cpp:257-285 | An event is dispatched if and only if it is readable, its slot is owned and has been acquired an even number of times since tagging; then a listening slot accepts and a client slot is served with the outcomes the system gave, exactly; else nothing changes. |
| ServerSocket.CSocket.ProcessEvents | net/xfly_socket.cpp:257-287 | A batch of events is a trace of steps, one for each event in order, through states that satisfy the invariant. |
| ServerSocket.CSocket.BuildPool | net/xfly_socket.cpp:145-158 | Every slot free, even, invalid, and linked to the next one in order. |
| ServerSocket.CSocket.constructor | net/xfly_socket.cpp:145-158 | The built pool is an initial state satisfying the invariant. |
| ServerSocket.CSocket.AddListener | net/xfly_socket.cpp:163-185 | A listening socket takes the first free slot, which gets its index, the accept handler and a tagged epoll entry; false, and nothing changed, if there is none. |
| ServerSocket.CSocket.AddListeners | net/xfly_socket.cpp:160-186 | The listening sockets take the first slots of the pool in order, each with its own socket, index, handler and tag; it fails exactly if there are too few slots or epoll refuses one. |
| ServerSocket.Run | net/xfly_socket.cpp:222-287 | If the listeners can be set up, each event of each round is one step of the trace to the final state - dispatched or dropped, accepted or served, as for a single event - starting with the listeners in the first slots; every state satisfies the invariant; each ownership's enqueued packets are a plain parse of its bytes. |

## Left out

- Memory orders weaker than sequential consistency, in the ring and in the seqlock.
- LogBackend.Backend.Poll: runs over quiet queues; with threads running meanwhile PollRace proves each thread's order and what is lost, not the order across threads, which a late push can break.
- PollRace.HandledIsPrefix: takes each `front`, push and pop as one step on a first-in-first-out queue, as RingMachine justifies, instead of the ring's single accesses.
- RingCode.SpscVarQueue.Log: is one attempt; the retry loop of FMTLOG_BLOCK is not modelled, because without a running consumer it need not end.
- RingCode.SpscVarQueue.Alloc: as a method it runs without the consumer in between; all interleavings are covered by RingMachine, to whose turns its accesses are tied.
- ArgCodec.DecodeEncode: objects with destructors and dereferenced pointers are bytes of a fixed size, because copying and destroying them is the compiler's work.
- FormatRewrite.NumberingPreservesPrint: says nothing about formats that are invalid before rewriting; rendering inside the fmt library is reduced to which argument each field prints.
- `calibrate` and the rendering of dates and times, which are floating point and platform clocks.
- FormatScan.SetHeaderPattern: tells whether a store goes beyond the argument array, not what it then overwrites.
- LogBackend.Backend.HandleLog: rendering is an arbitrary function of thread name, entry and message, so location splitting, `logOnce` messages and stale date fields are not distinguished.
- LogBackend.Backend.SetLogFileByName: opening cannot fail; a failing `fopen` throws before anything changes.
- LogBackend.Backend.FlushLogFile: `fwrite` writes everything, as the code assumes.
- The setters of flush delay, buffer size, flush level and callback: they store one field that no invariant mentions; the polling thread: it only calls poll.
- ServerSocket.CSocket.EventAccept: a peer's address is not recorded, because nothing reads it.
- ServerSocket.CSocket.ProcessEvent: write events do nothing in the code and are not represented.
- ServerSocket.CSocket.AddListener: where the program exits on failure the model answers false.
- The destructor of the server, which does not visit slots in a body phase: buffers are conserved only while it runs.
- Configuration, processes, signals, listening-socket set-up and `sock_ntop`.
