# Verified models of the RIFFA driver, the EZ-USB loader and the live-video protocol

This project models four parts of the repository in Dafny and proves what they keep. `dafny verify dfyconfig.toml`
checks everything.

**The message queue of the RIFFA driver** (`circ_queue.c`). `QueueModel` is a step system with one atomic action per
step, one producer and any number of consumers, and 32-bit counters. `QueueFifo` proves first-in first-out over every
interleaving; `QueueWrap` finds out for which lengths this survives the wrap of the counters; `CircQueue` is the code
itself, on an array, tied to whole runs of the step system. The driver's send queue (4 slots) is safe for ever. Its
receive queue (5 slots) is not: 5 does not divide 2^32, so after 2^32 messages a slot is reused too early, and a queue
drained after 2^32 - 1 messages reports "full" to every push and "empty" to every pop from then on.

**The DMA transfers of the RIFFA driver** (`riffa_driver.c`). `ScatterGather` is `fill_sg_buf`, `Transfers` the
bookkeeping of the two mappings, `RecvTransfer` and `SendTransfer` are `chnl_recv` and `chnl_send` with their entry
checks, `RecvOutcome` says what `chnl_recv` returns and tells the device, `Interrupts` is the handler that feeds the
queues, `BusyFlag` the flag that admits one caller. `SpillRounds` and `SpillGrants` follow the spill buffer over all
fills of a transaction; `RecvPath` puts handler, queue and `chnl_recv` together.

**The firmware loader** (`ezusb.c`). `HexRecords` merges Intel HEX records into chunks, `HexText` is the text of such a
file (the record format is that of the Intel Hexadecimal Object File Format Specification, Revision A, 1988), `Chips`
the memory of the four chips, `Loader` the requests to the device, `RamLoad`, `EepromLoad` and `Fx3Image` the loads;
`EepromExact` and `EepromShort` prove exactly when an EEPROM load leaves what it should, and when it is crash-safe.

**The live-video protocol** (`qhyccdvideo.py`, `blocking.py`). `LiveVideo` interleaves worker threads, reader threads
and the event loop around the driver lock, one step at a time; `LiveVideoSafety` proves what every interleaving keeps,
`LiveVideoFresh` exactly when frames fit their buffers and stamps, `LiveVideoTurns` exactly when begin_live and
stop_live alternate, `LiveVideoActivation` that they do if each start and stop is awaited, and `LiveVideoReaders` what
the stop event and a waiting setter mean for readers; `VideoBodies` holds the functions that are executed under the
lock, as methods of one object. `FrameQueue` is the queue between reader and consumer.

`Arith` holds lemmas about quotients, remainders and bits, `Wrappers` the option type. In every step system the history
that properties speak about (messages pushed and popped, ranges mapped, memory after each request, calls made on the
camera) is part of the state but never read by a step.

## Where the code does less than it says

- The spill loop of `fill_sg_buf` (line 503) compares the buffer size with `overflow` instead of what remains of it.
  One fill reports the right overflow exactly under `ScatterGather.SpillExact`; otherwise it uses every free element and
  reports more than there was. A transaction that is not dropped adds up exactly if no fill did so
  (`RecvTransfer.OneTransaction`), which is a condition on its user pages and spill bytes: one if all pages are pinned
  (`SpillRounds.ExactIffSpillFits`), another if any number may be (`SpillGrants.ExactForAllGrantsIff`).
- `chnl_recv` moves `udata` by the offset at each transaction and never back (line 658), so later transactions of a call
  land at the sum of all offsets and lengths so far; `RecvTransfer.TransactionStart` and `RecvTransfer.EveryTransaction`
  say exactly when that is the right place and when it is inside the caller's buffer, and
  `RecvTransfer.SecondTransactionLeavesBuffer` gives a call for which it is not.
- If the address check (lines 640-644) and the capacity check (lines 647-650) both strike, the second sets `overflow` to
  0 and the transaction is forgotten (`RecvTransfer.SplitConserves`).
- A `TXN_LEN` that arrives while a mapping is live leaks it (`RecvTransfer.FreedExactlyOnceIff`), which also happens after
  a `TXN_DONE` if an `SG_BUF_READ` comes late (`RecvTransfer.LateBufferReadLeaks`).
- A signal that is pending when the last look at the queue before sleeping (line 606) finds a message ends the call, and
  the message is lost (`RecvPath.SignalLosesMessage`).
- `chnl_send_wrapcheck` refuses an empty transfer unless its address is NULL, although `chnl_send` has a branch for
  empty transfers (`SendTransfer.EmptyTransferRejected`).
- A pop can report "empty" while a message waits if two consumers race (`QueueWrap.SecondConsumerFalseEmpty`), and return
  a message twice if one of them sleeps for 2^32 messages (`QueueWrap.SleepingConsumerRepeatsMessage`); the busy flag
  keeps a second one out, except across a `reset()` during a transfer (`BusyFlag.ResetIsHarmlessIff`).
- An Intel HEX record without data leaves a stale address behind (`HexRecords.EmptyRecordMisplaces`). The line buffer
  holds records of at most 249 bytes: one of 250 is refused with -2, a longer one with -4 (`HexText.LongRecordIsCut`).
- A write request that stores fewer bytes than asked, without an error, counts as success, so the EEPROM loader can
  return 0 and have written nothing (`EepromLoad.ShortWritesGoUnnoticed`); the image is there whatever was there
  before exactly if no request after the first was cut short (`EepromExact.ImageIffUncut`), and the load is crash-safe
  exactly if the first request was not, and nothing between it and a stored type byte (`EepromShort.SafeIffUncut`).
  Images beyond 64 KiB are not refused (`EepromLoad.SucceedsIff`), and a load of one that returns 0 has left no
  bootable image and was not safe on the way (`EepromExact.SafeIffFits`).
- The two passes of a two-stage RAM load are not always the same as one (`RamLoad.TwoPassesAgreeIff`): an older byte can
  win over a newer one (`RamLoad.OlderByteStays`).
- An FX3 segment of 2^30 words, or a multiple, is taken for the run command (`Fx3Image.HugeSegmentIsLost`). A load that
  reports a failure may have sent the run command, repeatedly even: the failure can be that of the command itself
  (`Fx3Image.FailedLoadMayRun`). It never does so before the image is complete (`Fx3Image.RunsOnlyWhatIsComplete`).
- The docstring of `frames()` calls the stamp always right. The generation is that of the live session in every
  interleaving. The buffer is for the camera's settings, and equal stamps mean equal settings, if no SDK call of
  `_configure` raises (`LiveVideoFresh.SucceedingCallsFit`); the buffer always is exactly if no frame is asked for
  between a change that was rejected after a setting had taken effect and the next `_configure` that gets through
  (`LiveVideoFresh.BuffersFitIff`). Such a frame is `VideoBodies.RejectedSettingIsReached`; `_set` restores the old
  settings, which ends it (`VideoBodies.RestoringRecovers`).
- begin_live and stop_live alternate exactly if no start gets to begin_live with `_capturing` set and no stop gets to
  stop_live that found it unset (`LiveVideoTurns.AlternatesIff`). A stop of live mode that times out, followed by a new
  start, begins live mode twice (`LiveVideoActivation.TimedOutStopBeginsTwice`).

## Model

| member | source | states |
|---|---|---|
| QueueModel.RunConcat | lib/usr/local/riffa_linux_driver/circ_queue.c:88-144 | a schedule can be cut anywhere: the steps of push and pop depend on nothing but the shared state |
| QueueFifo.FullTestExact | lib/usr/local/riffa_linux_driver/circ_queue.c:93-98 | while the counts are in range, the full test on wrapped counters holds exactly when len - 1 messages wait |
| QueueFifo.FreeSlot | lib/usr/local/riffa_linux_driver/circ_queue.c:100-102 | the slot a push writes is never that of a waiting message |
| QueueFifo.ProducerStepKeepsInv | lib/usr/local/riffa_linux_driver/circ_queue.c:88-108 | each single action of a push keeps slots, counters and every consumer's snapshot consistent |
| QueueFifo.SwapSucceedsOnlyIfCurrent | lib/usr/local/riffa_linux_driver/circ_queue.c:129-136 | the compare-and-swap of a pop succeeds exactly when nobody has popped since it read readIndex, which is what makes a torn or overwritten read harmless |
| QueueFifo.ConsumerStepKeepsInv | lib/usr/local/riffa_linux_driver/circ_queue.c:110-144 | each single action of a pop keeps the invariant |
| QueueFifo.RunKeepsInv | lib/usr/local/riffa_linux_driver/circ_queue.c:88-144 | so does every interleaving of them |
| QueueFifo.FirstInFirstOut | lib/usr/local/riffa_linux_driver/circ_queue.c:88-144 | in every interleaving of one producer and any number of consumers the successful pops return a prefix of the successful pushes, whole and in order, and at most len - 1 messages wait |
| QueueFifo.EventsTell | lib/usr/local/riffa_linux_driver/circ_queue.c:88-144 | an action reports a push or a pop exactly if it makes one, with the message of the push under way; every report ends its call, and nothing else does |
| QueueFifo.FullReportIsTrue | lib/usr/local/riffa_linux_driver/circ_queue.c:93-98 | a push reports full if and only if len - 1 messages are outstanding when it reads readIndex |
| QueueFifo.EmptyReport | lib/usr/local/riffa_linux_driver/circ_queue.c:117-123 | a pop reports empty if and only if a multiple of len messages were pushed since its snapshot; that is the empty queue if nobody else popped in between |
| QueueFifo.SoleConsumerIsFresh | lib/usr/local/riffa_linux_driver/circ_queue.c:110-144 | with one consumer no snapshot ever goes stale, so the freshness condition holds in every schedule |
| QueueFifo.SoleConsumerEmptyIsTrue | lib/usr/local/riffa_linux_driver/circ_queue.c:117-123 | with one consumer a pop reports empty if and only if the queue is empty when it reads writeIndex |
| QueueWrap.PushRunsAtomicSteps | lib/usr/local/riffa_linux_driver/circ_queue.c:88-108 | an undisturbed push is the sequence of its atomic steps, and reports what the last of them does |
| QueueWrap.PopRunsAtomicSteps | lib/usr/local/riffa_linux_driver/circ_queue.c:110-144 | an undisturbed pop is the sequence of its atomic steps, and reports what the last of them does |
| QueueWrap.PushOutcome | lib/usr/local/riffa_linux_driver/circ_queue.c:88-108 | while the counts are in range an undisturbed push succeeds, and appends its message, if and only if fewer than len - 1 wait; it reports full, and changes nothing, if and only if len - 1 do |
| QueueWrap.PopOutcome | lib/usr/local/riffa_linux_driver/circ_queue.c:110-144 | while the counts are in range an undisturbed pop succeeds, and takes the oldest message, if and only if one waits; it reports empty, and changes nothing, if and only if none does |
| QueueWrap.PassThrough | lib/usr/local/riffa_linux_driver/circ_queue.c:88-144 | any number of messages below 2^32 can pass through any queue of two or more slots |
| QueueWrap.LosesAMessage | lib/usr/local/riffa_linux_driver/circ_queue.c:83-108 | for every length that does not divide 2^32 there is a schedule after which a pop returns a message that was not pushed at that place |
| QueueWrap.FifoForeverIffLengthDivides | lib/usr/local/riffa_linux_driver/circ_queue.c:83-144 | with one consumer, every schedule of any length is first-in first-out if and only if the length divides 2^32 |
| QueueWrap.DriverQueues | lib/usr/local/riffa_linux_driver/riffa_driver.c:1061-1084 | the 4 slots of the send queue are safe for ever, the 5 of the receive queue are not |
| QueueWrap.ReceiveQueueGetsStuck | lib/usr/local/riffa_linux_driver/riffa_driver.c:1061 | a receive queue drained after 2^32 - 1 messages says full to every push and empty to every pop, and neither changes it |
| QueueWrap.SecondConsumerFalseEmpty | lib/usr/local/riffa_linux_driver/circ_queue.c:117-123 | with a second consumer there is, for every length, a schedule in which a pop reports empty while a message waits |
| QueueWrap.SleepingConsumerRepeatsMessage | lib/usr/local/riffa_linux_driver/circ_queue.c:125-136 | for every length that divides 2^32 there is a schedule of two consumers in which one sleeps before its swap while 2^32 messages pass, and then returns a message again: the freshness FirstInFirstOut asks for is needed |
| CircQueue.Queue.constructor | lib/usr/local/riffa_linux_driver/circ_queue.c:49-78 | counters and cells start at zero |
| CircQueue.Queue.Push | lib/usr/local/riffa_linux_driver/circ_queue.c:88-108 | on the array, in place: 0 exactly when the message has been appended and 1 exactly when nothing has changed; while the counts are in range 1 means len - 1 messages wait. Result and state are those of the undisturbed push |
| CircQueue.Queue.SwapReadIndex | lib/usr/local/riffa_linux_driver/circ_queue.c:132 | the value before, and a change only if it was the expected one |
| CircQueue.Queue.Pop | lib/usr/local/riffa_linux_driver/circ_queue.c:110-144 | the retry loop ends: 0 exactly when the two words returned are those of the message taken, 1 exactly when nothing has changed; while the counts are in range 0 means that one waited, and it is the oldest. Result and state are those of the undisturbed pop |
| CircQueue.Queue.Empty | lib/usr/local/riffa_linux_driver/circ_queue.c:146-159 | 1 exactly when as many messages were popped as pushed, while the counts are in range |
| CircQueue.Queue.Full | lib/usr/local/riffa_linux_driver/circ_queue.c:161-173 | 1 exactly when len - 1 messages wait, while the counts are in range |
| BusyFlag.RunKeepsInv | lib/usr/local/riffa_linux_driver/riffa_driver.c:745-757 | if every reset() comes while nobody is inside, the flag is set exactly while some thread is inside, and never two are |
| BusyFlag.OneAtATime | lib/usr/local/riffa_linux_driver/riffa_driver.c:745-757 | in every interleaving whose resets come while nobody is inside, at most one thread is inside a transfer, and a thread gets -EBUSY if and only if another one is |
| BusyFlag.LeavingLetsNextIn | lib/usr/local/riffa_linux_driver/riffa_driver.c:754-757 | a thread that leaves the transfer clears the flag, and whichever waits outside gets in next |
| BusyFlag.ResetIsHarmlessIff | lib/usr/local/riffa_linux_driver/riffa_driver.c:982-990 | after a reset(), all continuations without another one keep at most one thread inside if and only if nobody was inside at the reset |
| BusyFlag.ResetLetsASecondIn | lib/usr/local/riffa_linux_driver/riffa_driver.c:982-990 | reset() clears the flag under a running transfer, and the next thread gets in beside it |
| ScatterGather.SegmentsTile | lib/usr/local/riffa_linux_driver/riffa_driver.c:437-484 | the user elements are non-empty, lie in one page each and tile the buffer from its start; they cover it all if and only if every spanned page was pinned |
| ScatterGather.SegmentsAligned | lib/usr/local/riffa_linux_driver/riffa_driver.c:488-494 | word-aligned buffers give word-aligned elements, so the shift to words loses nothing |
| ScatterGather.PagesLeft | lib/usr/local/riffa_linux_driver/riffa_driver.c:437-438 | a fill leaves exactly the spanned pages it has not mapped for the next ones |
| ScatterGather.SpillReport | lib/usr/local/riffa_linux_driver/riffa_driver.c:498-511 | with S free elements the reported overflow is min(overflow, 4096 S) if and only if overflow is below 4096, a multiple of 4096, or S is at most overflow / 4096; otherwise all S elements are used and 4096 S, more than the overflow, is reported |
| ScatterGather.FillUserPart | lib/usr/local/riffa_linux_driver/riffa_driver.c:435-516 | a fill fails or maps an initial part of the user buffer in page-bounded pieces: as many pages as the kernel pins, the buffer spans and the device has elements for, whichever is least, and at least one byte of a non-empty buffer |
| ScatterGather.FillSpillPart | lib/usr/local/riffa_linux_driver/riffa_driver.c:497-511 | spill elements appear only once all user bytes are mapped, never more than there are free elements |
| ScatterGather.ElementsFitBuffer | lib/usr/local/riffa_linux_driver/riffa_driver.c:1301-1302 | for every bus width the elements of a fill fit the common buffer |
| ScatterGather.BuildScatterlist | lib/usr/local/riffa_linux_driver/riffa_driver.c:476-484 | the loop over pinned pages, with the offset in the first one only, yields exactly the page-bounded pieces |
| ScatterGather.WriteUserElements | lib/usr/local/riffa_linux_driver/riffa_driver.c:488-494 | the loop writes address low, address high and word count of each element in place and leaves the rest of the buffer alone |
| ScatterGather.WriteSpillElements | lib/usr/local/riffa_linux_driver/riffa_driver.c:498-504 | the loop adds as many spill elements as the specification says, with its 64-bit remainder, and touches nothing else |
| ScatterGather.MapUserPages | lib/usr/local/riffa_linux_driver/riffa_driver.c:437-494 | the user pages are mapped unless none could be pinned |
| ScatterGather.FillSgBuf | lib/usr/local/riffa_linux_driver/riffa_driver.c:409-516 | the whole function: the mapping of the specification, and a common buffer that holds exactly its elements |
| ScatterGather.DeviceReadsBack | lib/usr/local/riffa_linux_driver/riffa_driver.c:488-501 | read as 64-bit addresses and word counts, the common buffer gives back the mapped user ranges in order, for word-aligned buffers, and then as many whole spill buffers as the mapping counts |
| Transfers.FreeBothKeeps | lib/usr/local/riffa_linux_driver/riffa_driver.c:609-612 | freeing both slots leaves every mapping freed exactly once, if none was lost |
| Transfers.AbandonKeeps | lib/usr/local/riffa_linux_driver/riffa_driver.c:660-661 | a return that frees nothing loses exactly what the slots held |
| Transfers.ShiftKeeps | lib/usr/local/riffa_linux_driver/riffa_driver.c:696-697 | moving the newer mapping to the older slot keeps every mapping in exactly one place |
| Transfers.OverwriteKeeps | lib/usr/local/riffa_linux_driver/riffa_driver.c:666 | overwriting a slot loses the mapping it held, and no other |
| Transfers.AnnounceKeeps | lib/usr/local/riffa_linux_driver/riffa_driver.c:668-670 | the three register writes after a fill give the device both halves of the buffer's address and, last, four times the number of elements of the new mapping |
| RecvTransfer.SplitUserPart | lib/usr/local/riffa_linux_driver/riffa_driver.c:633-655 | the user part is what of [offset, offset + length) lies in the caller's buffer, 0 if the address wraps, and never reaches past the end of the address space |
| RecvTransfer.SplitConserves | lib/usr/local/riffa_linux_driver/riffa_driver.c:633-655 | user part and spill part add up to the transaction if and only if not both checks strike |
| RecvTransfer.AdvanceProgress | lib/usr/local/riffa_linux_driver/riffa_driver.c:659-665 | a fill extends the tiling by what it maps and shortens length by exactly that |
| RecvTransfer.FillFails | lib/usr/local/riffa_linux_driver/riffa_driver.c:659-661 | a fill yields nothing if and only if user pages were needed and none could be pinned |
| RecvTransfer.StepKeepsInv | lib/usr/local/riffa_linux_driver/riffa_driver.c:602-725 | every message, time-out or signal keeps tiling, balances and the ledger of mappings |
| RecvTransfer.RunKeepsInv | lib/usr/local/riffa_linux_driver/riffa_driver.c:602-725 | so does every list of them: user ranges tile from the start of the transaction, received + held + remaining user bytes are constant until TXN_DONE, and mapped plus remaining spill bytes are those of the transaction plus 2^64 for each fill that reported too much |
| RecvTransfer.OffsetMessage | lib/usr/local/riffa_linux_driver/riffa_driver.c:627-631 | the message 2 * off + last announces a transaction off words into the buffer: the offset becomes 4 * off bytes, the flag last, and nothing else changes |
| RecvTransfer.RunAnnouncement | lib/usr/local/riffa_linux_driver/riffa_driver.c:627-631 | while a call runs, its offset is four times the word offset of the last TXN_OFFLAST, 0 without one, and its flag that message's low bit |
| RecvTransfer.OneTransaction | lib/usr/local/riffa_linux_driver/riffa_driver.c:602-725 | in a call with one TXN_LEN, at every later moment, with the offset announced by the last TXN_OFFLAST before it, four bytes to a word: the mapped user ranges tile the part of [bufp + offset, bufp + offset + length) inside the caller's buffer, in order and nowhere else; and mapped user + mapped spill + remaining length + remaining overflow equal the transaction if and only if no fill has reported too much spill space and not both checks struck |
| RecvTransfer.FillWrapsIff | lib/usr/local/riffa_linux_driver/riffa_driver.c:497-511 | a fill reports too much if and only if it maps the last user byte, or there is none, with an overflow and a number of free elements for which the spill loop is not exact |
| SpillRounds.FitsAfterFill | lib/usr/local/riffa_linux_driver/riffa_driver.c:497-511 | with all pages pinned, the closed form holds before a fill if and only if the fill reports no more than there is and the form holds after it |
| SpillRounds.FitsNeverWraps | lib/usr/local/riffa_linux_driver/riffa_driver.c:497-511 | where the closed form holds, no number of fills reports too much |
| SpillRounds.MisfitWraps | lib/usr/local/riffa_linux_driver/riffa_driver.c:497-511 | where it fails, some number of fills does |
| SpillRounds.ExactIffSpillFits | lib/usr/local/riffa_linux_driver/riffa_driver.c:633-700 | for any transaction of any call with all pages pinned: no fill reports too much, whatever messages follow, if and only if its overflow is below 4096, a multiple of 4096, or its whole units of 4096 bytes fill the elements behind the last user page and then some number of common buffers completely |
| SpillGrants.ExactForAllGrantsIff | lib/usr/local/riffa_linux_driver/riffa_driver.c:633-700 | for any transaction of any call: no fill reports too much, however few pages each gets pinned and whatever messages follow, if and only if its overflow is below 4096, a multiple of 4096, or there is at most one user page and the form for pinned pages holds |
| RecvTransfer.SpillOnlyFirstFill | lib/usr/local/riffa_linux_driver/riffa_driver.c:497-511 | for a transaction without user space the first fill accounts for every byte if and only if the spill loop is exact for its length; otherwise the remaining overflow wraps |
| RecvTransfer.SecondTransactionLeavesBuffer | lib/usr/local/riffa_linux_driver/riffa_driver.c:657-663 | after a first transaction that fills the buffer, a second one at the same offset is mapped entirely behind it |
| RecvTransfer.EveryTransaction | lib/usr/local/riffa_linux_driver/riffa_driver.c:633-700 | for every list of messages: what is mapped for the present transaction starts at bufp plus all offsets and all bytes mapped before, and lies inside the caller's buffer if and only if that distance plus its length is at most the capacity and the address does not wrap |
| RecvTransfer.TransactionStart | lib/usr/local/riffa_linux_driver/riffa_driver.c:657-663 | with the offset announced last, four bytes to a word: the distance of a transaction with something to map from bufp is what earlier ones moved plus that offset, and it starts at bufp + offset if and only if earlier ones moved the pointer by a multiple of 2^64 |
| RecvTransfer.LeaksIff | lib/usr/local/riffa_linux_driver/riffa_driver.c:657-666 | a mapping is lost if and only if some TXN_LEN with something to map finds one live |
| RecvTransfer.FreedExactlyOnceIff | lib/usr/local/riffa_linux_driver/riffa_driver.c:602-725 | when the call has returned, by whatever exit, every mapping was freed exactly once if and only if no TXN_LEN with something to map found a mapping still live |
| RecvTransfer.LostAreNotFreed | lib/usr/local/riffa_linux_driver/riffa_driver.c:602-725 | a finished call holds no mapping, and what it lost it never freed |
| RecvTransfer.LateBufferReadLeaks | lib/usr/local/riffa_linux_driver/riffa_driver.c:675-719 | a list of messages with a TXN_DONE between its two TXN_LENs that leaks all the same, because an SG_BUF_READ comes after the TXN_DONE |
| RecvOutcome.CallEnds | lib/usr/local/riffa_linux_driver/riffa_driver.c:600-728 | when and with what a call returns, for every list of wake-ups: TXN_DONE ends it if and only if its transaction was announced as the last, with the count in the message; a time-out with the words received; a fill without a page, for user bytes, with 0 in a TXN_LEN and the words received in an SG_BUF_READ; a signal with -ERESTARTSYS; nothing else does |
| RecvOutcome.RunReceives | lib/usr/local/riffa_linux_driver/riffa_driver.c:636-710 | what a call has received: nothing since a TXN_LEN, the count of a TXN_DONE, and the older mapping with each SG_BUF_READ, once an offset is known |
| RecvOutcome.CountReturned | lib/usr/local/riffa_linux_driver/riffa_driver.c:616-620 | a count that has been returned, by whatever exit, is that of the bytes received |
| RecvOutcome.ReceivedOf | lib/usr/local/riffa_linux_driver/riffa_driver.c:633-703 | in a transaction that found nothing mapped, until its TXN_DONE: what has been received is its part for the user buffer less what is held in the two mappings and what is still to map |
| RecvOutcome.ReceivedInWords | lib/usr/local/riffa_linux_driver/riffa_driver.c:616-620 | for an aligned buffer of whole words that is a whole number of words, so the count returned loses nothing |
| RecvOutcome.EveryMappingTold | lib/usr/local/riffa_linux_driver/riffa_driver.c:668-700 | at every moment of every call the device has been told, in registers 6, 7 and 5, of every mapping made, in order, and of the elements of those live |
| RecvTransfer.RecvChannel.MapMore | lib/usr/local/riffa_linux_driver/riffa_driver.c:684-700 | fill, advance and announce: position, registers and common buffer as specified |
| RecvTransfer.RecvChannel.Divide | lib/usr/local/riffa_linux_driver/riffa_driver.c:635-655 | the two checks, in the code's order and its 64-bit arithmetic, compute the specified split |
| RecvTransfer.RecvChannel.TxnLen | lib/usr/local/riffa_linux_driver/riffa_driver.c:633-673 | the handling of TXN_LEN on locals and channel is the specified step |
| RecvTransfer.RecvChannel.SgBufRead | lib/usr/local/riffa_linux_driver/riffa_driver.c:675-703 | the handling of SG_BUF_READ on locals and channel is the specified step |
| RecvTransfer.RecvChannel.OnMessage | lib/usr/local/riffa_linux_driver/riffa_driver.c:625-724 | the switch over the five kinds of message, unknown ones included, is the specified step; a TXN_OFFLAST leaves the offset in bytes and the flag whose word it is, and a TXN_DONE of the last transaction returns its count |
| RecvTransfer.RecvChannel.Recv | lib/usr/local/riffa_linux_driver/riffa_driver.c:573-728 | the message loop ends in the state of the specified run over its wake-ups: result, registers, slots and ledger, of which OneTransaction, EveryTransaction, FreedExactlyOnceIff, CallEnds and EveryMappingTold speak |
| SendTransfer.AdvanceMapped | lib/usr/local/riffa_linux_driver/riffa_driver.c:810-813 | a fill extends the mapped prefix of the buffer by what it maps, one element to a piece, at the cost of one fill per page at most |
| SendTransfer.StepKeepsInv | lib/usr/local/riffa_linux_driver/riffa_driver.c:822-887 | every message, time-out or signal keeps the invariant |
| SendTransfer.EveryRun | lib/usr/local/riffa_linux_driver/riffa_driver.c:771-890 | in every run the mapped ranges tile the buffer from its start up to udata; until the return sent + both mappings + length is 4 len; one mapping is made by each fill, and never more than pages are spanned; on every exit each mapping was freed exactly once, and a count returned is that of the bytes sent |
| SendTransfer.FillFails | lib/usr/local/riffa_linux_driver/riffa_driver.c:855-860 | a fill of a non-empty rest yields nothing if and only if no page could be pinned |
| SendTransfer.CallEnds | lib/usr/local/riffa_linux_driver/riffa_driver.c:794-890 | when and with what a call returns: at once with 0 if it is empty or no page can be pinned; later with the count of a TXN_DONE, with n for which 4 n is 4 len less what is held and still to map for a time-out, or less what the newer mapping holds and is still to map for an SG_BUF_READ without a page, with -ERESTARTSYS for a signal; and for nothing else |
| SendTransfer.OffLastReadsBack | lib/usr/local/riffa_linux_driver/riffa_driver.c:800 | the announcement, split as the receiving side splits it, gives offset and flag back if and only if they fit 31 bits and one |
| SendTransfer.EveryMappingTold | lib/usr/local/riffa_linux_driver/riffa_driver.c:800-868 | at every moment of every call the device has been told of offset and flag in register 4, of the length in register 3, and in registers 1, 2 and 0 of every mapping made, in order, and of the elements of those live |
| Arith.BitOrIsBitwise | lib/usr/local/riffa_linux_driver/riffa_driver.c:800 | the or of two words has the bits of either |
| SendTransfer.CheckAccepts | lib/usr/local/riffa_linux_driver/riffa_driver.c:901-914 | a call is answered with 0 if and only if the device has no such channel; on a channel a non-empty transfer is accepted if and only if it is aligned and ends within the address space |
| SendTransfer.EmptyTransferRejected | lib/usr/local/riffa_linux_driver/riffa_driver.c:905-910 | an empty transfer is accepted if and only if its address is NULL |
| SendTransfer.SendChannel.MapMore | lib/usr/local/riffa_linux_driver/riffa_driver.c:854-869 | fill, advance and announce: position, registers and common buffer as specified |
| SendTransfer.SendChannel.Begin | lib/usr/local/riffa_linux_driver/riffa_driver.c:794-818 | the announcement and the first fill leave the specified start state |
| SendTransfer.SendChannel.SgBufRead | lib/usr/local/riffa_linux_driver/riffa_driver.c:847-871 | the handling of SG_BUF_READ is the specified step |
| SendTransfer.SendChannel.Send | lib/usr/local/riffa_linux_driver/riffa_driver.c:771-890 | the message loop ends in the state of the specified run: result, registers, slots and ledger, of which EveryRun, CallEnds and EveryMappingTold speak |
| SendTransfer.SendChannel.SendChecked | lib/usr/local/riffa_linux_driver/riffa_driver.c:892-928 | refusals in the code's order, without any change; otherwise the busy flag is taken for the time of the call and released with its result, which is the one CallEnds describes |
| Interrupts.PushAllInRange | lib/usr/local/riffa_linux_driver/riffa_driver.c:293-329 | while the counters are in range exactly the messages that fit are queued, behind those waiting |
| Interrupts.RecvEventsOfBits | lib/usr/local/riffa_linux_driver/riffa_driver.c:293-329 | each of a channel's three receive bits raises exactly its own messages and nothing else, at most 4, in the order SG_READ, DONE, OFFLAST, LEN |
| Interrupts.SendEventsOfBits | lib/usr/local/riffa_linux_driver/riffa_driver.c:331-351 | each of a channel's two send bits raises exactly its own message and nothing else, at most 2, SG_READ first |
| Interrupts.BitsOfVector | lib/usr/local/riffa_linux_driver/riffa_driver.c:284-351 | a vector has exactly the bits it is made of |
| Interrupts.VectorServes | lib/usr/local/riffa_linux_driver/riffa_driver.c:258-359 | while the counters are in range, a vector whose bits 30 and 31 are clear puts the receive events of each of its six channels behind those waiting in its receive queue and the send events in its send queue, as many as fit, and wakes each side once if one of its bits is set; any other vector or channel is left alone |
| Interrupts.NothingDropped | lib/usr/local/riffa_linux_driver/riffa_driver.c:258-359 | one interrupt on drained queues of any age, whatever the vector: the send queue takes all its messages; the receive queue takes all of them if and only if there are none or its counters are not at 2^32 - 1 |
| Interrupts.DrainedTakesIff | lib/usr/local/riffa_linux_driver/riffa_driver.c:293-329 | the same for any at most four messages pushed to a receive queue whose counters are equal, however often they have wrapped |
| Interrupts.DeafReceiveQueue | lib/usr/local/riffa_linux_driver/riffa_driver.c:258-359 | there is a reachable, drained receive queue that loses every message of every later interrupt |
| Interrupts.Fpga.ServeRecv | lib/usr/local/riffa_linux_driver/riffa_driver.c:293-329 | the three tests push exactly the listed events and ask for a wake-up if there are any |
| Interrupts.Fpga.ServeSend | lib/usr/local/riffa_linux_driver/riffa_driver.c:331-351 | the two tests push exactly the listed events and ask for a wake-up if there are any |
| Interrupts.Fpga.ServeChannel | lib/usr/local/riffa_linux_driver/riffa_driver.c:270-356 | both sides of one channel: its queues and wake-ups as specified, no other channel touched |
| Interrupts.Fpga.ProcessIntrVector | lib/usr/local/riffa_linux_driver/riffa_driver.c:258-359 | each channel of the vector gets its own five bits, all others and all of a bad vector's channels are left alone |
| Interrupts.Fpga.Interrupt | lib/usr/local/riffa_linux_driver/riffa_driver.c:366-394 | channels 0-5 follow the first vector, 6-11 the second, none while interrupts are disabled |
| RecvPath.LostIff | lib/usr/local/riffa_linux_driver/riffa_driver.c:293-329 | within the first 2^32 - 1 messages a push is lost if and only if four messages wait at that moment |
| RecvPath.ProcessesWhatWasRaised | lib/usr/local/riffa_linux_driver/riffa_driver.c:600-626 | in every interleaving of the handler's pushes with the pops, waits, time-outs, signals and message handling of one call of chnl_recv, within the first 2^32 - 1 messages: the transfer has processed a prefix of the queued messages, in order and nothing else; left behind are the at most four that wait, and one that was popped if a signal ended the call right then; and none of those raised is missing if and only if no push found four waiting |
| RecvPath.SignalLosesMessage | lib/usr/local/riffa_linux_driver/riffa_driver.c:602-612 | a call that finds its first message at the last look before sleeping, with a signal pending, returns -ERESTARTSYS and the message is gone |
| RecvPath.WakeEnds | lib/usr/local/riffa_linux_driver/riffa_driver.c:609-619 | a time-out or a signal ends a call that waits, with the count so far or -ERESTARTSYS, and leaves the queue alone; it does nothing to one that is popping a message |
| HexRecords.DataMeaning | lib/usr/local/fx3load/ezusb.c:423-446 | after one data record everything gathered is still what the records said if and only if the record was not misplaced |
| HexRecords.RunKeepsInv | lib/usr/local/fx3load/ezusb.c:349-447 | the buffer never exceeds 1023 bytes and no chunk is empty |
| HexRecords.RunMeaning | lib/usr/local/fx3load/ezusb.c:349-447 | over any list of lines: what was flushed and gathered equals what the records say if and only if no empty record misplaced its successor |
| HexRecords.ChunkSizes | lib/usr/local/fx3load/ezusb.c:426-456 | every poke carries 1 to 1023 bytes, however the file ends |
| HexRecords.MergingPreservesMeaning | lib/usr/local/fx3load/ezusb.c:349-458 | for a file that parses, the pokes flattened to single-byte writes are the records' writes in the records' order, nothing left unflushed, if and only if the records are anchored |
| HexRecords.NonEmptyIsAnchored | lib/usr/local/fx3load/ezusb.c:426-437 | files whose data records are not empty are always anchored |
| HexRecords.EmptyRecordMisplaces | lib/usr/local/fx3load/ezusb.c:390-394 | a first record without data sends the next one to the wrong address |
| HexRecords.FirstBadLineDecides | lib/usr/local/fx3load/ezusb.c:355-458 | the first line that is neither a comment nor a data record decides: an end-of-file record, like the end of the file, hands over what is gathered and gives 0; a line that is no record gives -2, an unsupported type -3, a short record -4, and then nothing more is handed over |
| HexText.TakesOneLine | lib/usr/local/fx3load/ezusb.c:355 | fgets takes a line that fits, through its newline and no further |
| HexText.ReadsBackRecord | lib/usr/local/fx3load/ezusb.c:378-445 | length, address, type and every byte of a rendered data record are read back, for all 16-bit addresses and all bytes |
| HexText.RecordSays | lib/usr/local/fx3load/ezusb.c:378-445 | for every length, address and type: type 1 ends the file, any other but 0 is unsupported, too few digits for the length make a short record, and otherwise the digits are the data; the newline does not matter |
| HexText.DigitValues | lib/usr/local/fx3load/ezusb.c:378-445 | hexadecimal digits of either case have their value |
| HexText.NulLeavesOpen | lib/usr/local/fx3load/ezusb.c:370-378 | a record with a NUL in it, which ends a C string before its line does, is left open |
| HexText.ReadsBackFile | lib/usr/local/fx3load/ezusb.c:355-407 | a rendered file is cut and read back as its comments, its records and the end-of-file record |
| HexText.TextRoundTrip | lib/usr/local/fx3load/ezusb.c:324-459 | text round trip: any comments and non-empty records that fit the line buffer, plus the end-of-file record, give 0 and exactly the records' bytes at the records' addresses |
| HexText.TextMeaning | lib/usr/local/fx3load/ezusb.c:349-458 | for every text, written by whomever, that parses with 0 and has no NUL in a record: the pokes flattened to single-byte writes are those of its lines, in order, if and only if no empty record misplaces its successor |
| HexText.RunVerdict | lib/usr/local/fx3load/ezusb.c:349-368 | reading a file of records of up to 255 bytes ends with the code of its first record that does not fit: -2 for 250 bytes, -4 for more |
| HexText.LongRecordIsCut | lib/usr/local/fx3load/ezusb.c:350-368 | a file of records of up to 255 bytes is accepted if and only if every record has at most 249 bytes; otherwise the return code is that of the first longer one, -2 or -4 |
| Chips.ExternalIff | lib/usr/local/fx3load/ezusb.c:75-126 | a block is external if and only if some byte of it is not in on-chip memory, or, if it is empty, its address is not |
| Loader.DeliverConcat | lib/usr/local/fx3load/ezusb.c:426-437 | pokes happen in order up to the first failure |
| Loader.FailureDecides | lib/usr/local/fx3load/ezusb.c:432-434 | once a poke has failed, nothing that follows in the file changes what the device got |
| Loader.Programmer.RamPokeCall | lib/usr/local/fx3load/ezusb.c:567-625 | the retry loop: result, memory and number of requests as specified, for every pattern of time-outs |
| Loader.Programmer.EepromPokeCall | lib/usr/local/fx3load/ezusb.c:785-834 | header, data and next free address as specified, for every pattern of failures |
| Loader.Programmer.Append | lib/usr/local/fx3load/ezusb.c:439-446 | the bytes are appended to the buffer in place |
| Loader.Programmer.FlushBuffer | lib/usr/local/fx3load/ezusb.c:426-437 | a flush pokes the next chunk of the specification |
| Loader.Programmer.ParseIhex | lib/usr/local/fx3load/ezusb.c:324-459 | the record loop with its buffer pokes exactly the specified chunks, up to the first failure, and returns the specified code |
| RamLoad.RetryStores | lib/usr/local/fx3load/ezusb.c:612-624 | a write reported as successful has stored the whole block, however often it was repeated |
| RamLoad.RetryIsBounded | lib/usr/local/fx3load/ezusb.c:612-624 | at least one and at most six requests are made per block |
| RamLoad.RetrySucceedsIff | lib/usr/local/fx3load/ezusb.c:612-624 | a write is reported as successful if and only if up to five requests time out and the next one is good, and it is made with no more requests than that |
| RamLoad.PokeByMode | lib/usr/local/fx3load/ezusb.c:578-605 | a block is refused with -EINVAL if and only if it is external in a one-stage load; the pass that leaves it to the other makes no request and reports 0; otherwise the requests decide |
| RamLoad.ChunksApplyWrites | lib/usr/local/fx3load/ezusb.c:432 | writing chunks is writing their bytes one after the other |
| RamLoad.DeliverPass | lib/usr/local/fx3load/ezusb.c:735-742 | a pass that succeeds has written exactly the chunks it does not skip, whole and in order |
| RamLoad.PassesPartition | lib/usr/local/fx3load/ezusb.c:578-605 | the two passes share the chunks out: each is kept by exactly one, none twice |
| RamLoad.TwoPassesEqualOne | lib/usr/local/fx3load/ezusb.c:735-761 | external chunks first and on-chip chunks second give the memory of one pass, if at every address that an on-chip chunk covers the last chunk to cover it is on-chip |
| RamLoad.ByteKept | lib/usr/local/fx3load/ezusb.c:578-605 | what the two passes leave at an address: the on-chip pass decides if any on-chip chunk covers it; its byte is that of the whole list if the last cover is on-chip, and the external pass has that byte otherwise |
| RamLoad.TwoPassesAgreeIff | lib/usr/local/fx3load/ezusb.c:735-761 | for given addresses and lengths two passes give the memory of one for all contents if and only if at every address that an on-chip chunk covers the last chunk to cover it is on-chip |
| RamLoad.WrittenOnceDisjoint | lib/usr/local/fx3load/ezusb.c:426-437 | chunks of an image that writes no address twice are pairwise disjoint |
| RamLoad.FirstStageLoad | lib/usr/local/fx3load/ezusb.c:718-771 | a first-stage load that returns 0: memory is the image, every byte of it is on-chip, all was written with the CPU stopped, and the CPU runs |
| RamLoad.FailedLoadStaysStopped | lib/usr/local/fx3load/ezusb.c:718-771 | a one-stage load that does not return 0 has left the CPU as it was if the byte to stop it did not arrive, and else stopped, unless the very last request started it and was reported as failed |
| RamLoad.FailureEndsLoad | lib/usr/local/fx3load/ezusb.c:718-771 | if short writes are reported, a load of a file that parses, with no external chunk in one stage, returns 0, or -1 with the request that failed for good as the last one it made |
| RamLoad.TwoStageLoad | lib/usr/local/fx3load/ezusb.c:718-771 | a two-stage load that returns 0: external chunks were written first, on-chip chunks then with the CPU stopped, each chunk exactly once; memory is that of the two passes, and the image of the file whenever on-chip chunks have the last word |
| RamLoad.OlderByteStays | lib/usr/local/fx3load/ezusb.c:718-771 | a file of two overlapping records for which a two-stage load returns 0 and leaves the first record's byte where the second has another |
| RamLoad.LoadsIff | lib/usr/local/fx3load/ezusb.c:718-771 | if every request stores everything, a load returns 0 if and only if the file parses and, in one stage, no chunk is external |
| RamLoad.TextToMemory | lib/usr/local/fx3load/ezusb.c:686-772 | a rendered file of non-empty records that writes no address twice is in memory after either load that returns 0 |
| RamLoad.CpucsCall | lib/usr/local/fx3load/ezusb.c:270-294 | only a request that stored its byte and was not reported as failed counts |
| RamLoad.CpucsObeys | lib/usr/local/fx3load/ezusb.c:270-294 | one request, which reports success only if the CPU is now as asked; the CPU changes exactly if the byte arrives |
| RamLoad.LoadRamCall | lib/usr/local/fx3load/ezusb.c:686-772 | the method: state and return code are the specified ones, for both stages and every failure |
| EepromLoad.LayoutConcat | lib/usr/local/fx3load/ezusb.c:812-831 | segments follow each other without gaps |
| EepromLoad.HeaderFields | lib/usr/local/fx3load/ezusb.c:812-818 | length, address and the last flag can be read back from a header |
| EepromLoad.DecodeLayout | lib/usr/local/fx3load/ezusb.c:785-834 | round trip: a boot loader that reads headers and payloads from the chain recovers exactly the segments in order and then the flagged record |
| EepromLoad.PokeWritesSegment | lib/usr/local/fx3load/ezusb.c:785-834 | a poke writes its segment at the next free address and nothing else; a failed one has written nothing elsewhere either, and all the while cell 0 stays 0 |
| EepromLoad.DeliverWrites | lib/usr/local/fx3load/ezusb.c:938-945 | while the image is written the EEPROM stays unbootable whatever fails; if nothing did, the chain holds the image |
| EepromLoad.TypeByteDecides | lib/usr/local/fx3load/ezusb.c:974-978 | the last request leaves the EEPROM unbootable or ready to boot, even if it fails half-way |
| EepromLoad.CompleteIsSafe | lib/usr/local/fx3load/ezusb.c:947-984 | the same for the reset record, the config byte, the reserved byte and the type byte |
| EepromLoad.CrashSafe | lib/usr/local/fx3load/ezusb.c:929-984 | crash safety: in every state after every request, whichever fails and whatever a failed one stored, cell 0 is 0 or config, reserved byte and complete flagged chain are in place; the only exception is a first request that failed, changed nothing and ended the load. A load that returns 0 has put the complete image there |
| EepromLoad.BootableCells | lib/usr/local/fx3load/ezusb.c:867-925 | what an EEPROM that is ready to boot holds, cell by cell: 0xB2, 0xB6 or 0xC2 in cell 0; in cell 7, but for the AN21xx, the bits of the configuration that 0x07 (FX) or 0x4f (FX2) lets through; 0 in cell 8 of an FX; and from cell 7, 9 or 8 on the chain that ends with the reset record for 0x7f92 or 0xe600 |
| Arith.BitAndIsBitwise | lib/usr/local/fx3load/ezusb.c:879-907 | the and of two words has the bits of both |
| EepromLoad.BootLoadsImage | lib/usr/local/fx3load/ezusb.c:844-985 | after a load that returns 0 the chip boots into the records' bytes at the records' addresses, then 0 in CPUCS |
| EepromLoad.SucceedsIff | lib/usr/local/fx3load/ezusb.c:844-985 | if no request is reported as failed, the load returns 0 if and only if the EEPROM is large, the file parses and no chunk is external |
| EepromLoad.ShortWritesGoUnnoticed | lib/usr/local/fx3load/ezusb.c:929-984 | a device that stores nothing but returns no error gets result 0 and an unchanged EEPROM |
| EepromLoad.TextToBoot | lib/usr/local/fx3load/ezusb.c:844-985 | from text to booted chip: a rendered file, loaded with result 0, is what the chip boots into |
| EepromLoad.LoadEepromCall | lib/usr/local/fx3load/ezusb.c:844-985 | the method: EEPROM, history and return code are the specified ones, for every chip and every failure |
| EepromExact.BootableFits | lib/usr/local/fx3load/ezusb.c:785-834 | an EEPROM that boots the complete chain has room for it within 64 KiB, all cells known |
| EepromExact.SafeIffFits | lib/usr/local/fx3load/ezusb.c:844-985 | a load that returns 0 on a device that reports short writes has left the complete image if and only if the chain ends within 64 KiB, and has passed through safe states only if and only if it does |
| EepromExact.SafeOnEveryDeviceIff | lib/usr/local/fx3load/ezusb.c:844-985 | a file the loader accepts is loaded safely by every device that reports short writes if and only if it fits |
| EepromExact.WholeImage | lib/usr/local/fx3load/ezusb.c:929-984 | if no request after the first was cut short, a load that returns 0 has left the complete image |
| EepromExact.LoadedOver | lib/usr/local/fx3load/ezusb.c:844-985 | result and cuts of a load do not depend on what the EEPROM held, and where it stores nothing the old bytes stay |
| EepromExact.BootableOver | lib/usr/local/fx3load/ezusb.c:785-834 | what boots the image over a background of zeros and over one of ones boots it on its own: old bytes cannot stand in for missing ones in both |
| EepromExact.FilledLoad | lib/usr/local/fx3load/ezusb.c:929-984 | if a request after the first was cut short, a load that returns 0 leaves an EEPROM that was filled with zeros, or one that was filled with ones, without the complete image |
| EepromExact.ImageIffUncut | lib/usr/local/fx3load/ezusb.c:929-984 | a load that returns 0 has left the complete image whatever all 64 KiB held before if and only if no request after the first was cut short without an error |
| EepromShort.ToTypeQuiet | lib/usr/local/fx3load/ezusb.c:929-973 | if the mark is stored, every state up to the type byte is unbootable, whatever is cut short or fails |
| EepromShort.UncutIsSafe | lib/usr/local/fx3load/ezusb.c:929-984 | if nothing between mark and stored type byte was cut short, the last state boots the complete image, whatever it reports |
| EepromShort.CutIsUnsafe | lib/usr/local/fx3load/ezusb.c:929-984 | if something was, a load into an EEPROM of zeros or one of ones passes through an unsafe state |
| EepromShort.SafeIffUncut | lib/usr/local/fx3load/ezusb.c:844-985 | for every device, short writes included, and every outcome: whatever all 64 KiB held before, every state is unbootable or complete if and only if the mark is stored and, if the type byte is stored, no request between them was cut short |
| Fx3Image.SegmentMeaning | lib/usr/local/fx3load/ezusb.c:522-536 | the chunks of a segment carry its bytes to consecutive addresses modulo 2^32; of a cut-off segment, as many whole buffers as there are |
| Fx3Image.SegmentShape | lib/usr/local/fx3load/ezusb.c:518-536 | only a segment without bytes gives an empty poke, and it gives one |
| Fx3Image.PokesAreTheImage | lib/usr/local/fx3load/ezusb.c:475-544 | for every file: the pokes carry the image's bytes to the addresses in its headers, in order; none exceeds 4096 bytes; an empty poke is made if and only if the file was read without error, once and last |
| Fx3Image.RunCommandIff | lib/usr/local/fx3load/ezusb.c:512-520 | a segment is the run command if and only if its word count is a multiple of 2^30 |
| Fx3Image.HugeSegmentIsLost | lib/usr/local/fx3load/ezusb.c:512-539 | such a first segment ends the image with success and nothing of it is read |
| Fx3Image.ImageRoundTrip | lib/usr/local/fx3load/ezusb.c:475-544 | round trip: any segments of whole words that do not wrap, rendered as an image, are poked byte for byte at their addresses, followed by the run command at the entry address |
| Fx3Image.DeliverPrefix | lib/usr/local/fx3load/ezusb.c:532-536 | a prefix of the pokes succeeds, all of them if and only if the result is 0 |
| Fx3Image.RunsOnlyWhatIsComplete | lib/usr/local/fx3load/ezusb.c:635-670 | the run command is sent if and only if the file was read to its end and every block before the command was written; then the whole image is in memory and only repetitions of the command follow; and the load returns 0 if and only if the command was also reported as successful |
| Fx3Image.FailedLoadMayRun | lib/usr/local/fx3load/ezusb.c:608-670 | an image that starts with the run command, and a request for it that fails without a time-out: the load returns an error and the command has been sent |
| Fx3Image.RefusedUntouched | lib/usr/local/fx3load/ezusb.c:475-643 | a two-stage load, and a file that is too short or without signature or format byte, gives -1 and no request is made |
| Fx3Image.ImageReachesMemory | lib/usr/local/fx3load/ezusb.c:635-670 | a rendered image that loads with result 0 is in memory, and its entry address was the last request |
| Fx3Image.BufferNext | lib/usr/local/fx3load/ezusb.c:522-536 | one turn of the inner loop |
| Fx3Image.ParseImg | lib/usr/local/fx3load/ezusb.c:475-544 | the two nested loops end, with the device and the return code of the specification, for every file and every failure |
| LiveVideoSafety.InsideKeepsOk | pyobs_qhyccd/qhyccdvideo.py:207-322 | each step of a locked function establishes what its next one relies on |
| LiveVideoSafety.WorkKeepsInv | pyobs_qhyccd/blocking.py:50-57 | a worker thread, entering, inside or leaving the lock, keeps the invariant of the whole system |
| LiveVideoSafety.WriteRaisesKeepsInv | pyobs_qhyccd/qhyccdvideo.py:246-252 | so does an SDK call of _configure that raises, with or without effect: live mode comes back all the same |
| LiveVideoSafety.ReadKeepsInv | pyobs_qhyccd/qhyccdvideo.py:290-317 | so does every step of a reader thread (LiveVideoReaders says where such a step goes) |
| LiveVideoReaders.ReaderGoesOnIff | pyobs_qhyccd/qhyccdvideo.py:290-301 | a reader begins a turn if and only if its stop event is not set; goes for the lock if and only if no setter waits or the event is set; and inside fetches a frame if and only if driver, buffer and _capturing are there, and else ends |
| LiveVideoReaders.ReadRunsAlone | pyobs_qhyccd/qhyccdvideo.py:290-317 | a reader that is not disturbed takes one turn of its loop as the method does in one go, and is back at the top; or it ends without a call |
| LiveVideoReaders.StopEndsReader | pyobs_qhyccd/qhyccdvideo.py:336-337 | from the moment its stop event is set, whatever happens around it, a reader asks for at most the one frame whose fetch is already under way and hands over at most that one |
| LiveVideoReaders.EndingReaderFetchesAtMostOnce | pyobs_qhyccd/qhyccdvideo.py:290-317 | the same for every reader whose event is set, and for one that has found the camera stopped: none if it is between two frames |
| LiveVideoReaders.StoppedReaderEnds | pyobs_qhyccd/qhyccdvideo.py:291 | a stopped reader at the top of its loop stays there or is done, and is done as soon as it takes a step |
| LiveVideoReaders.ReaderWaitsForSetter | pyobs_qhyccd/qhyccdvideo.py:293-294 | while settings are pending, a reader that is not stopped stays before the lock and fetches nothing, however often it looks |
| LiveVideoReaders.PendingHoldsReaders | pyobs_qhyccd/qhyccdvideo.py:254-294 | setting the flag holds readers there, clearing it lets them go for the lock |
| LiveVideoReaders.RaisesIff | pyobs_qhyccd/qhyccdvideo.py:242-322 | a start raises if and only if it finds _driver dropped, a stop if and only if _driver goes between its two looks, settings if and only if an SDK call raised, closing never |
| LiveVideoReaders.ClosedIsOff | pyobs_qhyccd/qhyccdvideo.py:186-193 | a closed camera is not in live mode, in every interleaving |
| LiveVideoSafety.RunKeepsInv | pyobs_qhyccd/qhyccdvideo.py:186-342 | so does every interleaving, with any number of workers and readers, timed-out ones included |
| LiveVideoSafety.EveryRunIsSafe | pyobs_qhyccd/qhyccdvideo.py:207-342 | in every interleaving no call reaches the camera after it was closed, settings are written only while live mode is off, frames are fetched only while it is on, and each frame carries the generation its live session began with, never an older one than its predecessor |
| LiveVideoSafety.StampsNameSettings | pyobs_qhyccd/qhyccdvideo.py:207-317 | in every interleaving, raising calls included: a frame is fetched into a buffer allocated for the camera's present settings if and only if these are not stale, and of two frames with the same stamp, one of them not stale, the other has the same settings if and only if it is not stale either |
| LiveVideoSafety.StaleIff | pyobs_qhyccd/qhyccdvideo.py:207-230 | stale means: some setting took effect after the last time the buffer size was read from the camera, or before the first |
| LiveVideoFresh.RejectedMeans | pyobs_qhyccd/qhyccdvideo.py:242-252 | Rejected: some SDK call of _configure raised after a setting had taken effect, and no _configure has got through since |
| LiveVideoFresh.StaleIffRejected | pyobs_qhyccd/qhyccdvideo.py:207-252 | in every interleaving the camera's settings differ from the measured ones if and only if a _configure is between its first setting and its allocation, or a change is Rejected |
| LiveVideoFresh.FetchFitsIff | pyobs_qhyccd/qhyccdvideo.py:297-308 | a frame is fetched into a buffer for the camera's present settings if and only if no change is Rejected at that step |
| LiveVideoFresh.BuffersFitIff | pyobs_qhyccd/qhyccdvideo.py:207-317 | in every interleaving all frames are fetched into buffers for the camera's settings if and only if none is asked for while a change is Rejected, and then equal stamps mean equal settings |
| LiveVideoFresh.SucceedingCallsFit | pyobs_qhyccd/qhyccdvideo.py:207-317 | if no SDK call of _configure raises, every frame is fetched into a buffer for the camera's present settings, and equal stamps mean equal settings |
| LiveVideoSafety.ClosedForGood | pyobs_qhyccd/qhyccdvideo.py:186-193 | after the camera is closed the log of calls never grows again |
| LiveVideoActivation.StepKeepsAct | pyobs_qhyccd/qhyccdvideo.py:278-342 | the coroutine's own protocol: _capturing is set exactly between the end of a start and the beginning of a stop |
| LiveVideoTurns.StepTurnsIff | pyobs_qhyccd/qhyccdvideo.py:278-322 | a step keeps begin_live and stop_live alternating if and only if it is not a begin_live with _capturing set, nor the stop_live of a stop that found it unset |
| LiveVideoTurns.AlternatesIff | pyobs_qhyccd/qhyccdvideo.py:278-343 | in every interleaving, time-outs and raising calls included, begin_live and stop_live alternate if and only if no such step occurs |
| LiveVideoActivation.BeginAndStopAlternate | pyobs_qhyccd/qhyccdvideo.py:278-342 | so they alternate if every start and stop is awaited to its end, whatever else interleaves |
| LiveVideoActivation.TimedOutStopBeginsTwice | pyobs_qhyccd/qhyccdvideo.py:336-343 | from every streaming state, a stop that times out and a new start begin live mode twice |
| LiveVideoActivation.RejectedSettingKeepsOldBuffer | pyobs_qhyccd/qhyccdvideo.py:246-252 | from every streaming state whose buffer fits, with a reader about to read: a settings call that takes effect but raises leads to a frame fetched into the old buffer and stamped with the old generation |
| VideoBodies.ApplySettles | pyobs_qhyccd/qhyccdvideo.py:207-252 | after settings were applied live mode is as before and its session has the present generation; if nothing raised, all settings took effect, and buffer, camera and a new generation belong together; if something did, exactly the settings before it took effect, and it itself if it is one that did; buffer and generation are the old ones and the settings are stale if and only if they were or one took effect |
| VideoBodies.RestoringRecovers | pyobs_qhyccd/qhyccdvideo.py:360-367 | after a rejected change, the restoring attempt makes buffer, camera and generation belong together again, if it succeeds |
| VideoBodies.StopUndoesStart | pyobs_qhyccd/qhyccdvideo.py:278-322 | stopping undoes starting: the camera is as it was but for the generation of the session, and one call each was made; a start that raises changes nothing |
| VideoBodies.ApplyRunsAlone | pyobs_qhyccd/qhyccdvideo.py:242-252 | a worker that is not disturbed applies settings in the step system as the method does in one go |
| VideoBodies.ApplyRaisesAlone | pyobs_qhyccd/qhyccdvideo.py:242-252 | the same for a worker one of whose calls raises, with or without effect: live mode comes back and the worker ends with the exception |
| VideoBodies.StartRunsAlone | pyobs_qhyccd/qhyccdvideo.py:278-282 | the same for starting live mode, or failing to |
| VideoBodies.StopRunsAlone | pyobs_qhyccd/qhyccdvideo.py:319-322 | the same for stopping it |
| VideoBodies.CloseRunsAlone | pyobs_qhyccd/qhyccdvideo.py:186-193 | closing the module drops _driver and shuts the camera with one call |
| VideoBodies.StreamingIsReached | pyobs_qhyccd/qhyccdvideo.py:266-342 | the streaming states of the counterexamples are reached by an awaited run from the opened camera, with the activation's own reader at its start, the buffer for the camera's settings, the first generation and nothing pending |
| VideoBodies.RejectedSettingIsReached | pyobs_qhyccd/qhyccdvideo.py:242-317 | an awaited run from the opened camera, with one activation and its one reader, in which a rejected setting leads to a frame fetched into a buffer that is too old |
| VideoBodies.Video.constructor | pyobs_qhyccd/qhyccdvideo.py:91-119 | the fields after the camera has been opened |
| VideoBodies.Video.Configure | pyobs_qhyccd/qhyccdvideo.py:207-230 | as many settings calls as the camera has controls, then the read-backs, a buffer for the new settings and a new generation; or, if any of these raises, what took effect before it and the old buffer and generation |
| VideoBodies.Video.ApplySettings | pyobs_qhyccd/qhyccdvideo.py:242-252 | nothing without a driver; otherwise stop, configure and restart with the present generation, also if configuring raised, and then the exception |
| VideoBodies.Video.ReadFrame | pyobs_qhyccd/qhyccdvideo.py:297-308 | a frame is fetched exactly if there is a driver, a buffer and live mode; if live mode and session belong together the stamp is that of the session, and the buffer has the right size if and only if the settings are not stale |
| FrameQueue.DeliveredAreArrivals | pyobs_qhyccd/qhyccdvideo.py:284-288 | what a schedule delivers is the frames it puts, each once and in order |
| FrameQueue.YieldsASubsequence | pyobs_qhyccd/qhyccdvideo.py:284-334 | for every schedule the frames yielded are a strictly increasing subsequence of those that arrived, the queue holds the latest at most 5, and every other frame was yielded or dropped, not both |
| FrameQueue.DropsOnlyOldest | pyobs_qhyccd/qhyccdvideo.py:284-288 | a delivered frame that leaves the queue without being yielded was the oldest of a full queue, an arrival took its place, and all before it had left |
| FrameQueue.NothingLostWithinFive | pyobs_qhyccd/qhyccdvideo.py:284-334 | a frame is yielded, as the one it is, or still queued at its place, as long as at most five, itself included, have arrived since |
| FrameQueue.StalledConsumerFindsLatest | pyobs_qhyccd/qhyccdvideo.py:284-288 | however long the consumer stalls it then finds the latest 5 frames that arrived meanwhile, or all that were queued and came if they are fewer |
| FrameQueue.DrainsInOrder | pyobs_qhyccd/qhyccdvideo.py:327-334 | taking n frames yields the first n queued, in order |
| FrameQueue.Frames.Put | pyobs_qhyccd/qhyccdvideo.py:284-288 | the queue object follows the specification: the new frame goes behind those queued, the oldest of which makes room if there are five |
| FrameQueue.Frames.Next | pyobs_qhyccd/qhyccdvideo.py:327-334 | one turn of the consumer's loop yields the oldest queued frame, or nothing |

## Left out

- ProcessesWhatWasRaised: stops before the counters of the receive queue wrap, because a queue of 5 slots fails then (DeafReceiveQueue, FifoForeverIffLengthDivides).
- OneTransaction: one TXN_LEN per call; calls with several are covered by EveryTransaction and TransactionStart.
- ExactIffSpillFits: for fills that get all pages pinned; ExactForAllGrantsIff is for any grants, and FillWrapsIff says fill by fill when too much is reported.
- FreedExactlyOnceIff: its condition is on the slots a TXN_LEN finds, not on the order of messages alone, because whether an SG_BUF_READ maps anything depends on what is left of the transaction (LateBufferReadLeaks).
- CrashSafe: assumes that a request that stores only part of its data is reported as failed, and an image that ends within 64 KiB; SafeIffFits, ImageIffUncut and SafeIffUncut say exactly what these are needed for.
- TwoStageLoad: equality with the image is exact for all contents of given addresses and lengths (TwoPassesAgreeIff); overlapping chunks that hold the same bytes agree in any order.
- BeginAndStopAlternate: only for awaited starts and stops; AlternatesIff is the exact condition for all.
- FirstInFirstOut: assumes that no consumer sleeps between its read and its swap while 2^32 messages are popped, which one consumer cannot do and without which it is false (SleepingConsumerRepeatsMessage).
- Interrupts.Fpga: the queues are values of the step system, not CircQueue objects, so their cells are not updated in place there.
- RecvTransfer.RecvChannel.Recv: the pops, waits and time-outs of the inner loop are a list of wake-ups given by the caller; RecvPath makes them steps beside the handler's pushes, on values.
- SendTransfer.SendChannel.Send: the send queue has been cleared, as the code does first.
- Weak memory ordering: all steps are sequentially consistent.
- The effects of reset() on running transfers other than the busy flag.
- Kernel calls: dma_map_sg is the identity on the element list, get_user_pages pins any number of pages, allocation failures are the case of none; pages are 4096 bytes and addresses 64 bits.
- Register reads, PCI probe and removal, channel set-up, list_fpgas and the file operations of the driver.
- A released mapping's slot is emptied at every exit, where the code leaves the stale address behind until the next call.
- USB transfers: a request is its outcome, given by the caller (all, part, failure with or without a time-out); EIO stands for every errno; the request codes (internal, external memory, EEPROM) are not part of a request.
- EEPROM: the upper half of a 32-bit address, sent as the request's index, is ignored; what a device does with data that runs past its last cell is not modelled; vendor and product ids are not written by the code either.
- Intel HEX: records with a NUL or with characters that are no hexadecimal digits, short lines and empty files of the C library are left open; the checksum is not looked at, as in the code.
- File opening, messages and statistics of the loader, including the division of its verbose mode.
- FX3: reads of the image file return all bytes asked for or fail.
- Exposure-time stamps: _set changes the exposure time outside the lock, so no claim is made about them.
- Exceptions of SDK calls other than those of _configure (a start raises only without a driver), and a reader thread that dies on a buffer that is too small.
- Generation bumps by the event loop, and everything else in BaseVideo, which is not part of this model; one opening of the camera per object.
- Rounding of the exposure time, image headers, published states, the still camera, its cooling and the GUI.
- FrameQueue: callbacks reach the event loop in the order the reader thread schedules them, and a consumer that times out loses no frame.
