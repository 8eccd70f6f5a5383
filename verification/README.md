# Verified models of the conferencing server and client

This project models the parts of the conferencing system that have state, concurrency or arithmetic of
their own, and proves what they are for. Check it with `dafny verify dfyconfig.toml`.

| file | what it models |
|---|---|
| `Wrappers.dfy`, `Seqs.dfy` | what may be missing, sums and pigeonhole facts, shared by the other modules |
| `ThreadPool.dfy` | the worker pool: one step for each lock, unlock, wait and signal, every interleaving |
| `Cfifo.dfy` | the power-of-two ring, alone and with a writer and a reader interleaved at each access |
| `RbudpPackets.dfy`, `RbudpSender.dfy`, `RbudpSenderInterleaved.dfy`, `RbudpReceiver.dfy`, `RbudpDelivery.dfy`, `RbudpNetwork.dfy`, `RbudpLossy.dfy` | retransmitting broadcast: sender's repair cache, alone and with its two threads at each write, receiver's wait queue, any arrivals, and both ends with a lossy channel between them |
| `Adpcm.dfy` | the ADPCM coder and decoder, their lockstep, error bound and settling time |
| `PacketCache.dfy` | the lockless packet cache, alone and with one allocating and many freeing threads |
| `RepeatRing.dfy` | the ring of the last 16 packets cast and its request queue |
| `PacketReceive.dfy` | the chain of calls behind pack_recv, their results and what they queue |
| `Pipeline.dfy` | who holds a packet buffer from its arrival to its release |
| `MixSlots.dfy` | the eight mixing slots of a tag, their timeouts, and the net mixer's addresses, also with threads between a slot's release and its address's |
| `Floor.dfy`, `FloorInterleaved.dfy` | admission and eviction of microphones, heartbeat deaths, and the slots they need; one call alone, and requests and heartbeat side by side |
| `MemDb.dfy` | the in-memory tables: linked list, chained hash with back-pointers, counter |
| `IniFile.dfy`, `IniFrame.dfy` | parsing and rewriting of ini text, and what a write leaves alone |
| `ClientMixer.dfy` | the client's jitter-buffer mixer, duplicate filter and sample sum |
| `Reframe.dfy` | cutting byte streams into 524-byte packets and into lines |

Code that updates state in place is a class or a method over arrays, with its loops, proved equal to a
specification function; protocols between threads or hosts are state machines whose runs take any
enabled step. The theorems are about those functions and runs. Pointers to devices and packet buffers
are numbers, and a device's fields are arrays over those numbers; list and hash entries of the tables
are objects with real links.

## What turned out false, and exactly when it holds

- Of a frame with an odd number of samples the last half-filled byte is never sent. The decoder then ends
  in the coder's state exactly when the coder stood at index 0 before the last sample and that sample
  equals its prediction (`Adpcm.FrameLockstep`).
- A repair cache slot lives 32 broadcasts, 31 across the wrap that skips 0; the slot of 65504 lives 63
  (`RbudpSender.SlotReuse`). A request for number 0, which nobody sends, is answered exactly while fewer
  than 32 broadcasts were made and the counter for it is below 20 (`RbudpSender.RequestForZeroAnswered`).
- A cached broadcast is repaired exactly while the counter kept under its number is below 20
  (`RbudpSender.LastBroadcastsRetrievable`), and nothing resets that counter: a number that was repaired 20
  times is refused at its first request when it comes round again 65535 broadcasts later
  (`RbudpSender.StaleCounterRefuses`, with a run in `RbudpSender.FreshPacketRefused`).
- The sender's two threads share the cache without a lock. A reply says that it is a repair exactly when its
  slot is not being filled, the tag aside, as it is sent, and is then the broadcast asked for exactly within
  its lifetime
  (`RbudpSenderInterleaved.ReplyIsRepairIffUndisturbed`).
- A packet among the last 16 cast that was repeated 8 times gets no answer at all
  (`RepeatRing.AnsweredExactly`).
- "request" with a number other than 0 and 1 links an open microphone's list entry a second time, unless
  it is rejected or put in its own place. The links then cut off what stood behind the entry, or the
  entry points at itself when it was the last (`Floor.AnswerKeepsInv`).
- The heartbeat looks at a microphone's open flag without a lock and closes it later, beside a request. The
  floor's bookkeeping holds throughout exactly while no microphone is closed that the other thread closed
  already, none is opened that is open, no closed one is given its slot back, and no walk stands at an entry
  that was unlinked (`FloorInterleaved.KeptIffNoneBad`). Runs in which it fails: a dying microphone that is
  evicted at the same time (`FloorInterleaved.KickedTwice`), one that asks for its slot again while it dies
  (`FloorInterleaved.ClosedKeepsSlot`), and a walk that loses its way (`FloorInterleaved.WalkGoesAstray`).
  Each second closing lets one speaker more in than maxuser (`FloorInterleaved.EveryInterleaving`).
- A device's mixing slot is given back before its address. A device seated in between has no address of its
  own, or loses one, exactly as `MixSlotsInterleaved.OwnAddressIffNoneBad` says
  (`MixSlotsInterleaved.NinthWithoutAddress` is a case).
- With a chair among the speakers a ninth microphone is let in although there are eight mixing slots, and
  it is not heard (`FloorInterleaved.NinthIsNotHeard`). A request leaves everybody heard exactly unless it opens a
  closed microphone when eight are open and these, less the chairs met before the first dead speaker, are
  fewer than maxuser (`Floor.AnswerSlots`).
- Deleting an id that was added twice uncovers the older record (`MemDb.GoneIffSingle`).
- Writing a key is undone by an unclosed `[` header in the way (`IniFile.ReadAfterWrite`). It changes what is
  read under another name exactly when the written line answers for that one too, which a section and a key
  do for every name that they begin (`IniFrame.WriteFrame`, `IniFrame.OtherKeyOverwritten`). A new key goes
  to the beginning of its section, where the comment at client/inifile.c:283 says the end; the code is followed.
- The mixer's fast-forward state starts by emptying every queue, so nothing is ever mixed in it, unlike
  the comments at client/mix.c:205 and 247 (`ClientMixer.NeverFastForwards`). A packet numbered 0 is
  dropped as repeated until its slot accepted four others, and afterwards exactly while one of the last four
  accepted had that number (`ClientMixer.ZeroNeedsFourBefore`).
- On a connection that neither closes nor fails, the line reader returns the next line exactly when its
  newline lies before the end of the buffer, counted from where the line's first byte was put
  (`Lines.ReadIffInReach`). It never moves a line to the front, so even a line of two bytes can be out of
  reach (`Lines.ShortLineNeverRead`), and whether it is depends on how the network cut the stream.

## Model

| member | source | states |
|---|---|---|
| `ThreadPool.ExactlyOneWorkerPerJob` | threadpool/threadpool.c:93-181 | in every interleaving no job runs twice, nothing undispatched runs, the worker that ran a job is the one its call names, and a returned call whose job has not run names the worker that will run it next |
| `ThreadPool.NoJobOverwrittenNoSignalLost` | threadpool/threadpool.c:150-178 | a popped worker's previous job has run, and a worker about to be signalled is asleep with this call's job |
| `ThreadPool.CountersAndWakeups` | threadpool/threadpool.c:74-88 | tp_index <= tp_total <= the maximum, save_thread never fails, and while a dispatcher sleeps the idle workers do not outnumber the dispatchers already woken |
| `ThreadPool.SaveHasRoom` | threadpool/threadpool.c:70-91 | a worker in save_thread always finds room on the list |
| `ThreadPool.HolderMoves` | threadpool/threadpool.c:93-181 | while tp_mutex is held something can move, despite the opposite lock orders |
| `ThreadPool.StuckMeansFinished` | threadpool/threadpool.c:93-181 | no deadlock: if nothing can move, every call has returned, every job has run once, every worker sleeps on the list |
| `ThreadPool.EveryRunCompletes` | threadpool/threadpool.c:70-181 | n jobs take at most 19 n steps in any interleaving and then each has run exactly once, on the worker its call returned, and on no other; that idle workers are reused is NewOnlyWhenNoneIdle's and NoMoreThanWereBusy's |
| `ThreadPool.NewOnlyWhenNoneIdle` | threadpool/threadpool.c:134-178 | a worker is made only in a state in which none is on the list, by the dispatcher that holds tp_mutex |
| `ThreadPool.NoMoreThanWereBusy` | threadpool/threadpool.c:70-181 | over any run no more workers are ever made than were off the list at one moment |
| `ThreadPool.OneWorkerForCallsInTurn` | threadpool/threadpool.c:93-178 | calls made one after another, each after the worker parked again, are all given the first worker and no second one is made |
| `ThreadPool.StepKeepsInv` | threadpool/threadpool.c:70-181 | every single lock, unlock, wait, signal, pop and save keeps the invariant on who may be on tp_list |
| `Cfifo.Fifo.constructor` | include/cfifo.h:35-45 | a new ring is empty and has 2^order slots |
| `Cfifo.Fifo.Len` | include/cfifo.h:53-56 | the masked difference is the number of queued values |
| `Cfifo.Fifo.Full` | include/cfifo.h:58-61 | full exactly when size-1 values are queued |
| `Cfifo.Fifo.Empty` | include/cfifo.h:63-66 | empty exactly when nothing is queued |
| `Cfifo.Fifo.Clear` | include/cfifo.h:68-71 | nothing is queued afterwards |
| `Cfifo.Fifo.Put` | include/cfifo.h:75-96 | appends the value, writes no other slot; on a full ring everything queued is gone |
| `Cfifo.Fifo.Front` | include/cfifo.h:113-117 | the oldest value |
| `Cfifo.Fifo.Out` | include/cfifo.h:119-132 | takes the oldest value, whose slot still holds it, or reports an empty ring |
| `Cfifo.TakenSlotSurvives` | include/cfifo.h:75-132 | a slot taken out survives m more puts exactly when m is within the free room; one put always fits |
| `FifoInterleaved.NoSharedSlot` | include/cfifo.h:75-132 | a writer about to fill and a reader about to read or wipe never touch the same slot |
| `FifoInterleaved.InOrderExactlyOnce` | serv/tag.c:152-169 | values come out in order, once, at most size-1 in between, and no wiped slot is read |
| `FifoInterleaved.RefinesBoundedQueue` | include/cfifo.h:53-132 | every access is nothing, one append within capacity, or one removal of the head, on a bounded queue |
| `FifoInterleaved.EachAccess` | include/cfifo.h:53-132 | what every single access does to the bounded queue: dropped exactly when full, stored, published at the tail, looked at exactly when not empty, the head read, wiped and given back |
| `RbudpSender.SenderBuffers.Send` | client/rbudp.c:151-173 | the datagram carries the next number and the tag, data and extra given; the slot of that number keeps it as a repair; no other slot and no counter changes |
| `RbudpSender.SenderBuffers.Retransmit` | client/rbudp.c:94-149 | the new repair counters and the reply, as Answer says; datagrams that are no request change nothing |
| `RbudpSender.SentIsSaid` | client/rbudp.c:151-173 | over any run the j-th datagram sent has the tag, data and extra word of the j-th call, and the j-th number |
| `RbudpSender.RepairIsSaid` | client/rbudp.c:116-147 | a repair carries what was said under the number asked for |
| `RbudpSender.SlotReuse` | client/rbudp.c:116-173 | after how many broadcasts the slot of a number is filled again, the skipped 0 included |
| `RbudpSender.LastBroadcastsRetrievable` | client/rbudp.c:116-173 | over any run a broadcast is in its slot, unchanged, exactly during its lifetime, which is at least 31; in that time a request for it is answered with it exactly while its number's counter is below 20 |
| `RbudpSender.StaleCounterRefuses` | client/rbudp.c:116-147 | the counter outlives the wrap: 20 repairs of a number refuse the packet that carries it 65535 broadcasts later |
| `RbudpSender.FreshPacketRefused` | client/rbudp.c:116-147 | a run in which a packet is refused at its first request |
| `RbudpSender.AnsweredBySameNumber` | client/rbudp.c:116-147 | with no broadcast between test and send, a reply carries the requested number and is the last broadcast of that slot, for every request but 0 |
| `RbudpSenderInterleaved.ReplyIsRepairIffUndisturbed` | client/rbudp.c:94-173 | with a broadcast at any of its writes between test and send: when the reply is a repair, when it is the one asked for, and what it is otherwise |
| `RbudpSenderInterleaved.BroadcastsAreSaid` | client/rbudp.c:151-173 | in every interleaving the broadcasts, the one being written included, carry what the caller said |
| `RbudpSenderInterleaved.BroadcastAlone` | client/rbudp.c:151-173 | the writes of a broadcast with the other thread resting are the broadcast of one call, sent as an original and cached as a repair |
| `RbudpSenderInterleaved.TestIsAnswer` | client/rbudp.c:116-147 | the test of a request alone decides and counts as the request of one call |
| `RbudpSender.RequestForZeroAnswered` | client/rbudp.c:116-147 | over any run, the exact time at which a request for 0 is answered |
| `RbudpSender.RepairsLimited` | client/rbudp.c:124-147 | at most 8 unicast and 20 repairs in all per filling of a slot |
| `RbudpSender.RepairsExactly` | client/rbudp.c:124-147 | over any run: of the requests for the number a slot holds, counted from where its counter stood, the first 8 are answered to the asker alone, up to the 20th to everybody, and no more |
| `RbudpSender.FirstCycleStartsAtZero` | client/rbudp.c:124-147 | in the first 65535 broadcasts every filling of a slot starts that count at 0 |
| `RbudpSender.SeqInjective` | client/rbudp.c:155-160 | numbers fewer than 65535 broadcasts apart differ |
| `RbudpReceiver.ReceiverLoop.GetWait` | client/rbudp.c:234-241 | takes the oldest waiting packet; its slot is not the one the next put fills |
| `RbudpReceiver.ReceiverLoop.CommitFrom` | client/rbudp.c:337-346 | commits the packet and then the whole wait queue in order, and awaits what follows the last |
| `RbudpReceiver.ReceiverLoop.MoveForward` | client/rbudp.c:321-346 | with a full queue, commits all that waited and then the packet put last |
| `RbudpReceiver.ReceiverLoop.Postpone` | client/rbudp.c:319-334 | queues the packet, and sends one request exactly when the queue was empty |
| `RbudpReceiver.ReceiverLoop.OnDatagram` | client/rbudp.c:265-348 | one datagram's whole effect on the receiver, its commits and its requests |
| `RbudpReceiver.WhatBecomesOf` | client/rbudp.c:294-346 | by its number alone: dropped when less than 100 behind, a restart from 100 behind on, committed with all that waits when awaited, committed past a gap when nothing waits and more than one is missing, else waiting as one of at most 7, and the eighth pushes all out |
| `RbudpDelivery.EachHeardOnce` | client/rbudp.c:265-348 | for any arrivals each datagram of the tag is exactly one of committed, dropped late, waiting, discarded by a restart |
| `RbudpDelivery.QueueAndRequests` | client/rbudp.c:217-262 | a non-empty queue starts at the awaited number plus one, lies beyond it, and exactly one request is sent each time it opens |
| `RbudpDelivery.RequestsGoToTheSender` | client/rbudp.c:288-334 | over any arrivals a request goes to where the last original of the tag came from, whoever sent repairs since |
| `RbudpDelivery.CommittedIncrease` | client/rbudp.c:294-346 | from any moment of any run when nothing waits, up to the next restart or wrap: originals in order and repairs not beyond the awaited number make the committed numbers strictly increase |
| `RbudpDelivery.IncreaseAfterCommit` | client/rbudp.c:294-346 | every datagram that commits something, restarts and wraps included, begins such a stretch |
| `RbudpNetwork.CommittedIsBroadcast` | client/rbudp.c:116-173 | sender, channel and a receiver that joins at any moment, any number of isolated losses: what is committed is what was broadcast from the receiver's first packet on, in order, up to the open loss |
| `RbudpNetwork.CommittedIsSaid` | client/rbudp.c:151-346 | from callers to callback: the payloads committed are those the sender was given, before the receiver joined and since, from its first packet up to the open loss |
| `RbudpNetwork.RepairCloses` | client/rbudp.c:94-147 | answering the request and delivering the repair commits everything the channel brought |
| `RbudpLossy.OnlyLostAreSkipped` | client/rbudp.c:294-346 | one numbering cycle, any losses, repairs late, doubled or never: committed are broadcasts, unaltered, in increasing order, and only what was lost and not repaired in time is skipped |
| `RbudpNetwork.RepairKeepsInv` | client/rbudp.c:294-346 | the repair fills exactly the hole it was asked for |
| `RbudpNetwork.AnswerIsTheLostOne` | client/rbudp.c:116-147 | the answer to the receiver's request is the lost broadcast |
| `Adpcm.QuantiseMatchesBits` | client/adpcm.c:63-90 | the coder's difference is the one the decoder rebuilds from the three bits |
| `Adpcm.NibbleSays` | client/adpcm.c:63-96 | the nibble's top bit is the sign of the error, the other three bits place it between quarters of the step |
| `Adpcm.NibbleMoves` | client/adpcm.c:155-198 | the decoder moves by the middle of the quarter the nibble names, within three and no further, clamped |
| `Adpcm.StepAdapts` | client/adpcm.c:63-110 | how the coder's index moves, by the error: down by 1 below the step, up by 2, 4, 6, 8 in the quarters above it |
| `Adpcm.DecoderAdapts` | client/adpcm.c:155-171 | how the decoder's index moves, by the magnitude bits |
| `Adpcm.SampleLockstep` | client/adpcm.c:54-120 | decoding a coded sample gives the coder's own new state |
| `Adpcm.PackRoundTrip` | client/adpcm.c:112-124 | unpacking packed nibbles gives them back, with a zero after an odd count |
| `Adpcm.PackedAt` | client/adpcm.c:112-124 | the first of two nibbles stands in the upper half of its byte |
| `Adpcm.Lockstep` | client/adpcm.c:130-203 | any samples: the decoder ends in the state the coder ends in |
| `Adpcm.PlaysReconstruction` | client/adpcm.c:130-203 | any samples: the decoder plays the coder's reconstruction |
| `Adpcm.ReconstructionAt` | client/adpcm.c:98-128 | the reconstruction of a sample is the prediction the coder holds after it |
| `Adpcm.FrameLockstep` | client/cast.c:68-71 | a frame as it is sent: the decoder plays the reconstruction of all but an odd last sample, and the states agree exactly for even counts or when that sample left the coder's state alone |
| `Adpcm.SessionLockstep` | client/cast.c:68-71 | any stream of frames of even counts: equal states after every frame, every decoded sample the coder's reconstruction |
| `Adpcm.ErrorBound` | client/adpcm.c:63-102 | a sample that is not overloaded leaves an error of at most step/8+2, clamping included |
| `Adpcm.ClampCloser` | client/adpcm.c:98-102 | clamping never worsens the error |
| `Adpcm.OverloadCatchesUp` | client/adpcm.c:63-110 | an overloaded sample comes at least 11 closer and raises the index by 8 |
| `Adpcm.AtMostElevenOverloads` | client/adpcm.c:54-120 | from any state a constant input is overloaded at most 11 times in a row |
| `Adpcm.Settles` | client/adpcm.c:54-120 | from any state a constant input is met within 2 after 101 samples and exactly from the 102nd on |
| `Adpcm.TrackIsCoderState` | client/adpcm.c:54-120 | the settling theorems are about the coder run on equal samples |
| `Adpcm.StepsGrow` | client/adpcm.c:11-26 | neighbouring steps of the table grow by little enough for the error bound to carry over |
| `Adpcm.StepsAreGeometric` | client/adpcm.c:11-26 | the steps run from 7 to 32767, each eleven tenths of the one before within eight tenths |
| `Adpcm.Coder` | client/adpcm.c:28-128 | the loop over the arrays writes the packed code and stores the final state, nothing else; what the code says and how the state adapts is NibbleSays', PackedAt's and StepAdapts' |
| `Adpcm.Decoder` | client/adpcm.c:130-203 | the loop over the arrays writes the decoded samples and stores the final state, nothing else; what a nibble does is NibbleMoves' and DecoderAdapts' |
| `PacketCache.Cache.Get` | serv/packet.c:88-123 | the first free slot going round from the hint; NULL exactly when all 1024 are in use |
| `PacketCache.Cache.Free` | serv/packet.c:78-86 | clears that slot alone and leaves the hint there |
| `PacketCache.Cache.FreeThenGet` | serv/packet.c:78-123 | a freed slot is the next one handed out |
| `PacketCacheInterleaved.LivePacketsDistinct` | serv/packet.c:77-123 | one allocator and any freers at each read and write: no slot is with two live packets, the hint stays in range |
| `PacketCacheInterleaved.TakesFirstFree` | serv/packet.c:88-123 | the allocator's steps alone take the first free slot going round from the hint, at whatever distance, and leave the hint behind it |
| `PacketCacheInterleaved.GivesUpWhenFull` | serv/packet.c:88-123 | and come back with nothing, and nothing changed, when all are in use |
| `PacketCacheInterleaved.FreesAlone` | serv/packet.c:78-86 | a freeing thread's steps alone clear its slot and point the hint at it |
| `RepeatRing.CastState.CastPack` | serv/cast.c:209-222 | numbering and ring update as Cast says, with the packet that falls out |
| `RepeatRing.CastState.RepeatCast` | serv/cast.c:49-102 | the reply and the repeat count, as Repeat says |
| `RepeatRing.CastState.ReqRepeat` | serv/cast.c:175-189 | queues the request, or forgets it when 15 wait or audio goes over TCP without broadcast |
| `RepeatRing.CastState.Repeats` | serv/cast.c:191-206 | answers every waiting request in order, each as BatchExactly says, or does nothing when audio goes over TCP without broadcast |
| `RepeatRing.CastHoldsLast` | serv/cast.c:104-117 | the ring holds exactly the last 16 packets cast; what falls out is the 17th last |
| `RepeatRing.AnsweredExactly` | serv/cast.c:49-102 | a request is answered exactly for the last 16 numbers while repeated fewer than 8 times, with the packet cast under it, and reported outdated exactly for all other numbers |
| `RepeatRing.BatchExactly` | serv/cast.c:191-206 | of a batch each request is answered with the packet cast under its number exactly while that is one of the last 16 and was repeated fewer than 8 times, by earlier batches and earlier in this one, and as outdated exactly when it is none of them |
| `Pipeline.OwnershipIsPartition` | serv/tag.c:598-736 | over every run each of the 1024 buffers is in exactly one place, and the lost ones are exactly the packets of unhandled types |
| `Pipeline.FreedOnce` | serv/packet.c:65-75 | what is freed is one of the 1024, was not free and is nowhere else afterwards |
| `Pipeline.FifosAndRings` | serv/tag.c:267-290 | over any run no fifo overfills, each ring holds the last 16 casts, each slot of a tag holds a device of that tag |
| `PacketReceive.AnswerIsOwnership` | serv/network.c:487-555 | through the chain of return codes pack_recv answers "can be freed" exactly when the fifo is as before and the type is known, and the fifo gains the buffer exactly for admitted audio |
| `PacketReceive.Device.TagInDevPacket` | serv/tag.c:267-290 | queues the packet for a device with a slot and room, and says so |
| `PacketReceive.Device.MixPut` | serv/soft_mixer.c:4-11 | done with exactly when not queued; the net mixer (serv/net_mixer.c:55-60) is always done with it |
| `PacketReceive.Device.DevCastPacket` | serv/cast.c:32-47 | the mixer's answer, and what it queued |
| `PacketReceive.Device.PackRecvAudio` | serv/network.c:487-555 | an audio packet is in the fifo after it or can be freed, never both and never neither |
| `Pipeline.LostCount` | serv/network.c:505-555 | the buffers lost are as many as the unhandled packets |
| `Pipeline.RepeatedAtMostEight` | serv/cast.c:49-117 | over every run each cast packet is repeated at most 8 times, and its history says when a request is answered |
| `Pipeline.FreeOneConserves` | serv/tag.c:697-715 | mixing frees each input but the returned one, once |
| `Pipeline.QueuesOrKeeps` | serv/network.c:487-555 | a datagram of admitted audio goes to the end of its device's fifo, one of an unhandled type is lost, and in every other case the listener keeps its buffer |
| `Pipeline.FifosInOrder` | serv/tag.c:267-306 | no step of anyone does more to a fifo than to put a packet behind the others or to take the oldest away, so that a device's packets leave it in the order they came |
| `Pipeline.ServesExactly` | serv/cast.c:49-102 | a request is served with the packet cast under its number exactly while that is one of the last 16 and was repeated fewer than 8 times, and no buffer moves |
| `Pipeline.CollectsFront` | serv/tag.c:660-695 | a round of the collecting loop takes the oldest packet of the slot's device, frees an oversized one and keeps any other |
| `Pipeline.FreesTheOthers` | serv/tag.c:697-715 | mixing ends with the first packet collected, all the others freed |
| `Pipeline.CastsTheMix` | serv/cast.c:104-117 | the mix is the newest in the ring, under the next number and repeated never; what was cast 16 before is freed next |
| `Pipeline.StepConserves` | serv/tag.c:359-427 | every hand-over moves a buffer, none copies or drops it |
| `MixSlots.Tag.constructor` | serv/tag.c:45-57 | all slots and addresses free |
| `MixSlots.Tag.AddOutstanding` | serv/tag.c:172-214 | the whole new state, as Add says |
| `MixSlots.Tag.RmOutstanding` | serv/tag.c:216-262 | the whole new state, as Rm says |
| `MixSlots.Tag.UpdateTimeouts` | serv/tag.c:329-355 | the whole new state of one round over the slots |
| `MixSlots.Tag.MixOpenDev` | serv/net_mixer.c:28-42 | the first free address is taken for the device |
| `MixSlots.Tag.MixCloseDev` | serv/net_mixer.c:44-53 | the device's address is free again |
| `MixSlots.SlotBookkeeping` | serv/tag.c:172-262 | over any run: mix_count is the number of occupied slots, mixbit is 1<<i exactly in slot i, nobody sits twice, mix_ref names an occupied slot whenever there is one |
| `MixSlots.SeatedIffRoom` | serv/net_mixer.c:28-53 | a device gets a slot exactly when one is free, and with the net mixer, if no other call stands between a slot and its address, then always an address of its own |
| `MixSlots.SeatedLowest` | serv/tag.c:172-214 | a device is seated in the lowest free slot, with its bit and no silent round on its account; the reference moves only into an empty room |
| `MixSlots.UnseatedAlone` | serv/tag.c:216-262 | a leaving device frees its slot alone, and the reference, if it was there, goes to the lowest occupied one |
| `MixSlots.LowestAddress` | serv/net_mixer.c:28-53 | the lowest free address is handed out, and giving it back undoes that |
| `MixSlotsInterleaved.OwnAddressIffNoneBad` | serv/tag.c:216-262 | with any calls between a slot's release and its address's: every seated device has an address of its own and none is lost, exactly while nobody is seated or released at the wrong moment |
| `MixSlotsInterleaved.NinthWithoutAddress` | serv/tag.c:249-259 | one of eight leaves, a ninth takes the slot before the address is free |
| `MixSlots.EvictedIffHung` | serv/tag.c:329-355 | through any rounds a seated device keeps its slot exactly until it was silent 301 rounds in a row |
| `MixSlots.SeatedUntilHung` | serv/tag.c:172-355 | so a device that opens keeps its slot, through any rounds, exactly until it was silent 301 in a row |
| `MixSlots.CountSaysFull` | serv/tag.c:172-214 | the count is 8 exactly when no slot is free and 0 exactly when all are |
| `Floor.Discussion.AddOpen` | serv/cmd_discctrl.c:49-64 | the whole new state |
| `Floor.Discussion.DelOpen` | serv/cmd_discctrl.c:66-79 | the whole new state |
| `Floor.Discussion.FindKick` | serv/cmd_discctrl.c:263-289 | the walk over the open list, with its two early exits |
| `Floor.Discussion.Request` | serv/cmd_discctrl.c:218-323 | the whole new state and the answer |
| `Floor.Discussion.Deactivate` | serv/hbeat.c:63-73 | the whole new state after a missed heartbeat with no request beside it |
| `Floor.AdmissionRule` | serv/cmd_discctrl.c:247-308 | who is let in, who loses the place, who is rejected, said without the walk: the first dead speaker, else in FIFO mode the oldest live one |
| `Floor.ChairNeverEvicted` | serv/cmd_discctrl.c:265-289 | a victim is listed and no chair |
| `Floor.AnswerTells` | serv/cmd_discctrl.c:218-323 | rejected exactly when it asks to open, there is no room and no place to take, and nothing has then changed; told OK, the microphone is as asked for and nobody but a victim was closed |
| `Floor.AnswerSeats` | serv/cmd_discctrl.c:218-323 | told OK to open, a device has a mixing slot unless eight others have them; told OK to close, it has none |
| `Floor.LastOpenedIsLast` | serv/cmd_discctrl.c:49-79 | the list keeps the order of opening, so that the oldest speaker is the one evicted: whoever is let in is last, and of all others only a victim leaves its place |
| `Floor.DieTells` | serv/hbeat.c:63-73 | a device whose time ran out is dead and its microphone closed; nobody else is touched, and the list keeps its order |
| `Floor.AnswerKeepsInv` | serv/cmd_discctrl.c:218-323 | a request keeps the list, counter, flags and speaker limit exactly when it does not link a listed microphone again |
| `FloorInterleaved.KeptIffNoneBad` | serv/hbeat.c:63-73 | requests and heartbeat in every interleaving: list, counter, flags, speaker limit and slots hold throughout exactly while none of four steps is taken |
| `FloorInterleaved.EveryInterleaving` | serv/cmd_discctrl.c:49-79 | whatever the threads do, short of linking twice: listed exactly when open, once, the counter behind by the late closings, which alone loosen the speaker limit, and no chair evicted |
| `FloorInterleaved.KickedTwice` | serv/hbeat.c:70-73 | a run that closes a microphone twice and leaves the counter below the list |
| `FloorInterleaved.WalkGoesAstray` | serv/cmd_discctrl.c:265-289 | the walk stands at an entry as the heartbeat unlinks it |
| `FloorInterleaved.ClosedKeepsSlot` | serv/cmd_discctrl.c:232-240 | a microphone that is closed and keeps a slot |
| `FloorInterleaved.ZeroOrOne` | serv/cmd_discctrl.c:227-311 | requests with 0 and 1 never link a microphone twice, whatever the heartbeat does |
| `FloorInterleaved.RequestAlone` | serv/cmd_discctrl.c:218-323 | the steps of a request with the heartbeat resting are the request of one call |
| `FloorInterleaved.HeartbeatAlone` | serv/hbeat.c:63-73 | the steps of the heartbeat with no request beside it are the death of one call |
| `FloorInterleaved.FloorBookkeeping` | serv/cmd_discctrl.c:49-79 | after any interleaving without those steps: openuser is the list's length, listed exactly when the flag is set, at most maxuser speakers, only open microphones hold slots |
| `Floor.AnswerSlots` | serv/cmd_discctrl.c:218-323 | with every open microphone in a slot, a request keeps it so exactly unless it lets a ninth one in, said on the state before it |
| `FloorInterleaved.EveryoneHeard` | serv/cmd_discctrl.c:218-323 | no chairs and a limit of at most eight: after any interleaving without those steps and hung devices every open microphone has a slot |
| `FloorInterleaved.NinthIsNotHeard` | serv/cmd_discctrl.c:249-276 | a run with one chair that opens nine microphones, the ninth without a slot |
| `MemDb.ListAddTail` | include/list.h:25-60 | the circle of links gets the entry before the head, all other links kept |
| `MemDb.ListDel` | include/list.h:62-84 | the circle of links without the entry |
| `MemDb.HashId` | include/hash.h:11-19 | every bucket and back-pointer in order, the entry in front of its bucket |
| `MemDb.Unhash` | include/hash.h:23-29 | removal by back-pointer leaves every bucket in order without the entry |
| `MemDb.BypassSparesChain` | include/hash.h:23-29 | no other chain is touched |
| `MemDb.ChainDrop` | include/hash.h:11-29 | leaving the list is leaving exactly one bucket, the others' order kept |
| `MemDb.FirstIsNewest` | include/hash.h:32-38 | the first match in a chain is the last match in the list |
| `MemDb.Table.Find` | serv/db/md.c:117-124 | found exactly when the list has the id; the record added last |
| `MemDb.Table.Add` | serv/db/md.c:126-133 | appended when the database took it, else nothing changes |
| `MemDb.Table.Del` | serv/db/md.c:135-142 | the record found is gone from list, hash and counter |
| `MemDb.Table.Clear` | serv/db/md.c:154-161 | nothing left in list, hash and counter |
| `MemDb.Table.Count` | serv/db/md.c:91-94 | the counter is the list's length |
| `MemDb.Table.GetArray` | serv/db/md.c:77-100 | every entry once in insertion order, then NULL |
| `MemDb.Table.IterateNext` | serv/db/md.c:102-115 | the next entry, NULL after the last |
| `MemDb.Table.IterateAll` | serv/db/md.c:102-115 | iteration gives every record once in insertion order |
| `MemDb.TableIsDictionary` | serv/db/md.c:38-161 | over any run of fresh-id adds, deletes and clears the table is a dictionary, in size and in every lookup |
| `MemDb.DeleteUndoesAdd` | serv/db/md.c:38-60 | a delete undoes the last add of its id, older records included |
| `MemDb.GoneIffSingle` | serv/db/md.c:49-60 | an id is gone after a delete exactly when it was there at most once |
| `IniFile.ParseFile` | client/inifile.c:71-151 | the nested loops find the place that Parse names |
| `IniFile.FindMark` | client/inifile.c:119-141 | the '=' of a line whose text before it begins the key |
| `IniFile.LineAnswers` | client/inifile.c:119-141 | a line answers for a key exactly when it is no comment and the text before its first '=' is a non-empty beginning of the key |
| `IniFile.LastSection` | client/inifile.c:71-151 | a key not found goes to the section found last, behind the blanks after its header, with no line there that answers and no such section behind it |
| `IniFile.FoundAlike` | client/inifile.c:71-151 | texts that agree up to a value have the key found at the same place |
| `IniFile.InsertFound` | client/inifile.c:282-287 | a key put behind its section's header is found there |
| `IniFile.Written` | client/inifile.c:268-294 | in all three cases the key is found again exactly around the written value |
| `IniFile.ReadAfterWrite` | client/inifile.c:197-294 | the value read is the one written, cut to size-1, exactly when no unclosed header is in the way |
| `IniFile.CutToFit` | client/inifile.c:197-206 | a value is cut only when it does not fit with its zero byte, and then to what does |
| `IniFile.RestKept` | client/inifile.c:268-294 | a write exchanges the found value alone, or puts a line or a section in and loses nothing of the text; it has no outcome exactly when a '%' stands behind a line put in |
| `IniFile.LastWriteWins` | client/inifile.c:243-294 | writing a key twice leaves the text that the second write alone leaves |
| `IniFrame.WriteFrame` | client/inifile.c:243-294 | after a write every key of every section is read as before, except exactly where the written line answers, and there the new value is read |
| `IniFrame.OtherKeyOverwritten` | client/inifile.c:90-126 | writing kx of section ab overwrites k of section a |
| `ClientMixer.PcmMix` | client/pcm.c:7-34 | the first buffer becomes the clamped sums of what all buffers held, in place, also with shared buffers |
| `ClientMixer.Mixer.GetQueueIndex` | client/mix.c:41-74 | the device's queue, or the first free one, or -1 |
| `ClientMixer.IndexExactly` | client/mix.c:41-74 | the device's own queue, else the first that is nobody's, else none; nothing else changes |
| `ClientMixer.Mixer.CloseDevice` | client/mix.c:106-114 | the device's queue, if it has one, is emptied and no longer in use |
| `ClientMixer.ClosedExactly` | client/mix.c:106-114 | the device has no queue and no packets left; nobody else loses anything |
| `ClientMixer.Mixer.CleanupQueues` | client/mix.c:126-145 | devices without packets dropped, the others' queues emptied |
| `ClientMixer.Mixer.IsReceived` | client/mix.c:147-164 | known exactly when among the four last numbers, entered otherwise |
| `ClientMixer.Mixer.Put` | client/mix.c:166-210 | the whole new state and the result, of which PutExactly and PutQueues say what they mean |
| `ClientMixer.PutExactly` | client/mix.c:166-210 | over any run: dropped exactly for no device, no queue left, a number among the last four its slot accepted, or a full queue beside another device; played as it is exactly when its device is the only one; queued otherwise |
| `ClientMixer.PutQueues` | client/mix.c:166-210 | over any run: one packet more at the tail of its device's queue, or, when that is full or reaches the limit, all queues emptied and silent devices dropped; otherwise the queues stay as they are |
| `ClientMixer.Mixer.TakeFrom` | client/mix.c:116-124 | the oldest packet, or the newest where more than four wait |
| `ClientMixer.Mixer.Get` | client/mix.c:212-271 | the whole new state and the packet |
| `ClientMixer.Mixer.MixAudioPack` | client/xcast.c:34-53 | the playing loop ends, and plays what Play says |
| `ClientMixer.FromAllOrNone` | client/mix.c:212-271 | a packet comes exactly when every device heard has one, and one is taken from each of them or from none |
| `ClientMixer.OneTakenFromEach` | client/mix.c:212-271 | of a queue of at most four the oldest is taken and the others stay, of a longer one the newest and none stays; what comes is the blend of these in the order of the queues |
| `ClientMixer.BlendIsNearestSum` | client/pcm.c:7-34 | each sample of the packet is the exact sum where that fits, the nearest 16-bit number where not |
| `ClientMixer.BlendKeepsHead` | client/mix.c:242-271 | a mixed packet keeps the head of the first one, a single one comes as it is |
| `ClientMixer.QueueBookkeeping` | client/mix.c:41-145 | over any run: dev_count is the number of queues in use, no device has two, an unused queue is empty |
| `ClientMixer.FiveInARowDiffer` | client/mix.c:147-164 | over any run any five consecutive numbers a slot accepts are different |
| `ClientMixer.KnownExactly` | client/mix.c:147-164 | over any run a number counts as received exactly when it is one of the last four accepted, or is 0 with fewer than four |
| `ClientMixer.ZeroNeedsFourBefore` | client/mix.c:147-164 | over any run, exactly when the number 0 is dropped |
| `ClientMixer.GetShrinks` | client/xcast.c:46-50 | each packet played shortens the queues in total, so the loop ends |
| `ClientMixer.NeverFastForwards` | client/mix.c:197-208 | over any run nothing is mixed in the fast-forward state |
| `Frames.AudioReceiver.Receive` | serv/network.c:343-371 | the packets delivered and the part held, cut from what was held and what came; whatever pack_recv answers for each, the ones it took over are not written again |
| `Frames.CutsDoNotMatter` | serv/network.c:318-371 | for every way the stream is cut, the packets are its 524-byte pieces and packets and rest together are the stream |
| `Lines.LineReader.RecvLineInto` | serv/cmd_manage.c:129-181 | the line and the new buffer, as RecvLine says, within the buffer minus 100 bytes |
| `Lines.CallKeepsStream` | serv/cmd_manage.c:129-181 | a call returns nothing or one line with its only newline last; line, buffer and what is to come are the stream |
| `Lines.LinesOfTheStream` | serv/cmd_manage.c:129-181 | for every way the stream is cut, the lines returned are its first lines |
| `Lines.ReadIffInReach` | serv/cmd_manage.c:129-181 | on a healthy connection the next line is read exactly when its newline falls before the buffer's end |
| `Lines.ShortLineNeverRead` | serv/cmd_manage.c:134-180 | a two-byte line that is never returned |

## Left out

- destroy_threadpool, failed thread creation and spurious wakeups (threadpool/threadpool.c:105 waits without a loop).
- Sockets, select, sleeps, /dev/dsp, files, sqlite and shell calls: what they bring is a parameter, what they take is a result.
- Failed sends, and a change of the receiver's tag while packets wait (client/rbudp.c:205-210 keeps the queue).
- RbudpSender.AnsweredBySameNumber: takes the test and the send of a reply as one step; RbudpSenderInterleaved has them apart. There length, extra and data of a packet are one write.
- rep_count as a 32-bit int: it would overflow after 2^31 requests for one packet.
- Payload sizes: a packet is assumed to fit its buffer.
- ThreadPool.EveryRunCompletes: assumes that every job returns.
- FifoInterleaved.RefinesBoundedQueue, PacketCacheInterleaved.LivePacketsDistinct and the other interleavings assume sequentially consistent memory.
- The buffer of recv_line is static and shared by all manager connections (serv/cmd_manage.c:131, 462); Lines is about one connection.
- Repairs that are broadcast reach other receivers too; each receiver alone is covered by any arrivals, both ends together only with one receiver.
- RbudpNetwork.CommittedIsBroadcast: losses are isolated, not of the numbers 1 or 65535 and not followed by the wrap while packets wait; any losses within one numbering cycle are RbudpLossy's, arbitrary arrivals RbudpDelivery's.
- RbudpLossy.OnlyLostAreSkipped: the cycle ends before number 65535, and a repair 100 numbers late, which starts the receiver over, does not occur.
- AAC, sha and checksum code, the bit-exact copies of pcm_mix and the re-framing loop in serv/pcm.c and client/net.c, include/encode.h, include/queue.h, serv/block.c.
- Pipeline.OwnershipIsPartition: packet types that pack_recv does not handle are counted as lost, as they are; the partial packet of a disconnected TCP device and packets in flushed silence are not part of this model.
- The mixer's choice of a waiting policy and of queues to flush: any queue of two or more may be flushed at any time.
- Discussion "select" and "close", a changed maxuser or device type, the restored microphones of serv/recover.c and tag switching: they redirect lists without the flags.
- Floor.Answer: the links that a second linking leaves are written down as a second list entry; what later walks over them do is not part of this model.
- FloorInterleaved.EveryInterleaving: a del_open on an unlinked entry follows NULL links, which most machines do not survive; here it lowers the counter and the run goes on.
- Only one tag uses the net mixer; several would share its eight addresses.
- tag_add_bcast, registration, votes, command formatting, managers, upgrade, heartbeat timing.
- A record's other fields, which callers change in place through the pointer md_find gives them.
- An ini file with a zero byte, or of 16384 bytes and more, and what sprintf makes of a '%' behind a new key.
- IniFrame.WriteFrame: not for a text in which another '[' follows the written section's header in the same line; the new line would make a header of it.
- IniFile.ReadAfterWrite: for values of one line and for keys and sections the parser can name; a section may begin with the file's header text and a key with the file's, as in the source.
- A queued packet's bytes beyond its own length, which the mixer reads when the first packet is longer: any content is allowed there.
