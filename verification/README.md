# Chamlon data path and scheduling, in Dafny

Chamlon is a VPN over UDP. This project models what happens to a packet between the two TUN
devices, and the server state around it, and proves what that machinery keeps over whole runs.
Cryptography appears only through its interface: a datagram decrypts to a frame or to nothing,
and the handshake's primitives are parameters.

- **Replay window** (`Words`, `ReplayView`, `ReplayWindow`): the bitmap is an array of 64-bit
  words shifted in place, for any number of words. It refines the set of all numbers accepted.
- **Fragments and reassembly** (`Frames`, `Fragments`, `Reassembly`, `ReassemblySafety`,
  `RoundTrip`, `IdReuse`, `Overread`, `PacketIds`): cutting, padding, the slot table, byte
  counting, expiry, and packet ids, which may repeat.
- **One session end to end** (`DataPath`, `InboundHandler`): window and table composed, over a
  network that loses, repeats, reorders and forges.
- **Worker pool** (`StoreSteps`, `WorkerPool`, `PoolRelease`, `PoolRaces`, `PoolShutdown`,
  `ShardQueue`, `LinkedFifo`): every interleaving of the dispatcher, any number of workers and the sweep. The
  handler is cut into check, decrypt, mark, pick a slot, stamp it, set the length, copy, count,
  test, read the length and write; the sweep into the test of a slot and its wipe. A run is any
  sequence of actions.
- **Outgoing queue and scheduler** (`OutQueue`, `TaskHeap`, `Pacing`, `ShardPacing`): the two-lane
  linked queue under any order of pushes and pops, the hole-sifting array heap, constant-bit-rate
  pacing of many sessions on one shard.
- **Control state** (`SessionTable`, `ControlPlane`, `RateLimiter`, `RateBounds`, `Rehandshake`,
  `KeyAgreement`): session slots, one scheduler task per session, token buckets, the client's
  backoff machine, key correspondence.

Conventions. Unsigned 64-bit numbers are naturals with the wrap written out. Words are their 64
bits, least significant first; `(1ULL << s) - 1` is the word with the s lowest bits set. Clocks
are parameters, one reading per call, never going back. Nanosecond arithmetic that the source
does in doubles is exact real arithmetic. Token counts are integers, which they always are,
because rates and elapsed seconds are. A structure changed in place is a class or an array, and
its methods are proved equal to a function on values; the theorems are about those functions.
A session starts with a zeroed window and on a reassembly table with at most one open entry per
id, which is all that is left of earlier sessions on its slot (`TakenOver`).

Where code and comments disagree the model follows the code: the queues call their policy
tail-drop but drop the head; `allocate_session` asks for a write lock its caller does not take
(handshake jobs share one worker, so handlers do not overlap).

Eight natural properties are false of the code. For each a failing input is given and the
exact condition proved:

- A fresh number can be refused, when `seq + WINDOW_SIZE` wraps (`WrapRefusesFresh`,
  `FreshAcceptedIff`).
- A complete set of fragments can be lost: it is reassembled if and only if the final one arrives
  last (`FinalFirstIsLost`, `RoundTripIff`).
- Fragments of two packets of a session can be written out as one, because ids repeat after
  65535 packets (`ReusedIdMixesIff`).
- Fragments of two sessions can be written out as one, even if each uses its ids once: a session
  takes over its slot's reassembly table as the session before left it, and every sender starts
  its ids at 1 (`LeftoverMixesIff`). For both, in every run from any table a session may start
  on, no fragment is put into another packet's entry if and only if each id was free at the
  start or released, by completion, by a sweep more than 20 seconds after it was last touched,
  by a full table or by a wipe, before another packet used it (`MixingIff`, `UnmixedIff`, in the
  pool `HarmlessIff`); writes are then sound (`RunSound`, `EndToEnd`).
- A session can write an empty packet, or zeros, because the sweep on the epoll thread zeroes
  slots without a lock against the worker (`SweepRace`, and `FreshRace` with nothing idle). A
  wipe spoils the frame in hand if and only if it lands between the setting of a final
  fragment's expected length and its write (`WipeSafeIff`, `PoolWipeIff`; zeros may stand in for
  a packet of zeros); in all runs without such a wipe and without mixing writes are sound
  (`PoolWritesSound`).
- `blacklist_ip` can have no effect: an unknown address is banned if and only if the table has
  room (`FullTableIgnoresBan`, `ManualBanIff`).
- A completed entry can be written out longer than its buffer (`ThreeBoasts`), exactly when a
  final fragment brings the count up to an announced length over 2500 (`OverreadsIff`), so never
  in a run whose fragments, and the entries open at its start, announce at most 2500
  (`NeverOverreads`).
- An ended session can leave keys in its slot (`RotatedTooLate`): an inactive slot holds keys if
  and only if a rotation found it active and installed its keys after it had ended
  (`KeysLeftIff`).

## Model

| member | source | states |
|---|---|---|
| ReplayView.AdvanceRepresents | chamlon_server/src/replay_window.c:41-113 | a number that passes the check was never accepted before, and the updated window stands for the accepted set with it added: bit d is set exactly when recv_max - d was accepted |
| ReplayView.PassedInWindow | chamlon_server/src/replay_window.c:20-32 | a passing number is newer than all or its bit lies inside the bitmap and is clear, also when the sum wraps |
| ReplayView.RejectsExactly | chamlon_server/src/replay_window.c:8-33 | away from the wrap the check rejects exactly zero, numbers left of the window, and numbers already accepted |
| ReplayView.FreshAcceptedIff | chamlon_server/src/replay_window.c:15-23 | a fresh number not too old is let in if and only if its sum with the window size does not wrap or it is newer than everything |
| ReplayView.WrapRefusesFresh | chamlon_client/src/vpn_replay_window.c:15-18 | with the shipped 64-wide window there is a fresh number inside the window that is refused |
| ReplayWindow.Window.Check | chamlon_server/src/replay_window.c:8-33 | the array version computes the abstract check, for every word count |
| ReplayWindow.Window.ShiftWords | chamlon_server/src/replay_window.c:63-70 | the descending in-place word loop is one wide shift by a multiple of 64 |
| ReplayWindow.Window.ShiftBits | chamlon_client/src/vpn_replay_window.c:73-82 | the descending in-place carry loop is one wide shift by fewer than 64 bits |
| ReplayWindow.Window.ShiftLeft | chamlon_server/src/replay_window.c:55-100 | words, then bits, then mask: together one wide left shift by diff |
| ReplayWindow.MaskChangesNothing | chamlon_server/src/replay_window.c:96-99 | after the shift the mask line leaves the word as it is |
| ReplayWindow.Window.Update | chamlon_server/src/replay_window.c:41-113 | the array version computes the abstract update; zero changes nothing |
| Fragments.PaddedBound | chamlon_server/include/config.h:19-20 | for every length up to 1600 and payload room in 40..1176, room times the fragment count is at most 2500 |
| Fragments.FragmentFits | chamlon_server/src/packet_processor.c:115-117 | no honest fragment, padded or not, trips the size rejection; all but the last are full |
| Fragments.FragmentHeader | chamlon_server/src/packet_processor.c:204-214 | every fragment announces id, length and its own offset, and only the last one lacks the 0x8000 bit |
| Fragments.FragmentsTile | chamlon_server/src/packet_processor.c:196-218 | every byte of the packet travels in exactly one fragment, at the offset its header announces |
| Fragments.PacketPadding | chamlon_server/src/packet.c:118-144 | in place: data kept, the rest up to the fragment size zeroed, bytes beyond and unusable sizes untouched |
| Fragments.BuildFrame | chamlon_client/src/vpn_packet_handler.c:81-103 | one turn of the loop builds the header and the possibly padded payload for its offset |
| Fragments.FragmentPacket | chamlon_server/src/packet_processor.c:188-228 | the loop ends and yields exactly the packet's fragments in order; packets under 20 bytes yield none |
| Reassembly.Table.FindOrCreate | chamlon_server/src/fragment.c:38-59 | the active slot of the id, else the first free slot zeroed and opened, else nothing changes |
| Reassembly.AbsorbFacts | chamlon_server/src/packet_processor.c:115-129 | byte by byte, what a frame does to its entry: refused past byte 2500, length taken once, payload placed and counted, written out and closed exactly when bit 15 is clear and the count has reached the length |
| Reassembly.Table.ReceiveFrame | chamlon_server/src/packet_processor.c:109-129 | in place, the table and the TUN write of the abstract receive step |
| Reassembly.Table.SweepExpired | chamlon_client/src/vpn_reassembly.c:14-23 | exactly the entries idle more than 20 seconds are zeroed |
| Reassembly.OverreadIff | chamlon_server/src/packet_processor.c:119-127 | for one frame and any entry, the length asked of TUN exceeds the buffer if and only if a final fragment completes an entry announcing more than 2500 bytes |
| Overread.OverreadsIff | chamlon_server/src/packet_processor.c:112-127 | an arrival makes the write read past its buffer exactly when it gets a slot, fits, is final, and brings the count up to an announced length over 2500 |
| Overread.NeverOverreads | chamlon_server/src/packet_processor.c:112-127 | over every run of arbitrary frames with sweeps and wipes, if every frame and every entry open at the start announces at most 2500 bytes no write reads past its buffer |
| Overread.ThreeBoasts | chamlon_server/src/packet_processor.c:119-126 | three frames announcing 2600 bytes, from any table without open entries, make the third ask TUN for 2600 of 2500 bytes |
| ReassemblySafety.CountingIsSound | chamlon_server/src/packet_processor.c:122-125 | if the final fragment is in and the byte count reaches the length, no fragment is missing, padded or not |
| ReassemblySafety.AbsorbSound | chamlon_client/src/vpn_packet_handler.c:185-203 | an open entry goes on holding exactly the fragments absorbed; a completed one is the packet, all its fragments are in, and this one was the final one |
| ReassemblySafety.DeliverSound | chamlon_server/src/packet_processor.c:112-129 | one delivery that meets no other packet's entry keeps every entry explained by fragments delivered and writes nothing but the packet it completes |
| ReassemblySafety.RunSound | chamlon_server/src/packet_processor.c:109-129 | over every run without mixing, from any table whatever is open in it, with losses, reordering, reused ids, full tables, sweeps and slots wiped at any time, all writes are packets sent, byte for byte, fully delivered, none twice |
| ReassemblySafety.ApartNeverMix | chamlon_server/src/fragment.c:41-46 | packets with different ids, none of them left open from before, never mix, whatever the run |
| ReassemblySafety.ReceiveSlots | chamlon_server/src/fragment.c:38-59 | a delivery keeps at most one open slot per id, touches no other id, and closes its slot when it writes |
| RoundTrip.RoundTripIff | chamlon_server/src/packet_processor.c:124-129 | in any unmixed run, from any table, with other packets and sweeps interleaved, a packet whose fragments all arrive in any order, that got a slot and lost it to no late sweep, is written once if and only if its final fragment comes last |
| RoundTrip.FinalFirstIsLost | chamlon_server/src/packet_processor.c:124-125 | two fragments delivered final one first write nothing |
| RoundTrip.StaysOpen | chamlon_server/src/fragment.c:26-31 | while fragments are missing and no sweep comes more than 20 seconds after the last, the entry holds exactly the fragments delivered, through any other traffic |
| IdReuse.ReleasedIff | chamlon_server/src/fragment.c:21-59 | in every run from any table an id has no open slot exactly when it had none at the start and saw no fragment, or its last fragment completed a packet or found no slot, or a sweep came more than 20 seconds later, or the slot was wiped |
| IdReuse.MixingIff | chamlon_server/src/fragment.c:21-59 | over every run, from whatever table an earlier session left, no fragment is put into another packet's entry if and only if each id was released before another packet's fragments came under it |
| IdReuse.ReuseSound | chamlon_server/src/fragment.c:8-59 | with ids reused that way, any number of packets, all writes are packets sent, none twice |
| IdReuse.ReusedIdMixesIff | chamlon_server/src/fragment.c:26-46 | halves of two packets with one id are written out as one packet if and only if the sweep between them comes no more than 20 seconds after the first |
| IdReuse.LeftoverMixesIff | chamlon_server/src/session.c:41-50 | a half packet left open by one session and a half of the next session's only packet are written out as one if and only if the sweep between them comes no more than 20 seconds after the first |
| PacketIds.IdsDistinct | chamlon_server/src/fragment.c:8-16 | ids are never zero, fit 16 bits, and any 65535 in a row are pairwise distinct |
| PacketIds.ServerCounter.Next | chamlon_server/src/fragment.c:10-16 | the skip-zero atomic counter yields the k-th id |
| PacketIds.ClientCounter.Next | chamlon_client/src/vpn_packet_handler.c:74-75 | the inline counter yields the same ids |
| DataPath.NeverTwice | chamlon_server/src/packet_processor.c:83-102 | whatever arrives, the window stands for the numbers accepted in the run, none of them twice |
| DataPath.AcceptedIff | chamlon_server/src/packet_processor.c:83-102 | after any run a datagram is accepted exactly when it decrypts and its number is not zero, not accepted yet, not left of the window, and newest or clear of the 64-bit wrap; anything else changes nothing |
| DataPath.ControlIgnored | chamlon_server/src/packet_processor.c:105-107 | an accepted frame with flags 0x02, 0x03 or 0xFF marks the window, leaves the table as it is and writes nothing |
| DataPath.EndToEnd | chamlon_server/src/packet_processor.c:83-130 | with authentic decryption and no mixing, on a table taken over from any earlier session, every write to TUN is a packet the sender cut, none twice, under loss, repetition, reordering, forgery, sweeps and wiped slots |
| DataPath.DeliveredIff | chamlon_server/src/packet_processor.c:83-130 | a packet whose frames are all accepted, that got a slot and was not disturbed, is written to TUN if and only if its final frame was accepted last |
| DataPath.RunProjected | chamlon_server/src/packet_processor.c:83-130 | the accepted data frames reach the table once each, and table and writes are those of the reassembly run over them |
| DataPath.UnmixedIff | chamlon_server/src/packet_processor.c:112-129 | a receiver's run is free of mixing if and only if each id was released before its use by another packet, in particular when all ids differ and none was left open by the session before |
| DataPath.DrawnIdsApart | chamlon_client/src/vpn_packet_handler.c:71-75 | ids drawn within a span of 65535 all differ |
| DataPath.TakenOver | chamlon_server/src/session.c:41-50 | whatever a session receives, the next one on its slot, with a zeroed window and the table as it is, starts as the theorems ask |
| InboundHandler.Session.HandleInbound | chamlon_client/src/vpn_packet_handler.c:157-203 | the handler over the real bitmap and slot array does exactly the abstract handling of one datagram |
| InboundHandler.Session.TakeOver | chamlon_server/src/session.c:43-47 | a new session's window is zeroed in place and its reassembly slots stay as they are |
| StoreSteps.BeginFinishes | chamlon_server/src/packet_processor.c:112-129 | pick, stamp, set length, copy, count, test, read length and write, undisturbed, are together the receive step |
| StoreSteps.ControlStops | chamlon_server/src/packet_processor.c:105-107 | in the pool too a frame with flags 0x02, 0x03 or 0xFF never reaches the table |
| StoreSteps.FinishedWipe | chamlon_server/src/fragment.c:24-33 | a wipe of any slot not in use commutes with the rest of a frame's handling |
| StoreSteps.BeginOk | chamlon_server/src/fragment.c:38-59 | a pick that meets no other packet's entry keeps the store in order |
| StoreSteps.NextOk | chamlon_server/src/packet_processor.c:115-129 | each later step, the three statements of the fill apart, keeps the store in order, also on an entry wiped under it, and the step that writes, writes the packet |
| StoreSteps.WipeOk | chamlon_server/src/fragment.c:26-31 | any wipe keeps the store in order unless it lands between the setting of a final fragment's expected length and its write |
| StoreSteps.WipeSafeIff | chamlon_server/src/fragment.c:26-31 | after a wipe the frame in hand leads to sound writes if and only if the wipe was not harmful, or the packet is all zeros and its length was read |
| WorkerPool.HandledAsIfAlone | chamlon_server/src/thread_pool.c:129-171 | for any number of workers and any interleaving, a session's datagrams take effect in submission order, its window and accepted numbers are those of a single-threaded handler, and so are its table and writes when no wipe hits the slot in use |
| WorkerPool.OneShard | chamlon_server/src/vpn_server.c:246-268 | no other shard is ever given a datagram of the session |
| WorkerPool.AcceptedOnce | chamlon_server/src/packet_processor.c:83-102 | no interleaving of the unlocked check and update accepts a sequence number twice, also between the two steps |
| WorkerPool.PoolWritesSound | chamlon_server/src/packet_processor.c:102-130 | in every interleaving without a harmful wipe or a mixed entry, from any tables taken over, everything a session writes is a packet its sender cut, none twice |
| PoolRelease.FreeAgainIff | chamlon_server/src/packet_processor.c:112-129 | in every run of the pool an id has no open slot exactly when it was free at the start and never found, or its last find got none, or the slot was written out, refused or wiped since |
| PoolRelease.HarmlessIff | chamlon_server/src/packet_processor.c:112-129 | a run of the pool is free of mixed entries and harmful wipes if and only if ids were released before another packet used them, those left by earlier sessions included, and no wipe was harmful |
| PoolRelease.ApartHarmless | chamlon_server/src/packet_processor.c:112-129 | with ids all different and none left open by an earlier session, only a harmful wipe can do harm |
| PoolRaces.PoolWipeIff | chamlon_server/src/fragment.c:21-36 | in every reachable state, a wipe that lands, followed by the worker finishing its frame, leaves only sound writes if and only if it was not harmful |
| PoolRaces.SweepRace | chamlon_server/src/fragment.c:24-33 | from any initial pool there is a run in which the sweep wipes a slot between fill and test and the session writes an empty packet |
| PoolRaces.FreshRace | chamlon_server/src/fragment.c:48-55 | the same with a packet of one fragment and nothing idle, the sweep testing the slot after it is claimed and before it is stamped |
| WorkerPool.JobsConserved | chamlon_server/src/thread_pool.c:240-309 | each job taken in is finished, in hand, drained or waiting, once and in order, at most 4096 waiting; after the last join every job was finished or drained |
| PoolShutdown.SubmitIff | chamlon_server/src/thread_pool.c:283-318 | a job offered under its key to an open pool is queued last in shard key mod n unless 4096 are waiting, else nothing changes |
| PoolShutdown.OtherJobs | chamlon_server/src/thread_pool.c:156-170 | a worker is done in one step with a job that is no datagram of a known session, leaves exactly when told to quit, and is otherwise ready for the next |
| PoolShutdown.NothingLost | chamlon_server/src/thread_pool.c:129-171 | once all shards are joined every job taken in was handled, in order, unless the worker was told to quit |
| PoolShutdown.ShutdownCompletes | chamlon_server/src/thread_pool.c:240-276 | from any state of any run, closing, letting the workers finish and joining them ends with all joined |
| PoolShutdown.AimsAtIdle | chamlon_server/src/fragment.c:24-33 | in every run the sweep is only about to wipe a slot it found open and idle for more than 20 seconds |
| PoolShutdown.WipesOnce | chamlon_server/src/fragment.c:26-33 | a wipe zeroes the slot aimed at, whatever it holds by then, and nothing else, and each test leads to at most one |
| PoolRaces.RaceWithoutSharding | chamlon_server/src/thread_pool.c:20-28 | from any initial pool whose dispatcher may pick any shard there is a run that accepts a sequence number twice |
| ShardQueue.EnqueueToShard | chamlon_server/src/thread_pool.c:283-309 | 0 and queued at the end, or -1 with 4096 waiting and nothing changed; as in the pool model |
| ShardQueue.TakeJob | chamlon_server/src/thread_pool.c:145-152 | the worker takes the oldest job, as in the pool model |
| LinkedFifo.Fifo.Append | chamlon_server/src/thread_pool.c:294-304 | linking at the tail appends to the contents and keeps the list well formed |
| LinkedFifo.Fifo.RemoveHead | chamlon_server/src/scheduler.c:113-118 | unlinking the head removes the first element, the tail too when it was the last |
| OutQueue.HighIsInteractive | chamlon_client/src/vpn_queue.c:8-61 | HIGH is exactly small packets, ICMP, DNS and pure acknowledgements, and every pure acknowledgement is a small packet already |
| OutQueue.Lane.Push | chamlon_client/src/vpn_queue.c:111-131 | a full lane drops its oldest entry; what left plus what waits is always the push sequence, within the capacity |
| OutQueue.Queue.Push | chamlon_server/src/scheduler.c:79-106 | the lane chosen from the IP packet gets the entry, the other lane is untouched |
| OutQueue.Queue.Pop | chamlon_server/src/scheduler.c:108-123 | the oldest HIGH entry, a NORMAL one only when HIGH is empty, nothing only when both are |
| OutQueue.QueueRun | chamlon_server/src/scheduler.c:79-123 | in every run each lane holds exactly its pushes in order less those gone, within its capacity, and hands them over in push order |
| OutQueue.PushAdds | chamlon_server/src/scheduler.c:79-106 | in any run a push joins the end of its packet's lane, the oldest entry leaving exactly when 64 (256) are waiting, and touches nothing else |
| OutQueue.PopTakes | chamlon_server/src/scheduler.c:108-123 | in any run a pop hands over the oldest waiting HIGH entry, only without one the oldest NORMAL one; the lanes hold at most 64 and 256 |
| OutQueue.FragmentOrder | chamlon_client/src/vpn_queue.c:92-154 | in every run of pushes and pops from any threads, fragments of one IP packet leave in the order they were pushed, whatever falls between them and however many are dropped |
| TaskHeap.SiftUp | chamlon_server/src/scheduler.c:164-170 | moving parents into the hole keeps the tasks and restores heap order |
| TaskHeap.SiftDown | chamlon_server/src/scheduler.c:177-187 | moving earlier children into the hole keeps the tasks and restores heap order |
| TaskHeap.RootIsLeast | chamlon_server/src/scheduler.c:147 | the peeked task is a minimum of the heap |
| TaskHeap.Heap.Push | chamlon_server/src/scheduler.c:156-171 | adds one task to the multiset, through capacity doubling |
| TaskHeap.Heap.Pop | chamlon_server/src/scheduler.c:173-189 | removes and returns a minimum under the lexicographic time order; nothing only from an empty heap |
| TaskHeap.Heap.TakeDue | chamlon_server/src/scheduler.c:329-341 | a task runs only when due and never while an earlier deadline waits; otherwise no task is due |
| Pacing.FloorNeverBinds | chamlon_server/src/scheduler.c:194-200 | for every rate and size a handshake lets through the interval is 8000 * (FRAG + 82) / Mbps ns and the 10 microsecond floor is dead |
| Pacing.IntervalIs | chamlon_server/src/scheduler.c:191-200 | for any rate and size the interval is 8000 * (FRAG + 82) / Mbps ns or 10 microseconds, whichever is longer |
| Pacing.RescheduleBounds | chamlon_server/src/scheduler.c:351-388 | a reschedule advances the deadline by at least the truncated interval, leaves it less than an interval plus 1 ns behind, and never skips past the clock |
| Pacing.CadenceKeptIff | chamlon_server/src/scheduler.c:354-372 | the deadline moves by exactly one interval if and only if the worker is less than one interval late |
| Pacing.CadencePoint | chamlon_server/src/scheduler.c:354-382 | a reschedule lands one truncated interval on and, when that is past, q whole intervals further, on the last cadence point the clock has passed |
| Pacing.RateBound | chamlon_server/src/scheduler.c:333-396 | n sends in a row of a paced log starting within T ns satisfy (n - 3) * I < T + 2, whatever the delays |
| Pacing.OrderIsNanoseconds | chamlon_server/src/scheduler.c:149-154 | on normalised times the comparison is the order of nanoseconds |
| Pacing.Reschedule | chamlon_server/src/scheduler.c:351-388 | the second and nanosecond arithmetic with its carry loops lands on that cadence point |
| ShardPacing.StepOk | chamlon_server/src/scheduler.c:329-401 | adding, taking, putting back and dropping tasks keep one task per session, its deadline the one computed after its last send, and every log paced |
| ShardPacing.ShardRate | chamlon_server/src/scheduler.c:329-401 | in every run of a shard with any number of sessions, n sends in a row of one session within T ns satisfy (n - 3) * I < T + 2 |
| ShardPacing.SteadyRun | chamlon_server/src/scheduler.c:329-401 | with a prompt worker a session sends when it is added and after every truncated interval, for as long as one likes |
| ShardPacing.WorkerTurn | chamlon_server/src/scheduler.c:329-401 | a worker's turn on the array heap, taking the earliest due task and pushing it back rescheduled or freeing it, makes exactly the steps of the shard model |
| ShardPacing.NextRun | chamlon_server/src/scheduler.c:349-393 | the deadline a task is put back with: the cadence point, or without constant bit rate the clock plus 10 seconds |
| ShardPacing.TurnOk | chamlon_server/src/scheduler.c:329-401 | such a turn keeps the shard in order |
| ShardPacing.TurnLogs | chamlon_server/src/scheduler.c:340-343 | and makes exactly one send, of the task's session |
| ShardPacing.AddSession | chamlon_server/src/scheduler.c:435-447 | a new session's task joins the array heap, due at once, as in the shard model |
| RateLimiter.Limiter.FindOrCreate | chamlon_server/src/rate_limiter.c:83-113 | found and stamped, or appended with full buckets, or refused by a full table |
| RateLimiter.Limiter.Check | chamlon_server/src/rate_limiter.c:136-229 | in place, the verdict and table of the abstract check, for both buckets |
| RateLimiter.Limiter.BlacklistIp | chamlon_server/src/rate_limiter.c:234-248 | the address is banned for 60 seconds if it has or gets an entry |
| RateLimiter.Limiter.Cleanup | chamlon_server/src/rate_limiter.c:39-65 | the two-index compaction is the order-preserving filter, at most every 10 seconds |
| RateBounds.ApplyOk | chamlon_server/src/rate_limiter.c:83-113 | every call keeps one entry per address, the capacity, and token counts within the burst |
| RateBounds.EvictedFull | chamlon_server/src/rate_limiter.c:50-59 | an entry a cleanup drops would have been full anyway |
| RateBounds.KeptFacts | chamlon_server/src/rate_limiter.c:50-59 | a cleanup drops exactly the entries not seen for 300 seconds whose ban is over |
| RateBounds.KeptInOrder | chamlon_server/src/rate_limiter.c:50-59 | it keeps the others in order, each as often as before |
| RateBounds.CleanupWhen | chamlon_server/src/rate_limiter.c:39-65 | a cleanup call does so at most every 10 seconds and otherwise nothing |
| RateBounds.ApplyLevel | chamlon_server/src/rate_limiter.c:118-131 | no call changes any address's token level, except that an approval spends exactly one token; eviction and recreation change none |
| RateBounds.LevelRefills | chamlon_server/src/rate_limiter.c:118-131 | left alone a level grows by exactly 5 handshakes or 1000 packets a second, up to 10 or 2000 |
| RateBounds.CheckAnswers | chamlon_server/src/rate_limiter.c:136-229 | the whole answer of a check: refused by a full table, BLACKLISTED by a running ban, else OK exactly when there is a token, else EXCEEDED up to the 50th (500th) violation |
| RateBounds.ViolationsCounted | chamlon_server/src/rate_limiter.c:163-176 | each refusal for want of tokens counts one violation in 32 bits, an approval none |
| RateBounds.ApprovalBound | chamlon_server/src/rate_limiter.c:136-229 | after any history, in any T seconds an address gets at most 10 + 5T handshake and 2000 + 1000T packet approvals |
| RateBounds.FloodVerdicts | chamlon_server/src/rate_limiter.c:163-176 | in a burst within a second from a new address, with calls about other addresses and cleanups interleaved, 10 (2000) checks pass, the next 50 (500) are refused, all later ones are blacklisted |
| RateBounds.CheckBans | chamlon_server/src/rate_limiter.c:150-176 | a BLACKLISTED answer met a running ban or started one of exactly 60 seconds |
| RateBounds.BanHolds | chamlon_server/src/rate_limiter.c:150-156 | once banned at t, every check of the address before t + 60 answers BLACKLISTED whatever else is called |
| RateBounds.ManualBanIff | chamlon_server/src/rate_limiter.c:234-248 | a manual ban takes effect, for exactly 60 seconds, if and only if the address has an entry or the table has room |
| RateBounds.FullTableIgnoresBan | chamlon_server/src/rate_limiter.c:96-113 | after as many addresses as the table holds were seen, banning one more changes nothing and its next check is only refused |
| SessionTable.RunOk | chamlon_server/src/session.c:41-162 | in every run, with sessions ending at any point of a handshake, active slot i owns 10.10.0.(2 + i) and has parameters in range, and no two active sessions share a client address |
| SessionTable.KeysLeftIff | chamlon_server/src/handshake.c:327-425 | in every run an inactive slot holds keys if and only if a rotation found it active and installed its keys after its session had ended |
| SessionTable.RotatedTooLate | chamlon_server/src/handshake.c:327-425 | a session that expires between the find and the install of its rotation leaves the new keys in an inactive slot |
| SessionTable.VpnIpsDistinct | chamlon_server/src/session.c:89-97 | no two active sessions share a VPN address, and the last byte does not overflow |
| SessionTable.EndWipes | chamlon_server/src/session.c:99-129 | ending a session zeroes its keys, id, VPN address, numbering and activity and touches no other slot |
| SessionTable.RotationInPlace | chamlon_server/src/handshake.c:327-425 | rotating keys keeps slot, VPN address, client address and parameters, restarts numbering and window, stamps the activity, and touches no other slot |
| SessionTable.NewHandshake | chamlon_server/src/handshake.c:176-272 | a new handshake leaves the client exactly one session, at 10.10.0.(2 + i), with the new keys, an unused window and the parameters asked for where in range and the defaults where not, and no other client's session changed |
| SessionTable.RefusedHandshake | chamlon_server/src/handshake.c:150-182 | a handshake refused by the limiter, a full table or failing cryptography starts no session and ends none |
| SessionTable.Sessions.AllocateSlot | chamlon_server/src/session.c:41-50 | the first inactive slot, its replay window zeroed, or none and nothing changed when all are taken |
| SessionTable.Sessions.ByVpnIp | chamlon_server/src/session.c:74-87 | the first active slot with the address, in a reachable table its unique owner |
| SessionTable.Sessions.FreeSession | chamlon_server/src/session.c:99-129 | afterwards the slot is inactive, if it was active its keys, VPN address and numbering are wiped, no other slot changed, and a table in order stays so |
| SessionTable.Sessions.CleanupExpired | chamlon_server/src/session.c:131-162 | exactly the active sessions not heard from for more than 60 seconds end, wiped, and are counted; every other slot is unchanged |
| SessionTable.Sessions.HandleMsg1 | chamlon_server/src/handshake.c:150-277 | in place, the slot effects of a new handshake, parameters clamped, with its refusals and failure paths |
| SessionTable.Sessions.HandleHandshake | chamlon_server/src/packet_processor.c:52-73 | a known client rotates its keys, otherwise or on failure a new handshake is made |
| ControlPlane.StepOk | chamlon_server/src/scheduler.c:340-401 | every step, look-up and key install of a handshake apart, keeps: an issued id has at most one task owed or placed, a live one exactly one, each in its home shard; only the zero id of a session that ended under its handshake may have more |
| ControlPlane.OneTaskPerSession | chamlon_server/src/scheduler.c:435-447 | in every run an active session has at most one task, in shard id[0] mod 4 only, and exactly one when no handshake handler is midway |
| ControlPlane.LookupFrees | chamlon_server/src/scheduler.c:345-401 | the task of an ended or rekeyed session, and every task with the zero id, is freed at its look-up, not put back |
| ControlPlane.EndedForGood | chamlon_server/src/handshake.c:403-427 | an ended or rekeyed id without a task never becomes live or scheduled again |
| ControlPlane.Publishes | chamlon_server/src/handshake.c:403-427 | a handshake that keys an active slot makes its id live, and scheduling puts exactly one task for it into shard id[0] mod 4 |
| ControlPlane.Rekeys | chamlon_server/src/handshake.c:327-427 | a known client's handshake rekeys its slot in place: the new id is live, the old one dead, no other slot touched |
| ControlPlane.Ends | chamlon_server/src/session.c:99-162 | ending a session makes its id dead, and expiry does so exactly after more than 60 seconds |
| ControlPlane.TaskRound | chamlon_server/src/scheduler.c:340-401 | a worker's round on a live session's task takes it out, holds it and puts it back as it was |
| Rehandshake.Client.ShouldAttempt | chamlon_client/src/vpn_handshake.c:281-315 | -1 if and only if five tries failed or the machine had given up; 1 only with the backoff run out; 0 only while a try runs or the backoff does; nothing but the phase changes |
| Rehandshake.Client.TryRehandshake | chamlon_client/src/vpn_handshake.c:325-419 | in place, success resets attempts and backoff and installs keys, failure counts, backs off 2^attempts seconds capped at 60 and keeps the old keys |
| Rehandshake.RehandshakeLaw | chamlon_client/src/vpn_event_loop.c:150-176 | in every run attempts stay in 0..5 and equal the failures in a row, IN_PROGRESS never survives a pass, the backoff is 2^(k-1) below the cap, tries are spaced by it, and keys were replaced exactly as often as a try succeeded |
| Rehandshake.RunActs | chamlon_client/src/vpn_event_loop.c:150-176 | every pass of every run does nothing unless a limit is reached, gives up exactly after five failures in a row, and otherwise tries exactly when the backoff has run out and there is a sender |
| Rehandshake.FiveFailuresSpan | chamlon_client/src/vpn_handshake.c:363-371 | five failures in a row span at least 15 seconds |
| Rehandshake.GivesUpForGood | chamlon_client/src/vpn_handshake.c:285-291 | after five failures no later pass makes another try and FAILED is never left |
| KeyAgreement.KeysMirror | chamlon_client/src/vpn_handshake.c:228-249 | from one exchange both ends derive mirrored keys and the same session id, or both fail |
| KeyAgreement.Correspondence | chamlon_server/src/handshake.c:205-437 | if signatures that verify were made by the server, sent or not, a client that accepted a MSG2 faces a server step for that very MSG1 that installed the same session id with the keys mirrored |
| KeyAgreement.AcceptsIff | chamlon_client/src/vpn_handshake.c:200-261 | a waiting client accepts a MSG2 exactly when its signature verifies and its Diffie-Hellman succeeds; the first derived key sends, the second receives |
| KeyAgreement.ServesIff | chamlon_server/src/handshake.c:197-245 | the server installs keys exactly when its Diffie-Hellman succeeds, the first derived key receiving, and signs then or before |
| KeyAgreement.Completes | chamlon_client/src/vpn_handshake.c:228-261 | after any run, a client that starts, is served and gets the answer undamaged ends with the mirror image of the installed keys if and only if Diffie-Hellman succeeds |

## Left out

- Libsodium, key files, memory zeroing: foreign code; decryption is an input of a datagram, and unforgeability and commuting Diffie-Hellman are hypotheses.
- TUN, sockets, epoll, routes, logging, CPU affinity, metrics, the graphical client and the installer: no logic to prove.
- The byte layout of headers, and frames too short for one: frames arrive parsed. A DATA datagram too short for a session id, and packet types other than DATA and HANDSHAKE, are outside the pool model.
- Reassembly.Table.ReceiveFrame: writes the 2500 bytes there are where the source would read past its buffer; `OverreadIff` says exactly when that is.
- StoreSteps.WipeSafeIff: wipes fall between statements of the worker; one that overlaps a statement, or the kernel's reading of the buffer, is not modelled.
- Key swaps and disconnects while datagrams of the session are in flight on a worker: in the pool model sessions and keys are fixed; the DISCONNECT frame has no effect on the receiver there and is `EndSession` in the control model.
- The handshake handler in all its steps: it looks its client up, keys a slot, and schedules a task, in three steps; within a new handshake the slot is allocated, keyed and published in one. Its sending failure is an `EndSession` that follows.
- Agreement of the client's keys with the server's current keys after a delayed or repeated MSG1, and the unsigned VPN address in MSG2: only the correspondence is stated.
- Delivery guarantees: a NORMAL packet overtaken by more than the window is refused as old, so delivery is stated for frames the window accepts.
- Rounding of doubles in pacing, allocation failures, the client's sender thread and its packet buffer during a rehandshake, queue destruction, round-robin submission and the unused backpressure counters: they would add only easy members.
