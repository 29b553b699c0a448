# Verification of the ring, queue and ledger code

This project models the concurrent rings and queues of the repository, and the state machines that
feed a ledger from them, and proves what they guarantee on every run.

## How the models are built

Each component is a step machine on values. Every atomic load, store or compare-and-exchange is one
step, every plain copy is a separate step (in the byte ring every byte of it), and a run is any
sequence of steps by any threads. Beside the machine stands a class whose methods make the same
updates in place, one access per call. Each method is proved equal to the machine's step, and an
`Execute` loop carries this to whole schedules, so the theorems about runs are theorems about the
objects. Recorded history (which positions were won, which rows were accepted) is kept apart from
the state the code has.

- **MPMC queue** (`Mpmc*.dfy`): `mpmc_enqueue` and `mpmc_dequeue` of `src/audit_engine.c`, the same
  algorithm as in `core128_bench.c`, `shadow_arbitrage.c`, `massive_bench.c` and
  `sovereign_master.c`. `RunThread` has one case per program point. A thread's `pos` may be as stale
  as the schedule makes it and the weak compare-and-exchange may fail whenever the schedule says so.
  The counter width is a parameter: unbounded, or w bits that wrap. Capacity and number of threads
  are arbitrary.  `MpmcCalls.dfy` has what each call answers for.
- **Engines** (`Engine*.dfy`, `AuditEngine.dfy`): P producers of K events, one logger and a `main`
  that joins the producers, waits for the head, clears `running` and joins the logger. `Program`
  holds what differs between the engines; `massive_bench.c` and `sovereign_master.c` are the
  count-bounded and the draining instance with no profit.
- **SPSC byte ring** (`Spsc*.dfy`): `sip_spsc_ring.h`, byte by byte, with counters modulo 2^w.
- **AF_XDP circulation** (`Xdp*.dfy`): the poll loop of `xdp_ingress.c` with the ring sizes and seeding
  of `xdp_socket_setup.c`. The kernel is any environment that keeps the ring contract of the Linux
  AF_XDP documentation ("UMEM Fill Ring", "RX Ring").
- **Ingress metering** (`Ingress.dfy`): `ingress_metering.py` with submissions interleaved at every
  await, a durable vault, a batch writer, stop, restart and crash.
- **Bridge daemon** (`BridgeDaemon.dfy`): `sip_bridge_daemon.c`, which may die before any statement.
- **Lock-guarded log queue** (`LogQueue.dfy`, `LogShutdown.dfy`, `LiveBench.dfy`): `live_bench.c` and
  `engine.c`; `waits` chooses between waiting for room and dropping.
- **Canonical envelope** (`JsonString.dfy`, `Envelope.dfy`): `build_canonical_envelope_bytes`, read
  back by an independent reader of JSON strings and members (sections 4 and 7 of RFC 8259).
- **Lineage chain** (`Lineage.dfy`): the walk of `verify_lineage.py`.

`Words.dfy` holds the arithmetic of counters, words and ring indices.

## Properties that hold only under a condition

- One cell is not enough for the MPMC queue: with capacity 1 a published position looks free to the
  next producer (`MpmcSolo.CapacityOneOverwrites`); all its other theorems are for capacity 2 and up.
- The MPMC queue with w-bit counters is the unbounded queue while no load of a sequence number lags by
  more than 2^(w-1) - capacity and no exchange by 2^w or more. One position beyond the first bound a
  full queue answers "empty" (`MpmcTightness.LagBoundTight`); at the second a stale exchange succeeds
  (`MpmcTightness.ExchangeBoundTight`). `MpmcRefinement.ExchangeExact` and `StaleBeyondBound` give the
  exact conditions for one step.
- The byte ring with w-bit counters keeps order exactly when its capacity divides 2^w or is 0
  (`SpscWrap.PrefixExactly`).
- The late descriptor reads of the poll loop are right, and the frames stay partitioned, on every run
  exactly when no more frames circulate than the RX ring has slots (`XdpIngress.LateReadsExactly`,
  `XdpIngress.PartitionExactly`).
- The daemon's ledger is complete exactly when the trace ids are distinct
  (`BridgeDaemon.CaughtUpExactly`); `BridgeDaemon.RepeatedTrace` is a run that loses an event.
- The telemetry table, the batch and the queue are all that was accepted exactly when no step of the
  run lost rows: a flush that raises with rows in its batch, or the death of a process that holds rows
  (`Ingress.Conservation`). `Ingress.LosingRuns` has a run of each kind.
- The docstring at `security.py:47-51` says that any mutation of a field changes the canonical bytes.
  The bytes are those of another envelope exactly when all fields agree after `strip` and after a high
  surrogate and a low one next to each other are taken as the one character they stand for
  (`Envelope.CanonicalExact`); for fields without such a pair that is equality of the stripped fields
  (`JsonString.JoinExact`). `Envelope.PairCollides` is the case in which the docstring fails.
- The comment at `ingress_metering.py:213` says a timeout flushes the current batch. The condition on
  line 218 does not do that, and the model follows the code: an accepted row stays in a partial batch
  through any number of timeouts (`Ingress.PartialBatchWaits`), rows are flushed exactly when the batch
  is full or stop is set (`Ingress.FlushExactly`), and without a stop the table is always a whole number
  of batches (`Ingress.WholeTable`).

## Model

| member | source | states |
|---|---|---|
| Words.DiffWraps | src/audit_engine.c:64 | the signed difference of two wrapped counters is the true difference exactly when it is within half the word range |
| Words.MaskIsCell | src/audit_engine.c:16 | keeping the low k bits of a counter gives its remainder by the capacity 2^k |
| Mpmc.EnqueueVerdict | src/audit_engine.c:60-75 | in every state with the invariant: for a producer holding any stale position, what below, equal and above in `sequence` versus `pos` mean about the tail and the slot one lap earlier |
| Mpmc.DequeueVerdict | src/audit_engine.c:82-97 | the same for a consumer: below means the head position is unclaimed or unpublished, equal at the head means published, above means overtaken |
| Mpmc.NextInv | src/audit_engine.c:58-101 | every step of any thread, spurious failures included, keeps the invariant tying cell numbers, payloads, claims, owners and stale locals together |
| Mpmc.ExecInv | src/audit_engine.c:58-101 | the invariant holds after every schedule |
| MpmcTheorems.History | src/audit_engine.c:58-101 | the history used by the proofs is exactly what the threads did: the successful exchanges in order, and the items handed back |
| MpmcTheorems.NoSharedCell | src/audit_engine.c:76-77 | two threads between claim and final store are on different positions and different cells, so no payload is written while another thread reads or writes it |
| MpmcTheorems.CasImpliesFresh | src/audit_engine.c:66 | however stale `pos` is, an exchange that would succeed finds the cell still showing the sequence number read before it |
| MpmcTheorems.FifoExactlyOnce | src/audit_engine.c:58-101 | k-th winner of the tail has position k, likewise on the head; whoever returns an item won its position and returns the item put there; no position is returned twice; claims exceed takes by at most the capacity |
| MpmcTheorems.NothingLost | src/audit_engine.c:81-101 | in every state, a taken position has been returned if and only if the thread that took it is no longer between claim and release, however many dequeues are in flight |
| MpmcTheorems.PublishedStays | src/audit_engine.c:76-77 | in every state, a claimed and untaken item is either being written by the thread that claimed it, and not yet readable, or complete in its cell with its published number |
| MpmcTheorems.RealTimeOrder | src/audit_engine.c:58-79 | an enqueue that returns before another begins holds the smaller position |
| MpmcTheorems.LaterCallClaimsLater | src/audit_engine.c:60-66 | a call that begins after a run claims a position beyond everything claimed in it |
| MpmcTheorems.AnswerIsClaimed | src/audit_engine.c:81-101 | every item a thread holds as the answer of a dequeue was claimed at a position that thread won |
| MpmcTheorems.EmptyVerdictExact | src/audit_engine.c:82-97 | at its load of the sequence number a dequeue answers 0 if and only if its position is still the head and is unclaimed or being written by some thread; a retry means overtaken; going on means the claimed item is in the cell (`MpmcCalls.AnswersOnlyFrom`: no other step answers 0) |
| MpmcTheorems.FullVerdictExact | src/audit_engine.c:60-75 | an enqueue yields if and only if its position is still the tail and the position one lap earlier has not been returned; any other retry means overtaken |
| MpmcCalls.AnswersOnlyFrom | src/audit_engine.c:81-101 | on every run and for every step of any thread: a dequeue comes to the answer 0 only by its load, with its position the head and that position unclaimed or being written, so no failed or lost exchange answers 0; it comes to an item only by releasing the position it won, and the item is the one put there |
| MpmcCalls.EveryEnqueuePuts | src/audit_engine.c:58-79 | on every run the items a thread has put are those it called `mpmc_enqueue` with, once each and in order, but for a call still trying |
| MpmcCalls.EveryDequeueAnswers | src/audit_engine.c:81-101 | on every run each dequeue called has answered once, but for the one still running, and a thread has answered with as many items as it won positions, but for the one in hand |
| MpmcCalls.DequeueAnswersAlone | src/audit_engine.c:81-101 | from every reachable state, whatever the others are in the middle of and however stale its position, a dequeue left alone answers within six steps |
| MpmcCalls.EnqueueReturnsAlone | src/audit_engine.c:58-79 | from every reachable state an enqueue left alone returns within six steps, or stands before a position whose slot has not been returned one lap earlier |
| MpmcRefinement.StepWraps | src/audit_engine.c:62-99 | a step with w-bit counters is the wrapped image of the unbounded step when the capacity divides 2^w, a load lags at most 2^(w-1) - capacity and an exchange less than 2^w |
| MpmcRefinement.RunsRefine | src/audit_engine.c:58-101 | the same for whole runs, from any state with the invariant |
| MpmcRefinement.WordQueueRefines | src/audit_engine.c:47-101 | from `init_queue` with a power-of-two capacity: same payloads, same program points, same answers as the unbounded queue |
| MpmcRefinement.StaleBeyondBound | src/audit_engine.c:87-93 | a consumer's word verdict is the true one if and only if its difference is below half a word; otherwise it answers 0 where it should retry |
| MpmcRefinement.ExchangeExact | src/audit_engine.c:66-89 | for any lag, an exchange on words does what it should if and only if it fails spuriously, its position is live, or the words differ; otherwise it wins a stale position |
| MpmcTightness.LagBoundTight | src/audit_engine.c:82-93 | for every power-of-two capacity and larger width, a run exists with all earlier lags in bound that parks one consumer one position beyond it, in front of a full queue, and that consumer answers 0 |
| MpmcTightness.ExchangeBoundTight | src/audit_engine.c:88-90 | a run exists with all earlier lags in bound that parks a consumer before its exchange for a whole word of items, and that exchange succeeds on position 0 |
| MpmcSolo.SoloEnqueue | src/audit_engine.c:58-79 | an enqueue alone on a queue with room appends its item and returns, whatever stale positions others hold |
| MpmcSolo.SoloEnqueueWaits | src/audit_engine.c:69-71 | on a full queue it yields, reloads and leaves the queue as it was |
| MpmcSolo.SoloDequeue | src/audit_engine.c:81-101 | a dequeue alone on a queue that is not empty removes and returns the first item |
| MpmcSolo.SoloDequeueEmpty | src/audit_engine.c:92-93 | on an empty queue it answers 0 |
| MpmcSolo.CapacityOneOverwrites | src/audit_engine.c:58-79 | with one cell, two enqueues in a row leave only the second item in memory |
| MpmcQueue.Queue.constructor | src/audit_engine.c:47-56 | `init_queue`: counters 0, cell i shows i |
| MpmcQueue.Queue.Begin | src/audit_engine.c:60 | the first load of tail or head, as the machine's step |
| MpmcQueue.Queue.EnqueueStep | src/audit_engine.c:61-77 | one access of `mpmc_enqueue` in place equals the machine's step on the whole state |
| MpmcQueue.Queue.DequeueStep | src/audit_engine.c:84-99 | one access of `mpmc_dequeue` in place equals the machine's step on the whole state |
| MpmcQueue.Queue.Execute | src/audit_engine.c:58-101 | the object under any schedule ends where the machine ends |
| MpmcQueue.RunFresh | src/audit_engine.c:47-101 | a fresh w-bit object under any schedule with bounded lag is the wrapped unbounded queue, and every item a thread of the object holds as an answer was claimed at a position that thread won |
| Engine.TailBound | src/audit_engine.c:143-165 | no more than P*K positions are ever claimed |
| EngineRuns.CompleteInv | src/audit_engine.c:103-202 | the engine invariant (queue, what each producer has put, what the logger has in hand, the shutdown handshake) holds after every schedule |
| EngineRuns.FinishedRun | src/audit_engine.c:117-193 | after both joins the log is all items in position order, every producer's K events are in it once in its own order, and the counters are those of the log |
| EngineRuns.Handshake | src/audit_engine.c:117-191 | at every moment of every run: a worker is joined only when its K enqueues have returned, `running` is cleared only after the head has reached P*K, the last join is passed only when the logger has left, and the logger leaves only with all P*K records written and counted |
| EngineRuns.LogIsPrefix | src/audit_engine.c:117-129 | at any time the log is a prefix of the claimed items in position order |
| EngineRuns.Accounting | src/audit_engine.c:117-193 | if an event's profit depends only on its index, every finished run has count P*K and total P times one producer's sum |
| EngineRuns.AuditTotals | src/audit_engine.c:143-191 | the audit engine: total profit P * sum over i < K of 18800 + 150 * (i mod 5), for every interleaving |
| EngineRuns.ShadowTotals | src/shadow_arbitrage.c:144-191 | the shadow engine: P * sum over i < K of 23500 + 100 * (i mod 7) |
| EngineRuns.AuditRecords | src/audit_engine.c:143-164 | the j-th record of each worker in a finished log has number j, buy price 95000000000 + j mod 300, spread 20000 + 150 * (j mod 5) and profit spread - 1200 |
| EngineRuns.ShadowRecords | src/shadow_arbitrage.c:144-164 | in the shadow engine number j, venues 1 and 2, buy price 95000000000 + j mod 500, spread 25000 + 100 * (j mod 7) and profit spread - 1500 |
| EngineRuns.AuditClosedForm | src/audit_engine.c:149-151 | in closed form when K is a multiple of five: P * 95500 * K/5 |
| EngineRuns.ShippedAuditTotal | src/audit_engine.c:15-41 | with the shipped constants the run ends with 12800000 trades and 244480000000, which fits the counter |
| EngineRuns.PerProducerOrder | src/core128_bench.c:112-139 | the finished log restricted to any producer id carries exactly 0, 1, ..., K-1 in order |
| EngineProgress.LoggerCatchesUp | src/audit_engine.c:117-129 | from any state with no producer copying, the logger alone logs everything claimed |
| EngineProgress.OneMoreEvent | src/audit_engine.c:58-79 | on a drained queue any producer inside its enqueue, however stale, claims, copies and publishes |
| EngineFairness.FairRunsFinish | src/audit_engine.c:182-191 | from every reachable state every fair schedule takes `main` past both joins: a bound on the rounds, with a fixed extra for each spurious failure |
| EngineFairness.FairAuditTotals | src/audit_engine.c:143-191 | so every fair schedule of the audit engine ends with count P*K and the profit sum |
| AuditEngine.Machine.constructor | src/audit_engine.c:169-180 | the booted engine, with words large enough for P*K + capacity twice over |
| AuditEngine.Machine.GetReady | src/audit_engine.c:62-66 | in a running engine every comparison's lag is bounded and head and tail never wrap |
| AuditEngine.Machine.OnQueue | src/audit_engine.c:58-101 | a queue access on the word object is the access on the unbounded queue it stands for |
| AuditEngine.Machine.ProducerStep | src/audit_engine.c:143-165 | one access of a worker, in place, is the machine's move and keeps the engine invariant |
| AuditEngine.Machine.LoggerStep | src/audit_engine.c:117-129 | the same for the logger |
| AuditEngine.Machine.MainStep | src/audit_engine.c:182-191 | the same for the main thread |
| AuditEngine.Machine.Execute | src/audit_engine.c:103-202 | any schedule of the object is the machine's run |
| AuditEngine.RunAudit | src/audit_engine.c:169-202 | if `main` gets past both joins, the two counters it reads are P*K and the closed sum |
| SpscRing.ExecInv | sovereign-seed-commons/include/sip_mesh/sip_spsc_ring.h:28-56 | the ring invariant (live slots hold their bytes, partial copies agree so far) holds after every interleaving of byte steps |
| SpscRing.PoppedIsPrefix | sovereign-seed-commons/include/sip_mesh/sip_spsc_ring.h:28-56 | popped elements are always the first pushed ones, byte for byte, at most a capacity behind |
| SpscRing.LiveSlotsDisjoint | sovereign-seed-commons/include/sip_mesh/sip_spsc_ring.h:36-37 | unread elements and the slot being filled occupy pairwise disjoint bytes inside the storage |
| SpscRing.VerdictsExact | sovereign-seed-commons/include/sip_mesh/sip_spsc_ring.h:32-49 | push fails exactly when all slots were unread at its load of head, pop exactly when none was at its load of tail |
| SpscRing.ResultsMatch | sovereign-seed-commons/include/sip_mesh/sip_spsc_ring.h:28-56 | on every run a push answers true exactly at the step that puts its element, a pop answers with exactly the element it takes, and every other answer leaves both records alone |
| SpscWrap.OccupancyExact | sovereign-seed-commons/include/sip_mesh/sip_spsc_ring.h:32 | the w-bit `tail - head` is the true number of unread elements |
| SpscWrap.SlotMapExact | sovereign-seed-commons/include/sip_mesh/sip_spsc_ring.h:36-51 | across the wrap, windows of `capacity` counters fall into distinct slots, and in slot order, each if and only if the capacity divides 2^w |
| SpscWrap.RunsRefine | sovereign-seed-commons/include/sip_mesh/sip_spsc_ring.h:28-56 | a run of the w-bit ring is the wrapped run of the unbounded ring when the capacity is 0 or divides 2^w |
| SpscWrap.WrapOverwrites | sovereign-seed-commons/include/sip_mesh/sip_spsc_ring.h:36-39 | for any other capacity a run exists that pops an element that was not the oldest |
| SpscWrap.PrefixExactly | sovereign-seed-commons/include/sip_mesh/sip_spsc_ring.h:28-56 | every w-bit run pops in order if and only if the capacity is 0 or divides 2^w |
| SpscWrap.WordRingPrefix | sovereign-seed-commons/include/sip_mesh/sip_spsc_ring.h:28-56 | the positive half for one run, with the occupancy at most the capacity |
| SpscWrap.PushRun | sovereign-seed-commons/include/sip_mesh/sip_spsc_ring.h:29-40 | a push on a ring with room, words wrapping included, runs to true with its bytes in the slot and nothing else changed |
| SpscWrap.PopRun | sovereign-seed-commons/include/sip_mesh/sip_spsc_ring.h:44-55 | a pop on a ring that is not empty runs to true with the bytes of the oldest slot and nothing else changed |
| SpscQueue.ByteRing.constructor | sovereign-seed-commons/include/sip_mesh/sip_spsc_ring.h:20-26 | `sip_spsc_init` on the caller's memory |
| SpscQueue.ByteRing.PushStep | sovereign-seed-commons/include/sip_mesh/sip_spsc_ring.h:29-40 | one access (or one byte) of push in place equals the machine's step |
| SpscQueue.ByteRing.PopStep | sovereign-seed-commons/include/sip_mesh/sip_spsc_ring.h:44-55 | one access (or one byte) of pop in place equals the machine's step |
| SpscQueue.ByteRing.Execute | sovereign-seed-commons/include/sip_mesh/sip_spsc_ring.h:28-56 | any interleaving of the object is the machine's run |
| SpscQueue.RunFresh | sovereign-seed-commons/include/sip_mesh/sip_spsc_ring.h:20-56 | a fresh w-bit object under any interleaving pops a prefix of what was pushed |
| XdpIngress.ExecInv | sovereign-seed-commons/sip_remote_handoff/src/xdp_ingress.c:32-84 | frames are conserved and the batch's slots stay intact after every run of loop and kernel |
| XdpIngress.FramesPartition | sovereign-seed-commons/sip_remote_handoff/src/xdp_ingress.c:32-84 | fill ring, kernel, RX ring and application hold each seeded frame in exactly one place and nothing else; between batches the application holds none |
| XdpIngress.RefillHasRoom | sovereign-seed-commons/sip_remote_handoff/src/xdp_ingress.c:69-71 | the fill ring always has room for all the application still owes |
| XdpIngress.LateReads | sovereign-seed-commons/sip_remote_handoff/src/xdp_ingress.c:64-83 | with at most as many frames as RX slots, every address re-read after the release is the one received |
| XdpIngress.LateReadOverwritten | sovereign-seed-commons/sip_remote_handoff/src/xdp_ingress.c:65-75 | with one frame more, a kernel behaviour exists that overwrites a slot before it is re-read |
| XdpIngress.LateReadsExactly | sovereign-seed-commons/sip_remote_handoff/src/xdp_ingress.c:64-83 | the late reads are right on every run if and only if seeded frames do not exceed RX slots |
| XdpIngress.PartitionExactly | sovereign-seed-commons/sip_remote_handoff/src/xdp_ingress.c:64-83 | the frames stay partitioned on every run if and only if seeded frames do not exceed RX slots |
| XdpIngress.CountersExact | sovereign-seed-commons/sip_remote_handoff/src/xdp_ingress.c:42-62 | on every run the packet and byte counters are the number and the total length of the received descriptors long enough for an Ethernet header |
| XdpIngress.BatchBound | sovereign-seed-commons/sip_remote_handoff/src/xdp_ingress.c:36-40 | on every run a batch in work has between one and 64 packets |
| XdpHandle.Handle.constructor | sovereign-seed-commons/sip_remote_handoff/src/xdp_socket_setup.c:56-77 | setup submits one whole fill ring, slot i holding the address of frame i, and leaves the RX ring empty |
| XdpHandle.Handle.PollStep | sovereign-seed-commons/sip_remote_handoff/src/xdp_ingress.c:36-83 | one access of the loop in place equals the machine's step |
| XdpHandle.Handle.Execute | sovereign-seed-commons/sip_remote_handoff/src/xdp_ingress.c:32-84 | any schedule of loop and kernel on the object is the machine's run |
| XdpHandle.Handle.ReceiveBatch | sovereign-seed-commons/sip_remote_handoff/src/xdp_ingress.c:36-65 | n descriptors are read and their slots released, whatever the kernel does in between |
| XdpHandle.Handle.RefillBatch | sovereign-seed-commons/sip_remote_handoff/src/xdp_ingress.c:74-77 | the late reads of a reservation, partial or not, are exactly the addresses received, in order |
| XdpHandle.Handle.ReplenishBatch | sovereign-seed-commons/sip_remote_handoff/src/xdp_ingress.c:68-83 | whatever refusals and partial grants the reservations get, the whole batch is given back, once and in order |
| XdpHandle.Handle.PollIteration | sovereign-seed-commons/sip_remote_handoff/src/xdp_ingress.c:32-84 | an iteration, with any answers to its reservations and any kernel steps between its accesses, moves both counters by n and gives back the n frames received |
| Ingress.AtMostOnce | tollbridge_system/src/tollbridge/ingress_metering.py:155-200 | over all interleavings, restarts and crashes a raw (pubkey, nonce) pair is accepted at most once; the accepted rows are one per accepted call |
| Ingress.VaultOwner | tollbridge_system/src/tollbridge/ingress_metering.py:155-200 | every vault key belongs to exactly one call: accepted, refused for backpressure, in flight, or lost with its process |
| Ingress.ReplayAnswer | tollbridge_system/src/tollbridge/ingress_metering.py:165-167 | a pair accepted before is answered as a replay, also after a restart; a new pair enters the vault |
| Ingress.Screening | tollbridge_system/src/tollbridge/ingress_metering.py:143-153 | on every run each vault owner (lost calls included), each accepted row and each row of queue, batch and table carries a fresh and correctly signed request; a stale call has the answer TIMESTAMP_STALE, a fresh one with a bad signature the reason of its own check, and only the others get any other answer |
| Ingress.RefusedAtOnce | tollbridge_system/src/tollbridge/ingress_metering.py:147-153 | such a refusal comes with the submission and changes nothing but the call's own answer |
| Ingress.AnswersFinal | tollbridge_system/src/tollbridge/ingress_metering.py:127-200 | a call that has its answer, or died with its process, stays as it is through every later step |
| Ingress.VaultAnswer | tollbridge_system/src/tollbridge/ingress_metering.py:155-170 | the vault step fails if and only if the database is closed, answers a replay if and only if some call owns the raw pair, and otherwise makes this call its owner |
| Ingress.BackpressureExactly | tollbridge_system/src/tollbridge/ingress_metering.py:172-200 | a call that owns its nonce is refused if and only if the queue is bounded and holds its bound; otherwise it is accepted and its row is the last of the queue |
| Ingress.DeathIsFinal | tollbridge_system/src/tollbridge/ingress_metering.py:172-200 | a call in flight when the process dies never gets an answer in any later run, and queue and batch are gone while vault and table stay |
| Ingress.DiskOnlyGrows | tollbridge_system/src/tollbridge/ingress_metering.py:43-91 | through stops, restarts and crashes a pair keeps its owner and a row its place |
| Ingress.Conservation | tollbridge_system/src/tollbridge/ingress_metering.py:183-251 | table, batch and queue are all that was accepted, in acceptance order, if and only if no step of the run was a raising flush with rows or a death with rows in memory |
| Ingress.LossRun | tollbridge_system/src/tollbridge/ingress_metering.py:231-251 | the batches recorded as lost are exactly those of the losing steps of the schedule |
| Ingress.LosingRuns | tollbridge_system/src/tollbridge/ingress_metering.py:247-251 | under every configuration, a run with a raising flush and a run with a crash in which an accepted row is neither in the table nor in memory |
| Ingress.Pending | tollbridge_system/src/tollbridge/ingress_metering.py:208-222 | unfinished tasks are exactly batch plus queue, never negative, and at most the queue depth plus one batch |
| Ingress.WholeBatches | tollbridge_system/src/tollbridge/ingress_metering.py:218-222 | before stop the table grows only by a whole batch of the batch size |
| Ingress.WholeTable | tollbridge_system/src/tollbridge/ingress_metering.py:208-222 | on every run without a stop the table is a whole number of batches, whatever timeouts it has |
| Ingress.FlushExactly | tollbridge_system/src/tollbridge/ingress_metering.py:218-219 | after a wait the writer flushes rows if and only if the batch is full, or stop is set and there are any; the flush puts exactly the batch into the table |
| Ingress.PartialBatchWaits | tollbridge_system/src/tollbridge/ingress_metering.py:212-218 | with a batch size above one, an accepted row stays in the batch through any number of timeouts |
| Ingress.WriterStays | tollbridge_system/src/tollbridge/ingress_metering.py:208-229 | on every run the database is open exactly while there is a writer, and while stop is not set a started writer stays in its loop |
| Ingress.WriterKeepsUp | tollbridge_system/src/tollbridge/ingress_metering.py:208-222 | from every reachable state of a running engine, at most ten writer steps for each queued row and six more bring every queued row, in order, into the table or a batch that is not full |
| Ingress.RestartServes | tollbridge_system/src/tollbridge/ingress_metering.py:43-91 | an engine started again after a stop or a crash has stop cleared and accepts a genuine submission under a new pair if there is room |
| Ingress.DrainRows | tollbridge_system/src/tollbridge/ingress_metering.py:202-229 | after stop the writer ends with nothing left, whatever its flushes do, and the table is table, batch and queue joined in order if and only if none of them lost rows |
| Ingress.StopDrains | tollbridge_system/src/tollbridge/ingress_metering.py:93-108 | stop on a running engine, no submission running meanwhile: the writer ends, and the table is everything ever accepted if and only if no step of the whole run lost rows |
| Ingress.EveryDrainEnds | tollbridge_system/src/tollbridge/ingress_metering.py:202-229 | the same for every behaviour of the timeouts and flushes: a bound on the writer's steps, and the order kept unless a flush loses rows |
| Ingress.MeteringEngine.constructor | tollbridge_system/src/tollbridge/ingress_metering.py:32-41 | a fresh engine |
| Ingress.MeteringEngine.BeginSubmit | tollbridge_system/src/tollbridge/ingress_metering.py:127-153 | the checks before the first await, in place, with the answers pinned by `Screening` and `RefusedAtOnce` |
| Ingress.MeteringEngine.InsertIdempotencyRecord | tollbridge_system/src/tollbridge/ingress_metering.py:157-200 | the vault insert and the answers of its except clauses, in place |
| Ingress.MeteringEngine.FinishSubmit | tollbridge_system/src/tollbridge/ingress_metering.py:172-189 | `put_nowait` or the backpressure answer, in place |
| Ingress.MeteringEngine.FlushBatch | tollbridge_system/src/tollbridge/ingress_metering.py:238-251 | the executemany, committed or raising, in place |
| Ingress.MeteringEngine.FinishFlush | tollbridge_system/src/tollbridge/ingress_metering.py:219-222 | after its await: one `task_done` per row, and the cleared batch, in place |
| Ingress.MeteringEngine.WriterStep | tollbridge_system/src/tollbridge/ingress_metering.py:208-229 | the writer up to its next await or test, in place |
| Ingress.MeteringEngine.Start | tollbridge_system/src/tollbridge/ingress_metering.py:43-91 | start after construction, stop or crash keeps the vault and the table |
| Ingress.MeteringEngine.Execute | tollbridge_system/src/tollbridge/ingress_metering.py:43-251 | any schedule of the object is the machine's run |
| Ingress.MeteringEngine.Stop | tollbridge_system/src/tollbridge/ingress_metering.py:93-108 | from any state and for any outcome of the flushes stop terminates with the connection closed and the vault untouched; on a running engine nothing is then pending, and the table is the old table, batch and queue in order if and only if no flush lost rows |
| BridgeDaemon.FirstWinsAll | sovereign-seed-commons/sip_bridge_daemon.c:49-52 | inserting under the primary key keeps everything if and only if the trace ids are distinct |
| BridgeDaemon.LedgerThroughCrashes | sovereign-seed-commons/sip_bridge_daemon.c:54-78 | through any crashes and restarts the ledger is the first k published events, later duplicates dropped, with k `tail` or `tail + 1` |
| BridgeDaemon.ExactlyOnce | sovereign-seed-commons/sip_bridge_daemon.c:54-78 | with distinct trace ids it is exactly those events, once each, in order |
| BridgeDaemon.CaughtUpExactly | sovereign-seed-commons/sip_bridge_daemon.c:54-78 | in every reachable state with nothing waiting, the ledger equals the published events if and only if the trace ids are distinct |
| BridgeDaemon.CatchesUp | sovereign-seed-commons/sip_bridge_daemon.c:54-78 | from every reachable state, with any backlog and after a death between any two statements, the daemon (started again if it is down) empties the ring in at most six steps for each waiting event; the ledger then has the first event of each trace id in order, and all of them if the ids are distinct |
| BridgeDaemon.DiesBeforeAdvance | sovereign-seed-commons/sip_bridge_daemon.c:65-77 | on every ring, a run that ends with the daemon down and the one event both committed and still in the ring |
| BridgeDaemon.RepeatedTrace | sovereign-seed-commons/sip_bridge_daemon.c:65-77 | on every ring, a caught-up run in which the second of two events with one trace id is missing from the ledger |
| BridgeDaemon.Bridge.constructor | sovereign-seed-commons/sip_bridge_daemon.c:32-55 | a mapped ring and an empty ledger |
| BridgeDaemon.Bridge.HasRow | sovereign-seed-commons/sip_bridge_daemon.c:49-52 | the primary-key lookup finds a row exactly when one has the trace id |
| BridgeDaemon.Bridge.DaemonStep | sovereign-seed-commons/sip_bridge_daemon.c:57-78 | one statement of the polling loop in place equals the machine's step, about which `CatchesUp` and `LedgerThroughCrashes` are |
| BridgeDaemon.Bridge.Execute | sovereign-seed-commons/sip_bridge_daemon.c:54-78 | producer, daemon, crashes and restarts in any order |
| LogQueue.LogIsAcceptedPrefix | src/engine.c:66-118 | the log is always a prefix of the accepted events in lock order, at most a ring and one event behind |
| LogShutdown.StopsOnlyDrained | src/engine.c:66-67 | on every run, waiting or dropping: the step that stops the logger is its own, `running` is clear, the ring is empty and the log is everything accepted |
| LogShutdown.StoppedHasAll | src/engine.c:66-89 | whatever happens after a state in which `running` is set, a logger that has stopped has written everything accepted in that state |
| LogShutdown.ShutdownDrains | src/engine.c:28-89 | clearing `running` in any reachable state: the logger alone writes every accepted event and stops within eight steps for each slot and five more |
| LogShutdown.LoggerCatchesUp | src/engine.c:66-89 | while `running` is set the logger alone writes every accepted event within six steps for each slot and one more |
| LogShutdown.EveryEventSettles | src/engine.c:96-119 | on every run the events a producer called with are, once each and in order, those its own steps accepted or dropped, but for the one in hand |
| LogShutdown.CallAlone | src/engine.c:96-119 | a call alone with the lock free returns in six steps with its event accepted when a slot is free; on a full ring `log_event` returns in four with the event dropped, and the loop of live_bench gives the lock back with nothing changed |
| LogQueue.MutualExclusion | src/engine.c:101-118 | at most one producer is between taking and giving back the lock |
| LogQueue.NoSharedSlot | src/engine.c:77-113 | the slot being filled is never the slot the logger copies |
| LogQueue.RefusedExactlyWhenFull | src/engine.c:105-116 | an event is dropped (or sent back to wait) if and only if every slot was unread when head was loaded |
| LogQueue.LiveBenchLog | src/live_bench.c:96-134 | the log is always a prefix of 1..TOTAL, and all of it in every finished run, for any capacity; nothing is dropped and `running` is cleared only on an empty ring after the last event |
| LiveBench.FairRunsLogAll | src/live_bench.c:96-134 | from every reachable state every fair schedule finishes, with a bound on its rounds, and the log is then exactly 1..TOTAL |
| LogQueue.SharedLog.ProducerStep | src/engine.c:101-118 | one access of `log_event` in place equals the machine's step |
| LogQueue.SharedLog.LoggerStep | src/engine.c:66-89 | one access of the logger in place equals the machine's step, about which `StopsOnlyDrained` and `LoggerCatchesUp` are |
| LogQueue.SharedLog.Execute | src/engine.c:44-119 | any schedule of the object is the machine's run |
| JsonString.StripExact | tollbridge_system/src/tollbridge/security.py:56-62 | `strip` removes the white space around a trimmed core and nothing else |
| JsonString.StripIff | tollbridge_system/src/tollbridge/security.py:56-62 | `strip` yields a core if and only if it is trimmed and is the text without some white space around it; every text has such a core |
| JsonString.EscapeForm | tollbridge_system/src/tollbridge/security.py:67 | the one spelling of each character: printable ASCII but quote and backslash stands for itself, seven characters have short escapes, every other has one or two backslash-u escapes with lower-case digits of its value |
| JsonString.ReadEscape | tollbridge_system/src/tollbridge/security.py:67 | an independent reader of JSON strings gets back every escaped text, surrogate pairs joined, and what follows it |
| JsonString.EscapeExact | tollbridge_system/src/tollbridge/security.py:67 | two texts are escaped alike if and only if they are equal once surrogate pairs are joined |
| JsonString.JoinExact | tollbridge_system/src/tollbridge/security.py:67 | joining changes exactly the texts with a high surrogate right before a low one, and makes them shorter |
| JsonString.EscapeIsAscii | tollbridge_system/src/tollbridge/security.py:67-68 | escaped strings are printable ASCII, so UTF-8 encoding adds nothing |
| Envelope.CanonicalMembers | tollbridge_system/src/tollbridge/security.py:55-67 | the object name by name, in order: each stripped field under its own name, the timestamp last |
| Envelope.MemberText | tollbridge_system/src/tollbridge/security.py:67 | how a member stands in the bytes: quoted name, colon, quoted escaped value, comma, no space |
| Envelope.NamesAscend | tollbridge_system/src/tollbridge/security.py:67 | the eight names are strictly ascending by code point |
| Envelope.BuildReadsBack | tollbridge_system/src/tollbridge/security.py:55-68 | an independent reader finds under "nonce" the stripped nonce, and likewise under each of the seven names written out |
| Envelope.CanonicalExact | tollbridge_system/src/tollbridge/security.py:43-68 | envelope bytes are equal if and only if the timestamps and all stripped fields are, surrogate pairs joined |
| Envelope.PairCollides | tollbridge_system/src/tollbridge/security.py:47-51 | two envelopes with different stripped nonces and the same bytes: a surrogate pair and the character it stands for |
| Lineage.VerifyLineage | tools/verify_lineage.py:11-37 | passes exactly the valid chains, otherwise reports the first bad entry and which test it fails |
| Lineage.AcceptedExactly | tools/verify_lineage.py:18-37 | a chain passes if and only if it is not empty, every entry stores its own digest, and "prev_hash" is there and is the all-zero value in the first entry and the digest of the entry before in every other |
| Lineage.SameHistory | tools/verify_lineage.py:18-37 | accepted chains with equal hashes at i and j have i == j and the same entries up to there |
| Lineage.FinalHashBinds | tools/verify_lineage.py:18-37 | two accepted chains are identical if and only if their last hashes are |
| Lineage.TamperingDetected | tools/verify_lineage.py:20-37 | replacing any entry of an accepted chain while keeping its last hash is rejected |

## Left out

- Weak-memory reordering: atomics are sequentially consistent steps. Race freedom of the plain copies is proved instead (`NoSharedCell`, `LiveSlotsDisjoint`, `NoSharedSlot`).
- EngineFairness.FairRunsFinish: is about schedules in which every thread keeps moving and spurious failures are finitely many; that the operating system provides one is not modelled.
- CPU pinning, priorities, clocks, sleeping, flushing thresholds, printed text and throughput figures; a clock reading is a parameter of a producer's move.
- The two loads in the drain condition of the loggers are taken head first; C leaves their order open.
- `dif` is modelled as the two's-complement difference of words; C's signed subtraction has no defined wrap, compilers give this one.
- The profit total is an unbounded integer; `ShippedAuditTotal` shows that the shipped constants stay below 2^63.
- AuditEngine.RunAudit: asks for words that hold P*K + capacity twice over, which 64-bit counters do for the shipped constants with room to spare.
- libxdp's cached producer and consumer indices and the 32-bit wrap of ring counters: `peek` and `reserve` may answer any number the ring allows, or nothing, and counters are unbounded.
- Allocation, registration and teardown of UMEM and sockets, and the text of the telemetry line. The packet pointer test is always true for an address inside UMEM, so only the length test remains. Frames are identified by their chunk: the headroom the kernel adds inside a chunk when it publishes, and masks off again when the address comes back, is left out.
- Hash, signature and base58 internals: the verdicts of the freshness and signature checks are parameters of a request, and the lineage digest is any function that never collides and never gives the all-zero value.
- Float formatting: the timestamp's `repr` is any function that is injective on the two timestamps compared.
- SQLite beyond its primary key: busy errors, a partly executed `executemany` and power loss.
- Ingress.StopDrains: is about a stop during which no submission runs; the code gives no guarantee for calls that run while `stop` does.
- Ingress.EveryDrainEnds: has the same limit.
- Ingress.MeteringEngine.Stop: has the same limit, and hands over a queued item at once; other timeouts are covered by `EveryDrainEnds`.
- Ingress.MeteringEngine.Start: is for an engine whose writer is not running; starting a running one would give it a second writer, which is not modelled.
- Cancelling the writer task (its `CancelledError` branch).
- The vault key is the raw (pubkey, nonce) pair while the signed form strips white space, so `AtMostOnce` is about raw pairs.
- Leaving the daemon's loop when `keep_running` is cleared is the crash at its poll; the producer that fills the shared ring is not part of this repository's daemon and is any process that writes a slot only while it is free.
- LogShutdown.StoppedHasAll: is about events accepted while `running` is set; `StopsOnlyDrained` adds those accepted up to the step at which the logger stops. An event that `engine.c` logs after that step stays in the ring.
- Reading the lineage file and the JSON text of its entries: an entry is its stored hash and its other pairs.
- Dashboards, HTTP handlers, packaging and gate scripts, adapters, the config loader, the manifest and router validators, and the single-thread benchmarks under `scripts/`: each is settled by reading one branch or repeats a ring claim in an easier setting.
