/** The engine object: worker threads, logger and main thread over one queue object with w-bit
    counters, all state updated in place.  P*K + capacity stays within half the word range, so no
    counter ever wraps and the queue object is the unbounded queue of the whole-run theorems. */
module AuditEngine {
  import opened Words
  import opened Mpmc
  import opened MpmcRefinement
  import opened MpmcQueue
  import opened Engine
  import opened EngineRuns

  class Machine<T(0)> {
    const program: Program<T>
    const bits: nat
    const queue: Queue<T>
    var next: seq<nat>
    var running: bool
    var logger: LoggerPc<T>
    var main: MainPc
    var log: seq<T>
    var total: int
    var executed: nat
    ghost var world: World<T>

    ghost function View(): State<T>
      reads this
    {
      State(world, next, running, logger, main, log, total, executed)
    }

    /** The queue object holds the words of the unbounded queue. */
    ghost predicate Synced()
      reads this, queue, queue.sequence, queue.data
    {
      && queue.Valid() && queue.width == Bits(bits)
      && queue.View() == Wrap(Bits(bits), world.m)
      && Divides(|world.m.sequence|, Pow2(bits))
      && 2 * (program.producers * program.events + |world.m.sequence|) <= Pow2(bits)
    }

    ghost predicate Valid()
      reads this, queue, queue.sequence, queue.data
    {
      Synced() && EngineInv(program, View())
    }

    constructor (program: Program<T>, k: nat, bits: nat, blank: T)
      requires 1 <= k <= bits && 2 * (program.producers * program.events + Pow2(k)) <= Pow2(bits)
      ensures Valid() && fresh(queue) && fresh(queue.sequence) && fresh(queue.data)
      ensures this.program == program && View() == Boot(program, Pow2(k), blank)
    {
      this.program := program;
      this.bits := bits;
      queue := new Queue(Bits(bits), Pow2(k), blank);
      next := seq(program.producers, i => 0);
      running, logger, main := true, LoopTop(program), JoinWorker(0);
      log, total, executed := [], 0, 0;
      world := Start(Pow2(k), blank);
      new;
      Pow2Grows(1, k);
      PowersDivide(k, bits);
      BootInv(program, Pow2(k), blank);
      WordQueueRefines(k, bits, blank, [], 0);
    }

    /** What an access needs of the invariant: bounded lag, and counters short of their word's end. */
    ghost predicate Ready(a: Option<Action<T>>)
      reads this, queue, queue.sequence, queue.data
    {
      && Synced() && Inv(world) && |next| == program.producers
      && queue.head == world.m.head && queue.tail == world.m.tail
      && (forall t: Tid :: PcOf(queue.View(), t) == WrapPc(Bits(bits), PcOf(world.m, t)))
      && (a.Some? ==> LagOk(bits, world.m, a.value))
    }

    /** No counter of a running engine is near the end of its word. */
    lemma GetReady(a: Option<Action<T>>)
      requires Valid()
      ensures Ready(a)
    {
      TailBound(program, View());
      if a.Some? {
        assert ThreadOk(world, a.value.t);
      }
      ModUnique(world.m.head, Pow2(bits), 0, world.m.head);
      ModUnique(world.m.tail, Pow2(bits), 0, world.m.tail);
    }

    /** One queue access, on the object and on the unbounded queue it stands for. */
    method OnQueue(a: Action<T>)
      requires Ready(Some(a))
      modifies this`world, queue, queue.sequence, queue.data
      ensures Synced() && world == Next(old(world), a)
    {
      StepWraps(bits, world, a);
      WrapGoto(bits, world.m, a.t, Idle);
      StepWf(Unbounded, world.m, a);
      var pc := if a.t in queue.threads then queue.threads[a.t] else Idle;
      if !a.Run? {
        queue.Begin(a);
      } else if Enqueueing(pc) {
        queue.EnqueueStep(a.t, a.weakFails);
      } else if Dequeueing(pc) {
        queue.DequeueStep(a.t, a.weakFails);
      }
      world := Next(world, a);
    }

    /** The next access of worker t: begin an enqueue, or one step inside it. */
    method ProducerStep(t: Tid, clock: Clock, weakFails: bool)
      requires Valid()
      modifies this`next, this`world, queue, queue.sequence, queue.data
      ensures Valid() && View() == Advance(program, old(View()), Producer(t, clock, weakFails))
    {
      ProducerMove(program, View(), Producer(t, clock, weakFails));
      GetReady(QueueAction(program, View(), Producer(t, clock, weakFails)));
      ProducerAccess(t, clock, weakFails);
    }

    method ProducerAccess(t: Tid, clock: Clock, weakFails: bool)
      requires Ready(QueueAction(program, View(), Producer(t, clock, weakFails)))
      modifies this`next, this`world, queue, queue.sequence, queue.data
      ensures Synced() && View() == Advance(program, old(View()), Producer(t, clock, weakFails))
    {
      if t < program.producers {
        var pc := if t in queue.threads then queue.threads[t] else Idle;
        assert PcOf(queue.View(), t) == pc;
        if !pc.Idle? {
          OnQueue(Run(t, weakFails));
          if pc.EnqPublish? {
            next := next[t := next[t] + 1];
          }
        } else if next[t] < program.events {
          OnQueue(BeginEnqueue(t, program.make(t, next[t], clock)));
        }
      }
    }

    /** The next access of the logger. */
    method LoggerStep(weakFails: bool)
      requires Valid()
      modifies this`logger, this`log, this`total, this`executed, this`world, queue, queue.sequence, queue.data
      ensures Valid() && View() == Advance(program, old(View()), Logger(weakFails))
    {
      LoggerMove(program, View(), weakFails);
      GetReady(QueueAction(program, View(), Logger(weakFails)));
      LoggerAccess(weakFails);
    }

    method LoggerAccess(weakFails: bool)
      requires Ready(QueueAction(program, View(), Logger(weakFails)))
      modifies this`logger, this`log, this`total, this`executed, this`world, queue, queue.sequence, queue.data
      ensures Synced() && View() == Advance(program, old(View()), Logger(weakFails))
    {
      var enter := LoggerTest();
      var pc := if program.producers in queue.threads then queue.threads[program.producers] else Idle;
      assert PcOf(queue.View(), program.producers) == pc;
      if enter {
        EnterQueue(weakFails);
      } else if logger.InQueue? && !pc.DeqDone? {
        OnQueue(Run(program.producers, weakFails));
      } else {
        LoggerLocal(weakFails);
      }
    }

    method EnterQueue(weakFails: bool)
      requires EntersQueue(program, View()) && Ready(Some(BeginDequeue(program.producers)))
      modifies this`logger, this`world, queue, queue.sequence, queue.data
      ensures Synced() && View() == Advance(program, old(View()), Logger(weakFails))
    {
      OnQueue(BeginDequeue(program.producers));
      logger := InQueue;
    }

    /** Whether the loop condition sends the logger into `mpmc_dequeue`. */
    method LoggerTest() returns (enter: bool)
      requires queue.tail == world.m.tail
      ensures enter <==> EntersQueue(program, View())
    {
      match logger
      case TestRunning => enter := running;
      case TestTail(h) => enter := h != queue.tail;
      case TestCount => enter := executed < program.producers * program.events;
      case _ => enter := false;
    }

    /** The logger's steps that do not touch the cells. */
    method LoggerLocal(weakFails: bool)
      requires Ready(None) && QueueAction(program, View(), Logger(weakFails)).None?
      modifies this`logger, this`log, this`total, this`executed
      ensures View() == Advance(program, old(View()), Logger(weakFails))
    {
      match logger
      case TestRunning => logger := TestHead;
      case TestHead => logger := TestTail(queue.head);
      case TestTail(_) => logger := Stopped;
      case TestCount => logger := Stopped;
      case CheckRunning => logger := if running then TestCount else Stopped;
      case InQueue =>
        assert PcOf(queue.View(), program.producers).DeqDone?;
        match queue.threads[program.producers].result {
          case Some(x) => logger := Report(x);
          case None => logger := if program.counted then CheckRunning else TestRunning;
        }
      case Report(x) =>
        log := log + [x];
        logger := AddProfit(x);
      case AddProfit(x) =>
        total := total + program.profit(x);
        logger := AddCount;
      case AddCount =>
        executed := executed + 1;
        logger := LoopTop(program);
      case Stopped =>
    }

    /** The next access of the main thread. */
    method MainStep()
      requires Valid()
      modifies this`main, this`running
      ensures Valid() && View() == Advance(program, old(View()), Main)
    {
      MainMove(program, View());
      GetReady(None);
      MainLocal();
    }

    method MainLocal()
      requires Ready(None)
      modifies this`main, this`running
      ensures View() == Advance(program, old(View()), Main)
    {
      match main
      case JoinWorker(i) =>
        if i >= program.producers {
          main := WaitHead;
        } else if next[i] == program.events && (i !in queue.threads || queue.threads[i].Idle?) {
          main := JoinWorker(i + 1);
        }
      case WaitHead =>
        if queue.head >= program.producers * program.events { main := ClearRunning; }
      case ClearRunning =>
        running := false;
        main := JoinLogger;
      case JoinLogger =>
        if logger.Stopped? { main := Finished; }
      case Finished =>
    }

    method Execute(moves: seq<Move>)
      requires Valid()
      modifies this`next, this`running, this`logger, this`main, this`log, this`total, this`executed, this`world
      modifies queue, queue.sequence, queue.data
      ensures Valid() && View() == Complete(program, old(View()), moves)
    {
      for i := 0 to |moves|
        invariant Valid() && View() == Complete(program, old(View()), moves[..i])
      {
        assert moves[..i + 1][..i] == moves[..i];
        match moves[i]
        case Producer(t, clock, weakFails) => ProducerStep(t, clock, weakFails);
        case Logger(weakFails) => LoggerStep(weakFails);
        case Main => MainStep();
      }
      assert moves[..|moves|] == moves;
    }
  }

  /** Any scheduling of the audit engine on a machine whose words hold P*K + capacity twice over:
      if `main` gets past both joins, the counters it prints are these. */
  method RunAudit(producers: nat, events: nat, k: nat, bits: nat, blank: Trade, moves: seq<Move>)
      returns (finished: bool, executed: nat, total: int)
    requires 1 <= k <= bits && 2 * (producers * events + Pow2(k)) <= Pow2(bits)
    ensures finished ==> executed == producers * events && total == producers * Prefix(AuditProfit, events)
  {
    var engine := new Machine(Audit(producers, events), k, bits, blank);
    engine.Execute(moves);
    Pow2Grows(1, k);
    AuditTotals(producers, events, Pow2(k), blank, moves);
    finished, executed, total := engine.main.Finished?, engine.executed, engine.total;
  }
}
