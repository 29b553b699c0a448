/** The spin-lock log queue of src/live_bench.c and src/engine.c: any number of producers behind one
    flag lock, one logger.  A producer that finds the ring full waits (live_bench) or drops the
    event (engine). */
module LogQueue {
  import opened Words

  type Tid = nat

  datatype Producer<T> =
    | PIdle
    | Spin(e: T)
    | LoadTail(e: T)
    | LoadHead(e: T, t: nat)
    | Fill(e: T, t: nat)            // writing the slot's fields
    | StoreTail(e: T, t: nat)
    | Unlock
    | UnlockRetry(e: T)             // full: give the lock back and try again

  datatype Logger<T> =
    | TestRunning | TestHead | TestTail(h: nat)     // loop condition
    | LoadHeadC | LoadTailC(h: nat)
    | CopyOut(h: nat) | StoreHead(h: nat, e: T) | Report(e: T)
    | Stopped

  /** `accepted` records the events published by a tail store, `dropped` those refused. */
  datatype Log<T> = Log(
    items: seq<T>, head: nat, tail: nat, running: bool, lock: Option<Tid>,
    producers: map<Tid, Producer<T>>, logger: Logger<T>,
    log: seq<T>, accepted: seq<T>, dropped: seq<T>)

  /** `scratch` is an intermediate content of a slot whose fields are written one by one. */
  datatype Action<T> = Begin(t: Tid, e: T) | Produce(t: Tid, scratch: Option<T>) | Consume | Shutdown

  function Boot<T>(items: seq<T>): Log<T> {
    Log(items, 0, 0, true, None, map[], TestRunning, [], [], [])
  }

  function PcOf<T>(s: Log<T>, t: Tid): Producer<T> {
    if t in s.producers then s.producers[t] else PIdle
  }

  function Goto<T>(s: Log<T>, t: Tid, pc: Producer<T>): Log<T> {
    s.(producers := s.producers[t := pc])
  }

  function Step<T>(waits: bool, s: Log<T>, a: Action<T>): Log<T>
    requires 0 < |s.items|
  {
    match a
    case Begin(t, e) => if PcOf(s, t).PIdle? then Goto(s, t, Spin(e)) else s
    case Produce(t, scratch) => StepProducer(waits, s, t, scratch)
    case Consume => StepLogger(s)
    case Shutdown => s.(running := false)
  }

  function StepProducer<T>(waits: bool, s: Log<T>, t: Tid, scratch: Option<T>): Log<T>
    requires 0 < |s.items|
  {
    match PcOf(s, t)
    case PIdle => s
    case Spin(e) => if s.lock.None? then Goto(s.(lock := Some(t)), t, LoadTail(e)) else s
    case LoadTail(e) => Goto(s, t, LoadHead(e, s.tail))
    case LoadHead(e, tail) =>
      if tail - s.head < |s.items| then Goto(s, t, Fill(e, tail))
      else if waits then Goto(s, t, UnlockRetry(e))
      else Goto(s.(dropped := s.dropped + [e]), t, Unlock)
    case Fill(e, tail) =>
      (match scratch
       case Some(x) => s.(items := s.items[Cell(tail, |s.items|) := x])
       case None => Goto(s.(items := s.items[Cell(tail, |s.items|) := e]), t, StoreTail(e, tail)))
    case StoreTail(e, tail) => Goto(s.(tail := tail + 1, accepted := s.accepted + [e]), t, Unlock)
    case Unlock => Goto(s.(lock := None), t, PIdle)
    case UnlockRetry(e) => Goto(s.(lock := None), t, Spin(e))
  }

  function StepLogger<T>(s: Log<T>): Log<T>
    requires 0 < |s.items|
  {
    match s.logger
    case TestRunning => s.(logger := if s.running then LoadHeadC else TestHead)
    case TestHead => s.(logger := TestTail(s.head))
    case TestTail(h) => s.(logger := if h != s.tail then LoadHeadC else Stopped)
    case LoadHeadC => s.(logger := LoadTailC(s.head))
    case LoadTailC(h) => s.(logger := if h == s.tail then TestRunning else CopyOut(h))
    case CopyOut(h) => s.(logger := StoreHead(h, s.items[Cell(h, |s.items|)]))
    case StoreHead(h, e) => s.(head := h + 1, logger := Report(e))
    case Report(e) => s.(log := s.log + [e], logger := TestRunning)
    case Stopped => s
  }

  function Exec<T>(waits: bool, s: Log<T>, acts: seq<Action<T>>): (r: Log<T>)
    requires 0 < |s.items|
    ensures |r.items| == |s.items|
  {
    if acts == [] then s
    else
      var s1 := Exec(waits, s, acts[..|acts| - 1]);
      StepSize(waits, s1, acts[|acts| - 1]);
      Step(waits, s1, acts[|acts| - 1])
  }

  lemma StepSize<T>(waits: bool, s: Log<T>, a: Action<T>)
    requires 0 < |s.items|
    ensures |Step(waits, s, a).items| == |s.items|
  {
  }

  // ----- the invariant -----

  predicate Critical<T>(pc: Producer<T>) {
    !pc.PIdle? && !pc.Spin?
  }

  ghost predicate ProducerOk<T>(s: Log<T>, t: Tid)
    requires 0 < |s.items|
  {
    && (Critical(PcOf(s, t)) <==> s.lock == Some(t))
    && match PcOf(s, t)
       case LoadHead(_, tail) => tail == s.tail
       case Fill(_, tail) => tail == s.tail < s.head + |s.items|
       case StoreTail(e, tail) => tail == s.tail < s.head + |s.items| && s.items[Cell(tail, |s.items|)] == e
       case _ => true
  }

  ghost predicate ProducersOk<T>(s: Log<T>)
    requires 0 < |s.items|
  {
    forall t: Tid :: ProducerOk(s, t)
  }

  ghost predicate LoggerOk<T>(s: Log<T>)
    requires 0 < |s.items| && s.head <= s.tail == |s.accepted|
  {
    && s.head == |s.log| + (if s.logger.Report? then 1 else 0)
    && s.log == s.accepted[..|s.log|]
    && match s.logger
       case TestTail(h) => h == s.head && !s.running
       case LoadTailC(h) => h == s.head
       case CopyOut(h) => h == s.head < s.tail
       case StoreHead(h, e) => h == s.head < s.tail && e == s.accepted[h]
       case Report(e) => e == s.accepted[|s.log|]
       case TestHead => !s.running
       case Stopped => !s.running
       case _ => true
  }

  ghost predicate SlotsOk<T>(s: Log<T>)
    requires 0 < |s.items| && s.tail == |s.accepted|
  {
    forall p: nat | s.head <= p < s.tail :: s.items[Cell(p, |s.items|)] == s.accepted[p]
  }

  ghost predicate Inv<T>(s: Log<T>) {
    && 0 < |s.items| && s.head <= s.tail <= s.head + |s.items| && |s.accepted| == s.tail
    && SlotsOk(s)
    && ProducersOk(s)
    && LoggerOk(s)
  }

  lemma ProducerStepOk<T>(waits: bool, s: Log<T>, t: Tid, scratch: Option<T>, u: Tid)
    requires Inv(s)
    ensures ProducerOk(StepProducer(waits, s, t, scratch), u)
  {
    assert ProducerOk(s, t) && ProducerOk(s, u);
  }

  /** A slot being filled is not one the logger has still to read. */
  lemma ProducerSlots<T>(waits: bool, s: Log<T>, t: Tid, scratch: Option<T>)
    requires Inv(s)
    ensures var s' := StepProducer(waits, s, t, scratch);
      && s'.head == s.head <= s'.tail == |s'.accepted| <= s.head + |s.items| && s.accepted <= s'.accepted
      && s'.log == s.log && s'.logger == s.logger && s'.running == s.running
      && SlotsOk(s')
  {
    assert ProducerOk(s, t);
    var s' := StepProducer(waits, s, t, scratch);
    forall p: nat | s.head <= p < s'.tail ensures s'.items[Cell(p, |s.items|)] == s'.accepted[p] {
      if p < s.tail && Cell(p, |s.items|) == Cell(s.tail, |s.items|) {
        SameCell(p, s.tail, |s.items|);
      }
    }
  }

  lemma LoggerUnmoved<T>(s: Log<T>, s': Log<T>)
    requires 0 < |s.items| && 0 < |s'.items| && s.head <= s.tail == |s.accepted| && LoggerOk(s)
    requires s'.head == s.head <= s'.tail == |s'.accepted| && s.accepted <= s'.accepted
    requires s'.log == s.log && s'.logger == s.logger && s'.running == s.running
    ensures LoggerOk(s')
  {
    assert s'.accepted[..|s.log|] == s.accepted[..|s.log|];
  }

  lemma ProduceInv<T>(waits: bool, s: Log<T>, t: Tid, scratch: Option<T>)
    requires Inv(s)
    ensures Inv(StepProducer(waits, s, t, scratch))
  {
    var s' := StepProducer(waits, s, t, scratch);
    forall u: Tid ensures ProducerOk(s', u) {
      ProducerStepOk(waits, s, t, scratch, u);
    }
    StepSize(waits, s, Produce(t, scratch));
    ProducerSlots(waits, s, t, scratch);
    LoggerUnmoved(s, s');
    assert SlotsOk(s');
  }

  lemma LoggerStepOk<T>(s: Log<T>)
    requires Inv(s)
    ensures StepLogger(s).head <= s.tail && LoggerOk(StepLogger(s))
  {
    if s.logger.Report? {
      assert s.accepted[..|s.log| + 1] == s.accepted[..|s.log|] + [s.accepted[|s.log|]];
    }
    if s.logger.CopyOut? {
      assert s.items[Cell(s.head, |s.items|)] == s.accepted[s.head];
    }
  }

  /** The logger writes the head and its own locals, nothing the producers own. */
  lemma LoggerFrame<T>(s: Log<T>)
    requires Inv(s)
    ensures var s' := StepLogger(s);
      && s'.items == s.items && s'.tail == s.tail && s'.lock == s.lock && s'.producers == s.producers
      && s'.accepted == s.accepted && s.head <= s'.head
  {
  }

  lemma ProducersStay<T>(s: Log<T>, s': Log<T>)
    requires 0 < |s.items| && ProducersOk(s)
    requires s'.items == s.items && s'.tail == s.tail && s'.lock == s.lock && s'.producers == s.producers
    requires s.head <= s'.head
    ensures ProducersOk(s')
  {
    forall u: Tid ensures ProducerOk(s', u) {
      assert ProducerOk(s, u);
    }
  }

  lemma ConsumeInv<T>(s: Log<T>)
    requires Inv(s)
    ensures Inv(StepLogger(s))
  {
    LoggerStepOk(s);
    LoggerFrame(s);
    ProducersStay(s, StepLogger(s));
  }

  lemma BeginInv<T>(waits: bool, s: Log<T>, t: Tid, e: T)
    requires Inv(s)
    ensures Inv(Step(waits, s, Begin(t, e)))
  {
    var s' := Step(waits, s, Begin(t, e));
    forall u: Tid ensures ProducerOk(s', u) {
      assert ProducerOk(s, u);
    }
  }

  lemma StepInv<T>(waits: bool, s: Log<T>, a: Action<T>)
    requires Inv(s)
    ensures Inv(Step(waits, s, a))
  {
    match a
    case Begin(t, e) => BeginInv(waits, s, t, e);
    case Produce(t, scratch) => ProduceInv(waits, s, t, scratch);
    case Consume => ConsumeInv(s);
    case Shutdown => ProducersStay(s, Step(waits, s, a));
  }

  lemma {:induction false} ExecInv<T>(waits: bool, items: seq<T>, acts: seq<Action<T>>)
    requires 0 < |items|
    ensures Inv(Exec(waits, Boot(items), acts))
  {
    if acts != [] {
      ExecInv(waits, items, acts[..|acts| - 1]);
      StepInv(waits, Exec(waits, Boot(items), acts[..|acts| - 1]), acts[|acts| - 1]);
    }
  }

  // ----- what every run guarantees -----

  /** The written log is always a prefix of the accepted events in lock order, at most a ring and
      one event behind, and complete whenever the logger has stopped on an empty ring. */
  lemma LogIsAcceptedPrefix<T>(waits: bool, items: seq<T>, acts: seq<Action<T>>)
    requires 0 < |items|
    ensures var s := Exec(waits, Boot(items), acts);
      && s.log <= s.accepted && |s.accepted| <= |s.log| + |items| + 1
      && (s.logger.TestTail? && s.logger.h == s.tail ==> s.log == s.accepted)
  {
    ExecInv(waits, items, acts);
  }

  /** At most one producer is between taking the lock and giving it back. */
  lemma MutualExclusion<T>(waits: bool, items: seq<T>, acts: seq<Action<T>>, t: Tid, u: Tid)
    requires 0 < |items|
    ensures var s := Exec(waits, Boot(items), acts);
      Critical(PcOf(s, t)) && Critical(PcOf(s, u)) ==> t == u
  {
    ExecInv(waits, items, acts);
    var s := Exec(waits, Boot(items), acts);
    assert ProducerOk(s, t) && ProducerOk(s, u);
  }

  /** The slot a producer fills is not the one the logger copies. */
  lemma NoSharedSlot<T>(waits: bool, items: seq<T>, acts: seq<Action<T>>, t: Tid)
    requires 0 < |items|
    ensures var s := Exec(waits, Boot(items), acts); var pc := PcOf(s, t);
      (pc.Fill? || pc.StoreTail?) && s.logger.CopyOut? ==> Cell(pc.t, |items|) != Cell(s.logger.h, |items|)
  {
    ExecInv(waits, items, acts);
    var s := Exec(waits, Boot(items), acts);
    assert ProducerOk(s, t);
    var pc := PcOf(s, t);
    if (pc.Fill? || pc.StoreTail?) && s.logger.CopyOut? && Cell(pc.t, |items|) == Cell(s.logger.h, |items|) {
      SameCell(pc.t, s.logger.h, |items|);
    }
  }

  /** An event is dropped (or its producer sent back to wait) exactly when, at its load of the head,
      every slot held an event not yet taken. */
  lemma RefusedExactlyWhenFull<T>(waits: bool, items: seq<T>, acts: seq<Action<T>>, t: Tid, scratch: Option<T>)
    requires 0 < |items| && PcOf(Exec(waits, Boot(items), acts), t).LoadHead?
    ensures var s := Exec(waits, Boot(items), acts);
      var s', e := Step(waits, s, Produce(t, scratch)), PcOf(s, t).e;
      && (|s.accepted| - s.head == |items| <==> !PcOf(s', t).Fill?)
      && s'.dropped == (if |s.accepted| - s.head == |items| && !waits then s.dropped + [e] else s.dropped)
  {
    ExecInv(waits, items, acts);
    assert ProducerOk(Exec(waits, Boot(items), acts), t);
  }

  // ----- live_bench: one producer of 1 .. total, drain, stop, join -----

  datatype MainPc = Producing | DrainHead | DrainTail(h: nat) | ClearRunning | Joining | Finished

  datatype Bench = Bench(q: Log<nat>, total: nat, next: nat, main: MainPc)

  datatype Move = Main(scratch: Option<nat>) | Worker

  function Launch(items: seq<nat>, total: nat): Bench {
    Bench(Boot(items), total, 0, Producing)
  }

  function Advance(b: Bench, a: Move): Bench
    requires 0 < |b.q.items|
  {
    match a
    case Worker => b.(q := StepLogger(b.q))
    case Main(scratch) =>
      match b.main
      case Producing =>
        if !PcOf(b.q, 0).PIdle? then b.(q := StepProducer(true, b.q, 0, scratch))
        else if b.next < b.total then b.(q := Step(true, b.q, Begin(0, b.next + 1)), next := b.next + 1)
        else b.(main := DrainHead)
      case DrainHead => b.(main := DrainTail(b.q.head))
      case DrainTail(h) => b.(main := if h != b.q.tail then DrainHead else ClearRunning)
      case ClearRunning => b.(q := b.q.(running := false), main := Joining)
      case Joining => if b.q.logger.Stopped? then b.(main := Finished) else b
      case Finished => b
  }

  function Complete(b: Bench, moves: seq<Move>): (r: Bench)
    requires 0 < |b.q.items|
    ensures |r.q.items| == |b.q.items|
  {
    if moves == [] then b
    else
      var b1 := Complete(b, moves[..|moves| - 1]);
      AdvanceSize(b1, moves[|moves| - 1]);
      Advance(b1, moves[|moves| - 1])
  }

  lemma AdvanceSize(b: Bench, a: Move)
    requires 0 < |b.q.items|
    ensures |Advance(b, a).q.items| == |b.q.items|
  {
  }

  /** The events 1 .. k. */
  function Upto(k: nat): seq<nat> {
    seq(k, i => i + 1)
  }

  lemma UptoGrows(k: nat)
    ensures Upto(k + 1) == Upto(k) + [k + 1]
  {
  }

  ghost predicate BenchInv(b: Bench) {
    var pc := PcOf(b.q, 0);
    && Inv(b.q) && b.next <= b.total
    && (if pc.PIdle? || pc.Unlock? then b.q.accepted == Upto(b.next)
        else 0 < b.next && pc.e == b.next && b.q.accepted == Upto(b.next - 1))
    && (b.main.Producing? || (pc.PIdle? && b.next == b.total))
    && (b.main.DrainTail? ==> b.main.h <= b.q.head)
    && (b.main.ClearRunning? || b.main.Joining? || b.main.Finished? ==> b.q.head == b.q.tail)
    && (!b.q.running <==> b.main.Joining? || b.main.Finished?)
    && (b.main.Finished? ==> b.q.logger.Stopped?)
    && (b.q.logger.Stopped? ==> b.q.head == b.q.tail) && b.q.dropped == []
  }

  lemma MainLogs(b: Bench, scratch: Option<nat>)
    requires BenchInv(b) && b.main.Producing? && !PcOf(b.q, 0).PIdle?
    ensures BenchInv(Advance(b, Main(scratch)))
  {
    assert ProducerOk(b.q, 0);
    ProduceInv(true, b.q, 0, scratch);
    if PcOf(b.q, 0).StoreTail? {
      UptoGrows(b.next - 1);
    }
  }

  lemma MainProduces(b: Bench, scratch: Option<nat>)
    requires BenchInv(b) && b.main.Producing?
    ensures BenchInv(Advance(b, Main(scratch)))
  {
    if !PcOf(b.q, 0).PIdle? {
      MainLogs(b, scratch);
    } else if b.next < b.total {
      BeginInv(true, b.q, 0, b.next + 1);
    }
  }

  lemma AdvanceInv(b: Bench, a: Move)
    requires BenchInv(b)
    ensures BenchInv(Advance(b, a))
  {
    match a
    case Worker => ConsumeInv(b.q);
    case Main(scratch) =>
      match b.main {
        case Producing => MainProduces(b, scratch);
        case ClearRunning => StepInv(true, b.q, Shutdown);
        case _ =>
      }
  }

  lemma {:induction false} CompleteInv(items: seq<nat>, total: nat, moves: seq<Move>)
    requires 0 < |items|
    ensures BenchInv(Complete(Launch(items, total), moves)) && Complete(Launch(items, total), moves).total == total
  {
    if moves == [] {
      assert Upto(0) == [];
      ExecInv(true, items, []);
    } else {
      CompleteInv(items, total, moves[..|moves| - 1]);
      AdvanceInv(Complete(Launch(items, total), moves[..|moves| - 1]), moves[|moves| - 1]);
    }
  }

  /** Every complete run logs exactly 1 .. total in order, for any capacity and interleaving; before
      that the log is a prefix of it.  Nothing is ever dropped, and `running` is cleared only on an
      empty ring after the last event. */
  lemma LiveBenchLog(items: seq<nat>, total: nat, moves: seq<Move>)
    requires 0 < |items|
    ensures var b := Complete(Launch(items, total), moves);
      && b.q.log <= Upto(total) && (b.main.Finished? ==> b.q.log == Upto(total))
      && (!b.q.running ==> b.q.head == b.q.tail == total) && b.q.dropped == []
  {
    CompleteInv(items, total, moves);
    var b := Complete(Launch(items, total), moves);
    assert b.q.accepted == Upto(|b.q.accepted|);
    assert b.q.log == Upto(|b.q.log|);
    assert Upto(total)[..|b.q.log|] == Upto(|b.q.log|);
  }

  // ----- the queue object -----

  class SharedLog<T(0)> {
    const waits: bool
    const items: array<T>
    var head: nat
    var tail: nat
    var running: bool
    var lock: Option<Tid>
    var producers: map<Tid, Producer<T>>
    var logger: Logger<T>
    var log: seq<T>
    ghost var accepted: seq<T>
    ghost var dropped: seq<T>

    ghost function View(): Log<T>
      reads this, items
    {
      Log(items[..], head, tail, running, lock, producers, logger, log, accepted, dropped)
    }

    constructor (waits: bool, items: array<T>)
      ensures this.items == items && this.waits == waits && View() == Boot(items[..])
    {
      this.waits, this.items := waits, items;
      head, tail, running, lock := 0, 0, true, None;
      producers, logger, log, accepted, dropped := map[], TestRunning, [], [], [];
    }

    /** The next access of `log_event` (or of the producing loop of live_bench). */
    method ProducerStep(t: Tid, scratch: Option<T>)
      requires 0 < items.Length && t in producers
      modifies this`tail, this`lock, this`producers, this`accepted, this`dropped, items
      ensures View() == StepProducer(waits, old(View()), t, scratch)
    {
      match producers[t]
      case PIdle =>
      case Spin(e) =>
        if lock.None? {
          lock := Some(t);
          producers := producers[t := LoadTail(e)];
        }
      case LoadTail(e) =>
        producers := producers[t := LoadHead(e, tail)];
      case LoadHead(e, t0) =>
        if t0 - head < items.Length {
          producers := producers[t := Fill(e, t0)];
        } else if waits {
          producers := producers[t := UnlockRetry(e)];
        } else {
          dropped := dropped + [e];
          producers := producers[t := Unlock];
        }
      case Fill(e, t0) =>
        match scratch {
          case Some(x) =>
            items[t0 % items.Length] := x;
          case None =>
            items[t0 % items.Length] := e;
            producers := producers[t := StoreTail(e, t0)];
        }
      case StoreTail(e, t0) =>
        tail := t0 + 1;
        accepted := accepted + [e];
        producers := producers[t := Unlock];
      case Unlock =>
        lock := None;
        producers := producers[t := PIdle];
      case UnlockRetry(e) =>
        lock := None;
        producers := producers[t := Spin(e)];
    }

    /** The next access of `logger_worker`. */
    method LoggerStep()
      requires 0 < items.Length
      modifies this`head, this`logger, this`log
      ensures View() == StepLogger(old(View()))
    {
      match logger
      case TestRunning => logger := if running then LoadHeadC else TestHead;
      case TestHead => logger := TestTail(head);
      case TestTail(h) => logger := if h != tail then LoadHeadC else Stopped;
      case LoadHeadC => logger := LoadTailC(head);
      case LoadTailC(h) => logger := if h == tail then TestRunning else CopyOut(h);
      case CopyOut(h) => logger := StoreHead(h, items[h % items.Length]);
      case StoreHead(h, e) =>
        head := h + 1;
        logger := Report(e);
      case Report(e) =>
        log := log + [e];
        logger := TestRunning;
      case Stopped =>
    }

    method Execute(acts: seq<Action<T>>)
      requires 0 < items.Length
      modifies this, items
      ensures View() == Exec(waits, old(View()), acts)
    {
      for i := 0 to |acts|
        invariant View() == Exec(waits, old(View()), acts[..i])
      {
        assert acts[..i + 1][..i] == acts[..i];
        match acts[i]
        case Begin(t, e) =>
          if t !in producers || producers[t].PIdle? { producers := producers[t := Spin(e)]; }
        case Produce(t, scratch) =>
          if t in producers { ProducerStep(t, scratch); }
        case Consume => LoggerStep();
        case Shutdown => running := false;
      }
      assert acts[..|acts|] == acts;
    }
  }
}
