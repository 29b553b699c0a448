/** Whole runs of the engines built on the queue: P producers of K events each, one logger, and a
    main thread that joins the producers, waits for the head, clears `running` and joins the logger
    (src/audit_engine.c, src/core128_bench.c and the engines that share their shape). */
module Engine {
  import opened Words
  import opened Mpmc

  datatype Clock = Clock(ingest: int, process: int)

  /** What varies between the engines: the payload of producer t's i-th event, what it adds to the
      profit, and whether the logger counts to P*K or drains until the producers are gone. */
  datatype Program<!T> = Program(
    producers: nat, events: nat, make: (nat, nat, Clock) -> T, profit: T -> int, counted: bool)

  datatype LoggerPc<T> =
    | TestRunning | TestHead | TestTail(h: nat)       // drain loop condition, one load each
    | TestCount | CheckRunning                        // count-bounded loop condition
    | InQueue                                         // inside mpmc_dequeue
    | Report(item: T) | AddProfit(item: T) | AddCount
    | Stopped

  datatype MainPc = JoinWorker(i: nat) | WaitHead | ClearRunning | JoinLogger | Finished

  datatype State<T> = State(
    q: World<T>, next: seq<nat>, running: bool, logger: LoggerPc<T>, main: MainPc,
    log: seq<T>, total: int, executed: nat)

  datatype Move = Producer(t: Tid, clock: Clock, weakFails: bool) | Logger(weakFails: bool) | Main

  function LoopTop<T>(p: Program<T>): LoggerPc<T> {
    if p.counted then TestCount else TestRunning
  }

  function Boot<T>(p: Program<T>, n: nat, blank: T): State<T> {
    State(Start(n, blank), seq(p.producers, i => 0), true, LoopTop(p), JoinWorker(0), [], 0, 0)
  }

  /** The queue operation a move performs, if any. */
  function QueueAction<T>(p: Program<T>, s: State<T>, a: Move): Option<Action<T>> {
    match a
    case Producer(t, clock, weakFails) =>
      if t >= p.producers || t >= |s.next| then None
      else if !PcOf(s.q.m, t).Idle? then Some(Run(t, weakFails))
      else if s.next[t] < p.events then Some(BeginEnqueue(t, p.make(t, s.next[t], clock)))
      else None
    case Logger(weakFails) =>
      if EntersQueue(p, s) then Some(BeginDequeue(p.producers))
      else if s.logger.InQueue? && !PcOf(s.q.m, p.producers).DeqDone? then Some(Run(p.producers, weakFails))
      else None
    case Main => None
  }

  predicate EntersQueue<T>(p: Program<T>, s: State<T>) {
    match s.logger
    case TestRunning => s.running
    case TestTail(h) => h != s.q.m.tail
    case TestCount => s.executed < p.producers * p.events
    case _ => false
  }

  function NextLogger<T>(p: Program<T>, s: State<T>): LoggerPc<T> {
    match s.logger
    case TestRunning => if s.running then InQueue else TestHead
    case TestHead => TestTail(s.q.m.head)
    case TestTail(h) => if h != s.q.m.tail then InQueue else Stopped
    case TestCount => if s.executed < p.producers * p.events then InQueue else Stopped
    case CheckRunning => if s.running then TestCount else Stopped
    case InQueue =>
      (match PcOf(s.q.m, p.producers)
       case DeqDone(Some(x)) => Report(x)
       case DeqDone(None) => if p.counted then CheckRunning else TestRunning
       case _ => InQueue)
    case Report(x) => AddProfit(x)
    case AddProfit(_) => AddCount
    case AddCount => LoopTop(p)
    case Stopped => Stopped
  }

  function Finishes<T>(p: Program<T>, s: State<T>, t: nat): bool {
    t < |s.next| && s.next[t] == p.events && PcOf(s.q.m, t).Idle?
  }

  function NextMain<T>(p: Program<T>, s: State<T>): MainPc {
    match s.main
    case JoinWorker(i) => if i >= p.producers then WaitHead else if Finishes(p, s, i) then JoinWorker(i + 1) else s.main
    case WaitHead => if s.q.m.head < p.producers * p.events then WaitHead else ClearRunning
    case ClearRunning => JoinLogger
    case JoinLogger => if s.logger.Stopped? then Finished else JoinLogger
    case Finished => Finished
  }

  function NextQueue<T>(p: Program<T>, s: State<T>, a: Move): World<T>
    requires Wf(s.q.m)
  {
    match QueueAction(p, s, a)
    case Some(act) => Next(s.q, act)
    case None => s.q
  }

  function Advance<T>(p: Program<T>, s: State<T>, a: Move): State<T>
    requires Wf(s.q.m)
  {
    var q := NextQueue(p, s, a);
    match a
    case Producer(t, _, _) =>
      // the loop index moves on when the enqueue returns
      if t < |s.next| && PcOf(s.q.m, t).EnqPublish? && PcOf(q.m, t).Idle?
      then s.(q := q, next := s.next[t := s.next[t] + 1]) else s.(q := q)
    case Logger(_) =>
      s.(q := q, logger := NextLogger(p, s),
         log := if s.logger.Report? then s.log + [s.logger.item] else s.log,
         total := if s.logger.AddProfit? then s.total + p.profit(s.logger.item) else s.total,
         executed := if s.logger.AddCount? then s.executed + 1 else s.executed)
    case Main =>
      s.(main := NextMain(p, s), running := s.running && !s.main.ClearRunning?)
  }

  function Complete<T>(p: Program<T>, s: State<T>, moves: seq<Move>): (r: State<T>)
    requires Wf(s.q.m)
    ensures Wf(r.q.m)
  {
    if moves == [] then s
    else
      var s1 := Complete(p, s, moves[..|moves| - 1]);
      AdvanceWf(p, s1, moves[|moves| - 1]);
      Advance(p, s1, moves[|moves| - 1])
  }

  lemma AdvanceWf<T>(p: Program<T>, s: State<T>, a: Move)
    requires Wf(s.q.m)
    ensures Wf(Advance(p, s, a).q.m)
  {
    if QueueAction(p, s, a).Some? {
      StepWf(Unbounded, s.q.m, QueueAction(p, s, a).value);
    }
  }

  // ----- sums over what each producer wrote -----

  /** The items whose writer is t, in order. */
  function ByWriter<T>(items: seq<T>, writers: seq<Tid>, t: Tid): (r: seq<T>)
    requires |items| == |writers|
    ensures |r| <= |items|
  {
    if items == [] then [] else
    ByWriter(items[..|items| - 1], writers[..|items| - 1], t) +
    if writers[|items| - 1] == t then [items[|items| - 1]] else []
  }

  lemma ByWriterAppend<T>(items: seq<T>, writers: seq<Tid>, t: Tid, x: T, u: Tid)
    requires |items| == |writers|
    ensures ByWriter(items + [x], writers + [u], t) == ByWriter(items, writers, t) + if u == t then [x] else []
  {
    assert (items + [x])[..|items|] == items && (writers + [u])[..|items|] == writers;
  }

  function Sum<T>(items: seq<T>, value: T -> int): int {
    if items == [] then 0 else Sum(items[..|items| - 1], value) + value(items[|items| - 1])
  }

  function SumByWriter<T>(items: seq<T>, writers: seq<Tid>, producers: nat, value: T -> int): int
    requires |items| == |writers|
  {
    if producers == 0 then 0
    else SumByWriter(items, writers, producers - 1, value) + Sum(ByWriter(items, writers, producers - 1), value)
  }

  lemma SumAppend<T>(items: seq<T>, x: T, value: T -> int)
    ensures Sum(items + [x], value) == Sum(items, value) + value(x)
  {
    assert (items + [x])[..|items|] == items;
  }

  lemma {:induction false} SumByWriterAppend<T>(
      items: seq<T>, writers: seq<Tid>, producers: nat, value: T -> int, x: T, u: Tid)
    requires |items| == |writers|
    ensures SumByWriter(items + [x], writers + [u], producers, value)
      == SumByWriter(items, writers, producers, value) + if u < producers then value(x) else 0
  {
    if producers != 0 {
      var t := producers - 1;
      SumByWriterAppend(items, writers, t, value, x, u);
      ByWriterAppend(items, writers, t, x, u);
      SumAppend(ByWriter(items, writers, t), x, value);
      assert ByWriter(items, writers, t) + [] == ByWriter(items, writers, t);
    }
  }

  lemma SumNone<T>(producers: nat, value: T -> int)
    ensures SumByWriter([], [], producers, value) == 0
  {
  }

  /** Every item has one writer, so summing producer by producer sums everything. */
  lemma {:induction false} SumSplits<T>(items: seq<T>, writers: seq<Tid>, producers: nat, value: T -> int)
    requires |items| == |writers| && forall i | 0 <= i < |writers| :: writers[i] < producers
    ensures SumByWriter(items, writers, producers, value) == Sum(items, value)
  {
    if items == [] {
      SumNone(producers, value);
    } else {
      var k := |items| - 1;
      assert items == items[..k] + [items[k]] && writers == writers[..k] + [writers[k]];
      SumByWriterAppend(items[..k], writers[..k], producers, value, items[k], writers[k]);
      SumSplits(items[..k], writers[..k], producers, value);
    }
  }

  lemma {:induction false} SumOnes<T>(items: seq<T>, one: T -> int)
    requires forall x :: one(x) == 1
    ensures Sum(items, one) == |items|
  {
    if items != [] {
      SumOnes(items[..|items| - 1], one);
    }
  }

  /** The first k values of an index function. */
  function Prefix(f: nat -> int, k: nat): int {
    if k == 0 then 0 else Prefix(f, k - 1) + f(k - 1)
  }

  lemma {:induction false} SumOfIndexed<T>(items: seq<T>, value: T -> int, f: nat -> int)
    requires forall j: nat | j < |items| :: value(items[j]) == f(j)
    ensures Sum(items, value) == Prefix(f, |items|)
  {
    if items != [] {
      SumOfIndexed(items[..|items| - 1], value, f);
    }
  }

  // ----- the invariant -----

  ghost predicate MadeBy<T>(p: Program<T>, t: nat, i: nat, x: T) {
    exists c :: x == p.make(t, i, c)
  }

  /** What producer t has put on the queue is its first events, in order. */
  ghost predicate ProducerOk<T>(p: Program<T>, s: State<T>, t: nat)
    requires |s.q.h.items| == |s.q.h.writers| && t < |s.next|
  {
    var mine := ByWriter(s.q.h.items, s.q.h.writers, t);
    var pc := PcOf(s.q.m, t);
    && s.next[t] <= p.events
    && |mine| == s.next[t] + (if pc.EnqCopy? || pc.EnqPublish? then 1 else 0)
    && (forall j: nat | j < |mine| :: MadeBy(p, t, j, mine[j]))
    && (pc.Idle? || ((pc.EnqLoad? || pc.EnqCas? || pc.EnqReload? || pc.EnqCopy? || pc.EnqPublish?)
                     && s.next[t] < p.events && MadeBy(p, t, s.next[t], pc.item)))
  }

  ghost predicate ProducersOk<T>(p: Program<T>, s: State<T>) {
    && |s.q.h.items| == |s.q.h.writers| && |s.next| == p.producers
    && (forall i | 0 <= i < |s.q.h.writers| :: s.q.h.writers[i] < p.producers)
    && (forall t: nat | t < p.producers :: ProducerOk(p, s, t))
  }

  predicate Holds<T>(pc: Pc<T>) {
    pc.DeqCopy? || pc.DeqRelease? || (pc.DeqDone? && pc.result.Some?)
  }

  /** The log is the items in position order, up to the one the logger has in hand. */
  ghost predicate LoggerOk<T>(p: Program<T>, s: State<T>) {
    var pc, k := PcOf(s.q.m, p.producers), |s.log|;
    && s.q.m.head <= |s.q.h.items|
    && (pc.Idle? || pc.DeqLoad? || pc.DeqCas? || pc.DeqReload? || pc.DeqCopy? || pc.DeqRelease? || pc.DeqDone?)
    && (!s.logger.InQueue? ==> pc.Idle? || pc.DeqDone?)
    && (s.logger.InQueue? ==> !pc.Idle?)
    && s.q.m.head == k + (if (s.logger.InQueue? && Holds(pc)) || s.logger.Report? then 1 else 0)
    && s.log == s.q.h.items[..k]
    && (s.logger.InQueue? && (pc.DeqCopy? || pc.DeqRelease?) ==> pc.pos == k)
    && (s.logger.InQueue? && pc.DeqDone? && pc.result.Some? ==> pc.result.value == s.q.h.items[k])
    && (s.logger.Report? ==> s.logger.item == s.q.h.items[k])
    && (s.logger.AddProfit? || s.logger.AddCount? ==> 0 < k)
    && (s.logger.AddProfit? ==> s.logger.item == s.log[k - 1])
    && s.total == Sum(if s.logger.AddProfit? then s.log[..k - 1] else s.log, p.profit)
    && s.executed == (if s.logger.AddProfit? || s.logger.AddCount? then k - 1 else k)
  }

  ghost predicate MainOk<T>(p: Program<T>, s: State<T>) {
    && (match s.main
        case JoinWorker(i) => i <= p.producers && forall t: nat | t < i :: Finishes(p, s, t)
        case _ => forall t: nat | t < p.producers :: Finishes(p, s, t))
    && (s.main.ClearRunning? || s.main.JoinLogger? || s.main.Finished? ==> p.producers * p.events <= s.q.m.head)
    && (!s.running <==> s.main.JoinLogger? || s.main.Finished?)
    && (s.main.Finished? ==> s.logger.Stopped?)
    && (if p.counted then !(s.logger.TestRunning? || s.logger.TestHead? || s.logger.TestTail?)
        else !(s.logger.TestCount? || s.logger.CheckRunning?))
    && (s.logger.TestHead? || s.logger.TestTail? ==> !s.running)
    && (s.logger.TestTail? ==> s.logger.h == s.q.m.head)
    && (s.logger.Stopped? ==> p.producers * p.events <= s.executed)
  }

  ghost predicate EngineInv<T>(p: Program<T>, s: State<T>) {
    Inv(s.q) && ProducersOk(p, s) && LoggerOk(p, s) && MainOk(p, s)
  }

  lemma {:induction false} CountByWriter<T>(items: seq<T>, writers: seq<Tid>, producers: nat, bound: nat, one: T -> int)
    requires |items| == |writers| && forall x :: one(x) == 1
    requires forall t: nat | t < producers :: |ByWriter(items, writers, t)| <= bound
    ensures SumByWriter(items, writers, producers, one) <= producers * bound
  {
    if producers != 0 {
      CountByWriter(items, writers, producers - 1, bound, one);
      SumOnes(ByWriter(items, writers, producers - 1), one);
      assert producers * bound == (producers - 1) * bound + bound;
    }
  }

  /** No more than P*K positions are ever claimed. */
  lemma TailBound<T>(p: Program<T>, s: State<T>)
    requires Inv(s.q) && ProducersOk(p, s)
    ensures s.q.m.tail <= p.producers * p.events
  {
    var one: T -> int := x => 1;
    SumSplits(s.q.h.items, s.q.h.writers, p.producers, one);
    SumOnes(s.q.h.items, one);
    forall t: nat | t < p.producers ensures |ByWriter(s.q.h.items, s.q.h.writers, t)| <= p.events {
      assert ProducerOk(p, s, t);
    }
    CountByWriter(s.q.h.items, s.q.h.writers, p.producers, p.events, one);
  }
}
