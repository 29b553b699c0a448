/** Every move keeps the engine invariant, and what a finished run has therefore logged. */
module EngineRuns {
  import opened Words
  import opened Mpmc
  import opened Engine

  lemma BootInv<T>(p: Program<T>, n: nat, blank: T)
    requires 2 <= n
    ensures EngineInv(p, Boot(p, n, blank))
  {
    StartInv(n, blank);
  }

  // ----- what one queue step of a producer or of the logger changes -----

  ghost predicate OthersStay<T>(w: World<T>, w': World<T>, t: Tid) {
    && (forall u: Tid | u != t :: PcOf(w'.m, u) == PcOf(w.m, u))
    && |w'.m.sequence| == |w.m.sequence|
  }

  predicate Enqueueing<T>(pc: Pc<T>) {
    pc.EnqLoad? || pc.EnqCas? || pc.EnqReload? || pc.EnqCopy? || pc.EnqPublish?
  }

  predicate Won<T>(pc: Pc<T>) {
    pc.EnqCopy? || pc.EnqPublish?
  }

  ghost predicate ProducerEffect<T>(w: World<T>, w': World<T>, t: Tid) {
    var pc, pc' := PcOf(w.m, t), PcOf(w'.m, t);
    && Enqueueing(pc) && OthersStay(w, w', t) && w'.m.head == w.m.head
    && (if Won(pc') && !Won(pc)
        then pc.EnqCas? && w'.h.items == w.h.items + [pc.item] && w'.h.writers == w.h.writers + [t]
        else w'.h.items == w.h.items && w'.h.writers == w.h.writers)
    && (if pc.EnqPublish? then pc' == Idle else Enqueueing(pc') && pc'.item == pc.item && (Won(pc) ==> Won(pc')))
  }

  lemma RunProducer<T>(w: World<T>, t: Tid, weakFails: bool)
    requires Inv(w) && Enqueueing(PcOf(w.m, t))
    ensures ProducerEffect(w, Next(w, Run(t, weakFails)), t) && Inv(Next(w, Run(t, weakFails)))
  {
    NextInv(w, Run(t, weakFails));
  }

  lemma BeginProducer<T>(w: World<T>, t: Tid, x: T)
    requires Inv(w) && PcOf(w.m, t).Idle?
    ensures var w' := Next(w, BeginEnqueue(t, x));
      && Inv(w') && OthersStay(w, w', t) && w'.m.head == w.m.head && w'.h == w.h
      && PcOf(w'.m, t).EnqLoad? && PcOf(w'.m, t).item == x
  {
    NextInv(w, BeginEnqueue(t, x));
  }

  predicate Dequeueing<T>(pc: Pc<T>) {
    pc.DeqLoad? || pc.DeqCas? || pc.DeqReload? || pc.DeqCopy? || pc.DeqRelease?
  }

  ghost predicate LoggerEffect<T>(w: World<T>, w': World<T>, t: Tid) {
    var pc, pc' := PcOf(w.m, t), PcOf(w'.m, t);
    && OthersStay(w, w', t) && w'.m.tail == w.m.tail && w'.h.items == w.h.items && w'.h.writers == w.h.writers
    && w'.m.head == w.m.head + (if Holds(pc') && !Holds(pc) then 1 else 0)
    && (Holds(pc') && !Holds(pc) ==> pc' == DeqCopy(w.m.head))
    && (Dequeueing(pc') || pc'.DeqDone?)
    && (Holds(pc) ==> Holds(pc'))
    && (pc.DeqCopy? ==> pc'.DeqRelease? && pc'.pos == pc.pos)
    && (pc.DeqRelease? ==> pc.pos < |w.h.items| && pc' == DeqDone(Some(w.h.items[pc.pos])))
  }

  lemma RunLogger<T>(w: World<T>, t: Tid, weakFails: bool)
    requires Inv(w) && Dequeueing(PcOf(w.m, t))
    ensures LoggerEffect(w, Next(w, Run(t, weakFails)), t) && Inv(Next(w, Run(t, weakFails)))
  {
    assert ThreadOk(w, t);
    NextInv(w, Run(t, weakFails));
  }

  lemma BeginLogger<T>(w: World<T>, t: Tid)
    requires Inv(w) && CanBegin(w.m, t)
    ensures var w' := Next(w, BeginDequeue(t));
      && Inv(w') && OthersStay(w, w', t) && w'.m.head == w.m.head && w'.m.tail == w.m.tail && w'.h == w.h
      && PcOf(w'.m, t).DeqLoad?
  {
    NextInv(w, BeginDequeue(t));
  }

  // ----- producers -----

  /** A queue step of producer t leaves the other producers' books alone. */
  lemma OtherProducer<T>(p: Program<T>, s: State<T>, s': State<T>, t: nat, u: nat)
    requires ProducersOk(p, s) && ProducerEffect(s.q, s'.q, t)
    requires u != t && u < p.producers && |s'.next| == |s.next| && s'.next[u] == s.next[u]
    ensures |s'.q.h.items| == |s'.q.h.writers| && ProducerOk(p, s', u)
  {
    assert ProducerOk(p, s, u);
    if s'.q.h.items != s.q.h.items {
      var pc := PcOf(s.q.m, t);
      ByWriterAppend(s.q.h.items, s.q.h.writers, u, pc.item, t);
      assert ByWriter(s.q.h.items, s.q.h.writers, u) + [] == ByWriter(s.q.h.items, s.q.h.writers, u);
    }
  }

  lemma SameProducer<T>(p: Program<T>, s: State<T>, s': State<T>, t: nat)
    requires ProducersOk(p, s) && ProducerEffect(s.q, s'.q, t)
    requires t < p.producers && |s'.next| == |s.next| && Enqueueing(PcOf(s.q.m, t))
    requires s'.next[t] == s.next[t] + if PcOf(s.q.m, t).EnqPublish? then 1 else 0
    ensures |s'.q.h.items| == |s'.q.h.writers| && ProducerOk(p, s', t)
  {
    assert ProducerOk(p, s, t);
    if s'.q.h.items != s.q.h.items {
      var pc := PcOf(s.q.m, t);
      ByWriterAppend(s.q.h.items, s.q.h.writers, t, pc.item, t);
    }
  }

  /** The logger and the main thread see nothing of a producer's step but new items. */
  lemma ProducerUnseen<T>(p: Program<T>, s: State<T>, s': State<T>, t: nat)
    requires LoggerOk(p, s) && MainOk(p, s) && t < p.producers
    requires OthersStay(s.q, s'.q, t) && s'.q.m.head == s.q.m.head && s.q.h.items <= s'.q.h.items
    requires s' == s.(q := s'.q, next := s'.next)
    requires Finishes(p, s, t) ==> false
    requires |s'.next| == |s.next| && forall u: nat | u < |s.next| && u != t :: s'.next[u] == s.next[u]
    ensures LoggerOk(p, s') && MainOk(p, s')
  {
    assert forall u: nat | u != t :: Finishes(p, s', u) == Finishes(p, s, u);
  }

  lemma ProducerRuns<T>(p: Program<T>, s: State<T>, a: Move)
    requires EngineInv(p, s) && a.Producer? && a.t < p.producers && !PcOf(s.q.m, a.t).Idle?
    ensures EngineInv(p, Advance(p, s, a))
  {
    assert ProducerOk(p, s, a.t);
    RunProducer(s.q, a.t, a.weakFails);
    var q' := Next(s.q, Run(a.t, a.weakFails));
    var s' := Advance(p, s, a);
    assert s'.q == q';
    ProducerBooks(p, s, s', a.t);
  }

  lemma ProducerBooks<T>(p: Program<T>, s: State<T>, s': State<T>, t: nat)
    requires EngineInv(p, s) && t < p.producers && Enqueueing(PcOf(s.q.m, t))
    requires Inv(s'.q) && ProducerEffect(s.q, s'.q, t)
    requires s' == s.(q := s'.q, next := if PcOf(s.q.m, t).EnqPublish? then s.next[t := s.next[t] + 1] else s.next)
    ensures EngineInv(p, s')
  {
    SameProducer(p, s, s', t);
    forall u: nat | u < p.producers ensures ProducerOk(p, s', u) {
      if u != t {
        OtherProducer(p, s, s', t, u);
      }
    }
    ProducerUnseen(p, s, s', t);
  }

  lemma ProducerBegins<T>(p: Program<T>, s: State<T>, a: Move)
    requires EngineInv(p, s) && a.Producer? && a.t < p.producers
    requires PcOf(s.q.m, a.t).Idle? && s.next[a.t] < p.events
    ensures EngineInv(p, Advance(p, s, a))
  {
    var x := p.make(a.t, s.next[a.t], a.clock);
    BeginProducer(s.q, a.t, x);
    var q' := Next(s.q, BeginEnqueue(a.t, x));
    assert Advance(p, s, a) == s.(q := q');
    ProducerBeginBooks(p, s, q', a.t, x);
  }

  lemma ProducerBeginBooks<T>(p: Program<T>, s: State<T>, q': World<T>, t: nat, x: T)
    requires EngineInv(p, s) && t < p.producers && PcOf(s.q.m, t).Idle? && s.next[t] < p.events
    requires Inv(q') && OthersStay(s.q, q', t) && q'.m.head == s.q.m.head && q'.h == s.q.h
    requires PcOf(q'.m, t).EnqLoad? && PcOf(q'.m, t).item == x && MadeBy(p, t, s.next[t], x)
    ensures EngineInv(p, s.(q := q'))
  {
    var s' := s.(q := q');
    forall u: nat | u < p.producers ensures ProducerOk(p, s', u) {
      assert ProducerOk(p, s, u);
    }
    ProducerUnseen(p, s, s', t);
  }

  lemma ProducerMove<T>(p: Program<T>, s: State<T>, a: Move)
    requires EngineInv(p, s) && a.Producer?
    ensures EngineInv(p, Advance(p, s, a))
  {
    if a.t >= p.producers {
      assert !PcOf(s.q.m, a.t).EnqPublish? || a.t >= |s.next|;
    } else if !PcOf(s.q.m, a.t).Idle? {
      ProducerRuns(p, s, a);
    } else if s.next[a.t] < p.events {
      ProducerBegins(p, s, a);
    }
  }

  // ----- the logger -----

  /** The producers and the main thread see nothing of a logger step but the head moving on. */
  lemma LoggerUnseen<T>(p: Program<T>, s: State<T>, s': State<T>)
    requires EngineInv(p, s) && OthersStay(s.q, s'.q, p.producers)
    requires s'.q.h.items == s.q.h.items && s'.q.h.writers == s.q.h.writers && s'.next == s.next
    ensures ProducersOk(p, s') && forall t: nat | t < p.producers :: Finishes(p, s', t) == Finishes(p, s, t)
  {
    forall t: nat | t < p.producers ensures ProducerOk(p, s', t) {
      assert ProducerOk(p, s, t);
    }
  }

  lemma LoggerInQueue<T>(p: Program<T>, s: State<T>, q': World<T>)
    requires EngineInv(p, s) && s.logger.InQueue? && Dequeueing(PcOf(s.q.m, p.producers))
    requires Inv(q') && LoggerEffect(s.q, q', p.producers)
    ensures EngineInv(p, s.(q := q'))
  {
    var s' := s.(q := q');
    LoggerUnseen(p, s, s');
    assert q'.m.head <= q'.m.tail == |q'.h.items|;
  }

  lemma LoggerEnters<T>(p: Program<T>, s: State<T>, q': World<T>)
    requires EngineInv(p, s) && EntersQueue(p, s)
    requires Inv(q') && OthersStay(s.q, q', p.producers) && PcOf(q'.m, p.producers).DeqLoad?
    requires q'.m.head == s.q.m.head && q'.m.tail == s.q.m.tail && q'.h == s.q.h
    ensures EngineInv(p, s.(q := q', logger := InQueue))
  {
    LoggerUnseen(p, s, s.(q := q', logger := InQueue));
  }

  /** Writing the record, then adding its profit. */
  lemma LoggerReports<T>(p: Program<T>, s: State<T>)
    requires EngineInv(p, s) && s.logger.Report?
    ensures EngineInv(p, s.(logger := AddProfit(s.logger.item), log := s.log + [s.logger.item]))
  {
    var s' := s.(logger := AddProfit(s.logger.item), log := s.log + [s.logger.item]);
    LoggerUnseen(p, s, s');
    assert s'.log[..|s.log|] == s.log;
    assert s'.log == s.q.h.items[..|s.log| + 1];
  }

  lemma SumLast<T>(items: seq<T>, value: T -> int)
    requires items != []
    ensures Sum(items, value) == Sum(items[..|items| - 1], value) + value(items[|items| - 1])
  {
  }

  lemma LoggerAddsProfit<T>(p: Program<T>, s: State<T>)
    requires EngineInv(p, s) && s.logger.AddProfit?
    ensures EngineInv(p, s.(logger := AddCount, total := s.total + p.profit(s.logger.item)))
  {
    LoggerUnseen(p, s, s.(logger := AddCount, total := s.total + p.profit(s.logger.item)));
    SumLast(s.log, p.profit);
  }

  /** The loop conditions, the record counter and the return from the queue. */
  lemma LoggerTests<T>(p: Program<T>, s: State<T>)
    requires EngineInv(p, s) && !EntersQueue(p, s) && !s.logger.Report? && !s.logger.AddProfit?
    requires s.logger.InQueue? ==> PcOf(s.q.m, p.producers).DeqDone?
    ensures EngineInv(p, s.(logger := NextLogger(p, s),
                            executed := if s.logger.AddCount? then s.executed + 1 else s.executed))
  {
    var s' := s.(logger := NextLogger(p, s), executed := if s.logger.AddCount? then s.executed + 1 else s.executed);
    LoggerUnseen(p, s, s');
    TailBound(p, s);
  }

  lemma LoggerOnQueue<T>(p: Program<T>, s: State<T>, weakFails: bool)
    requires EngineInv(p, s) && QueueAction(p, s, Logger(weakFails)).Some?
    ensures EngineInv(p, Advance(p, s, Logger(weakFails)))
  {
    if EntersQueue(p, s) {
      BeginLogger(s.q, p.producers);
      var q' := Next(s.q, BeginDequeue(p.producers));
      LoggerEnters(p, s, q');
      assert Advance(p, s, Logger(weakFails)) == s.(q := q', logger := InQueue);
    } else {
      RunLogger(s.q, p.producers, weakFails);
      var q' := Next(s.q, Run(p.producers, weakFails));
      LoggerInQueue(p, s, q');
      assert Advance(p, s, Logger(weakFails)) == s.(q := q');
    }
  }

  lemma LoggerOffQueue<T>(p: Program<T>, s: State<T>, weakFails: bool)
    requires EngineInv(p, s) && QueueAction(p, s, Logger(weakFails)).None?
    ensures EngineInv(p, Advance(p, s, Logger(weakFails)))
  {
    if s.logger.Report? {
      LoggerReports(p, s);
    } else if s.logger.AddProfit? {
      LoggerAddsProfit(p, s);
    } else {
      LoggerTests(p, s);
    }
  }

  lemma LoggerMove<T>(p: Program<T>, s: State<T>, weakFails: bool)
    requires EngineInv(p, s)
    ensures EngineInv(p, Advance(p, s, Logger(weakFails)))
  {
    if QueueAction(p, s, Logger(weakFails)).Some? {
      LoggerOnQueue(p, s, weakFails);
    } else {
      LoggerOffQueue(p, s, weakFails);
    }
  }

  // ----- the main thread -----

  lemma MainMove<T>(p: Program<T>, s: State<T>)
    requires EngineInv(p, s)
    ensures EngineInv(p, Advance(p, s, Main))
  {
    var s' := Advance(p, s, Main);
    forall t: nat | t < p.producers ensures ProducerOk(p, s', t) && Finishes(p, s', t) == Finishes(p, s, t) {
      assert ProducerOk(p, s, t);
    }
  }

  lemma {:induction false} CompleteInv<T>(p: Program<T>, n: nat, blank: T, moves: seq<Move>)
    requires 2 <= n
    ensures EngineInv(p, Complete(p, Boot(p, n, blank), moves))
  {
    if moves == [] {
      BootInv(p, n, blank);
    } else {
      CompleteInv(p, n, blank, moves[..|moves| - 1]);
      var s, a := Complete(p, Boot(p, n, blank), moves[..|moves| - 1]), moves[|moves| - 1];
      match a
      case Producer(_, _, _) => ProducerMove(p, s, a);
      case Logger(weakFails) => LoggerMove(p, s, weakFails);
      case Main => MainMove(p, s);
    }
  }

  // ----- finished runs -----

  /** The log in position order, with the writer of each record. */
  ghost predicate CompleteLog<T>(p: Program<T>, log: seq<T>, writers: seq<Tid>) {
    && |log| == |writers| == p.producers * p.events
    && (forall i | 0 <= i < |writers| :: writers[i] < p.producers)
    && (forall t: nat | t < p.producers ::
          |ByWriter(log, writers, t)| == p.events &&
          forall j: nat | j < p.events :: MadeBy(p, t, j, ByWriter(log, writers, t)[j]))
  }

  /** When both joins have returned, the log holds every event of every producer once, each
      producer's in its own order, and the counters are those of the log. */
  lemma FinishedRun<T>(p: Program<T>, n: nat, blank: T, moves: seq<Move>)
    requires 2 <= n
    ensures var s := Complete(p, Boot(p, n, blank), moves);
      s.main.Finished? ==>
        && s.log == s.q.h.items
        && CompleteLog(p, s.log, s.q.h.writers)
        && s.executed == p.producers * p.events && s.total == Sum(s.log, p.profit)
  {
    CompleteInv(p, n, blank, moves);
    var s := Complete(p, Boot(p, n, blank), moves);
    TailBound(p, s);
    if s.main.Finished? {
      assert s.log == s.q.h.items;
      forall t: nat | t < p.producers
        ensures |ByWriter(s.log, s.q.h.writers, t)| == p.events
        ensures forall j: nat | j < p.events :: MadeBy(p, t, j, ByWriter(s.log, s.q.h.writers, t)[j])
      {
        assert ProducerOk(p, s, t) && Finishes(p, s, t);
      }
    }
  }

  /** Before that, the log is always a prefix of the items in position order. */
  lemma LogIsPrefix<T>(p: Program<T>, n: nat, blank: T, moves: seq<Move>)
    requires 2 <= n
    ensures var s := Complete(p, Boot(p, n, blank), moves);
      s.log <= s.q.h.items && s.executed <= p.producers * p.events
  {
    CompleteInv(p, n, blank, moves);
    TailBound(p, Complete(p, Boot(p, n, blank), moves));
  }

  /** The shutdown handshake, at every moment of every run: the main thread is past the join of a
      worker only if all its enqueues have returned, clears `running` only after the head has reached
      P*K, and is past the last join only if the logger has left; and the logger leaves only with all
      P*K records written and counted. */
  lemma Handshake<T>(p: Program<T>, n: nat, blank: T, moves: seq<Move>)
    requires 2 <= n
    ensures var s := Complete(p, Boot(p, n, blank), moves); var all := p.producers * p.events;
      && |s.next| == p.producers
      && (forall t: nat | t < p.producers && (s.main.JoinWorker? ==> t < s.main.i) ::
            s.next[t] == p.events && PcOf(s.q.m, t).Idle?)
      && (s.main.ClearRunning? || s.main.JoinLogger? || s.main.Finished? ==> all <= s.q.m.head)
      && (s.running <==> s.main.JoinWorker? || s.main.WaitHead? || s.main.ClearRunning?)
      && (s.main.Finished? ==> s.logger.Stopped?)
      && (s.logger.Stopped? ==> s.log == s.q.h.items && |s.log| == s.executed == all)
  {
    CompleteInv(p, n, blank, moves);
    var s := Complete(p, Boot(p, n, blank), moves);
    TailBound(p, s);
    forall t: nat | t < p.producers && (s.main.JoinWorker? ==> t < s.main.i)
      ensures s.next[t] == p.events && PcOf(s.q.m, t).Idle?
    {
      assert Finishes(p, s, t);
    }
  }

  lemma {:induction false} EqualShares<T>(
      items: seq<T>, writers: seq<Tid>, producers: nat, events: nat, value: T -> int, f: nat -> int)
    requires |items| == |writers|
    requires forall t: nat | t < producers ::
      |ByWriter(items, writers, t)| == events &&
      forall j: nat | j < events :: value(ByWriter(items, writers, t)[j]) == f(j)
    ensures SumByWriter(items, writers, producers, value) == producers * Prefix(f, events)
  {
    if producers != 0 {
      EqualShares(items, writers, producers - 1, events, value, f);
      SumOfIndexed(ByWriter(items, writers, producers - 1), value, f);
      var share := Prefix(f, events);
      assert producers * share == (producers - 1) * share + share;
    }
  }

  /** If what an event adds depends only on its index, the total is P times one producer's sum,
      whatever the interleaving. */
  lemma Accounting<T>(p: Program<T>, n: nat, blank: T, moves: seq<Move>, f: nat -> int)
    requires 2 <= n
    requires forall t: nat, i: nat, c :: p.profit(p.make(t, i, c)) == f(i)
    ensures var s := Complete(p, Boot(p, n, blank), moves);
      s.main.Finished? ==>
        s.executed == p.producers * p.events && s.total == p.producers * Prefix(f, p.events)
  {
    FinishedRun(p, n, blank, moves);
    var s := Complete(p, Boot(p, n, blank), moves);
    if s.main.Finished? {
      SumSplits(s.log, s.q.h.writers, p.producers, p.profit);
      forall t: nat, j: nat | t < p.producers && j < p.events
        ensures p.profit(ByWriter(s.log, s.q.h.writers, t)[j]) == f(j)
      {
        assert MadeBy(p, t, j, ByWriter(s.log, s.q.h.writers, t)[j]);
      }
      EqualShares(s.log, s.q.h.writers, p.producers, p.events, p.profit, f);
    }
  }

  // ----- the engines of the repository -----

  datatype Trade = Trade(ingest: int, process: int, buy: nat, sell: nat, profit: int, sequence: nat)

  /** The body of `simulation_worker`'s loop (src/audit_engine.c). */
  function AuditTrade(t: nat, i: nat, c: Clock): Trade {
    var buy := 95000000000 + i % 300;
    var sell := buy + 20000 + (i % 5) * 150;
    Trade(c.ingest, c.process, buy, sell, (sell - buy) - 1200, i)
  }

  datatype VenueTrade = VenueTrade(
    timestamp: int, venueBuy: nat, venueSell: nat, buy: nat, sell: nat, profit: int, sequence: nat)

  /** The body of `market_simulation_worker`'s loop (src/shadow_arbitrage.c). */
  function ShadowTrade(t: nat, i: nat, c: Clock): VenueTrade {
    var buy := 95000000000 + i % 500;
    var sell := buy + 25000 + (i % 7) * 100;
    VenueTrade(c.ingest, 1, 2, buy, sell, (sell - buy) - 1500, i)
  }

  datatype LogEvent = LogEvent(timestamp: int, sequence: nat, producer: nat)

  function Audit(producers: nat, events: nat): Program<Trade> {
    Program(producers, events, AuditTrade, (x: Trade) => x.profit, false)
  }

  function Shadow(producers: nat, events: nat): Program<VenueTrade> {
    Program(producers, events, ShadowTrade, (x: VenueTrade) => x.profit, false)
  }

  function Core128(producers: nat, events: nat): Program<LogEvent> {
    Program(producers, events, (t, i, c: Clock) => LogEvent(c.ingest, i, t), (x: LogEvent) => 0, true)
  }

  function AuditProfit(i: nat): int { 18800 + 150 * (i % 5) }

  function ShadowProfit(i: nat): int { 23500 + 100 * (i % 7) }

  /** Every complete run of the audit engine executes P*K trades and accumulates
      P * (sum over i < K of 18800 + 150 * (i mod 5)). */
  lemma AuditTotals(producers: nat, events: nat, n: nat, blank: Trade, moves: seq<Move>)
    requires 2 <= n
    ensures var s := Complete(Audit(producers, events), Boot(Audit(producers, events), n, blank), moves);
      s.main.Finished? ==>
        s.executed == producers * events && s.total == producers * Prefix(AuditProfit, events)
  {
    Accounting(Audit(producers, events), n, blank, moves, AuditProfit);
  }

  lemma ShadowTotals(producers: nat, events: nat, n: nat, blank: VenueTrade, moves: seq<Move>)
    requires 2 <= n
    ensures var s := Complete(Shadow(producers, events), Boot(Shadow(producers, events), n, blank), moves);
      s.main.Finished? ==>
        s.executed == producers * events && s.total == producers * Prefix(ShadowProfit, events)
  {
    Accounting(Shadow(producers, events), n, blank, moves, ShadowProfit);
  }

  /** And the j-th record of each worker in its log carries these prices and this number. */
  lemma AuditRecords(producers: nat, events: nat, n: nat, blank: Trade, moves: seq<Move>, t: nat, j: nat)
    requires 2 <= n && t < producers && j < events
    ensures var s := Complete(Audit(producers, events), Boot(Audit(producers, events), n, blank), moves);
      s.main.Finished? ==>
        && |s.q.h.writers| == |s.log| && |ByWriter(s.log, s.q.h.writers, t)| == events
        && var r := ByWriter(s.log, s.q.h.writers, t)[j];
           && r.sequence == j && r.buy == 95000000000 + j % 300
           && r.sell - r.buy == 20000 + 150 * (j % 5) && r.profit == r.sell - r.buy - 1200
  {
    var p := Audit(producers, events);
    var s := Complete(p, Boot(p, n, blank), moves);
    FinishedRun(p, n, blank, moves);
    if s.main.Finished? {
      assert MadeBy(p, t, j, ByWriter(s.log, s.q.h.writers, t)[j]);
    }
  }

  lemma ShadowRecords(producers: nat, events: nat, n: nat, blank: VenueTrade, moves: seq<Move>, t: nat, j: nat)
    requires 2 <= n && t < producers && j < events
    ensures var s := Complete(Shadow(producers, events), Boot(Shadow(producers, events), n, blank), moves);
      s.main.Finished? ==>
        && |s.q.h.writers| == |s.log| && |ByWriter(s.log, s.q.h.writers, t)| == events
        && var r := ByWriter(s.log, s.q.h.writers, t)[j];
           && r.sequence == j && r.venueBuy == 1 && r.venueSell == 2 && r.buy == 95000000000 + j % 500
           && r.sell - r.buy == 25000 + 100 * (j % 7) && r.profit == r.sell - r.buy - 1500
  {
    var p := Shadow(producers, events);
    var s := Complete(p, Boot(p, n, blank), moves);
    FinishedRun(p, n, blank, moves);
    if s.main.Finished? {
      assert MadeBy(p, t, j, ByWriter(s.log, s.q.h.writers, t)[j]);
    }
  }

  lemma PrefixStep(f: nat -> int, k: nat)
    ensures Prefix(f, k + 1) == Prefix(f, k) + f(k)
  {
  }

  /** One period of the spread. */
  lemma AuditPeriod(k: nat)
    requires k % 5 == 0
    ensures AuditProfit(k) == 18800 && AuditProfit(k + 1) == 18950 && AuditProfit(k + 2) == 19100
    ensures AuditProfit(k + 3) == 19250 && AuditProfit(k + 4) == 19400
  {
  }

  lemma {:induction false} AuditPrefix(q: nat)
    ensures Prefix(AuditProfit, 5 * q) == 95500 * q
  {
    if q != 0 {
      AuditPrefix(q - 1);
      var k := 5 * (q - 1);
      AuditPeriod(k);
      PrefixStep(AuditProfit, k);
      PrefixStep(AuditProfit, k + 1);
      PrefixStep(AuditProfit, k + 2);
      PrefixStep(AuditProfit, k + 3);
      PrefixStep(AuditProfit, k + 4);
      assert k + 5 == 5 * q;
    }
  }

  /** In closed form, for a number of events that is a multiple of the spread's period. */
  lemma AuditClosedForm(producers: nat, q: nat, n: nat, blank: Trade, moves: seq<Move>)
    requires 2 <= n
    ensures var p := Audit(producers, 5 * q); var s := Complete(p, Boot(p, n, blank), moves);
      s.main.Finished? ==> s.executed == producers * (5 * q) && s.total == producers * (95500 * q)
  {
    AuditTotals(producers, 5 * q, n, blank, moves);
    AuditPrefix(q);
  }

  lemma LongRange()
    ensures 244480000000 < Pow2(63)
  {
    assert Pow2(9) == 512 && Pow2(10) == 1024;
    Pow2Grows(10, 19);
    Pow2Grows(19, 38);
    Pow2Grows(38, 63);
  }

  /** The engine as shipped, 64 producers of 200000 trades over 2^20 cells, ends with one total on
      every interleaving, and that total fits the `atomic_long` that holds it. */
  lemma ShippedAuditTotal(blank: Trade, moves: seq<Move>)
    ensures var p := Audit(64, 200000); var s := Complete(p, Boot(p, Pow2(20), blank), moves);
      s.main.Finished? ==> s.executed == 12800000 && s.total == 244480000000 < Pow2(63)
  {
    Pow2Grows(1, 20);
    AuditClosedForm(64, 40000, Pow2(20), blank, moves);
    LongRange();
  }

  // ----- per-producer order -----

  /** The records that carry producer id t. */
  function OfProducer(log: seq<LogEvent>, t: nat): seq<LogEvent> {
    if log == [] then [] else
    OfProducer(log[..|log| - 1], t) + if log[|log| - 1].producer == t then [log[|log| - 1]] else []
  }

  lemma {:induction false} WriterIsProducer(log: seq<LogEvent>, writers: seq<Tid>, t: nat)
    requires |log| == |writers| && forall i | 0 <= i < |log| :: log[i].producer == writers[i]
    ensures OfProducer(log, t) == ByWriter(log, writers, t)
  {
    if log != [] {
      WriterIsProducer(log[..|log| - 1], writers[..|log| - 1], t);
    }
  }

  /** An item is among the items of its writer. */
  lemma {:induction false} ItemOfWriter<T>(items: seq<T>, writers: seq<Tid>, i: nat)
    requires |items| == |writers| && i < |items|
    ensures items[i] in ByWriter(items, writers, writers[i])
  {
    var k := |items| - 1;
    if i < k {
      ItemOfWriter(items[..k], writers[..k], i);
    }
  }

  /** Restricted to any producer, the complete log carries exactly the sequence numbers
      0, 1, ..., K-1 in that order. */
  lemma PerProducerOrder(producers: nat, events: nat, n: nat, blank: LogEvent, moves: seq<Move>, t: nat)
    requires 2 <= n && t < producers
    ensures var p := Core128(producers, events); var s := Complete(p, Boot(p, n, blank), moves);
      s.main.Finished? ==>
        && |s.log| == producers * events
        && |OfProducer(s.log, t)| == events
        && forall j: nat | j < events :: OfProducer(s.log, t)[j].sequence == j
  {
    var p := Core128(producers, events);
    var s := Complete(p, Boot(p, n, blank), moves);
    FinishedRun(p, n, blank, moves);
    if s.main.Finished? {
      var writers := s.q.h.writers;
      forall i | 0 <= i < |s.log| ensures s.log[i].producer == writers[i] {
        ItemOfWriter(s.log, writers, i);
        var mine := ByWriter(s.log, writers, writers[i]);
        var j: nat :| j < |mine| && mine[j] == s.log[i];
        assert MadeBy(p, writers[i], j, mine[j]);
      }
      WriterIsProducer(s.log, writers, t);
      forall j: nat | j < events ensures OfProducer(s.log, t)[j].sequence == j {
        assert MadeBy(p, t, j, ByWriter(s.log, writers, t)[j]);
      }
    }
  }
}
