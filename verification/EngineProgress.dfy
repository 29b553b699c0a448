/** No run of an engine is ever stuck: from every reachable state, whatever the schedule did before,
    some schedule takes `main` past both joins.  So the totals of finished runs are about something. */
module EngineProgress {
  import opened Words
  import opened Mpmc
  import opened MpmcTheorems
  import opened MpmcSolo
  import opened Engine
  import opened EngineRuns

  // ----- reachability -----

  ghost predicate Reaches<T>(p: Program<T>, s: State<T>, r: State<T>)
    requires Wf(s.q.m)
  {
    exists moves :: Complete(p, s, moves) == r
  }

  lemma ReachesSelf<T>(p: Program<T>, s: State<T>)
    requires Wf(s.q.m)
    ensures Reaches(p, s, s)
  {
    assert Complete(p, s, []) == s;
  }

  lemma {:induction false} CompleteConcat<T>(p: Program<T>, s: State<T>, a: seq<Move>, b: seq<Move>)
    requires Wf(s.q.m)
    ensures Complete(p, s, a + b) == Complete(p, Complete(p, s, a), b)
  {
    if b == [] {
      assert a + b == a;
    } else {
      assert (a + b)[..|a + b| - 1] == a + b[..|b| - 1];
      CompleteConcat(p, s, a, b[..|b| - 1]);
    }
  }

  lemma ReachesTrans<T>(p: Program<T>, s: State<T>, m: State<T>, r: State<T>)
    requires Wf(s.q.m) && Wf(m.q.m) && Reaches(p, s, m) && Reaches(p, m, r)
    ensures Reaches(p, s, r)
  {
    var a :| Complete(p, s, a) == m;
    var b :| Complete(p, m, b) == r;
    CompleteConcat(p, s, a, b);
  }

  lemma ReachesNext<T>(p: Program<T>, s: State<T>, a: Move)
    requires Wf(s.q.m)
    ensures Reaches(p, s, Advance(p, s, a))
  {
    assert [a][..0] == [];
    assert Complete(p, s, [a][..0]) == s;
    assert Complete(p, s, [a]) == Advance(p, s, a);
  }

  // ----- the invariant with no other threads on the queue -----

  ghost predicate ForeignIdle<T>(p: Program<T>, m: Mem<T>) {
    forall t: Tid | t > p.producers :: PcOf(m, t).Idle?
  }

  ghost predicate Live<T>(p: Program<T>, s: State<T>) {
    EngineInv(p, s) && ForeignIdle(p, s.q.m)
  }

  lemma StepOthers<T>(m: Mem<T>, a: Action<T>, u: Tid)
    requires Wf(m) && u != a.t
    ensures PcOf(Step(Unbounded, m, a), u) == PcOf(m, u)
  {
  }

  lemma AdvanceForeign<T>(p: Program<T>, s: State<T>, a: Move)
    requires Wf(s.q.m) && ForeignIdle(p, s.q.m)
    ensures ForeignIdle(p, Advance(p, s, a).q.m)
  {
    var act := QueueAction(p, s, a);
    if act.Some? {
      forall t: Tid | t > p.producers ensures PcOf(Advance(p, s, a).q.m, t).Idle? {
        StepOthers(s.q.m, act.value, t);
      }
    }
  }

  lemma AdvanceLive<T>(p: Program<T>, s: State<T>, a: Move)
    requires Live(p, s)
    ensures Live(p, Advance(p, s, a))
  {
    AdvanceForeign(p, s, a);
    match a
    case Producer(_, _, _) => ProducerMove(p, s, a);
    case Logger(weakFails) => LoggerMove(p, s, weakFails);
    case Main => MainMove(p, s);
  }

  lemma {:induction false} CompleteLive<T>(p: Program<T>, n: nat, blank: T, moves: seq<Move>)
    requires 2 <= n
    ensures Live(p, Complete(p, Boot(p, n, blank), moves))
  {
    if moves == [] {
      BootInv(p, n, blank);
    } else {
      CompleteLive(p, n, blank, moves[..|moves| - 1]);
      AdvanceLive(p, Complete(p, Boot(p, n, blank), moves[..|moves| - 1]), moves[|moves| - 1]);
    }
  }

  // ----- a producer finishes its copy -----

  ghost predicate NoneWon<T>(p: Program<T>, s: State<T>) {
    forall t: nat | t < p.producers :: !Won(PcOf(s.q.m, t))
  }

  /** Only producer t and the queue moved. */
  ghost predicate ByProducer<T>(s: State<T>, r: State<T>, t: Tid) {
    && r == s.(q := r.q, next := r.next) && r.q.m.head == s.q.m.head
    && forall u: Tid | u != t :: PcOf(r.q.m, u) == PcOf(s.q.m, u)
  }

  lemma ProducerAdvance<T>(p: Program<T>, s: State<T>, t: nat) returns (r: State<T>)
    requires Live(p, s) && t < p.producers && !PcOf(s.q.m, t).Idle?
    ensures Live(p, r) && Reaches(p, s, r) && ByProducer(s, r, t)
    ensures r.q == Next(s.q, Run(t, false)) && ProducerEffect(s.q, r.q, t)
  {
    var a := Producer(t, Clock(0, 0), false);
    assert ProducerOk(p, s, t);
    RunProducer(s.q, t, false);
    AdvanceLive(p, s, a);
    ReachesNext(p, s, a);
    r := Advance(p, s, a);
  }

  lemma CopyAdvances<T>(w: World<T>, t: Tid)
    requires Wf(w.m) && Won(PcOf(w.m, t))
    ensures var w' := Next(w, Run(t, false));
      && w'.m.tail == w.m.tail
      && PcOf(w'.m, t) == if PcOf(w.m, t).EnqCopy? then EnqPublish(PcOf(w.m, t).item, PcOf(w.m, t).pos) else Idle
  {
  }

  lemma FinishCopy<T>(p: Program<T>, s: State<T>, t: nat) returns (r: State<T>)
    requires Live(p, s) && t < p.producers
    ensures Live(p, r) && Reaches(p, s, r) && ByProducer(s, r, t)
    ensures !Won(PcOf(r.q.m, t)) && r.q.m.tail == s.q.m.tail
    decreases if PcOf(s.q.m, t).EnqCopy? then 2 else if PcOf(s.q.m, t).EnqPublish? then 1 else 0
  {
    if Won(PcOf(s.q.m, t)) {
      CopyAdvances(s.q, t);
      var m := ProducerAdvance(p, s, t);
      r := FinishCopy(p, m, t);
      ReachesTrans(p, s, m, r);
    } else {
      ReachesSelf(p, s);
      r := s;
    }
  }

  lemma {:induction false} FinishCopies<T>(p: Program<T>, s: State<T>, k: nat) returns (r: State<T>)
    requires Live(p, s) && k <= p.producers
    ensures Live(p, r) && Reaches(p, s, r) && r == s.(q := r.q, next := r.next)
    ensures forall t: nat | t < k :: !Won(PcOf(r.q.m, t))
  {
    if k == 0 {
      ReachesSelf(p, s);
      r := s;
    } else {
      var m := FinishCopies(p, s, k - 1);
      r := FinishCopy(p, m, k - 1);
      ReachesTrans(p, s, m, r);
    }
  }

  // ----- the logger catches up -----

  /** Steps to the next record, at most, while an item waits in the queue or in hand. */
  function LoggerRank<T>(p: Program<T>, s: State<T>): nat {
    var head := s.q.m.head;
    match s.logger
    case Report(_) => 0
    case InQueue =>
      (match PcOf(s.q.m, p.producers)
       case DeqDone(Some(_)) => 1
       case DeqRelease(_, _) => 2
       case DeqCopy(_) => 3
       case DeqCas(pos) => if pos == head then 4 else 6
       case DeqLoad(pos) => if pos == head then 5 else 7
       case DeqReload => 6
       case _ => 14)
    case TestCount => 8
    case TestTail(_) => 8
    case TestHead => 9
    case TestRunning => 10
    case CheckRunning => 11
    case AddCount => 12
    case AddProfit(_) => 13
    case Stopped => 0
  }

  /** Only the logger and the queue's head moved. */
  ghost predicate ByLogger<T>(p: Program<T>, s: State<T>, r: State<T>) {
    && r.next == s.next && r.main == s.main && r.running == s.running && r.q.m.tail == s.q.m.tail
    && forall u: Tid | u != p.producers :: PcOf(r.q.m, u) == PcOf(s.q.m, u)
  }

  /** With no producer copying and nothing in hand the queue is settled. */
  lemma Quiet<T>(p: Program<T>, s: State<T>)
    requires Live(p, s) && NoneWon(p, s) && !(s.logger.InQueue? && Holds(PcOf(s.q.m, p.producers)))
    ensures NoneCopying(s.q.m)
  {
    forall t: Tid ensures !Copying(PcOf(s.q.m, t)) {
      if t < p.producers {
        assert ProducerOk(p, s, t);
      }
    }
  }

  /** One step of a consumer that is not yet copying, towards a published head. */
  lemma TakesHead<T>(w: World<T>, t: Tid)
    requires Inv(w) && NoneCopying(w.m) && w.m.head < w.m.tail
    requires PcOf(w.m, t).DeqLoad? || PcOf(w.m, t).DeqCas? || PcOf(w.m, t).DeqReload?
    ensures var pc, pc', head := PcOf(w.m, t), PcOf(Next(w, Run(t, false)).m, t), w.m.head;
      && (pc.DeqLoad? && pc.pos == head ==> pc' == DeqCas(head))
      && (pc.DeqLoad? && pc.pos != head ==> pc' == DeqCas(pc.pos) || pc' == DeqReload)
      && (pc.DeqCas? && pc.pos == head ==> pc' == DeqCopy(head))
      && ((pc.DeqCas? && pc.pos != head) || pc.DeqReload? ==> pc' == DeqLoad(head))
      && (!pc'.DeqCopy? ==> Next(w, Run(t, false)).m.head == head)
  {
    assert ThreadOk(w, t);
    SettledVerdicts(w);
    if PcOf(w.m, t).DeqLoad? {
      DequeueVerdict(w, PcOf(w.m, t).pos);
    }
  }

  lemma LoggerTouches<T>(p: Program<T>, s: State<T>)
    requires Wf(s.q.m)
    ensures var r := Advance(p, s, Logger(false));
      r.next == s.next && r.main == s.main && r.running == s.running && r.q == NextQueue(p, s, Logger(false))
  {
  }

  lemma DequeueKeepsTail<T>(w: World<T>, t: Tid)
    requires Wf(w.m) && (Dequeueing(PcOf(w.m, t)) || PcOf(w.m, t).Idle? || PcOf(w.m, t).DeqDone?)
    ensures Next(w, Run(t, false)).m.tail == w.m.tail && Next(w, BeginDequeue(t)).m.tail == w.m.tail
  {
  }

  lemma LoggerAdvance<T>(p: Program<T>, s: State<T>) returns (r: State<T>)
    requires Live(p, s)
    ensures Live(p, r) && Reaches(p, s, r) && r == Advance(p, s, Logger(false)) && ByLogger(p, s, r)
  {
    AdvanceLive(p, s, Logger(false));
    ReachesNext(p, s, Logger(false));
    r := Advance(p, s, Logger(false));
    LoggerTouches(p, s);
    DequeueKeepsTail(s.q, p.producers);
    var act := QueueAction(p, s, Logger(false));
    if act.Some? {
      forall u: Tid | u != p.producers ensures PcOf(r.q.m, u) == PcOf(s.q.m, u) {
        StepOthers(s.q.m, act.value, u);
      }
    }
  }

  /** Inside the queue, before the claim. */
  lemma CloserToClaim<T>(p: Program<T>, s: State<T>)
    requires Live(p, s) && NoneWon(p, s) && |s.log| < s.q.m.tail && s.logger.InQueue?
    requires var pc := PcOf(s.q.m, p.producers); pc.DeqLoad? || pc.DeqCas? || pc.DeqReload?
    ensures var r := Advance(p, s, Logger(false)); r.log == s.log && LoggerRank(p, r) < LoggerRank(p, s)
  {
    Quiet(p, s);
    TakesHead(s.q, p.producers);
  }

  /** Inside the queue, after it. */
  lemma CloserToReturn<T>(p: Program<T>, s: State<T>)
    requires Live(p, s) && s.logger.InQueue?
    requires PcOf(s.q.m, p.producers).DeqCopy? || PcOf(s.q.m, p.producers).DeqRelease?
    ensures var r := Advance(p, s, Logger(false)); r.log == s.log && LoggerRank(p, r) < LoggerRank(p, s)
  {
    RunLogger(s.q, p.producers, false);
  }

  /** Outside the queue, or back from it. */
  lemma CloserOutside<T>(p: Program<T>, s: State<T>)
    requires Live(p, s) && |s.log| < s.q.m.tail
    requires s.logger.InQueue? ==> PcOf(s.q.m, p.producers).DeqDone?
    ensures var r := Advance(p, s, Logger(false));
      |r.log| == |s.log| + 1 || (r.log == s.log && LoggerRank(p, r) < LoggerRank(p, s))
  {
    TailBound(p, s);
    if EntersQueue(p, s) {
      assert PcOf(Advance(p, s, Logger(false)).q.m, p.producers) == DeqLoad(s.q.m.head);
    }
  }

  lemma LoggerCatchesUp<T>(p: Program<T>, s: State<T>) returns (r: State<T>)
    requires Live(p, s) && NoneWon(p, s)
    ensures Live(p, r) && Reaches(p, s, r) && ByLogger(p, s, r) && |r.log| == r.q.m.tail
    decreases s.q.m.tail - |s.log|, LoggerRank(p, s)
  {
    if |s.log| >= s.q.m.tail {
      ReachesSelf(p, s);
      r := s;
    } else {
      var m := LoggerAdvance(p, s);
      var pc := PcOf(s.q.m, p.producers);
      if s.logger.InQueue? && (pc.DeqCopy? || pc.DeqRelease?) {
        CloserToReturn(p, s);
      } else if s.logger.InQueue? && !pc.DeqDone? {
        CloserToClaim(p, s);
      } else {
        CloserOutside(p, s);
      }
      r := LoggerCatchesUp(p, m);
      ReachesTrans(p, s, m, r);
    }
  }

  // ----- one more event -----

  /** Steps to the claim, at most, for a producer with room in the queue. */
  function ClaimRank<T>(m: Mem<T>, t: Tid): nat {
    match PcOf(m, t)
    case EnqCas(_, pos) => if pos == m.tail then 1 else 3
    case EnqLoad(_, pos) => if pos == m.tail then 2 else 4
    case EnqReload(_, _) => 3
    case _ => 3
  }

  lemma TowardsClaim<T>(w: World<T>, t: Tid)
    requires Inv(w) && NoneCopying(w.m) && w.m.tail < w.m.head + |w.m.sequence|
    requires Enqueueing(PcOf(w.m, t))
    ensures var w' := Next(w, Run(t, false));
      if Won(PcOf(w'.m, t)) then w'.m.tail == w.m.tail + 1
      else w'.m.tail == w.m.tail && ClaimRank(w'.m, t) < ClaimRank(w.m, t)
  {
    assert ThreadOk(w, t);
    SettledVerdicts(w);
    if PcOf(w.m, t).EnqLoad? {
      EnqueueVerdict(w, PcOf(w.m, t).pos);
    }
  }

  /** The queue is empty and nothing is being copied. */
  ghost predicate Drained<T>(p: Program<T>, s: State<T>) {
    Live(p, s) && NoneWon(p, s) && |s.log| == s.q.m.tail
  }

  lemma DrainedQuiet<T>(p: Program<T>, s: State<T>)
    requires Drained(p, s)
    ensures NoneCopying(s.q.m) && s.q.m.head == s.q.m.tail
  {
    Quiet(p, s);
  }

  lemma BeginEvent<T>(p: Program<T>, s: State<T>, t: nat) returns (r: State<T>)
    requires Drained(p, s) && t < p.producers && PcOf(s.q.m, t).Idle? && s.next[t] < p.events
    ensures Drained(p, r) && Reaches(p, s, r) && Enqueueing(PcOf(r.q.m, t)) && r.q.m.tail == s.q.m.tail
  {
    var a := Producer(t, Clock(0, 0), false);
    AdvanceLive(p, s, a);
    ReachesNext(p, s, a);
    r := Advance(p, s, a);
    forall u: nat | u < p.producers ensures !Won(PcOf(r.q.m, u)) {
      if u != t {
        StepOthers(s.q.m, QueueAction(p, s, a).value, u);
      }
    }
  }

  /** A producer inside its enqueue claims, copies and publishes. */
  lemma OneMoreEvent<T>(p: Program<T>, s: State<T>, t: nat) returns (r: State<T>)
    requires Drained(p, s) && t < p.producers && Enqueueing(PcOf(s.q.m, t))
    ensures Live(p, r) && Reaches(p, s, r) && NoneWon(p, r) && r.q.m.tail == s.q.m.tail + 1
    decreases ClaimRank(s.q.m, t)
  {
    DrainedQuiet(p, s);
    TowardsClaim(s.q, t);
    var m := ProducerAdvance(p, s, t);
    if Won(PcOf(m.q.m, t)) {
      r := FinishCopy(p, m, t);
    } else {
      r := OneMoreEvent(p, m, t);
    }
    ReachesTrans(p, s, m, r);
  }

  ghost predicate AllFinish<T>(p: Program<T>, s: State<T>) {
    forall t: nat | t < p.producers :: Finishes(p, s, t)
  }

  lemma AllEvents<T>(p: Program<T>, s: State<T>) returns (r: State<T>)
    requires Live(p, s) && NoneWon(p, s)
    ensures Drained(p, r) && Reaches(p, s, r) && AllFinish(p, r)
    decreases p.producers * p.events - s.q.m.tail
  {
    var m := LoggerCatchesUp(p, s);
    if AllFinish(p, m) {
      r := m;
    } else {
      var t: nat :| t < p.producers && !Finishes(p, m, t);
      assert ProducerOk(p, m, t);
      var m1 := m;
      if PcOf(m.q.m, t).Idle? {
        m1 := BeginEvent(p, m, t);
        ReachesTrans(p, s, m, m1);
      }
      var m2 := OneMoreEvent(p, m1, t);
      ReachesTrans(p, s, m1, m2);
      TailBound(p, m2);
      r := AllEvents(p, m2);
      ReachesTrans(p, s, m2, r);
    }
  }

  // ----- shutdown -----

  lemma {:induction false} PrefixOfOnes(one: nat -> int, k: nat)
    requires forall i: nat :: one(i) == 1
    ensures Prefix(one, k) == k
  {
    if k != 0 {
      PrefixOfOnes(one, k - 1);
    }
  }

  /** Finished producers have claimed P*K positions. */
  lemma AllClaimed<T>(p: Program<T>, s: State<T>)
    requires Live(p, s) && AllFinish(p, s)
    ensures s.q.m.tail == p.producers * p.events
  {
    var one: T -> int, ones: nat -> int := (x: T) => 1, (i: nat) => 1;
    forall t: nat | t < p.producers ensures |ByWriter(s.q.h.items, s.q.h.writers, t)| == p.events {
      assert ProducerOk(p, s, t) && Finishes(p, s, t);
    }
    EqualShares(s.q.h.items, s.q.h.writers, p.producers, p.events, one, ones);
    SumSplits(s.q.h.items, s.q.h.writers, p.producers, one);
    SumOnes(s.q.h.items, one);
    PrefixOfOnes(ones, p.events);
  }

  function MainRank<T>(p: Program<T>, s: State<T>): nat {
    match s.main
    case JoinWorker(i) => if i <= p.producers then p.producers - i + 3 else 3
    case WaitHead => 2
    case ClearRunning => 1
    case _ => 0
  }

  lemma MainAdvance<T>(p: Program<T>, s: State<T>) returns (r: State<T>)
    requires Live(p, s)
    ensures Live(p, r) && Reaches(p, s, r) && r == Advance(p, s, Main)
  {
    AdvanceLive(p, s, Main);
    ReachesNext(p, s, Main);
    r := Advance(p, s, Main);
  }

  lemma MainReachesJoin<T>(p: Program<T>, s: State<T>) returns (r: State<T>)
    requires Drained(p, s) && AllFinish(p, s)
    ensures Drained(p, r) && Reaches(p, s, r) && (r.main.JoinLogger? || r.main.Finished?)
    decreases MainRank(p, s)
  {
    if s.main.JoinLogger? || s.main.Finished? {
      ReachesSelf(p, s);
      r := s;
    } else {
      AllClaimed(p, s);
      DrainedQuiet(p, s);
      var m := MainAdvance(p, s);
      assert AllFinish(p, m) by {
        forall t: nat | t < p.producers ensures Finishes(p, m, t) {
          assert Finishes(p, s, t);
        }
      }
      r := MainReachesJoin(p, m);
      ReachesTrans(p, s, m, r);
    }
  }

  /** Steps to the logger's exit, at most, once everything is logged and `running` is cleared. */
  function StopRank<T>(p: Program<T>, s: State<T>): nat {
    match s.logger
    case Stopped => 0
    case TestTail(_) => 1
    case TestCount => 1
    case CheckRunning => 1
    case TestHead => 2
    case TestRunning => 3
    case AddCount => 4
    case AddProfit(_) => 5
    case Report(_) => 6
    case InQueue =>
      (match PcOf(s.q.m, p.producers)
       case DeqDone(_) => 4
       case DeqLoad(pos) => if pos == s.q.m.head then 5 else 7
       case _ => 6)
  }

  /** On an empty queue a consumer that is not copying is on its way to the answer 0. */
  lemma FindsEmpty<T>(w: World<T>, t: Tid)
    requires Inv(w) && NoneCopying(w.m) && w.m.head == w.m.tail
    requires PcOf(w.m, t).DeqLoad? || PcOf(w.m, t).DeqCas? || PcOf(w.m, t).DeqReload?
    ensures var pc, pc' := PcOf(w.m, t), PcOf(Next(w, Run(t, false)).m, t);
      && Next(w, Run(t, false)).m.head == w.m.head
      && (pc.DeqLoad? && pc.pos == w.m.head ==> pc' == DeqDone(None))
      && (pc.DeqLoad? && pc.pos != w.m.head ==> pc'.DeqCas? || pc'.DeqReload?)
      && (!pc.DeqLoad? ==> pc' == DeqLoad(w.m.head))
  {
    assert ThreadOk(w, t);
    SettledVerdicts(w);
    if PcOf(w.m, t).DeqLoad? {
      DequeueVerdict(w, PcOf(w.m, t).pos);
    }
  }

  lemma StopsSooner<T>(p: Program<T>, s: State<T>)
    requires Drained(p, s) && !s.running && !s.logger.Stopped? && s.q.m.tail >= p.producers * p.events
    ensures var r := Advance(p, s, Logger(false)); r.log == s.log && StopRank(p, r) < StopRank(p, s)
  {
    DrainedQuiet(p, s);
    if s.logger.InQueue? && !PcOf(s.q.m, p.producers).DeqDone? {
      FindsEmpty(s.q, p.producers);
    }
  }

  lemma LoggerStops<T>(p: Program<T>, s: State<T>) returns (r: State<T>)
    requires Drained(p, s) && s.main.JoinLogger? && s.q.m.tail >= p.producers * p.events
    ensures Live(p, r) && Reaches(p, s, r) && r.main.JoinLogger? && r.logger.Stopped?
    decreases StopRank(p, s)
  {
    if s.logger.Stopped? {
      ReachesSelf(p, s);
      r := s;
    } else {
      StopsSooner(p, s);
      var m := LoggerAdvance(p, s);
      r := LoggerStops(p, m);
      ReachesTrans(p, s, m, r);
    }
  }

  lemma Shutdown<T>(p: Program<T>, s: State<T>) returns (r: State<T>)
    requires Drained(p, s) && AllFinish(p, s)
    ensures Live(p, r) && Reaches(p, s, r) && r.main.Finished?
  {
    AllClaimed(p, s);
    var m := MainReachesJoin(p, s);
    if m.main.Finished? {
      r := m;
    } else {
      var m1 := LoggerStops(p, m);
      r := MainAdvance(p, m1);
      ReachesTrans(p, m, m1, r);
      ReachesTrans(p, s, m, r);
    }
  }

  /** From every reachable state of an engine, for any number of producers, events and cells (at
      least two), and whatever stale positions its threads hold, some schedule finishes. */
  lemma NeverStuck<T>(p: Program<T>, n: nat, blank: T, moves: seq<Move>) returns (more: seq<Move>)
    requires 2 <= n
    ensures Complete(p, Boot(p, n, blank), moves + more).main.Finished?
  {
    CompleteLive(p, n, blank, moves);
    var s := Complete(p, Boot(p, n, blank), moves);
    var s1 := FinishCopies(p, s, p.producers);
    var s2 := AllEvents(p, s1);
    var r := Shutdown(p, s2);
    ReachesTrans(p, s, s1, s2);
    ReachesTrans(p, s, s2, r);
    more :| Complete(p, s, more) == r;
    CompleteConcat(p, Boot(p, n, blank), moves, more);
  }
}
