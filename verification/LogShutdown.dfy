/** What the log queue's calls and its shutdown answer for: every event a producer brings is accepted
    or dropped, and a logger that stops has written everything accepted before it was told to. */
module LogShutdown {
  import opened Words
  import opened LogQueue

  lemma ExecSnoc<T>(waits: bool, s: Log<T>, acts: seq<Action<T>>, a: Action<T>)
    requires 0 < |s.items|
    ensures Exec(waits, s, acts + [a]) == Step(waits, Exec(waits, s, acts), a)
  {
    assert (acts + [a])[..|acts|] == acts;
  }

  /** A run from a state with the invariant keeps it. */
  lemma {:induction false} RunInv<T>(waits: bool, s: Log<T>, acts: seq<Action<T>>)
    requires Inv(s)
    ensures Inv(Exec(waits, s, acts))
  {
    if acts != [] {
      RunInv(waits, s, acts[..|acts| - 1]);
      StepInv(waits, Exec(waits, s, acts[..|acts| - 1]), acts[|acts| - 1]);
    }
  }

  // ----- stopping -----

  /** The one step that stops the logger is its own, after `running` was cleared, with every accepted
      event in the log. */
  ghost predicate StopsDrained<T>(s: Log<T>, s': Log<T>, a: Action<T>) {
    s'.logger.Stopped? && !s.logger.Stopped? ==>
      a.Consume? && !s.running && s.head == s.tail && s.log == s.accepted == s'.log
  }

  lemma StopStep<T>(waits: bool, s: Log<T>, a: Action<T>)
    requires Inv(s)
    ensures StopsDrained(s, Step(waits, s, a), a)
  {
  }

  lemma StopsOnlyDrained<T>(waits: bool, items: seq<T>, acts: seq<Action<T>>, a: Action<T>)
    requires 0 < |items|
    ensures var s := Exec(waits, Boot(items), acts); StopsDrained(s, Step(waits, s, a), a)
  {
    ExecInv(waits, items, acts);
    StopStep(waits, Exec(waits, Boot(items), acts), a);
  }

  /** Accepted events stay accepted, and a stopped logger has the ones in `before`. */
  ghost predicate Keeps<T>(before: seq<T>, s: Log<T>) {
    before <= s.accepted && (s.logger.Stopped? ==> before <= s.log)
  }

  lemma StepKeeps<T>(waits: bool, before: seq<T>, s: Log<T>, a: Action<T>)
    requires Inv(s) && Keeps(before, s)
    ensures Keeps(before, Step(waits, s, a))
  {
    StopStep(waits, s, a);
  }

  lemma {:induction false} RunKeeps<T>(waits: bool, s: Log<T>, acts: seq<Action<T>>)
    requires Inv(s) && !s.logger.Stopped?
    ensures Keeps(s.accepted, Exec(waits, s, acts))
  {
    if acts != [] {
      RunKeeps(waits, s, acts[..|acts| - 1]);
      RunInv(waits, s, acts[..|acts| - 1]);
      StepKeeps(waits, s.accepted, Exec(waits, s, acts[..|acts| - 1]), acts[|acts| - 1]);
    }
  }

  /** Whatever happens after a state in which `running` is still set: once the logger has stopped, all
      that was accepted in that state is in the log. */
  lemma StoppedHasAll<T>(waits: bool, items: seq<T>, before: seq<Action<T>>, after: seq<Action<T>>)
    requires 0 < |items|
    ensures var s := Exec(waits, Boot(items), before); var d := Exec(waits, s, after);
      s.running && d.logger.Stopped? ==> !d.running && s.accepted <= d.log <= d.accepted
  {
    ExecInv(waits, items, before);
    var s := Exec(waits, Boot(items), before);
    RunInv(waits, s, after);
    if s.running {
      RunKeeps(waits, s, after);
    }
  }

  /** The logger runs alone for k steps. */
  function Alone<T>(s: Log<T>, k: nat): (r: Log<T>)
    requires 0 < |s.items|
    ensures |r.items| == |s.items|
  {
    if k == 0 then s else StepLogger(Alone(s, k - 1))
  }

  function Consumes<T>(acts: seq<Action<T>>, k: nat): seq<Action<T>> {
    if k == 0 then acts else Consumes(acts, k - 1) + [Consume]
  }

  lemma {:induction false} AloneRun<T>(waits: bool, s: Log<T>, acts: seq<Action<T>>, k: nat)
    requires 0 < |s.items|
    ensures Exec(waits, s, Consumes(acts, k)) == Alone(Exec(waits, s, acts), k)
  {
    if k != 0 {
      AloneRun(waits, s, acts, k - 1);
      ExecSnoc(waits, s, Consumes(acts, k - 1), Consume);
    }
  }

  /** Steps of a logger with `running` cleared until it has stopped: eight for each event. */
  function ToStop<T>(s: Log<T>): int {
    var n := s.tail - s.head;
    match s.logger
    case TestRunning => 8 * n + 3
    case TestHead => 8 * n + 2
    case TestTail(_) => 8 * n + 1
    case LoadHeadC => if n == 0 then 5 else 8 * n
    case LoadTailC(_) => if n == 0 then 4 else 8 * n - 1
    case CopyOut(_) => 8 * n - 2
    case StoreHead(_, _) => 8 * n - 3
    case Report(_) => 8 * n + 4
    case Stopped => 0
  }

  /** With `running` set, until everything accepted is in the log: six for each event. */
  function ToCatchUp<T>(s: Log<T>): int {
    var n := s.tail - s.head;
    match s.logger
    case LoadHeadC => 6 * n - 1
    case LoadTailC(_) => 6 * n - 2
    case CopyOut(_) => 6 * n - 3
    case StoreHead(_, _) => 6 * n - 4
    case Report(_) => 6 * n + 1
    case _ => 6 * n
  }

  ghost predicate Stopping<T>(s: Log<T>, d: Log<T>, k: nat) {
    && Inv(d) && !d.running && d.accepted == s.accepted && ToStop(d) == ToStop(s) - k
    && (d.logger.Stopped? ==> d.log == d.accepted)
  }

  lemma StoppingStep<T>(s: Log<T>, d: Log<T>, k: nat, d': Log<T>)
    requires Stopping(s, d, k) && k < ToStop(s) && d' == StepLogger(d)
    ensures Stopping(s, d', k + 1)
  {
    ConsumeInv(d);
  }

  lemma {:induction false} StoppingRun<T>(s: Log<T>, k: nat)
    requires Inv(s) && !s.running && !s.logger.Stopped? && k <= ToStop(s)
    ensures Stopping(s, Alone(s, k), k)
  {
    if k != 0 {
      StoppingRun(s, k - 1);
      StoppingStep(s, Alone(s, k - 1), k - 1, Alone(s, k));
    }
  }

  lemma StopsFrom<T>(s: Log<T>) returns (k: nat)
    requires Inv(s) && !s.running && !s.logger.Stopped?
    ensures k <= 8 * (s.tail - s.head) + 5
    ensures var d := Alone(s, k); d.logger.Stopped? && d.log == d.accepted == s.accepted
  {
    k := ToStop(s);
    StoppingRun(s, k);
  }

  /** Clearing `running` in any reachable state: the logger on its own writes every accepted event and
      stops, within eight steps for each event in the ring and five more. */
  lemma ShutdownDrains<T>(waits: bool, items: seq<T>, acts: seq<Action<T>>) returns (k: nat)
    requires 0 < |items| && !Exec(waits, Boot(items), acts).logger.Stopped?
    ensures k <= 8 * |items| + 5
    ensures var s := Exec(waits, Boot(items), acts);
      var d := Exec(waits, Boot(items), Consumes(acts + [Shutdown], k));
      d.logger.Stopped? && d.log == d.accepted == s.accepted
  {
    ExecInv(waits, items, acts);
    ExecInv(waits, items, acts + [Shutdown]);
    ExecSnoc(waits, Boot(items), acts, Shutdown);
    k := StopsFrom(Exec(waits, Boot(items), acts + [Shutdown]));
    AloneRun(waits, Boot(items), acts + [Shutdown], k);
  }

  ghost predicate CatchingUp<T>(s: Log<T>, d: Log<T>, k: nat) {
    Inv(d) && d.running && d.accepted == s.accepted && ToCatchUp(d) == ToCatchUp(s) - k
  }

  lemma CatchingUpStep<T>(s: Log<T>, d: Log<T>, k: nat, d': Log<T>)
    requires CatchingUp(s, d, k) && k < ToCatchUp(s) && d' == StepLogger(d)
    ensures CatchingUp(s, d', k + 1)
  {
    ConsumeInv(d);
  }

  lemma {:induction false} CatchingUpRun<T>(s: Log<T>, k: nat)
    requires Inv(s) && s.running && (k == 0 || k <= ToCatchUp(s))
    ensures CatchingUp(s, Alone(s, k), k)
  {
    if k != 0 {
      CatchingUpRun(s, k - 1);
      CatchingUpStep(s, Alone(s, k - 1), k - 1, Alone(s, k));
    }
  }

  lemma CatchesUpFrom<T>(s: Log<T>) returns (k: nat)
    requires Inv(s) && s.running
    ensures k <= 6 * (s.tail - s.head) + 1
    ensures var d := Alone(s, k); d.log == d.accepted == s.accepted
  {
    k := if 0 <= ToCatchUp(s) then ToCatchUp(s) else 0;
    CatchingUpRun(s, k);
  }

  /** While `running` is set the logger on its own writes every accepted event. */
  lemma LoggerCatchesUp<T>(waits: bool, items: seq<T>, acts: seq<Action<T>>) returns (k: nat)
    requires 0 < |items| && Exec(waits, Boot(items), acts).running
    ensures k <= 6 * |items| + 1
    ensures var s := Exec(waits, Boot(items), acts);
      var d := Exec(waits, Boot(items), Consumes(acts, k)); d.log == d.accepted == s.accepted
  {
    ExecInv(waits, items, acts);
    k := CatchesUpFrom(Exec(waits, Boot(items), acts));
    AloneRun(waits, Boot(items), acts, k);
  }

  // ----- calls -----

  /** What a call whose event is not settled yet has in hand. */
  function InHand<T>(pc: Producer<T>): seq<T> {
    if pc.PIdle? || pc.Unlock? then [] else [pc.e]
  }

  /** The events thread t called with. */
  function Brought<T>(waits: bool, s: Log<T>, acts: seq<Action<T>>, t: Tid): seq<T>
    requires 0 < |s.items|
  {
    if acts == [] then []
    else
      var s1, a := Exec(waits, s, acts[..|acts| - 1]), acts[|acts| - 1];
      Brought(waits, s, acts[..|acts| - 1], t)
      + if a.Begin? && a.t == t && PcOf(s1, t).PIdle? then [a.e] else []
  }

  /** The events that t's own steps put on the end of `accepted` or of `dropped`. */
  function Settled<T>(waits: bool, s: Log<T>, acts: seq<Action<T>>, t: Tid): seq<T>
    requires 0 < |s.items|
  {
    if acts == [] then []
    else
      var s1, a := Exec(waits, s, acts[..|acts| - 1]), acts[|acts| - 1];
      var s2 := Exec(waits, s, acts);
      Settled(waits, s, acts[..|acts| - 1], t) + if a.Produce? && a.t == t then New(s1, s2) else []
  }

  function New<T>(s: Log<T>, s': Log<T>): seq<T> {
    (if |s.accepted| <= |s'.accepted| then s'.accepted[|s.accepted|..] else [])
    + (if |s.dropped| <= |s'.dropped| then s'.dropped[|s.dropped|..] else [])
  }

  /** The thread moves on with `left` in hand, the rest at the end of the two records. */
  ghost predicate Settles<T>(s: Log<T>, s': Log<T>, t: Tid, accepted: seq<T>, dropped: seq<T>, left: seq<T>) {
    && s'.accepted == s.accepted + accepted && s'.dropped == s.dropped + dropped && InHand(PcOf(s', t)) == left
  }

  lemma StepMoves<T>(waits: bool, s: Log<T>, t: Tid, scratch: Option<T>)
    requires 0 < |s.items|
    ensures var s', hand := StepProducer(waits, s, t, scratch), InHand(PcOf(s, t));
      Settles(s, s', t, hand, [], []) || Settles(s, s', t, [], hand, []) || Settles(s, s', t, [], [], hand)
  {
    var s', hand := StepProducer(waits, s, t, scratch), InHand(PcOf(s, t));
    if PcOf(s, t).StoreTail? {
      assert Settles(s, s', t, hand, [], []);
    } else if PcOf(s, t).LoadHead? && PcOf(s', t).Unlock? {
      assert Settles(s, s', t, [], hand, []);
    } else {
      assert s'.accepted == s.accepted && s'.dropped == s.dropped;
      assert InHand(PcOf(s', t)) == hand;
    }
  }

  lemma StepSettles<T>(waits: bool, s: Log<T>, t: Tid, scratch: Option<T>, s': Log<T>)
    requires 0 < |s.items| && s' == StepProducer(waits, s, t, scratch)
    ensures InHand(PcOf(s, t)) == New(s, s') + InHand(PcOf(s', t))
  {
    StepMoves(waits, s, t, scratch);
  }

  lemma OthersHold<T>(waits: bool, s: Log<T>, a: Action<T>, t: Tid)
    requires 0 < |s.items| && (a.Produce? ==> a.t != t) && (a.Begin? ==> a.t != t)
    ensures PcOf(Step(waits, s, a), t) == PcOf(s, t)
  {
  }

  /** One action more, from s to s', keeps the account of thread t. */
  lemma SettlesOn<T>(waits: bool, s: Log<T>, a: Action<T>, t: Tid, s': Log<T>, brought: seq<T>, settled: seq<T>)
    requires 0 < |s.items| && s' == Step(waits, s, a) && brought == settled + InHand(PcOf(s, t))
    ensures brought + (if a.Begin? && a.t == t && PcOf(s, t).PIdle? then [a.e] else [])
         == settled + (if a.Produce? && a.t == t then New(s, s') else []) + InHand(PcOf(s', t))
  {
    if a.Produce? && a.t == t {
      StepSettles(waits, s, t, a.scratch, s');
      Regrouped(settled, New(s, s'), InHand(PcOf(s', t)));
    } else if !(a.Begin? && a.t == t) {
      OthersHold(waits, s, a, t);
    }
  }

  lemma Regrouped<T>(a: seq<T>, b: seq<T>, c: seq<T>)
    ensures a + (b + c) == a + b + c
  {
  }

  /** Every call's event is settled once, in the order of the calls, by the caller's own steps: nothing
      is lost, repeated or exchanged on the way; the call in progress has the rest. */
  lemma {:induction false} EveryEventSettles<T>(waits: bool, items: seq<T>, acts: seq<Action<T>>, t: Tid)
    requires 0 < |items|
    ensures Brought(waits, Boot(items), acts, t)
         == Settled(waits, Boot(items), acts, t) + InHand(PcOf(Exec(waits, Boot(items), acts), t))
  {
    if acts != [] {
      var pre := acts[..|acts| - 1];
      EveryEventSettles(waits, items, pre, t);
      SettlesOn(waits, Exec(waits, Boot(items), pre), acts[|acts| - 1], t, Exec(waits, Boot(items), acts),
                Brought(waits, Boot(items), pre, t), Settled(waits, Boot(items), pre, t));
    }
  }

  /** The calling thread's next step, its slot written in one go. */
  function Turn<T>(waits: bool, s: Log<T>, t: Tid): (r: Log<T>)
    requires 0 < |s.items|
    ensures 0 < |r.items|
  {
    StepSize(waits, s, Produce(t, None));
    StepProducer(waits, s, t, None)
  }

  function FourTurns<T>(waits: bool, s: Log<T>, t: Tid): Log<T>
    requires 0 < |s.items|
  {
    Turn(waits, Turn(waits, Turn(waits, Turn(waits, s, t), t), t), t)
  }

  function FourMore<T>(acts: seq<Action<T>>, t: Tid): seq<Action<T>> {
    acts + [Produce(t, None)] + [Produce(t, None)] + [Produce(t, None)] + [Produce(t, None)]
  }

  function SixMore<T>(acts: seq<Action<T>>, t: Tid): seq<Action<T>> {
    FourMore(acts, t) + [Produce(t, None)] + [Produce(t, None)]
  }

  lemma TurnsRun<T>(waits: bool, b: Log<T>, acts: seq<Action<T>>, t: Tid)
    requires 0 < |b.items|
    ensures Exec(waits, b, FourMore(acts, t)) == FourTurns(waits, Exec(waits, b, acts), t)
    ensures Exec(waits, b, SixMore(acts, t))
         == Turn(waits, Turn(waits, FourTurns(waits, Exec(waits, b, acts), t), t), t)
  {
    var p := Produce(t, None);
    ExecSnoc(waits, b, acts, p);
    ExecSnoc(waits, b, acts + [p], p);
    ExecSnoc(waits, b, acts + [p] + [p], p);
    ExecSnoc(waits, b, acts + [p] + [p] + [p], p);
    ExecSnoc(waits, b, FourMore(acts, t), p);
    ExecSnoc(waits, b, FourMore(acts, t) + [p], p);
  }

  /** The lock is free again and the thread is at pc. */
  ghost predicate GaveBack<T>(s: Log<T>, t: Tid, pc: Producer<T>) {
    PcOf(s, t) == pc && s.lock.None?
  }

  ghost predicate Same<T>(s: Log<T>, d: Log<T>) {
    && d.items == s.items && d.head == s.head && d.tail == s.tail && d.accepted == s.accepted
    && d.dropped == s.dropped
  }

  lemma WithRoom<T>(waits: bool, s: Log<T>, t: Tid, e: T)
    requires Inv(s) && PcOf(s, t) == Spin(e) && s.lock.None? && s.tail - s.head < |s.items|
    ensures var r := Turn(waits, Turn(waits, FourTurns(waits, s, t), t), t);
      && GaveBack(r, t, PIdle) && r.accepted == s.accepted + [e] && r.dropped == s.dropped
      && r.items == s.items[Cell(s.tail, |s.items|) := e] && r.head == s.head && r.tail == s.tail + 1
  {
    var s2 := Turn(waits, Turn(waits, s, t), t);
    assert PcOf(s2, t) == LoadHead(e, s.tail) && s2.lock == Some(t) && Same(s, s2);
    var s4 := Turn(waits, Turn(waits, s2, t), t);
    assert PcOf(s4, t) == StoreTail(e, s.tail) && s4.lock == Some(t);
  }

  lemma WithoutRoom<T>(waits: bool, s: Log<T>, t: Tid, e: T)
    requires Inv(s) && PcOf(s, t) == Spin(e) && s.lock.None? && s.tail - s.head == |s.items|
    ensures var d := FourTurns(waits, s, t);
      if waits then GaveBack(d, t, Spin(e)) && Same(s, d)
      else GaveBack(d, t, PIdle) && Same(s.(dropped := s.dropped + [e]), d)
  {
    var s2 := Turn(waits, Turn(waits, s, t), t);
    assert PcOf(s2, t) == LoadHead(e, s.tail) && s2.lock == Some(t) && Same(s, s2);
  }

  /** A call that finds the lock free and runs alone returns in six steps with its event accepted when
      a slot is free.  On a full ring `log_event` returns in four with the event dropped, and the
      producing loop of live_bench gives the lock back and is where it was. */
  lemma CallAlone<T>(waits: bool, items: seq<T>, acts: seq<Action<T>>, t: Tid, e: T)
    requires 0 < |items|
    requires var s := Exec(waits, Boot(items), acts); PcOf(s, t) == Spin(e) && s.lock.None?
    ensures var s := Exec(waits, Boot(items), acts);
      if |s.accepted| - s.head < |items| then
        var r := Exec(waits, Boot(items), SixMore(acts, t));
        GaveBack(r, t, PIdle) && r.accepted == s.accepted + [e] && r.dropped == s.dropped
      else
        var d := Exec(waits, Boot(items), FourMore(acts, t));
        if waits then GaveBack(d, t, Spin(e)) && Same(s, d)
        else GaveBack(d, t, PIdle) && Same(s.(dropped := s.dropped + [e]), d)
  {
    ExecInv(waits, items, acts);
    var s := Exec(waits, Boot(items), acts);
    TurnsRun(waits, Boot(items), acts, t);
    if s.tail - s.head < |items| {
      WithRoom(waits, s, t, e);
    } else {
      WithoutRoom(waits, s, t, e);
    }
  }
}
