/** Every fair schedule finishes.  A round is any sequence of moves in which each worker, the logger
    and the main thread move at least once; an engine that has gone through enough rounds has its
    `main` past both joins.  The number needed depends on the work and on how often the weak
    compare-and-exchange failed for no reason, not on the schedule. */
module EngineFairness {
  import opened Words
  import opened Mpmc
  import opened MpmcSolo
  import opened Engine
  import opened EngineRuns
  import opened EngineProgress

  // ----- what is still owed: counters that no step moves back -----

  /** Events each producer has still to return from. */
  function Unreturned(next: seq<nat>, events: nat): nat {
    if next == [] then 0
    else
      var k := next[|next| - 1];
      Unreturned(next[..|next| - 1], events) + if k < events then events - k else 0
  }

  function MainLeft<T>(p: Program<T>, s: State<T>): nat {
    match s.main
    case JoinWorker(i) => if i <= p.producers then p.producers - i + 4 else 4
    case WaitHead => 3
    case ClearRunning => 2
    case JoinLogger => 1
    case Finished => 0
  }

  function Owed<T>(p: Program<T>, s: State<T>): int {
    var all := p.producers * p.events;
    (all - s.q.m.tail) + (all - s.q.m.head) + (all - |s.log|) + Unreturned(s.next, p.events)
    + MainLeft(p, s) + (if s.logger.Stopped? then 0 else 1)
  }

  lemma OwedNat<T>(p: Program<T>, s: State<T>)
    requires Live(p, s)
    ensures 0 <= Owed(p, s)
  {
    TailBound(p, s);
  }

  lemma {:induction false} UnreturnedStep(next: seq<nat>, events: nat, t: nat)
    requires t < |next| && next[t] < events
    ensures Unreturned(next[t := next[t] + 1], events) == Unreturned(next, events) - 1
  {
    var k := |next| - 1;
    if t < k {
      assert next[t := next[t] + 1][..k] == next[..k][t := next[..k][t] + 1];
      UnreturnedStep(next[..k], events, t);
    } else {
      assert next[t := next[t] + 1][..k] == next[..k];
    }
  }

  lemma {:induction false} UnreturnedBoot(producers: nat, events: nat)
    ensures Unreturned(seq(producers, i => 0), events) == producers * events
  {
    if producers != 0 {
      assert seq<nat>(producers, i => 0)[..producers - 1] == seq<nat>(producers - 1, i => 0);
      UnreturnedBoot(producers - 1, events);
      MulDistributes(producers - 1, 1, events);
    }
  }

  // ----- whose turn it is -----

  datatype Who = Worker(t: nat) | TheLogger | TheMain | Nobody

  predicate Acts(who: Who, a: Move) {
    match who
    case Worker(t) => a.Producer? && a.t == t
    case TheLogger => a.Logger?
    case TheMain => a.Main?
    case Nobody => false
  }

  function FirstWon<T>(m: Mem<T>, k: nat): (r: Option<nat>)
    ensures r.Some? ==> r.value < k && Won(PcOf(m, r.value))
    ensures r.None? ==> forall t: nat | t < k :: !Won(PcOf(m, t))
  {
    if k == 0 then None
    else
      var r := FirstWon(m, k - 1);
      if r.Some? then r else if Won(PcOf(m, k - 1)) then Some(k - 1) else None
  }

  function FirstUnfinished<T>(p: Program<T>, s: State<T>, k: nat): (r: Option<nat>)
    ensures r.Some? ==> r.value < k && !Finishes(p, s, r.value)
    ensures r.None? ==> forall t: nat | t < k :: Finishes(p, s, t)
  {
    if k == 0 then None
    else
      var r := FirstUnfinished(p, s, k - 1);
      if r.Some? then r else if !Finishes(p, s, k - 1) then Some(k - 1) else None
  }

  lemma {:induction false} SameFirstWon<T>(m: Mem<T>, m': Mem<T>, k: nat)
    requires forall t: nat | t < k :: Won(PcOf(m', t)) == Won(PcOf(m, t))
    ensures FirstWon(m', k) == FirstWon(m, k)
  {
    if k != 0 {
      SameFirstWon(m, m', k - 1);
    }
  }

  lemma {:induction false} SameFirstUnfinished<T>(p: Program<T>, s: State<T>, s': State<T>, k: nat)
    requires forall t: nat | t < k :: Finishes(p, s', t) == Finishes(p, s, t)
    ensures FirstUnfinished(p, s', k) == FirstUnfinished(p, s, k)
  {
    if k != 0 {
      SameFirstUnfinished(p, s, s', k - 1);
    }
  }

  /** The thread whose steps bring the engine closer to its end, and how many of them suffice for
      something owed to be done. */
  datatype Duty = Duty(who: Who, rank: nat)

  function WorkerRank<T>(m: Mem<T>, t: nat): nat {
    match PcOf(m, t)
    case EnqCopy(_, _) => 2
    case EnqPublish(_, _) => 1
    case Idle => 5
    case _ => ClaimRank(m, t)
  }

  function DutyOf<T>(p: Program<T>, s: State<T>): (d: Duty)
    ensures d.rank < 16
  {
    var won := FirstWon(s.q.m, p.producers);
    if won.Some? then Duty(Worker(won.value), WorkerRank(s.q.m, won.value))
    else if |s.log| < s.q.m.tail then Duty(TheLogger, LoggerRank(p, s))
    else
      var open := FirstUnfinished(p, s, p.producers);
      if open.Some? then Duty(Worker(open.value), WorkerRank(s.q.m, open.value))
      else if s.main.JoinLogger? && !s.logger.Stopped? then Duty(TheLogger, StopRank(p, s))
      else if s.main.Finished? then Duty(Nobody, 0)
      else Duty(TheMain, 0)
  }

  // ----- what a move of each thread changes -----

  /** A move by a worker that claims nothing and returns from nothing. */
  ghost predicate QuietWorker<T>(p: Program<T>, s: State<T>, s': State<T>, t: nat) {
    && s' == s.(q := s'.q) && s'.q.m.head == s.q.m.head && s'.q.m.tail == s.q.m.tail
    && Won(PcOf(s'.q.m, t)) == Won(PcOf(s.q.m, t)) && Finishes(p, s', t) == Finishes(p, s, t)
    && forall u: Tid | u != t :: PcOf(s'.q.m, u) == PcOf(s.q.m, u)
  }

  lemma WorkerEffect<T>(p: Program<T>, s: State<T>, a: Move)
    requires Live(p, s) && a.Producer?
    ensures var s' := Advance(p, s, a);
      Owed(p, s') < Owed(p, s) || (Owed(p, s') == Owed(p, s) && QuietWorker(p, s, s', a.t))
  {
    var s', t := Advance(p, s, a), a.t;
    if t < p.producers {
      assert ProducerOk(p, s, t);
      if !PcOf(s.q.m, t).Idle? {
        WorkerRuns(p, s, a);
      } else if s.next[t] < p.events {
        BeginProducer(s.q, t, p.make(t, s.next[t], a.clock));
      }
    }
  }

  lemma WorkerRuns<T>(p: Program<T>, s: State<T>, a: Move)
    requires Live(p, s) && a.Producer? && a.t < p.producers && !PcOf(s.q.m, a.t).Idle?
    ensures var s' := Advance(p, s, a);
      Owed(p, s') < Owed(p, s) || (Owed(p, s') == Owed(p, s) && QuietWorker(p, s, s', a.t))
  {
    var t, s' := a.t, Advance(p, s, a);
    assert ProducerOk(p, s, t);
    RunProducer(s.q, t, a.weakFails);
    WorkerOwes(p, s, s', t);
  }

  lemma WorkerOwes<T>(p: Program<T>, s: State<T>, s': State<T>, t: nat)
    requires Inv(s.q) && Inv(s'.q) && t < |s.next| && s.next[t] < p.events && ProducerEffect(s.q, s'.q, t)
    requires s' == s.(q := s'.q, next := if PcOf(s.q.m, t).EnqPublish? then s.next[t := s.next[t] + 1] else s.next)
    ensures Owed(p, s') < Owed(p, s) || (Owed(p, s') == Owed(p, s) && QuietWorker(p, s, s', t))
  {
    if PcOf(s.q.m, t).EnqPublish? {
      UnreturnedStep(s.next, p.events, t);
    }
  }

  /** A move by the logger that takes nothing, writes nothing and does not leave. */
  ghost predicate QuietLogger<T>(p: Program<T>, s: State<T>, s': State<T>) {
    && ByLogger(p, s, s') && s'.q.m.head == s.q.m.head && |s'.log| == |s.log|
    && s'.logger.Stopped? == s.logger.Stopped?
  }

  lemma LoggerWork<T>(p: Program<T>, s: State<T>, weakFails: bool)
    requires Live(p, s)
    ensures var s' := Advance(p, s, Logger(weakFails));
      Owed(p, s') < Owed(p, s) || (Owed(p, s') == Owed(p, s) && QuietLogger(p, s, s'))
  {
    var s' := Advance(p, s, Logger(weakFails));
    LoggerChanges(p, s, weakFails);
    if s.logger.Stopped? {
      assert s'.logger.Stopped?;
    }
  }

  lemma LoggerChanges<T>(p: Program<T>, s: State<T>, weakFails: bool)
    requires Live(p, s)
    ensures var s' := Advance(p, s, Logger(weakFails));
      ByLogger(p, s, s') && s.q.m.head <= s'.q.m.head && |s.log| <= |s'.log|
  {
    var act := QueueAction(p, s, Logger(weakFails));
    if act.Some? {
      if act.value.Run? {
        RunLogger(s.q, p.producers, weakFails);
      } else {
        BeginLogger(s.q, p.producers);
      }
    }
  }

  /** The main thread moves on, or stays where it is. */
  lemma MainWork<T>(p: Program<T>, s: State<T>)
    requires Live(p, s)
    ensures var s' := Advance(p, s, Main); Owed(p, s') < Owed(p, s) || s' == s
  {
  }

  // ----- the moves of the others leave the duty alone -----

  lemma WorkerLeavesDuty<T>(p: Program<T>, s: State<T>, s': State<T>, t: nat)
    requires QuietWorker(p, s, s', t) && DutyOf(p, s).who != Worker(t) && t != p.producers
    ensures DutyOf(p, s') == DutyOf(p, s)
  {
    forall u: nat | u < p.producers
      ensures Won(PcOf(s'.q.m, u)) == Won(PcOf(s.q.m, u)) && Finishes(p, s', u) == Finishes(p, s, u)
    {
    }
    SameFirstWon(s.q.m, s'.q.m, p.producers);
    SameFirstUnfinished(p, s, s', p.producers);
  }

  lemma LoggerLeavesDuty<T>(p: Program<T>, s: State<T>, s': State<T>)
    requires QuietLogger(p, s, s') && DutyOf(p, s).who != TheLogger
    ensures DutyOf(p, s') == DutyOf(p, s)
  {
    SameFirstWon(s.q.m, s'.q.m, p.producers);
    SameFirstUnfinished(p, s, s', p.producers);
  }

  // ----- the moves of the one on duty bring it closer -----

  lemma WonWorks<T>(p: Program<T>, s: State<T>, a: Move)
    requires Live(p, s) && a.Producer? && !a.weakFails && a.t < p.producers && FirstWon(s.q.m, p.producers) == Some(a.t)
    requires var s' := Advance(p, s, a); Owed(p, s') == Owed(p, s) && QuietWorker(p, s, s', a.t)
    ensures DutyOf(p, Advance(p, s, a)) == Duty(Worker(a.t), DutyOf(p, s).rank - 1) && DutyOf(p, s).rank == 2
  {
    var s' := Advance(p, s, a);
    CopyAdvances(s.q, a.t);
    SameFirstWon(s.q.m, s'.q.m, p.producers);
  }

  lemma OpenWorks<T>(p: Program<T>, s: State<T>, a: Move)
    requires Live(p, s) && a.Producer? && !a.weakFails && a.t < p.producers
    requires FirstWon(s.q.m, p.producers).None? && |s.log| == s.q.m.tail
    requires FirstUnfinished(p, s, p.producers) == Some(a.t)
    requires var s' := Advance(p, s, a); Owed(p, s') == Owed(p, s) && QuietWorker(p, s, s', a.t)
    ensures var d := DutyOf(p, Advance(p, s, a)); d.who == Worker(a.t) && d.rank < DutyOf(p, s).rank
  {
    var s', t := Advance(p, s, a), a.t;
    DrainedQuiet(p, s);
    assert ProducerOk(p, s, t);
    SameFirstWon(s.q.m, s'.q.m, p.producers);
    SameFirstUnfinished(p, s, s', p.producers);
    if PcOf(s.q.m, t).Idle? {
      assert PcOf(s'.q.m, t) == EnqLoad(p.make(t, s.next[t], a.clock), s.q.m.tail);
    } else {
      TowardsClaim(s.q, t);
    }
  }

  lemma CatchUpWorks<T>(p: Program<T>, s: State<T>)
    requires Live(p, s) && FirstWon(s.q.m, p.producers).None? && |s.log| < s.q.m.tail
    requires QuietLogger(p, s, Advance(p, s, Logger(false)))
    ensures var d := DutyOf(p, Advance(p, s, Logger(false))); d.who == TheLogger && d.rank < DutyOf(p, s).rank
  {
    var pc := PcOf(s.q.m, p.producers);
    if s.logger.InQueue? && (pc.DeqCopy? || pc.DeqRelease?) {
      CloserToReturn(p, s);
    } else if s.logger.InQueue? && !pc.DeqDone? {
      CloserToClaim(p, s);
    } else {
      CloserOutside(p, s);
    }
    SameFirstWon(s.q.m, Advance(p, s, Logger(false)).q.m, p.producers);
  }

  lemma StopWorks<T>(p: Program<T>, s: State<T>)
    requires Live(p, s) && FirstWon(s.q.m, p.producers).None? && |s.log| == s.q.m.tail
    requires FirstUnfinished(p, s, p.producers).None? && s.main.JoinLogger? && !s.logger.Stopped?
    requires QuietLogger(p, s, Advance(p, s, Logger(false)))
    ensures var d := DutyOf(p, Advance(p, s, Logger(false))); d.who == TheLogger && d.rank < DutyOf(p, s).rank
  {
    var s' := Advance(p, s, Logger(false));
    AllClaimed(p, s);
    StopsSooner(p, s);
    SameFirstWon(s.q.m, s'.q.m, p.producers);
    SameFirstUnfinished(p, s, s', p.producers);
  }

  lemma MainWorks<T>(p: Program<T>, s: State<T>)
    requires Live(p, s) && DutyOf(p, s).who == TheMain
    ensures Owed(p, Advance(p, s, Main)) < Owed(p, s)
  {
    LogAtMostTail(p, s);
    DrainedQuiet(p, s);
    AllClaimed(p, s);
  }

  lemma LogAtMostTail<T>(p: Program<T>, s: State<T>)
    requires Live(p, s)
    ensures |s.log| <= s.q.m.tail
  {
  }

  // ----- one move -----

  function Potential<T>(p: Program<T>, s: State<T>): int {
    16 * Owed(p, s) + DutyOf(p, s).rank
  }

  predicate Spurious(a: Move) {
    !a.Main? && a.weakFails
  }

  /** A move does something owed, or is by another thread than the one on duty and leaves the duty as
      it is, or brings the one on duty closer, unless it fails spuriously. */
  lemma OneMove<T>(p: Program<T>, s: State<T>, a: Move)
    requires Live(p, s)
    ensures var s', d, d' := Advance(p, s, a), DutyOf(p, s), DutyOf(p, Advance(p, s, a));
      || Owed(p, s') < Owed(p, s)
      || (Owed(p, s') == Owed(p, s) &&
          if !Acts(d.who, a) then d' == d else Spurious(a) || (d'.who == d.who && d'.rank < d.rank))
  {
    LogAtMostTail(p, s);
    match a
    case Producer(t, _, _) => WorkerTurn(p, s, a);
    case Logger(weakFails) => LoggerTurn(p, s, weakFails);
    case Main =>
      MainWork(p, s);
      if DutyOf(p, s).who == TheMain {
        MainWorks(p, s);
      }
  }

  lemma WorkerTurn<T>(p: Program<T>, s: State<T>, a: Move)
    requires Live(p, s) && a.Producer? && |s.log| <= s.q.m.tail
    ensures var s', d, d' := Advance(p, s, a), DutyOf(p, s), DutyOf(p, Advance(p, s, a));
      || Owed(p, s') < Owed(p, s)
      || (Owed(p, s') == Owed(p, s) &&
          if !Acts(d.who, a) then d' == d else Spurious(a) || (d'.who == d.who && d'.rank < d.rank))
  {
    var s' := Advance(p, s, a);
    if a.t >= p.producers {
      assert s' == s;
    } else {
      WorkerEffect(p, s, a);
      if Owed(p, s') == Owed(p, s) {
        if DutyOf(p, s).who != Worker(a.t) {
          WorkerLeavesDuty(p, s, s', a.t);
        } else if !a.weakFails && FirstWon(s.q.m, p.producers).Some? {
          WonWorks(p, s, a);
        } else if !a.weakFails {
          OpenWorks(p, s, a);
        }
      }
    }
  }

  lemma LoggerTurn<T>(p: Program<T>, s: State<T>, weakFails: bool)
    requires Live(p, s) && |s.log| <= s.q.m.tail
    ensures var a := Logger(weakFails);
      var s', d, d' := Advance(p, s, a), DutyOf(p, s), DutyOf(p, Advance(p, s, a));
      || Owed(p, s') < Owed(p, s)
      || (Owed(p, s') == Owed(p, s) &&
          if !Acts(d.who, a) then d' == d else weakFails || (d'.who == d.who && d'.rank < d.rank))
  {
    var s' := Advance(p, s, Logger(weakFails));
    LoggerWork(p, s, weakFails);
    if Owed(p, s') == Owed(p, s) {
      if DutyOf(p, s).who != TheLogger {
        LoggerLeavesDuty(p, s, s');
      } else if !weakFails && |s.log| < s.q.m.tail {
        CatchUpWorks(p, s);
      } else if !weakFails {
        StopWorks(p, s);
      }
    }
  }

  // ----- rounds -----

  /** Everybody moves at least once. */
  ghost predicate Fair<T>(p: Program<T>, round: seq<Move>) {
    && (forall t: nat | t < p.producers :: HasMove(round, Worker(t)))
    && HasMove(round, TheLogger) && HasMove(round, TheMain)
  }

  ghost predicate HasMove(round: seq<Move>, who: Who) {
    exists k :: 0 <= k < |round| && Acts(who, round[k])
  }

  function Failures(moves: seq<Move>): nat {
    if moves == [] then 0
    else Failures(moves[..|moves| - 1]) + if Spurious(moves[|moves| - 1]) then 1 else 0
  }

  /** Within a round the potential rises only by spurious failures; and as long as it has not fallen
      and none occurred, the one on duty is the same and has not moved. */
  lemma {:induction false} WithinRound<T>(p: Program<T>, s: State<T>, moves: seq<Move>)
    requires Live(p, s)
    ensures var r := Complete(p, s, moves);
      && Live(p, r) && Potential(p, r) <= Potential(p, s) + 16 * Failures(moves)
      && (Failures(moves) == 0 && Potential(p, r) == Potential(p, s) ==>
            DutyOf(p, r) == DutyOf(p, s) && !HasMove(moves, DutyOf(p, s).who))
  {
    if moves != [] {
      var pre, a := moves[..|moves| - 1], moves[|moves| - 1];
      WithinRound(p, s, pre);
      var m := Complete(p, s, pre);
      OneMove(p, m, a);
      AdvanceLive(p, m, a);
      MoreMoves(moves, DutyOf(p, s).who);
    }
  }

  lemma MoreMoves(moves: seq<Move>, who: Who)
    requires moves != []
    ensures HasMove(moves, who) ==> HasMove(moves[..|moves| - 1], who) || Acts(who, moves[|moves| - 1])
  {
    if HasMove(moves, who) {
      var k :| 0 <= k < |moves| && Acts(who, moves[k]);
      if k < |moves| - 1 {
        assert Acts(who, moves[..|moves| - 1][k]);
      }
    }
  }

  /** A round brings the potential down, spurious failures aside, or the engine has finished. */
  lemma OneRound<T>(p: Program<T>, s: State<T>, round: seq<Move>)
    requires Live(p, s) && Fair(p, round)
    ensures var r := Complete(p, s, round);
      Live(p, r) && (s.main.Finished? || Potential(p, r) + 1 <= Potential(p, s) + 17 * Failures(round))
  {
    WithinRound(p, s, round);
    LogAtMostTail(p, s);
  }

  lemma {:induction false} FinishedStays<T>(p: Program<T>, s: State<T>, moves: seq<Move>)
    requires Wf(s.q.m) && s.main.Finished?
    ensures Complete(p, s, moves).main.Finished?
  {
    if moves != [] {
      FinishedStays(p, s, moves[..|moves| - 1]);
    }
  }

  function Flat(rounds: seq<seq<Move>>): seq<Move> {
    if rounds == [] then [] else Flat(rounds[..|rounds| - 1]) + rounds[|rounds| - 1]
  }

  lemma {:induction false} FailuresConcat(a: seq<Move>, b: seq<Move>)
    ensures Failures(a + b) == Failures(a) + Failures(b)
  {
    if b == [] {
      assert a + b == a;
    } else {
      assert (a + b)[..|a + b| - 1] == a + b[..|b| - 1];
      FailuresConcat(a, b[..|b| - 1]);
    }
  }

  lemma {:induction false} ManyRounds<T>(p: Program<T>, s: State<T>, rounds: seq<seq<Move>>)
    requires Live(p, s) && forall round | round in rounds :: Fair(p, round)
    ensures var r := Complete(p, s, Flat(rounds));
      Live(p, r) && (r.main.Finished? || Potential(p, r) + |rounds| <= Potential(p, s) + 17 * Failures(Flat(rounds)))
  {
    if rounds != [] {
      var pre, round := rounds[..|rounds| - 1], rounds[|rounds| - 1];
      ManyRounds(p, s, pre);
      var m := Complete(p, s, Flat(pre));
      OneRound(p, m, round);
      CompleteConcat(p, s, Flat(pre), round);
      FailuresConcat(Flat(pre), round);
      if m.main.Finished? {
        FinishedStays(p, m, round);
      }
    }
  }

  /** Enough rounds for everything the engine has to do. */
  function Enough<T>(p: Program<T>): nat {
    16 * (4 * (p.producers * p.events) + p.producers + 6)
  }

  lemma {:induction false} OwedFalls<T>(p: Program<T>, n: nat, blank: T, moves: seq<Move>)
    requires 2 <= n
    ensures var s := Complete(p, Boot(p, n, blank), moves);
      Live(p, s) && Owed(p, s) <= Owed(p, Boot(p, n, blank))
  {
    CompleteLive(p, n, blank, moves);
    if moves != [] {
      var pre := moves[..|moves| - 1];
      OwedFalls(p, n, blank, pre);
      OneMove(p, Complete(p, Boot(p, n, blank), pre), moves[|moves| - 1]);
    }
  }

  lemma BootOwed<T>(p: Program<T>, n: nat, blank: T)
    ensures 16 * Owed(p, Boot(p, n, blank)) + 16 == Enough(p)
  {
    UnreturnedBoot(p.producers, p.events);
  }

  /** Every fair schedule takes `main` past both joins, whatever the engine went through before it:
      from every reachable state, any schedule of at least `Enough` rounds, and seventeen more for
      each spurious failure in it, for any capacity of two cells or more. */
  lemma FairRunsFinish<T>(p: Program<T>, n: nat, blank: T, before: seq<Move>, rounds: seq<seq<Move>>)
    requires 2 <= n && forall round | round in rounds :: Fair(p, round)
    requires Enough(p) + 17 * Failures(Flat(rounds)) <= |rounds|
    ensures Complete(p, Boot(p, n, blank), before + Flat(rounds)).main.Finished?
  {
    var s := Complete(p, Boot(p, n, blank), before);
    OwedFalls(p, n, blank, before);
    BootOwed(p, n, blank);
    ManyRounds(p, s, rounds);
    OwedNat(p, Complete(p, s, Flat(rounds)));
    CompleteConcat(p, Boot(p, n, blank), before, Flat(rounds));
  }

  /** So on every fair schedule the audit engine ends with these two counters. */
  lemma FairAuditTotals(producers: nat, events: nat, n: nat, blank: Trade, before: seq<Move>, rounds: seq<seq<Move>>)
    requires 2 <= n && forall round | round in rounds :: Fair(Audit(producers, events), round)
    requires Enough(Audit(producers, events)) + 17 * Failures(Flat(rounds)) <= |rounds|
    ensures var p := Audit(producers, events); var s := Complete(p, Boot(p, n, blank), before + Flat(rounds));
      s.executed == producers * events && s.total == producers * Prefix(AuditProfit, events)
  {
    FairRunsFinish(Audit(producers, events), n, blank, before, rounds);
    AuditTotals(producers, events, n, blank, before + Flat(rounds));
  }
}
