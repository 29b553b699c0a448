/** Every fair schedule of src/live_bench.c finishes: after enough rounds in which the main thread and
    the logger both move, `main` has joined the logger, and the log is 1 .. TOTAL. */
module LiveBench {
  import opened Words
  import opened LogQueue

  // ----- the invariant with no other producers -----

  ghost predicate Live(b: Bench) {
    BenchInv(b) && forall t: Tid | t != 0 :: PcOf(b.q, t).PIdle?
  }

  lemma AdvanceLive(b: Bench, a: Move)
    requires Live(b)
    ensures Live(Advance(b, a)) && Advance(b, a).total == b.total
  {
    AdvanceInv(b, a);
    forall t: Tid | t != 0 ensures PcOf(Advance(b, a).q, t) == PcOf(b.q, t) {
    }
  }

  lemma {:induction false} CompleteLive(items: seq<nat>, total: nat, moves: seq<Move>)
    requires 0 < |items|
    ensures Live(Complete(Launch(items, total), moves)) && Complete(Launch(items, total), moves).total == total
  {
    CompleteInv(items, total, moves);
    if moves != [] {
      CompleteLive(items, total, moves[..|moves| - 1]);
      AdvanceLive(Complete(Launch(items, total), moves[..|moves| - 1]), moves[|moves| - 1]);
    }
  }

  // ----- what is still owed -----

  function Phase(b: Bench): nat {
    match b.main
    case Producing => 4
    case DrainHead => 3
    case DrainTail(_) => 3
    case ClearRunning => 2
    case Joining => 1
    case Finished => 0
  }

  function Owed(b: Bench): int {
    (b.total - b.next) + (b.total - b.q.tail) + (b.total - b.q.head) + (b.total - |b.q.log|)
    + Phase(b) + (if b.q.logger.Stopped? then 0 else 1)
  }

  lemma OwedNat(b: Bench)
    requires Live(b)
    ensures 0 <= Owed(b) && |b.q.log| <= b.q.head <= b.q.tail
  {
    assert |b.q.accepted| <= b.next;
  }

  // ----- whose turn it is -----

  datatype Who = TheLogger | TheMain | Nobody

  predicate Acts(who: Who, a: Move) {
    (who.TheLogger? && a.Worker?) || (who.TheMain? && a.Main?)
  }

  /** Steps to the next record, at most, while an event is waiting or in hand. */
  function LoggerRank(q: Log<nat>): nat {
    match q.logger
    case Report(_) => 0
    case StoreHead(_, _) => 1
    case CopyOut(_) => 2
    case LoadTailC(_) => 3
    case LoadHeadC => 4
    case TestTail(_) => 5
    case TestHead => 6
    case TestRunning => 7
    case Stopped => 0
  }

  /** Steps to the logger's exit, at most, once everything is logged and `running` is cleared. */
  function StopRank(q: Log<nat>): nat {
    match q.logger
    case Stopped => 0
    case TestTail(_) => 1
    case TestHead => 2
    case TestRunning => 3
    case LoadTailC(_) => 4
    case LoadHeadC => 5
    case _ => 6
  }

  /** Steps of the main thread to its next event or its next phase, at most, on an empty ring. */
  function MainRank(b: Bench): nat {
    match b.main
    case Producing =>
      (match PcOf(b.q, 0)
       case PIdle => 0
       case Unlock => 1
       case StoreTail(_, _) => 2
       case Fill(_, _) => 3
       case LoadHead(_, _) => 4
       case LoadTail(_) => 5
       case Spin(_) => 6
       case UnlockRetry(_) => 7)
    case DrainHead => 2
    case DrainTail(h) => if h == b.q.tail then 1 else 3
    case _ => 0
  }

  datatype Duty = Duty(who: Who, rank: nat)

  function DutyOf(b: Bench): (d: Duty)
    ensures d.rank < 8
  {
    if |b.q.log| < b.q.tail then Duty(TheLogger, LoggerRank(b.q))
    else if b.main.Joining? && !b.q.logger.Stopped? then Duty(TheLogger, StopRank(b.q))
    else if b.main.Finished? then Duty(Nobody, 0)
    else Duty(TheMain, MainRank(b))
  }

  /** A slot whose fields are written one by one. */
  predicate Lingers(a: Move) {
    a.Main? && a.scratch.Some?
  }

  lemma LoggerMove(b: Bench)
    requires Live(b)
    ensures var b', d, d' := Advance(b, Worker), DutyOf(b), DutyOf(Advance(b, Worker));
      || Owed(b') < Owed(b)
      || (Owed(b') == Owed(b) && if d.who.TheLogger? then d'.who.TheLogger? && d'.rank < d.rank else d' == d)
  {
    OwedNat(b);
    var b' := Advance(b, Worker);
    assert b' == b.(q := StepLogger(b.q));
    assert b'.q.producers == b.q.producers;
  }

  lemma FreeLock(b: Bench)
    requires Live(b) && PcOf(b.q, 0).Spin?
    ensures b.q.lock.None?
  {
    forall t: Tid ensures b.q.lock != Some(t) {
      assert ProducerOk(b.q, t);
    }
  }

  /** The main thread takes the free lock, finds room, and writes. */
  lemma MainProducing(b: Bench, scratch: Option<nat>)
    requires Live(b) && b.main.Producing? && !PcOf(b.q, 0).PIdle?
    ensures var b', d, d' := Advance(b, Main(scratch)), DutyOf(b), DutyOf(Advance(b, Main(scratch)));
      || Owed(b') < Owed(b)
      || (Owed(b') == Owed(b) &&
          if !d.who.TheMain? then d' == d else scratch.Some? || (d'.who.TheMain? && d'.rank < d.rank))
  {
    OwedNat(b);
    assert ProducerOk(b.q, 0);
    if PcOf(b.q, 0).Spin? {
      FreeLock(b);
    }
  }

  lemma MainMove(b: Bench, scratch: Option<nat>)
    requires Live(b)
    ensures var b', d, d' := Advance(b, Main(scratch)), DutyOf(b), DutyOf(Advance(b, Main(scratch)));
      || Owed(b') < Owed(b)
      || (Owed(b') == Owed(b) &&
          if !d.who.TheMain? then d' == d else scratch.Some? || (d'.who.TheMain? && d'.rank < d.rank))
  {
    OwedNat(b);
    if b.main.Producing? && !PcOf(b.q, 0).PIdle? {
      MainProducing(b, scratch);
    }
  }

  // ----- rounds -----

  function Potential(b: Bench): int {
    8 * Owed(b) + DutyOf(b).rank
  }

  ghost predicate HasMove(round: seq<Move>, who: Who) {
    exists k :: 0 <= k < |round| && Acts(who, round[k])
  }

  ghost predicate Fair(round: seq<Move>) {
    HasMove(round, TheLogger) && HasMove(round, TheMain)
  }

  function Delays(moves: seq<Move>): nat {
    if moves == [] then 0
    else Delays(moves[..|moves| - 1]) + if Lingers(moves[|moves| - 1]) then 1 else 0
  }

  lemma MoreMoves(moves: seq<Move>, who: Who)
    requires moves != []
    ensures HasMove(moves, who) ==> HasMove(moves[..|moves| - 1], who) || Acts(who, moves[|moves| - 1])
  {
    if HasMove(moves, who) {
      var k :| 0 <= k < |moves| && Acts(who, moves[k]);
      if k < |moves| - 1 {
        assert Acts(who, moves[..|moves| - 1][k]);
      }
    }
  }

  lemma {:induction false} WithinRound(b: Bench, moves: seq<Move>)
    requires Live(b)
    ensures var r := Complete(b, moves);
      && Live(r) && Potential(r) <= Potential(b) + 8 * Delays(moves)
      && (Delays(moves) == 0 && Potential(r) == Potential(b) ==>
            DutyOf(r) == DutyOf(b) && !HasMove(moves, DutyOf(b).who))
  {
    if moves != [] {
      var pre, a := moves[..|moves| - 1], moves[|moves| - 1];
      WithinRound(b, pre);
      var m := Complete(b, pre);
      AdvanceLive(m, a);
      if a.Worker? {
        LoggerMove(m);
      } else {
        MainMove(m, a.scratch);
      }
      MoreMoves(moves, DutyOf(b).who);
    }
  }

  lemma {:induction false} FinishedStays(b: Bench, moves: seq<Move>)
    requires 0 < |b.q.items| && b.main.Finished?
    ensures Complete(b, moves).main.Finished?
  {
    if moves != [] {
      FinishedStays(b, moves[..|moves| - 1]);
    }
  }

  lemma {:induction false} CompleteConcat(b: Bench, x: seq<Move>, y: seq<Move>)
    requires 0 < |b.q.items|
    ensures Complete(b, x + y) == Complete(Complete(b, x), y)
    ensures Delays(x + y) == Delays(x) + Delays(y)
  {
    if y == [] {
      assert x + y == x;
    } else {
      assert (x + y)[..|x + y| - 1] == x + y[..|y| - 1];
      CompleteConcat(b, x, y[..|y| - 1]);
    }
  }

  function Flat(rounds: seq<seq<Move>>): seq<Move> {
    if rounds == [] then [] else Flat(rounds[..|rounds| - 1]) + rounds[|rounds| - 1]
  }

  /** A round brings the potential down, extra steps aside, or the run has finished. */
  lemma OneRound(b: Bench, round: seq<Move>)
    requires Live(b) && Fair(round)
    ensures var r := Complete(b, round);
      Live(r) && (b.main.Finished? || Potential(r) + 1 <= Potential(b) + 9 * Delays(round))
  {
    WithinRound(b, round);
    OwedNat(b);
  }

  lemma {:induction false} ManyRounds(b: Bench, rounds: seq<seq<Move>>)
    requires Live(b) && forall round | round in rounds :: Fair(round)
    ensures var r := Complete(b, Flat(rounds));
      Live(r) && (r.main.Finished? || Potential(r) + |rounds| <= Potential(b) + 9 * Delays(Flat(rounds)))
  {
    if rounds != [] {
      var pre, round := rounds[..|rounds| - 1], rounds[|rounds| - 1];
      ManyRounds(b, pre);
      var m := Complete(b, Flat(pre));
      OneRound(m, round);
      CompleteConcat(b, Flat(pre), round);
      if m.main.Finished? {
        FinishedStays(m, round);
      }
    }
  }

  lemma {:induction false} OwedFalls(items: seq<nat>, total: nat, moves: seq<Move>)
    requires 0 < |items|
    ensures var b := Complete(Launch(items, total), moves); Live(b) && Owed(b) <= 4 * total + 5
  {
    CompleteLive(items, total, moves);
    if moves != [] {
      var pre, a := moves[..|moves| - 1], moves[|moves| - 1];
      OwedFalls(items, total, pre);
      if a.Worker? {
        LoggerMove(Complete(Launch(items, total), pre));
      } else {
        MainMove(Complete(Launch(items, total), pre), a.scratch);
      }
    }
  }

  /** From every reachable state, any schedule of 8 * (4 * TOTAL + 6) rounds (and nine more for each
      extra step taken to write a slot) finishes, and then the log is exactly 1 .. TOTAL. */
  lemma FairRunsLogAll(items: seq<nat>, total: nat, before: seq<Move>, rounds: seq<seq<Move>>)
    requires 0 < |items| && forall round | round in rounds :: Fair(round)
    requires 8 * (4 * total + 6) + 9 * Delays(Flat(rounds)) <= |rounds|
    ensures var r := Complete(Launch(items, total), before + Flat(rounds));
      r.main.Finished? && r.q.log == Upto(total)
  {
    var b := Complete(Launch(items, total), before);
    OwedFalls(items, total, before);
    ManyRounds(b, rounds);
    OwedNat(Complete(b, Flat(rounds)));
    CompleteConcat(Launch(items, total), before, Flat(rounds));
    LiveBenchLog(items, total, before + Flat(rounds));
  }
}
