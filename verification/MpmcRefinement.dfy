/** The queue with w-bit wrapping counters, masked indices and signed differences behaves as the
    queue with unbounded counters, as long as no local `pos` lags the live counter by more than
    2^(w-1) - capacity when it is compared with a sequence number, or by a whole word or more when
    it is exchanged. */
module MpmcRefinement {
  import opened Words
  import opened Mpmc

  function WrapPc<T>(width: Width, pc: Pc<T>): Pc<T> {
    match pc
    case EnqLoad(x, pos) => EnqLoad(x, Norm(width, pos))
    case EnqCas(x, pos) => EnqCas(x, Norm(width, pos))
    case EnqCopy(x, pos) => EnqCopy(x, Norm(width, pos))
    case EnqPublish(x, pos) => EnqPublish(x, Norm(width, pos))
    case DeqLoad(pos) => DeqLoad(Norm(width, pos))
    case DeqCas(pos) => DeqCas(Norm(width, pos))
    case DeqCopy(pos) => DeqCopy(Norm(width, pos))
    case DeqRelease(x, pos) => DeqRelease(x, Norm(width, pos))
    case _ => pc
  }

  /** The words that stand for an unbounded state. */
  function Wrap<T>(width: Width, m: Mem<T>): Mem<T> {
    Mem(seq(|m.sequence|, i requires 0 <= i < |m.sequence| => Norm(width, m.sequence[i])), m.data,
        Norm(width, m.head), Norm(width, m.tail),
        map t | t in m.threads :: WrapPc(width, m.threads[t]))
  }

  /** The position of a thread about to load lags at most 2^(w-1) - capacity, that of a thread about
      to exchange less than 2^w. */
  predicate LagOk<T>(w: nat, m: Mem<T>, a: Action<T>) {
    a.Run? ==>
      match PcOf(m, a.t)
      case EnqLoad(_, pos) => 2 * (m.tail - pos + |m.sequence|) <= Pow2(w)
      case EnqCas(_, pos) => m.tail - pos < Pow2(w)
      case DeqLoad(pos) => 2 * (m.head - pos + |m.sequence|) <= Pow2(w)
      case DeqCas(pos) => m.head - pos < Pow2(w)
      case _ => true
  }

  lemma WrapSequence<T>(w: nat, m: Mem<T>, pos: nat, v: nat)
    requires Wf(m) && Divides(|m.sequence|, Pow2(w))
    ensures var n := |m.sequence|; var c := Cell(Norm(Bits(w), pos), n);
      && c == Cell(pos, n)
      && Wrap(Bits(w), m).sequence[c] == Norm(Bits(w), m.sequence[c])
      && Wrap(Bits(w), m.(sequence := m.sequence[c := v])).sequence == Wrap(Bits(w), m).sequence[c := Norm(Bits(w), v)]
  {
    CellOfNorm(w, pos, |m.sequence|);
  }

  lemma WrapGoto<T>(w: nat, m: Mem<T>, t: Tid, pc: Pc<T>)
    ensures Wrap(Bits(w), Goto(m, t, pc)) == Goto(Wrap(Bits(w), m), t, WrapPc(Bits(w), pc))
    ensures PcOf(Wrap(Bits(w), m), t) == WrapPc(Bits(w), PcOf(m, t))
  {
  }

  /** No cell is more than a lap behind a position up to the tail. */
  lemma EnqueueLowerBound<T>(v: World<T>, pos: nat)
    requires Inv(v) && pos <= v.m.tail
    ensures pos <= v.m.sequence[Cell(pos, |v.m.sequence|)] + |v.m.sequence|
    ensures pos < v.m.head ==> pos < v.m.sequence[Cell(pos, |v.m.sequence|)]
    ensures pos == v.m.head ==> pos < v.m.sequence[Cell(pos, |v.m.sequence|)] + |v.m.sequence|
  {
    var n := |v.m.sequence|;
    var r := Latest(pos, v.m.tail, n);
    LatestBounds(pos, v.m.tail, n);
    assert CellOk(v, r);
    if pos == v.m.head == v.m.tail && 0 <= r {
      assert Taken(v.h.stages[r]);
    }
  }

  /** The signed difference of words is the true difference. */
  lemma DifferenceWraps<T>(w: nat, v: World<T>, t: Tid)
    requires Inv(v) && Divides(|v.m.sequence|, Pow2(w)) && LagOk(w, v.m, Run(t, false))
    requires PcOf(v.m, t).EnqLoad? || PcOf(v.m, t).DeqLoad?
    ensures var pos := PcOf(v.m, t).pos; var sq := v.m.sequence[Cell(pos, |v.m.sequence|)];
      var next := if PcOf(v.m, t).EnqLoad? then pos else pos + 1;
      Diff(Bits(w), Norm(Bits(w), sq), Norm(Bits(w), next)) == sq - next
  {
    var pos := PcOf(v.m, t).pos;
    var sq := v.m.sequence[Cell(pos, |v.m.sequence|)];
    assert ThreadOk(v, t);
    EnqueueLowerBound(v, pos);
    if PcOf(v.m, t).EnqLoad? {
      EnqueueVerdict(v, pos);
      DiffWraps(w, sq, pos);
    } else {
      DequeueVerdict(v, pos);
      DiffWraps(w, sq, pos + 1);
    }
  }

  function EnqVerdict<T>(x: T, pos: nat, dif: int): Pc<T> {
    if dif == 0 then EnqCas(x, pos) else EnqReload(x, dif < 0)
  }

  function DeqVerdict<T>(pos: nat, dif: int): Pc<T> {
    if dif == 0 then DeqCas(pos) else if dif < 0 then DeqDone(None) else DeqReload
  }

  lemma EnqLoadStep<T>(width: Width, m: Mem<T>, t: Tid, weakFails: bool, x: T, pos: nat)
    requires Wf(m) && PcOf(m, t) == EnqLoad(x, pos)
    ensures RunThread(width, m, t, weakFails)
         == Goto(m, t, EnqVerdict(x, pos, Diff(width, m.sequence[Cell(pos, |m.sequence|)], pos)))
  {
  }

  lemma DeqLoadStep<T>(width: Width, m: Mem<T>, t: Tid, weakFails: bool, pos: nat)
    requires Wf(m) && PcOf(m, t) == DeqLoad(pos)
    ensures RunThread(width, m, t, weakFails)
         == Goto(m, t, DeqVerdict(pos, Diff(width, m.sequence[Cell(pos, |m.sequence|)], Norm(width, pos + 1))))
  {
  }

  /** A load by the wrapping queue, when its difference is the true one. */
  lemma EnqLoadWraps<T>(w: nat, m: Mem<T>, t: Tid, weakFails: bool, x: T, pos: nat, dif: int)
    requires Wf(m) && Divides(|m.sequence|, Pow2(w)) && PcOf(m, t) == EnqLoad(x, pos)
    requires dif == Diff(Bits(w), Norm(Bits(w), m.sequence[Cell(pos, |m.sequence|)]), Norm(Bits(w), pos))
    ensures RunThread(Bits(w), Wrap(Bits(w), m), t, weakFails) == Wrap(Bits(w), Goto(m, t, EnqVerdict(x, pos, dif)))
  {
    WrapSequence(w, m, pos, 0);
    WrapGoto(w, m, t, EnqVerdict(x, pos, dif));
    EnqLoadStep(Bits(w), Wrap(Bits(w), m), t, weakFails, x, Norm(Bits(w), pos));
  }

  lemma DeqLoadWraps<T>(w: nat, m: Mem<T>, t: Tid, weakFails: bool, pos: nat, dif: int)
    requires Wf(m) && Divides(|m.sequence|, Pow2(w)) && PcOf(m, t) == DeqLoad(pos)
    requires dif == Diff(Bits(w), Norm(Bits(w), m.sequence[Cell(pos, |m.sequence|)]), Norm(Bits(w), pos + 1))
    ensures RunThread(Bits(w), Wrap(Bits(w), m), t, weakFails) == Wrap(Bits(w), Goto(m, t, DeqVerdict(pos, dif)))
  {
    WrapSequence(w, m, pos, 0);
    WrapGoto(w, m, t, DeqVerdict(pos, dif));
    NormNorm(w, pos, 1);
    DeqLoadStep(Bits(w), Wrap(Bits(w), m), t, weakFails, Norm(Bits(w), pos));
  }

  lemma LoadWraps<T>(w: nat, v: World<T>, t: Tid, weakFails: bool)
    requires Inv(v) && Divides(|v.m.sequence|, Pow2(w)) && LagOk(w, v.m, Run(t, weakFails))
    requires PcOf(v.m, t).EnqLoad? || PcOf(v.m, t).DeqLoad?
    ensures RunThread(Bits(w), Wrap(Bits(w), v.m), t, weakFails)
         == Wrap(Bits(w), RunThread(Unbounded, v.m, t, weakFails))
  {
    var pos := PcOf(v.m, t).pos;
    var sq := v.m.sequence[Cell(pos, |v.m.sequence|)];
    DifferenceWraps(w, v, t);
    if PcOf(v.m, t).EnqLoad? {
      var x := PcOf(v.m, t).item;
      EnqLoadStep(Unbounded, v.m, t, weakFails, x, pos);
      EnqLoadWraps(w, v.m, t, weakFails, x, pos, sq as int - pos);
    } else {
      DeqLoadStep(Unbounded, v.m, t, weakFails, pos);
      DeqLoadWraps(w, v.m, t, weakFails, pos, sq as int - (pos + 1));
    }
  }

  /** The counter an exchange compares its position with. */
  function Live<T>(m: Mem<T>, pc: Pc<T>): nat {
    if pc.EnqCas? then m.tail else m.head
  }

  /** An exchange on words does what it should exactly when it fails spuriously, its position is the
      live one, or their words differ; otherwise it wins a position that is a whole number of words
      old, where the unbounded queue tries again. */
  lemma ExchangeExact<T>(w: nat, m: Mem<T>, t: Tid, weakFails: bool)
    requires Wf(m) && (PcOf(m, t).EnqCas? || PcOf(m, t).DeqCas?)
    ensures var pc, live := PcOf(m, t), Live(m, PcOf(m, t));
      var word, ideal := RunThread(Bits(w), Wrap(Bits(w), m), t, weakFails), RunThread(Unbounded, m, t, weakFails);
      && (word == Wrap(Bits(w), ideal) <==>
            weakFails || pc.pos == live || Norm(Bits(w), pc.pos) != Norm(Bits(w), live))
      && (word != Wrap(Bits(w), ideal) ==>
            if pc.EnqCas?
            then PcOf(word, t) == EnqCopy(pc.item, Norm(Bits(w), pc.pos)) && PcOf(ideal, t) == EnqLoad(pc.item, live)
            else PcOf(word, t) == DeqCopy(Norm(Bits(w), pc.pos)) && PcOf(ideal, t) == DeqLoad(live))
  {
    var pc, live := PcOf(m, t), Live(m, PcOf(m, t));
    var ideal := RunThread(Unbounded, m, t, weakFails);
    NormNorm(w, pc.pos, 1);
    WrapGoto(w, m, t, Idle);
    WrapGoto(w, ideal, t, Idle);
    assert PcOf(Wrap(Bits(w), ideal), t) == WrapPc(Bits(w), PcOf(ideal, t));
    if pc.EnqCas? {
      WrapGoto(w, m.(tail := pc.pos + 1), t, EnqCopy(pc.item, pc.pos));
      WrapGoto(w, m, t, EnqLoad(pc.item, live));
    } else {
      WrapGoto(w, m.(head := pc.pos + 1), t, DeqCopy(pc.pos));
      WrapGoto(w, m, t, DeqLoad(live));
    }
  }

  lemma CasWraps<T>(w: nat, v: World<T>, t: Tid, weakFails: bool)
    requires Inv(v) && LagOk(w, v.m, Run(t, weakFails))
    requires PcOf(v.m, t).EnqCas? || PcOf(v.m, t).DeqCas?
    ensures RunThread(Bits(w), Wrap(Bits(w), v.m), t, weakFails)
         == Wrap(Bits(w), RunThread(Unbounded, v.m, t, weakFails))
  {
    assert ThreadOk(v, t);
    NormInjective(w, PcOf(v.m, t).pos, Live(v.m, PcOf(v.m, t)));
    ExchangeExact(w, v.m, t, weakFails);
  }

  lemma OtherWraps<T>(w: nat, m: Mem<T>, t: Tid, weakFails: bool)
    requires Wf(m) && Divides(|m.sequence|, Pow2(w))
    requires !PcOf(m, t).EnqCas? && !PcOf(m, t).DeqCas? && !PcOf(m, t).EnqLoad? && !PcOf(m, t).DeqLoad?
    ensures RunThread(Bits(w), Wrap(Bits(w), m), t, weakFails) == Wrap(Bits(w), RunThread(Unbounded, m, t, weakFails))
  {
    var n := |m.sequence|;
    match PcOf(m, t)
    case Idle => WrapGoto(w, m, t, Idle);
    case DeqDone(r) => WrapGoto(w, m, t, DeqDone(r));
    case EnqReload(x, _) => WrapGoto(w, m, t, EnqLoad(x, m.tail));
    case DeqReload => WrapGoto(w, m, t, DeqLoad(m.head));
    case EnqCopy(x, pos) =>
      WrapSequence(w, m, pos, 0);
      WrapGoto(w, m.(data := m.data[Cell(pos, n) := x]), t, EnqPublish(x, pos));
    case DeqCopy(pos) =>
      WrapSequence(w, m, pos, 0);
      WrapGoto(w, m, t, DeqRelease(m.data[Cell(pos, n)], pos));
    case EnqPublish(x, pos) =>
      WrapSequence(w, m, pos, pos + 1);
      NormNorm(w, pos, 1);
      WrapGoto(w, m.(sequence := m.sequence[Cell(pos, n) := pos + 1]), t, Idle);
    case DeqRelease(x, pos) =>
      WrapSequence(w, m, pos, pos + n);
      NormNorm(w, pos, n);
      WrapGoto(w, m.(sequence := m.sequence[Cell(pos, n) := pos + n]), t, DeqDone(Some(x)));
    case _ =>
  }

  lemma StepWraps<T>(w: nat, v: World<T>, a: Action<T>)
    requires Inv(v) && Divides(|v.m.sequence|, Pow2(w)) && LagOk(w, v.m, a)
    ensures Step(Bits(w), Wrap(Bits(w), v.m), a) == Wrap(Bits(w), Step(Unbounded, v.m, a))
  {
    match a
    case BeginEnqueue(t, item) =>
      WrapGoto(w, v.m, t, EnqLoad(item, v.m.tail));
    case BeginDequeue(t) =>
      WrapGoto(w, v.m, t, DeqLoad(v.m.head));
    case Run(t, weakFails) =>
      var pc := PcOf(v.m, t);
      if pc.EnqLoad? || pc.DeqLoad? {
        LoadWraps(w, v, t, weakFails);
      } else if pc.EnqCas? || pc.DeqCas? {
        CasWraps(w, v, t, weakFails);
      } else {
        OtherWraps(w, v.m, t, weakFails);
      }
  }

  // ----- whole runs -----

  function ExecMem<T>(width: Width, m: Mem<T>, acts: seq<Action<T>>): (r: Mem<T>)
    requires Wf(m)
    ensures Wf(r) && |r.sequence| == |m.sequence|
  {
    if acts == [] then m
    else
      var m1 := ExecMem(width, m, acts[..|acts| - 1]);
      StepWf(width, m1, acts[|acts| - 1]);
      Step(width, m1, acts[|acts| - 1])
  }

  /** Every load and every exchange of the run is made within its bound on the lag. */
  predicate LagBounded<T>(w: nat, v: World<T>, acts: seq<Action<T>>)
    requires Wf(v.m)
  {
    acts == [] ||
    (LagBounded(w, v, acts[..|acts| - 1]) && LagOk(w, Exec(v, acts[..|acts| - 1]).m, acts[|acts| - 1]))
  }

  /** The run of the wrapping queue is the wrapped run of the unbounded one. */
  lemma {:induction false} RunsRefine<T>(w: nat, v: World<T>, acts: seq<Action<T>>)
    requires Inv(v) && Divides(|v.m.sequence|, Pow2(w)) && LagBounded(w, v, acts)
    ensures ExecMem(Bits(w), Wrap(Bits(w), v.m), acts) == Wrap(Bits(w), Exec(v, acts).m)
  {
    if acts != [] {
      var pre := acts[..|acts| - 1];
      RunsRefine(w, v, pre);
      ExecInv(v, pre);
      StepWraps(w, Exec(v, pre), acts[|acts| - 1]);
    }
  }

  /** From `init_queue` with a power-of-two capacity: the threads of the wrapping queue are where
      the threads of the unbounded queue are and hold the same payloads. */
  lemma WordQueueRefines<T>(k: nat, w: nat, blank: T, acts: seq<Action<T>>, t: Tid)
    requires 1 <= k <= w && LagBounded(w, Start(Pow2(k), blank), acts)
    ensures var u := Exec(Start(Pow2(k), blank), acts).m;
      var m := ExecMem(Bits(w), Init(Pow2(k), blank), acts);
      && m == Wrap(Bits(w), u) && m.data == u.data
      && (forall r :: PcOf(m, t) == DeqDone(r) <==> PcOf(u, t) == DeqDone(r))
  {
    var n := Pow2(k);
    PowersDivide(k, w);
    Pow2Grows(k, w);
    StartInv(n, blank);
    var s := Start(n, blank);
    forall i: nat | i < n ensures Norm(Bits(w), i) == i {
      ModUnique(i, Pow2(w), 0, i);
    }
    ModUnique(0, Pow2(w), 0, 0);
    assert Wrap(Bits(w), s.m) == s.m;
    RunsRefine(w, s, acts);
    WrapGoto(w, Exec(s, acts).m, t, Idle);
  }

  /** The difference a consumer computes at its load. */
  function Gap<T>(m: Mem<T>, pos: nat): int
    requires Wf(m)
  {
    m.sequence[Cell(pos, |m.sequence|)] as int - (pos + 1)
  }

  /** Beyond half a word (and short of a whole one) the sign is lost. */
  lemma GapSign<T>(w: nat, v: World<T>, pos: nat)
    requires Inv(v) && 2 * |v.m.sequence| <= Pow2(w) && pos <= v.m.head && Gap(v.m, pos) < Pow2(w)
    ensures var sq := v.m.sequence[Cell(pos, |v.m.sequence|)]; var d := Gap(v.m, pos);
      Diff(Bits(w), Norm(Bits(w), sq), Norm(Bits(w), pos + 1)) == if 2 * d < Pow2(w) then d else d - Pow2(w)
  {
    var sq := v.m.sequence[Cell(pos, |v.m.sequence|)];
    EnqueueLowerBound(v, pos);
    DiffWraps(w, sq, pos + 1);
    if 2 * Gap(v.m, pos) >= Pow2(w) {
      ModOfDifference(sq, pos + 1, Pow2(w));
      ModUnique(Gap(v.m, pos), Pow2(w), 0, Gap(v.m, pos));
    }
  }

  /** The bound is where it has to be: a consumer whose difference is half a word or more reads it
      as negative and reports an empty queue, where the true verdict is to retry. */
  lemma StaleBeyondBound<T>(w: nat, v: World<T>, t: Tid)
    requires Inv(v) && Divides(|v.m.sequence|, Pow2(w)) && 2 * |v.m.sequence| <= Pow2(w)
    requires PcOf(v.m, t).DeqLoad? && Gap(v.m, PcOf(v.m, t).pos) < Pow2(w)
    ensures var word := PcOf(RunThread(Bits(w), Wrap(Bits(w), v.m), t, false), t);
      var ideal := PcOf(RunThread(Unbounded, v.m, t, false), t);
      && (word == WrapPc(Bits(w), ideal) <==> 2 * Gap(v.m, PcOf(v.m, t).pos) < Pow2(w))
      && (2 * Gap(v.m, PcOf(v.m, t).pos) >= Pow2(w) ==> word == DeqDone(None) && ideal == DeqReload)
  {
    var pos := PcOf(v.m, t).pos;
    assert ThreadOk(v, t);
    var word := Diff(Bits(w), Norm(Bits(w), v.m.sequence[Cell(pos, |v.m.sequence|)]), Norm(Bits(w), pos + 1));
    DeqLoadWraps(w, v.m, t, false, pos, word);
    WrapGoto(w, v.m, t, DeqVerdict(pos, word));
    WrapGoto(w, Goto(v.m, t, DeqVerdict(pos, word)), t, Idle);
    DeqLoadStep(Unbounded, v.m, t, false, pos);
    GapSign(w, v, pos);
  }
}
