/** The bounded multi-producer multi-consumer queue of src/audit_engine.c as a step machine.

    Every atomic access and every payload copy is one step of one thread; a schedule is any
    sequence of such steps by any threads, so a local `pos` can be arbitrarily stale when it is
    used and the weak compare-and-exchange may fail whenever the schedule says so. */
module Mpmc {
  import opened Words

  type Tid = nat

  /** Where a thread is inside `mpmc_enqueue` or `mpmc_dequeue`, with its local variables. */
  datatype Pc<T> =
    | Idle
    | EnqLoad(item: T, pos: nat)             // about to load cell->sequence
    | EnqCas(item: T, pos: nat)              // dif == 0: about to CAS the tail
    | EnqReload(item: T, yielded: bool)      // dif < 0 (yielded) or dif > 0: about to reload the tail
    | EnqCopy(item: T, pos: nat)             // won pos: about to write cell->data
    | EnqPublish(item: T, pos: nat)          // about to store pos + 1
    | DeqLoad(pos: nat)
    | DeqCas(pos: nat)
    | DeqReload
    | DeqCopy(pos: nat)                      // won pos: about to read cell->data
    | DeqRelease(item: T, pos: nat)          // about to store pos + capacity
    | DeqDone(result: Option<T>)             // returned: 1 with an item, or 0

  datatype Mem<T> = Mem(
    sequence: seq<nat>, data: seq<T>, head: nat, tail: nat, threads: map<Tid, Pc<T>>)

  datatype Action<T> =
    | BeginEnqueue(t: Tid, item: T)
    | BeginDequeue(t: Tid)
    | Run(t: Tid, weakFails: bool)

  predicate Wf<T>(m: Mem<T>) {
    |m.sequence| == |m.data| > 0
  }

  function PcOf<T>(m: Mem<T>, t: Tid): Pc<T> {
    if t in m.threads then m.threads[t] else Idle
  }

  function Goto<T>(m: Mem<T>, t: Tid, pc: Pc<T>): Mem<T> {
    m.(threads := m.threads[t := pc])
  }

  /** `init_queue` with capacity n; `blank` stands for the uninitialised payloads. */
  function Init<T>(n: nat, blank: T): Mem<T> {
    Mem(seq(n, i requires 0 <= i < n => i), seq(n, i => blank), 0, 0, map[])
  }

  predicate CanBegin<T>(m: Mem<T>, t: Tid) {
    PcOf(m, t).Idle? || PcOf(m, t).DeqDone?
  }

  /** One step; an action that is not enabled changes nothing. */
  function Step<T>(width: Width, m: Mem<T>, a: Action<T>): Mem<T>
    requires Wf(m)
  {
    match a
    case BeginEnqueue(t, item) => if CanBegin(m, t) then Goto(m, t, EnqLoad(item, m.tail)) else m
    case BeginDequeue(t) => if CanBegin(m, t) then Goto(m, t, DeqLoad(m.head)) else m
    case Run(t, weakFails) => RunThread(width, m, t, weakFails)
  }

  function RunThread<T>(width: Width, m: Mem<T>, t: Tid, weakFails: bool): Mem<T>
    requires Wf(m)
  {
    var n := |m.sequence|;
    match PcOf(m, t)
    case Idle => m
    case EnqLoad(x, pos) =>
      var dif := Diff(width, m.sequence[Cell(pos, n)], pos);
      Goto(m, t, if dif == 0 then EnqCas(x, pos) else EnqReload(x, dif < 0))
    case EnqCas(x, pos) =>
      if m.tail == pos && !weakFails
      then Goto(m.(tail := Norm(width, pos + 1)), t, EnqCopy(x, pos))
      else Goto(m, t, EnqLoad(x, m.tail))
    case EnqReload(x, _) => Goto(m, t, EnqLoad(x, m.tail))
    case EnqCopy(x, pos) => Goto(m.(data := m.data[Cell(pos, n) := x]), t, EnqPublish(x, pos))
    case EnqPublish(x, pos) =>
      Goto(m.(sequence := m.sequence[Cell(pos, n) := Norm(width, pos + 1)]), t, Idle)
    case DeqLoad(pos) =>
      var dif := Diff(width, m.sequence[Cell(pos, n)], Norm(width, pos + 1));
      Goto(m, t, if dif == 0 then DeqCas(pos) else if dif < 0 then DeqDone(None) else DeqReload)
    case DeqCas(pos) =>
      if m.head == pos && !weakFails
      then Goto(m.(head := Norm(width, pos + 1)), t, DeqCopy(pos))
      else Goto(m, t, DeqLoad(m.head))
    case DeqReload => Goto(m, t, DeqLoad(m.head))
    case DeqCopy(pos) => Goto(m, t, DeqRelease(m.data[Cell(pos, n)], pos))
    case DeqRelease(x, pos) =>
      Goto(m.(sequence := m.sequence[Cell(pos, n) := Norm(width, pos + n)]), t, DeqDone(Some(x)))
    case DeqDone(_) => m
  }

  // ----- history: what each claimed position went through -----

  datatype Stage = Writing | Published | Reading | Released

  /** Indexed by position: the claimed item, who claimed it, how far it got, who took it and
      what that consumer was handed. */
  datatype Hist<T> = Hist(
    items: seq<T>, writers: seq<Tid>, stages: seq<Stage>, readers: seq<Tid>, delivered: seq<Option<T>>)

  datatype World<T> = World(m: Mem<T>, h: Hist<T>)

  function Observe<T>(m: Mem<T>, h: Hist<T>, a: Action<T>): Hist<T> {
    if !a.Run? then h else
    match PcOf(m, a.t)
    case EnqCas(x, pos) =>
      if m.tail == pos && !a.weakFails
      then h.(items := h.items + [x], writers := h.writers + [a.t], stages := h.stages + [Writing])
      else h
    case EnqPublish(_, pos) => Mark(h, pos, Published)
    case DeqCas(pos) =>
      if m.head == pos && !a.weakFails
      then Mark(h.(readers := h.readers + [a.t], delivered := h.delivered + [None]), pos, Reading)
      else h
    case DeqRelease(x, pos) =>
      var h1 := Mark(h, pos, Released);
      if pos < |h.delivered| then h1.(delivered := h.delivered[pos := Some(x)]) else h1
    case _ => h
  }

  function Mark<T>(h: Hist<T>, pos: nat, stage: Stage): Hist<T> {
    if pos < |h.stages| then h.(stages := h.stages[pos := stage]) else h
  }

  function Start<T>(n: nat, blank: T): World<T> {
    World(Init(n, blank), Hist([], [], [], [], []))
  }

  function Next<T>(w: World<T>, a: Action<T>): World<T>
    requires Wf(w.m)
  {
    World(Step(Unbounded, w.m, a), Observe(w.m, w.h, a))
  }

  lemma StepWf<T>(width: Width, m: Mem<T>, a: Action<T>)
    requires Wf(m)
    ensures Wf(Step(width, m, a)) && |Step(width, m, a).sequence| == |m.sequence|
  {
  }

  function Exec<T>(w: World<T>, acts: seq<Action<T>>): (r: World<T>)
    requires Wf(w.m)
    ensures Wf(r.m) && |r.m.sequence| == |w.m.sequence|
  {
    if acts == [] then w
    else
      var w1 := Exec(w, acts[..|acts| - 1]);
      var a := acts[|acts| - 1];
      StepWf(Unbounded, w1.m, a);
      Next(w1, a)
  }

  // ----- the invariant -----

  function StageOf<T>(h: Hist<T>, p: int): Stage {
    if 0 <= p < |h.stages| then h.stages[p] else Released
  }

  /** The sequence number the cell of p must show while p is its latest claimed position. */
  function Expected<T>(h: Hist<T>, p: int, n: nat): int {
    match StageOf(h, p)
    case Writing => p
    case Published => p + 1
    case Reading => p + 1
    case Released => p + n
  }

  ghost predicate CellOk<T>(w: World<T>, p: int)
    requires Wf(w.m)
  {
    var n := |w.m.sequence|;
    && w.m.sequence[Cell(p, n)] == Expected(w.h, p, n)
    && ((StageOf(w.h, p).Published? || StageOf(w.h, p).Reading?) && 0 <= p < |w.h.items| ==>
          w.m.data[Cell(p, n)] == w.h.items[p])
  }

  ghost predicate CellsOk<T>(w: World<T>)
    requires Wf(w.m)
  {
    forall p: int | w.m.tail - |w.m.sequence| <= p < w.m.tail :: CellOk(w, p)
  }

  predicate Taken(s: Stage) {
    s.Reading? || s.Released?
  }

  /** Positions below `head` have a consumer, positions more than a lap behind are finished. */
  ghost predicate StagesOk<T>(w: World<T>) {
    var n := |w.m.sequence|;
    && |w.h.items| == |w.h.writers| == |w.h.stages| == w.m.tail
    && |w.h.readers| == |w.h.delivered| == w.m.head
    && w.m.head <= w.m.tail <= w.m.head + n
    && (forall p | 0 <= p < w.m.tail ::
          && (p < w.m.head <==> Taken(w.h.stages[p]))
          && (p < w.m.tail - n ==> w.h.stages[p] == Released))
    && (forall p | 0 <= p < w.m.head ::
          w.h.delivered[p] == if w.h.stages[p] == Released then Some(w.h.items[p]) else None)
  }

  ghost predicate Writes<T>(w: World<T>, t: Tid, x: T, pos: nat) {
    && pos < |w.h.items| == |w.h.writers| == |w.h.stages|
    && w.h.stages[pos] == Writing && w.h.writers[pos] == t && w.h.items[pos] == x
  }

  ghost predicate Reads<T>(w: World<T>, t: Tid, pos: nat) {
    && pos < |w.h.readers| <= |w.h.stages|
    && w.h.stages[pos] == Reading && w.h.readers[pos] == t
  }

  ghost predicate ThreadOk<T>(w: World<T>, t: Tid)
    requires Wf(w.m)
  {
    var n := |w.m.sequence|;
    match PcOf(w.m, t)
    case EnqLoad(_, pos) => pos <= w.m.tail
    case EnqCas(_, pos) => pos <= w.m.tail && (pos == w.m.tail ==> w.m.sequence[Cell(pos, n)] == pos)
    case EnqCopy(x, pos) => Writes(w, t, x, pos)
    case EnqPublish(x, pos) => Writes(w, t, x, pos) && w.m.data[Cell(pos, n)] == x
    case DeqLoad(pos) => pos <= w.m.head
    case DeqCas(pos) => pos <= w.m.head && (pos == w.m.head ==> w.m.sequence[Cell(pos, n)] == pos + 1)
    case DeqCopy(pos) => Reads(w, t, pos)
    case DeqRelease(x, pos) => Reads(w, t, pos) && pos < |w.h.items| && x == w.h.items[pos]
    case _ => true
  }

  ghost predicate ThreadsOk<T>(w: World<T>)
    requires Wf(w.m)
  {
    forall t: Tid :: ThreadOk(w, t)
  }

  /** A position being written or read has its owner still inside the copy. */
  ghost predicate OwnerOk<T>(w: World<T>, p: nat)
    requires p < |w.h.stages|
  {
    && (w.h.stages[p] == Writing ==>
          p < |w.h.writers| && var pc := PcOf(w.m, w.h.writers[p]);
          (pc.EnqCopy? || pc.EnqPublish?) && pc.pos == p)
    && (w.h.stages[p] == Reading ==>
          p < |w.h.readers| && var pc := PcOf(w.m, w.h.readers[p]);
          (pc.DeqCopy? || pc.DeqRelease?) && pc.pos == p)
  }

  ghost predicate OwnersOk<T>(w: World<T>) {
    forall p: nat | p < |w.h.stages| :: OwnerOk(w, p)
  }

  /** The published numbers p + 1 and the released numbers p + n must differ, so n >= 2. */
  ghost predicate Inv<T>(w: World<T>) {
    Wf(w.m) && 2 <= |w.m.sequence| && StagesOk(w) && CellsOk(w) && ThreadsOk(w) && OwnersOk(w)
  }

  lemma StartInv<T>(n: nat, blank: T)
    requires 2 <= n
    ensures Inv(Start(n, blank))
  {
    var w := Start(n, blank);
    forall p: int | 0 <= p + n < n ensures CellOk(w, p) {
      CellNextLap(p, n);
      CellSmall(p + n, n);
    }
  }

  // ----- reading the sequence number of any position -----

  /** The latest claimed position (or virtual one before 0) in the cell of pos. */
  function Latest(pos: int, tail: nat, n: nat): int
    requires 0 < n
  {
    InWindow(pos, tail - n, n)
  }

  lemma LatestBounds(pos: int, tail: nat, n: nat)
    requires 0 < n && pos <= tail
    ensures var r := Latest(pos, tail, n);
      if pos == tail then r == tail - n else r == pos || pos + n <= r
  {
    var r := Latest(pos, tail, n);
    SameCell(r, pos, n);
  }

  /** What a producer that holds `pos` learns from the sequence number. */
  lemma EnqueueVerdict<T>(w: World<T>, pos: nat)
    requires Inv(w) && pos <= w.m.tail
    ensures var n := |w.m.sequence|; var sq := w.m.sequence[Cell(pos, n)];
      && (sq < pos <==> pos == w.m.tail && StageOf(w.h, pos - n) != Released)
      && (sq == pos && pos == w.m.tail <==> pos == w.m.tail && StageOf(w.h, pos - n) == Released)
      && (sq > pos ==> pos < w.m.tail)
      && sq + 1 <= w.m.tail + n
  {
    var n := |w.m.sequence|;
    var r := Latest(pos, w.m.tail, n);
    LatestBounds(pos, w.m.tail, n);
    assert CellOk(w, r);
  }

  /** What a consumer that holds `pos` learns from the sequence number. */
  lemma DequeueVerdict<T>(w: World<T>, pos: nat)
    requires Inv(w) && pos <= w.m.head
    ensures var n := |w.m.sequence|; var sq := w.m.sequence[Cell(pos, n)];
      && (sq < pos + 1 <==> pos == w.m.head && (pos == w.m.tail || w.h.stages[pos] == Writing))
      && (sq == pos + 1 && pos == w.m.head <==> pos == w.m.head && pos < w.m.tail && w.h.stages[pos] == Published)
      && (sq > pos + 1 ==> pos < w.m.head)
      && sq <= w.m.head + n
  {
    var n := |w.m.sequence|;
    var r := Latest(pos, w.m.tail, n);
    LatestBounds(pos, w.m.tail, n);
    assert CellOk(w, r);
    assert Taken(StageOf(w.h, r)) ==> r < w.m.head;
  }

  // ----- every step keeps the invariant -----

  /** A change to the cell of one window position leaves the other window positions alone. */
  lemma OtherCell(p: int, q: int, n: nat)
    requires 0 < n && p != q && p < q + n && q < p + n
    ensures Cell(p, n) != Cell(q, n)
  {
    if Cell(p, n) == Cell(q, n) {
      SameCell(p, q, n);
    }
  }

  lemma LocalStep<T>(w: World<T>, t: Tid, pc: Pc<T>)
    requires Inv(w)
    requires !(PcOf(w.m, t).EnqCopy? || PcOf(w.m, t).EnqPublish? || PcOf(w.m, t).DeqCopy? || PcOf(w.m, t).DeqRelease?)
    requires ThreadOk(World(Goto(w.m, t, pc), w.h), t)
    ensures Inv(World(Goto(w.m, t, pc), w.h))
  {
    var w' := World(Goto(w.m, t, pc), w.h);
    forall u: Tid ensures ThreadOk(w', u) {
      assert ThreadOk(w, u);
    }
    forall p: int | w'.m.tail - |w'.m.sequence| <= p < w'.m.tail ensures CellOk(w', p) {
      assert CellOk(w, p);
    }
    forall p: nat | p < |w.h.stages| ensures OwnerOk(w', p) {
      assert OwnerOk(w, p);
    }
  }

  lemma ClaimTailThreads<T>(w: World<T>, t: Tid, x: T, w': World<T>)
    requires Inv(w) && PcOf(w.m, t) == EnqCas(x, w.m.tail)
    requires w'.m == Goto(w.m.(tail := w.m.tail + 1), t, EnqCopy(x, w.m.tail))
    requires w'.h == w.h.(items := w.h.items + [x], writers := w.h.writers + [t], stages := w.h.stages + [Writing])
    ensures Wf(w'.m) && ThreadsOk(w')
  {
    ClaimFindsFree(w, t, x);
    forall u: Tid ensures ThreadOk(w', u) {
      assert ThreadOk(w, u);
    }
  }

  /** A claim succeeds only while the slot one lap earlier is released. */
  lemma ClaimFindsFree<T>(w: World<T>, t: Tid, x: T)
    requires Inv(w) && PcOf(w.m, t) == EnqCas(x, w.m.tail)
    ensures var n := |w.m.sequence|;
      StageOf(w.h, w.m.tail - n) == Released && w.m.sequence[Cell(w.m.tail, n)] == w.m.tail
  {
    assert ThreadOk(w, t);
    EnqueueVerdict(w, w.m.tail);
  }

  lemma ClaimTailCells<T>(w: World<T>, t: Tid, x: T, w': World<T>)
    requires Inv(w) && PcOf(w.m, t) == EnqCas(x, w.m.tail)
    requires w'.m == Goto(w.m.(tail := w.m.tail + 1), t, EnqCopy(x, w.m.tail))
    requires w'.h == w.h.(items := w.h.items + [x], writers := w.h.writers + [t], stages := w.h.stages + [Writing])
    ensures Wf(w'.m) && CellsOk(w') && OwnersOk(w')
  {
    ClaimFindsFree(w, t, x);
    forall p: int | w'.m.tail - |w.m.sequence| <= p < w'.m.tail ensures CellOk(w', p) {
      if p < w.m.tail {
        assert CellOk(w, p);
      }
    }
    forall p: nat | p < |w'.h.stages| ensures OwnerOk(w', p) {
      if p < w.m.tail {
        assert OwnerOk(w, p);
      }
    }
  }

  lemma ClaimTail<T>(w: World<T>, t: Tid, x: T, w': World<T>)
    requires Inv(w) && PcOf(w.m, t) == EnqCas(x, w.m.tail)
    requires w'.m == Goto(w.m.(tail := w.m.tail + 1), t, EnqCopy(x, w.m.tail))
    requires w'.h == w.h.(items := w.h.items + [x], writers := w.h.writers + [t], stages := w.h.stages + [Writing])
    ensures Inv(w')
  {
    ClaimFindsFree(w, t, x);
    ClaimTailThreads(w, t, x, w');
    ClaimTailCells(w, t, x, w');
  }

  lemma ClaimHead<T>(w: World<T>, t: Tid)
    requires Inv(w) && PcOf(w.m, t).DeqCas? && PcOf(w.m, t).pos == w.m.head
    ensures Inv(Next(w, Run(t, false)))
  {
    var w', n, pos := Next(w, Run(t, false)), |w.m.sequence|, w.m.head;
    assert ThreadOk(w, t);
    DequeueVerdict(w, pos);
    forall u: Tid ensures ThreadOk(w', u) {
      assert ThreadOk(w, u);
    }
    forall p: int | w'.m.tail - n <= p < w'.m.tail ensures CellOk(w', p) {
      assert CellOk(w, p);
    }
    forall p: nat | p < |w'.h.stages| ensures OwnerOk(w', p) {
      assert OwnerOk(w, p);
    }
  }

  /** Another thread inside a copy owns another cell. */
  lemma Exclusive<T>(w: World<T>, p: nat, q: nat)
    requires Inv(w) && p < |w.h.stages| && q < |w.h.stages| && p != q
    requires w.h.stages[p].Writing? || w.h.stages[p].Reading?
    requires w.h.stages[q].Writing? || w.h.stages[q].Reading?
    ensures Cell(p, |w.m.sequence|) != Cell(q, |w.m.sequence|)
  {
    OtherCell(p, q, |w.m.sequence|);
  }

  lemma CopyIn<T>(w: World<T>, t: Tid, weakFails: bool)
    requires Inv(w) && PcOf(w.m, t).EnqCopy?
    ensures Inv(Next(w, Run(t, weakFails)))
  {
    var w', n, pos := Next(w, Run(t, weakFails)), |w.m.sequence|, PcOf(w.m, t).pos;
    assert ThreadOk(w, t);
    forall u: Tid ensures ThreadOk(w', u) {
      assert ThreadOk(w, u);
      if u != t && PcOf(w.m, u).EnqPublish? {
        Exclusive(w, pos, PcOf(w.m, u).pos);
      }
    }
    forall p: int | w'.m.tail - n <= p < w'.m.tail ensures CellOk(w', p) {
      assert CellOk(w, p);
      if p != pos {
        OtherCell(p, pos, n);
      }
    }
    forall p: nat | p < |w'.h.stages| ensures OwnerOk(w', p) {
      assert OwnerOk(w, p);
    }
  }

  lemma CopyOut<T>(w: World<T>, t: Tid, weakFails: bool)
    requires Inv(w) && PcOf(w.m, t).DeqCopy?
    ensures Inv(Next(w, Run(t, weakFails)))
  {
    var w', n, pos := Next(w, Run(t, weakFails)), |w.m.sequence|, PcOf(w.m, t).pos;
    assert ThreadOk(w, t);
    assert CellOk(w, pos);
    forall u: Tid ensures ThreadOk(w', u) {
      assert ThreadOk(w, u);
    }
    forall p: int | w'.m.tail - n <= p < w'.m.tail ensures CellOk(w', p) {
      assert CellOk(w, p);
    }
    forall p: nat | p < |w'.h.stages| ensures OwnerOk(w', p) {
      assert OwnerOk(w, p);
    }
  }

  lemma PublishThreads<T>(w: World<T>, t: Tid, x: T, pos: nat, w': World<T>)
    requires Inv(w) && PcOf(w.m, t) == EnqPublish(x, pos)
    requires w'.m == Goto(w.m.(sequence := w.m.sequence[Cell(pos, |w.m.sequence|) := pos + 1]), t, Idle)
    requires w'.h == Mark(w.h, pos, Published)
    ensures Wf(w'.m) && ThreadsOk(w')
  {
    var n := |w.m.sequence|;
    assert ThreadOk(w, t) && CellOk(w, pos);
    forall u: Tid ensures ThreadOk(w', u) {
      assert ThreadOk(w, u);
      if PcOf(w.m, u).DeqCas? && PcOf(w.m, u).pos == w.m.head {
        OtherCell(pos, PcOf(w.m, u).pos, n);
      }
    }
  }

  /** The producer's final store: its position becomes readable. */
  lemma Publish<T>(w: World<T>, t: Tid, x: T, pos: nat, w': World<T>)
    requires Inv(w) && PcOf(w.m, t) == EnqPublish(x, pos)
    requires w'.m == Goto(w.m.(sequence := w.m.sequence[Cell(pos, |w.m.sequence|) := pos + 1]), t, Idle)
    requires w'.h == Mark(w.h, pos, Published)
    ensures Inv(w')
  {
    var n := |w.m.sequence|;
    assert ThreadOk(w, t) && CellOk(w, pos);
    PublishThreads(w, t, x, pos, w');
    forall p: int | w'.m.tail - n <= p < w'.m.tail ensures CellOk(w', p) {
      assert CellOk(w, p);
      if p != pos {
        OtherCell(p, pos, n);
      }
    }
    forall p: nat | p < |w'.h.stages| ensures OwnerOk(w', p) {
      assert OwnerOk(w, p);
    }
  }

  lemma ReleaseThreads<T>(w: World<T>, t: Tid, x: T, pos: nat, w': World<T>)
    requires Inv(w) && PcOf(w.m, t) == DeqRelease(x, pos)
    requires var n := |w.m.sequence|;
      w'.m == Goto(w.m.(sequence := w.m.sequence[Cell(pos, n) := pos + n]), t, DeqDone(Some(x)))
    requires pos < |w.h.delivered| && w'.h == Mark(w.h, pos, Released).(delivered := w.h.delivered[pos := Some(x)])
    ensures Wf(w'.m) && ThreadsOk(w')
  {
    var n := |w.m.sequence|;
    assert ThreadOk(w, t) && CellOk(w, pos);
    forall u: Tid ensures ThreadOk(w', u) {
      assert ThreadOk(w, u);
      if PcOf(w.m, u).EnqCas? && PcOf(w.m, u).pos == w.m.tail && pos != w.m.tail - n {
        OtherCell(pos, PcOf(w.m, u).pos, n);
      }
    }
  }

  /** The consumer's final store: its cell is free for the next lap. */
  lemma Release<T>(w: World<T>, t: Tid, x: T, pos: nat, w': World<T>)
    requires Inv(w) && PcOf(w.m, t) == DeqRelease(x, pos)
    requires var n := |w.m.sequence|;
      w'.m == Goto(w.m.(sequence := w.m.sequence[Cell(pos, n) := pos + n]), t, DeqDone(Some(x)))
    requires pos < |w.h.delivered| && w'.h == Mark(w.h, pos, Released).(delivered := w.h.delivered[pos := Some(x)])
    ensures Inv(w')
  {
    var n := |w.m.sequence|;
    assert ThreadOk(w, t) && CellOk(w, pos);
    ReleaseThreads(w, t, x, pos, w');
    forall p: int | w'.m.tail - n <= p < w'.m.tail ensures CellOk(w', p) {
      assert CellOk(w, p);
      if p != pos {
        OtherCell(p, pos, n);
      }
    }
    forall p: nat | p < |w'.h.stages| ensures OwnerOk(w', p) {
      assert OwnerOk(w, p);
    }
  }

  lemma LoadSequence<T>(w: World<T>, t: Tid, weakFails: bool)
    requires Inv(w) && (PcOf(w.m, t).EnqLoad? || PcOf(w.m, t).DeqLoad?)
    ensures Inv(Next(w, Run(t, weakFails)))
  {
    assert ThreadOk(w, t);
    LocalStep(w, t, PcOf(RunThread(Unbounded, w.m, t, weakFails), t));
  }

  lemma CasInv<T>(w: World<T>, t: Tid, weakFails: bool)
    requires Inv(w) && (PcOf(w.m, t).EnqCas? || PcOf(w.m, t).DeqCas?)
    ensures Inv(Next(w, Run(t, weakFails)))
  {
    var pc := PcOf(w.m, t);
    if pc.EnqCas? {
      if w.m.tail == pc.pos && !weakFails {
        ClaimTail(w, t, pc.item, Next(w, Run(t, false)));
      } else {
        LocalStep(w, t, EnqLoad(pc.item, w.m.tail));
      }
    } else if w.m.head == pc.pos && !weakFails {
      ClaimHead(w, t);
    } else {
      LocalStep(w, t, DeqLoad(w.m.head));
    }
  }

  lemma BeginInv<T>(w: World<T>, a: Action<T>)
    requires Inv(w) && !a.Run?
    ensures Inv(Next(w, a))
  {
    if CanBegin(w.m, a.t) {
      LocalStep(w, a.t, if a.BeginEnqueue? then EnqLoad(a.item, w.m.tail) else DeqLoad(w.m.head));
    }
  }

  lemma ReloadInv<T>(w: World<T>, t: Tid, weakFails: bool)
    requires Inv(w) && (PcOf(w.m, t).EnqReload? || PcOf(w.m, t).DeqReload?)
    ensures Inv(Next(w, Run(t, weakFails)))
  {
    var pc := PcOf(w.m, t);
    LocalStep(w, t, if pc.EnqReload? then EnqLoad(pc.item, w.m.tail) else DeqLoad(w.m.head));
  }

  lemma StoreInv<T>(w: World<T>, t: Tid, weakFails: bool)
    requires Inv(w) && (PcOf(w.m, t).EnqPublish? || PcOf(w.m, t).DeqRelease?)
    ensures Inv(Next(w, Run(t, weakFails)))
  {
    var pc := PcOf(w.m, t);
    assert ThreadOk(w, t);
    if pc.EnqPublish? {
      Publish(w, t, pc.item, pc.pos, Next(w, Run(t, weakFails)));
    } else {
      Release(w, t, pc.item, pc.pos, Next(w, Run(t, weakFails)));
    }
  }

  lemma NextInv<T>(w: World<T>, a: Action<T>)
    requires Inv(w)
    ensures Inv(Next(w, a))
  {
    if !a.Run? {
      BeginInv(w, a);
    } else {
      var t, pc := a.t, PcOf(w.m, a.t);
      if pc.EnqLoad? || pc.DeqLoad? {
        LoadSequence(w, t, a.weakFails);
      } else if pc.EnqCas? || pc.DeqCas? {
        CasInv(w, t, a.weakFails);
      } else if pc.EnqReload? || pc.DeqReload? {
        ReloadInv(w, t, a.weakFails);
      } else if pc.EnqCopy? {
        CopyIn(w, t, a.weakFails);
      } else if pc.DeqCopy? {
        CopyOut(w, t, a.weakFails);
      } else if pc.EnqPublish? || pc.DeqRelease? {
        StoreInv(w, t, a.weakFails);
      }
    }
  }

  lemma {:induction false} ExecInv<T>(w: World<T>, acts: seq<Action<T>>)
    requires Inv(w)
    ensures Inv(Exec(w, acts))
  {
    if acts != [] {
      ExecInv(w, acts[..|acts| - 1]);
      NextInv(Exec(w, acts[..|acts| - 1]), acts[|acts| - 1]);
    }
  }
}
