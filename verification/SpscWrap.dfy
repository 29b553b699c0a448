/** The byte ring with w-bit counters: when the capacity divides 2^w it is the unbounded ring, and
    otherwise there is a run in which a pop returns an element that was not the oldest. */
module SpscWrap {
  import opened Words
  import opened SpscRing

  // ----- counters and slots across the wrap -----

  /** `tail - head` on words is the number of unread elements. */
  lemma OccupancyExact(w: nat, h: nat, t: nat)
    requires h <= t < h + Pow2(w)
    ensures UDiff(Bits(w), Norm(Bits(w), t), Norm(Bits(w), h)) == t - h
  {
    ModOfDifference(t, h, Pow2(w));
    ModUnique(t - h, Pow2(w), 0, t - h);
  }

  /** Any `capacity` consecutive counter values fall into different slots. */
  ghost predicate WindowsDistinct(w: nat, capacity: nat)
    requires 0 < capacity
  {
    forall x: nat, y: nat | x < y < x + capacity ::
      Cell(Norm(Bits(w), x), capacity) != Cell(Norm(Bits(w), y), capacity)
  }

  /** Each counter step moves to the next slot of the ring. */
  ghost predicate SlotsInOrder(w: nat, capacity: nat)
    requires 0 < capacity
  {
    forall x: nat :: Cell(Norm(Bits(w), x + 1), capacity) == Cell(Cell(Norm(Bits(w), x), capacity) + 1, capacity)
  }

  lemma NextSlot(x: nat, n: nat)
    requires 0 < n
    ensures Cell(x + 1, n) == Cell(Cell(x, n) + 1, n)
  {
    assert x + 1 == (Cell(x, n) + 1) + (x / n) * n;
    ModShift(Cell(x, n) + 1, n, x / n);
  }

  /** The last lap before the wrap starts at slot 0, and so does the counter 0 after it. */
  lemma WrapPoint(w: nat, capacity: nat)
    requires 0 < capacity < Pow2(w)
    ensures var c := Pow2(w) - Pow2(w) % capacity;
      && 0 < c && Norm(Bits(w), c) == (if Pow2(w) % capacity == 0 then 0 else c)
      && Cell(c, capacity) == 0 && Norm(Bits(w), Pow2(w)) == 0 && Cell(0, capacity) == 0
  {
    var m := Pow2(w);
    assert m - m % capacity == (m / capacity) * capacity + 0;
    ModUnique(m - m % capacity, capacity, m / capacity, 0);
    ModUnique(m, m, 1, 0);
    ModUnique(0, capacity, 0, 0);
    if m % capacity != 0 {
      ModUnique(m - m % capacity, m, 0, m - m % capacity);
    }
  }

  lemma SlotMapHolds(w: nat, capacity: nat)
    requires Divides(capacity, Pow2(w))
    ensures WindowsDistinct(w, capacity) && SlotsInOrder(w, capacity)
  {
    forall x: nat, y: nat | x < y < x + capacity
      ensures Cell(Norm(Bits(w), x), capacity) != Cell(Norm(Bits(w), y), capacity)
    {
      CellOfNorm(w, x, capacity);
      CellOfNorm(w, y, capacity);
      if Cell(x, capacity) == Cell(y, capacity) {
        SameCell(x, y, capacity);
      }
    }
    forall x: nat
      ensures Cell(Norm(Bits(w), x + 1), capacity) == Cell(Cell(Norm(Bits(w), x), capacity) + 1, capacity)
    {
      CellOfNorm(w, x, capacity);
      CellOfNorm(w, x + 1, capacity);
      NextSlot(x, capacity);
    }
  }

  lemma WindowBreaks(w: nat, capacity: nat)
    requires 0 < capacity < Pow2(w) && !Divides(capacity, Pow2(w))
    ensures !WindowsDistinct(w, capacity)
  {
    var m, c: nat := Pow2(w), Pow2(w) - Pow2(w) % capacity;
    WrapPoint(w, capacity);
    assert c < m < c + capacity;
    assert Cell(Norm(Bits(w), c), capacity) == Cell(Norm(Bits(w), m), capacity);
  }

  lemma OrderBreaks(w: nat, capacity: nat)
    requires 0 < capacity < Pow2(w) && !Divides(capacity, Pow2(w))
    ensures !SlotsInOrder(w, capacity)
  {
    var m, last: nat := Pow2(w), Pow2(w) - 1;
    WrapPoint(w, capacity);
    ModUnique(last, m, 0, last);
    NextSlot(last, capacity);
    assert Cell(Norm(Bits(w), last + 1), capacity) != Cell(Cell(Norm(Bits(w), last), capacity) + 1, capacity);
  }

  /** Both hold exactly when the capacity divides the word range. */
  lemma SlotMapExact(w: nat, capacity: nat)
    requires 0 < capacity < Pow2(w)
    ensures WindowsDistinct(w, capacity) <==> Divides(capacity, Pow2(w))
    ensures SlotsInOrder(w, capacity) <==> Divides(capacity, Pow2(w))
  {
    if Divides(capacity, Pow2(w)) {
      SlotMapHolds(w, capacity);
    } else {
      WindowBreaks(w, capacity);
      OrderBreaks(w, capacity);
    }
  }

  // ----- refinement -----

  function WrapRing(w: nat, r: Ring): Ring {
    r.(head := Norm(Bits(w), r.head), tail := Norm(Bits(w), r.tail),
       prod := (match r.prod
                case PLoadHead(elem, t) => PLoadHead(elem, Norm(Bits(w), t))
                case PCopy(elem, t, copied) => PCopy(elem, Norm(Bits(w), t), copied)
                case _ => r.prod),
       cons := (match r.cons
                case CLoadTail(h) => CLoadTail(Norm(Bits(w), h))
                case CCopy(h, out, copied) => CCopy(Norm(Bits(w), h), out, copied)
                case _ => r.cons))
  }

  predicate Fits(capacity: nat, w: nat) {
    capacity == 0 || (capacity < Pow2(w) && Divides(capacity, Pow2(w)))
  }

  lemma SlotWraps(w: nat, r: Ring, x: nat)
    requires Fits(r.capacity, w)
    ensures Slot(r, Norm(Bits(w), x)) == Slot(r, x)
  {
    if r.capacity != 0 {
      CellOfNorm(w, x, r.capacity);
    }
  }

  lemma ProducerWraps(w: nat, r: Ring, i: nat)
    requires Inv(r) && Fits(r.capacity, w)
    ensures StepProducer(Bits(w), WrapRing(w, r), i) == WrapRing(w, StepProducer(Unbounded, r, i))
  {
    OccupancyExact(w, r.head, r.tail);
    NormNorm(w, r.tail, 1);
    SlotWraps(w, r, r.tail);
  }

  lemma ConsumerWraps(w: nat, r: Ring, i: nat)
    requires Inv(r) && Fits(r.capacity, w)
    ensures StepConsumer(Bits(w), WrapRing(w, r), i) == WrapRing(w, StepConsumer(Unbounded, r, i))
  {
    NormInjective(w, r.head, r.tail);
    NormNorm(w, r.head, 1);
    SlotWraps(w, r, r.head);
  }

  lemma StepWraps(w: nat, r: Ring, a: Action)
    requires Inv(r) && Fits(r.capacity, w)
    ensures Step(Bits(w), WrapRing(w, r), a) == WrapRing(w, Step(Unbounded, r, a))
  {
    if a.ProdStep? {
      ProducerWraps(w, r, a.i);
    } else if a.ConsStep? {
      ConsumerWraps(w, r, a.i);
    }
  }

  lemma {:induction false} RunsRefine(w: nat, r: Ring, acts: seq<Action>)
    requires Inv(r) && Fits(r.capacity, w)
    ensures Exec(Bits(w), WrapRing(w, r), acts) == WrapRing(w, Exec(Unbounded, r, acts))
  {
    if acts != [] {
      var pre := acts[..|acts| - 1];
      RunsRefine(w, r, pre);
      ExecInv(r, pre);
      ExecShape(Unbounded, r, pre);
      StepWraps(w, Exec(Unbounded, r, pre), acts[|acts| - 1]);
    }
  }

  // ----- a failing run when the capacity does not divide 2^w -----

  lemma {:induction false} ExecConcat(width: Width, r: Ring, a: seq<Action>, b: seq<Action>)
    ensures Exec(width, r, a + b) == Exec(width, Exec(width, r, a), b)
  {
    if b == [] {
      assert a + b == a;
    } else {
      assert (a + b)[..|a + b| - 1] == a + b[..|b| - 1];
      ExecConcat(width, r, a, b[..|b| - 1]);
    }
  }

  lemma ExecOne(width: Width, r: Ring, a: Action)
    ensures Exec(width, r, [a]) == Step(width, r, a)
  {
    assert [a][..0] == [];
    assert Exec(width, r, [a][..0]) == r;
  }

  predicate Calm(r: Ring) {
    && (r.prod.PIdle? || r.prod.PDone?) && (r.cons.CIdle? || r.cons.CDone?)
    && 0 < r.capacity && |r.storage| == r.capacity * r.size
  }

  ghost predicate SlotHolds(r: Ring, slot: nat, elem: seq<byte>) {
    |elem| == r.size && forall i: nat | i < r.size :: Get(r.storage, Addr(slot, r.size, i)) == elem[i]
  }

  function UpTo(j: nat): (r: set<nat>)
    ensures forall i: nat :: i in r <==> i < j
  {
    if j == 0 then {} else UpTo(j - 1) + {j - 1}
  }

  /** A memcpy into the ring from byte j on. */
  lemma CopyInRun(width: Width, r: Ring, j: nat) returns (acts: seq<Action>, r': Ring)
    requires r.prod.PCopy? && r.prod.copied == UpTo(j) && j <= r.size == |r.prod.elem|
    requires 0 < r.capacity && |r.storage| == r.capacity * r.size
    requires forall i: nat | i < j :: Get(r.storage, Addr(Slot(r, r.prod.t), r.size, i)) == r.prod.elem[i]
    ensures r' == Exec(width, r, acts)
    ensures r' == r.(storage := r'.storage, prod := PCopy(r.prod.elem, r.prod.t, UpTo(r.size)))
    ensures |r'.storage| == |r.storage| && SlotHolds(r', Slot(r, r.prod.t), r.prod.elem)
    decreases r.size - j
  {
    if j == r.size {
      acts, r' := [], r;
    } else {
      var r1 := Step(width, r, ProdStep(j));
      assert j !in r.prod.copied;
      var slot := Slot(r, r.prod.t);
      InStorage(slot, r.size, j, r.capacity);
      forall i: nat | i < j ensures Addr(slot, r.size, i) != Addr(slot, r.size, j) {
        DistinctBytes(slot, slot, r.size, i, j);
      }
      assert UpTo(j) + {j} == UpTo(j + 1);
      ExecOne(width, r, ProdStep(j));
      var rest;
      rest, r' := CopyInRun(width, r1, j + 1);
      acts := [ProdStep(j)] + rest;
      ExecConcat(width, r, [ProdStep(j)], rest);
    }
  }

  /** A whole push into a ring with room. */
  lemma PushRun(width: Width, r: Ring, elem: seq<byte>) returns (acts: seq<Action>, r': Ring)
    requires Calm(r) && |elem| == r.size && UDiff(width, r.tail, r.head) < r.capacity
    ensures r' == Exec(width, r, acts) && Calm(r')
    ensures r' == r.(storage := r'.storage, tail := Norm(width, r.tail + 1), prod := PDone(true),
                     pushed := r.pushed + [elem])
    ensures SlotHolds(r', Slot(r, r.tail), elem)
  {
    var r1 := Step(width, r, Push(elem));
    var r2 := Step(width, r1, ProdStep(0));
    assert UpTo(0) == {};
    var copy, r3 := CopyInRun(width, r2, 0);
    r' := Step(width, r3, ProdStep(0));
    acts := (([Push(elem)] + [ProdStep(0)]) + copy) + [ProdStep(0)];
    ExecOne(width, r, Push(elem));
    ExecOne(width, r1, ProdStep(0));
    ExecOne(width, r3, ProdStep(0));
    ExecConcat(width, r, [Push(elem)], [ProdStep(0)]);
    ExecConcat(width, r, [Push(elem)] + [ProdStep(0)], copy);
    ExecConcat(width, r, ([Push(elem)] + [ProdStep(0)]) + copy, [ProdStep(0)]);
  }

  lemma CopyOutRun(width: Width, r: Ring, j: nat) returns (acts: seq<Action>, r': Ring)
    requires r.cons.CCopy? && r.cons.copied == UpTo(j) && j <= r.size == |r.cons.out|
    requires forall i: nat | i < j :: r.cons.out[i] == Get(r.storage, Addr(Slot(r, r.cons.h), r.size, i))
    ensures r' == Exec(width, r, acts)
    ensures r'.cons.CCopy? && r' == r.(cons := CCopy(r.cons.h, r'.cons.out, UpTo(r.size)))
    ensures SlotHolds(r, Slot(r, r.cons.h), r'.cons.out)
    decreases r.size - j
  {
    if j == r.size {
      acts, r' := [], r;
    } else {
      var r1 := Step(width, r, ConsStep(j));
      assert j !in r.cons.copied;
      assert UpTo(j) + {j} == UpTo(j + 1);
      ExecOne(width, r, ConsStep(j));
      var rest;
      rest, r' := CopyOutRun(width, r1, j + 1);
      acts := [ConsStep(j)] + rest;
      ExecConcat(width, r, [ConsStep(j)], rest);
    }
  }

  /** A whole pop from a ring that is not empty. */
  lemma PopRun(width: Width, r: Ring) returns (acts: seq<Action>, r': Ring, elem: seq<byte>)
    requires Calm(r) && r.tail != r.head
    ensures r' == Exec(width, r, acts) && Calm(r')
    ensures r' == r.(head := Norm(width, r.head + 1), cons := CDone(Some(elem)), popped := r.popped + [elem])
    ensures SlotHolds(r, Slot(r, r.head), elem)
  {
    var r1 := Step(width, r, Pop);
    var r2 := Step(width, r1, ConsStep(0));
    assert UpTo(0) == {};
    var copy, r3 := CopyOutRun(width, r2, 0);
    r' := Step(width, r3, ConsStep(0));
    elem := r3.cons.out;
    acts := (([Pop] + [ConsStep(0)]) + copy) + [ConsStep(0)];
    ExecOne(width, r, Pop);
    ExecOne(width, r1, ConsStep(0));
    ExecOne(width, r3, ConsStep(0));
    ExecConcat(width, r, [Pop], [ConsStep(0)]);
    ExecConcat(width, r, [Pop] + [ConsStep(0)], copy);
    ExecConcat(width, r, ([Pop] + [ConsStep(0)]) + copy, [ConsStep(0)]);
  }

  /** Counters at c, both of them, with c elements through the ring. */
  ghost predicate AtRest(r: Ring, w: nat, c: nat, capacity: nat, size: nat) {
    && Calm(r) && r.capacity == capacity && r.size == size
    && r.head == r.tail == Norm(Bits(w), c) && |r.pushed| == |r.popped| == c
  }

  /** c elements went through the ring, then k more were pushed: `first`, and last of all `last`. */
  ghost predicate Filled(r: Ring, w: nat, c: nat, k: nat, first: seq<byte>, last: seq<byte>, capacity: nat, size: nat) {
    && Calm(r) && r.capacity == capacity && r.size == size
    && r.head == Norm(Bits(w), c) && r.tail == Norm(Bits(w), c + k)
    && |r.popped| == c && |r.pushed| == c + k
    && (0 < k ==> r.pushed[c] == first && SlotHolds(r, Slot(r, Norm(Bits(w), c + k - 1)), last))
  }

  lemma FillOne(w: nat, r: Ring, c: nat, k: nat, first: seq<byte>, last: seq<byte>, elem: seq<byte>)
    returns (acts: seq<Action>, r': Ring)
    requires Filled(r, w, c, k, first, last, r.capacity, r.size) && |elem| == r.size
    requires k < r.capacity < Pow2(w) && (k == 0 ==> elem == first)
    ensures r' == Exec(Bits(w), r, acts) && Filled(r', w, c, k + 1, first, elem, r.capacity, r.size)
  {
    OccupancyExact(w, c, c + k);
    NormNorm(w, c + k, 1);
    acts, r' := PushRun(Bits(w), r, elem);
  }

  /** One push and one pop. */
  lemma OneRound(w: nat, r: Ring, elem: seq<byte>, c: nat) returns (acts: seq<Action>, r': Ring)
    requires AtRest(r, w, c, r.capacity, r.size) && |elem| == r.size && r.capacity < Pow2(w)
    ensures r' == Exec(Bits(w), r, acts) && AtRest(r', w, c + 1, r.capacity, r.size)
  {
    var acts1, r1 := FillOne(w, r, c, 0, elem, elem, elem);
    NormNorm(w, c, 1);
    NormInjective(w, c, c + 1);
    var acts2, r2, out := PopRun(Bits(w), r1);
    acts, r' := acts1 + acts2, r2;
    ExecConcat(Bits(w), r, acts1, acts2);
  }

  lemma {:induction false} RoundsRun(w: nat, r: Ring, elem: seq<byte>, c: nat) returns (acts: seq<Action>, r': Ring)
    requires AtRest(r, w, 0, r.capacity, r.size) && |elem| == r.size && r.capacity < Pow2(w)
    ensures r' == Exec(Bits(w), r, acts) && AtRest(r', w, c, r.capacity, r.size)
  {
    if c == 0 {
      acts, r' := [], r;
    } else {
      var acts0, r0 := RoundsRun(w, r, elem, c - 1);
      var acts1, r1 := OneRound(w, r0, elem, c - 1);
      acts, r' := acts0 + acts1, r1;
      ExecConcat(Bits(w), r, acts0, acts1);
    }
  }

  /** From rest at c: one push of `first`, then k pushes of `elem`. */
  lemma {:induction false} FillRun(w: nat, r: Ring, c: nat, first: seq<byte>, elem: seq<byte>, k: nat)
    returns (acts: seq<Action>, r': Ring)
    requires AtRest(r, w, c, r.capacity, r.size) && |first| == |elem| == r.size && k < r.capacity < Pow2(w)
    ensures r' == Exec(Bits(w), r, acts)
    ensures Filled(r', w, c, k + 1, first, if k == 0 then first else elem, r.capacity, r.size)
  {
    if k == 0 {
      acts, r' := FillOne(w, r, c, 0, first, first, first);
    } else {
      var acts0, r0 := FillRun(w, r, c, first, elem, k - 1);
      var acts1, r1 := FillOne(w, r0, c, k, first, if k == 1 then first else elem, elem);
      acts, r' := acts0 + acts1, r1;
      ExecConcat(Bits(w), r, acts0, acts1);
    }
  }

  /** The run: c elements through the ring up to the last lap before the wrap, then one push of
      ones followed by enough pushes of zeros for the counter to wrap back onto its slot. */
  lemma WrapOverwrites(w: nat, capacity: nat, size: nat, memory: seq<byte>) returns (acts: seq<Action>)
    requires 0 < capacity < Pow2(w) && !Divides(capacity, Pow2(w))
    requires 0 < size && |memory| == capacity * size
    ensures var r := Exec(Bits(w), Init(capacity, size, memory), acts);
      !(r.popped <= r.pushed)
  {
    var m := Pow2(w);
    var c, lap := m - m % capacity, m % capacity;
    var zeros, ones := seq(size, i => 0 as byte), seq(size, i => 1 as byte);
    WrapPoint(w, capacity);
    ModUnique(0, m, 0, 0);
    var r0 := Init(capacity, size, memory);
    var acts1, r1 := RoundsRun(w, r0, zeros, c);
    var acts2, r2 := FillRun(w, r1, c, ones, zeros, lap);
    assert Slot(r2, Norm(Bits(w), c + lap)) == 0 == Slot(r2, r2.head);
    OccupancyExact(w, c, c + lap + 1);
    NormInjective(w, c, c + lap + 1);
    var acts3, r3, elem := PopRun(Bits(w), r2);
    assert elem[0] == 0;
    assert r3.popped[c] == elem && r3.pushed[c] == ones && ones[0] == 1;
    acts := (acts1 + acts2) + acts3;
    ExecConcat(Bits(w), r0, acts1, acts2);
    ExecConcat(Bits(w), r0, acts1 + acts2, acts3);
  }

  /** With w-bit counters every run pops the pushed elements in order exactly when the capacity
      divides 2^w (or is 0, when every push is refused). */
  lemma PrefixExactly(w: nat, capacity: nat, size: nat, memory: seq<byte>)
    requires capacity < Pow2(w) && 0 < size && |memory| == capacity * size
    ensures (forall acts :: var r := Exec(Bits(w), Init(capacity, size, memory), acts); r.popped <= r.pushed)
      <==> capacity == 0 || Divides(capacity, Pow2(w))
  {
    if Fits(capacity, w) {
      forall acts ensures var r := Exec(Bits(w), Init(capacity, size, memory), acts); r.popped <= r.pushed {
        WordRingPrefix(w, capacity, size, memory, acts);
      }
    } else {
      var acts := WrapOverwrites(w, capacity, size, memory);
    }
  }

  /** The positive half for one run, with the occupancy. */
  lemma WordRingPrefix(w: nat, capacity: nat, size: nat, memory: seq<byte>, acts: seq<Action>)
    requires Fits(capacity, w) && |memory| == capacity * size
    ensures var r := Exec(Bits(w), Init(capacity, size, memory), acts);
      && r == WrapRing(w, Exec(Unbounded, Init(capacity, size, memory), acts))
      && r.popped <= r.pushed && UDiff(Bits(w), r.tail, r.head) == |r.pushed| - |r.popped| <= capacity
  {
    var r0 := Init(capacity, size, memory);
    InitInv(capacity, size, memory);
    ModUnique(0, Pow2(w), 0, 0);
    RunsRefine(w, r0, acts);
    ExecInv(r0, acts);
    ExecShape(Unbounded, r0, acts);
    var u := Exec(Unbounded, r0, acts);
    OccupancyExact(w, u.head, u.tail);
  }
}
