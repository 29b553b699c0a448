/** The single-producer single-consumer byte ring of sip_spsc_ring.h as a step machine: each load,
    each store and each byte of a memcpy is one step, and memcpy may go through the bytes in any
    order. */
module SpscRing {
  import opened Words

  newtype byte = x: int | 0 <= x < 256

  /** Inside `sip_spsc_push`; `copied` is the set of byte offsets already written. */
  datatype Producer =
    | PIdle
    | PLoadHead(elem: seq<byte>, t: nat)
    | PCopy(elem: seq<byte>, t: nat, copied: set<nat>)
    | PDone(ok: bool)

  /** Inside `sip_spsc_pop`; `out` is the caller's buffer. */
  datatype Consumer =
    | CIdle
    | CLoadTail(h: nat)
    | CCopy(h: nat, out: seq<byte>, copied: set<nat>)
    | CDone(result: Option<seq<byte>>)

  /** `pushed` and `popped` record the elements of the calls that returned true. */
  datatype Ring = Ring(
    capacity: nat, size: nat, storage: seq<byte>, head: nat, tail: nat,
    prod: Producer, cons: Consumer, pushed: seq<seq<byte>>, popped: seq<seq<byte>>)

  datatype Action = Push(elem: seq<byte>) | ProdStep(i: nat) | Pop | ConsStep(i: nat)

  function Init(capacity: nat, size: nat, memory: seq<byte>): Ring {
    Ring(capacity, size, memory, 0, 0, PIdle, CIdle, [], [])
  }

  function Slot(r: Ring, x: nat): nat {
    if r.capacity == 0 then 0 else Cell(x, r.capacity)
  }

  /** The i-th byte of a slot: `storage + index * element_size + i`. */
  function Addr(slot: nat, size: nat, i: nat): nat {
    slot * size + i
  }

  function Get(storage: seq<byte>, a: nat): byte {
    if a < |storage| then storage[a] else 0
  }

  function Set(storage: seq<byte>, a: nat, b: byte): seq<byte> {
    if a < |storage| then storage[a := b] else storage
  }

  predicate CopiedAll(copied: set<nat>, size: nat) {
    forall i | 0 <= i < size :: i in copied
  }

  function Step(width: Width, r: Ring, a: Action): Ring {
    match a
    case Push(elem) =>
      if (r.prod.PIdle? || r.prod.PDone?) && |elem| == r.size then r.(prod := PLoadHead(elem, r.tail)) else r
    case Pop =>
      if r.cons.CIdle? || r.cons.CDone? then r.(cons := CLoadTail(r.head)) else r
    case ProdStep(i) => StepProducer(width, r, i)
    case ConsStep(i) => StepConsumer(width, r, i)
  }

  function StepProducer(width: Width, r: Ring, i: nat): Ring {
    match r.prod
    case PLoadHead(elem, t) =>
      if UDiff(width, t, r.head) >= r.capacity then r.(prod := PDone(false)) else r.(prod := PCopy(elem, t, {}))
    case PCopy(elem, t, copied) =>
      if CopiedAll(copied, r.size) then
        r.(tail := Norm(width, t + 1), prod := PDone(true), pushed := r.pushed + [elem])
      else if i < r.size && i < |elem| then
        r.(storage := Set(r.storage, Addr(Slot(r, t), r.size, i), elem[i]), prod := PCopy(elem, t, copied + {i}))
      else r
    case _ => r
  }

  function StepConsumer(width: Width, r: Ring, i: nat): Ring {
    match r.cons
    case CLoadTail(h) =>
      if h == r.tail then r.(cons := CDone(None)) else r.(cons := CCopy(h, seq(r.size, j => 0), {}))
    case CCopy(h, out, copied) =>
      if CopiedAll(copied, r.size) then
        r.(head := Norm(width, h + 1), cons := CDone(Some(out)), popped := r.popped + [out])
      else if i < r.size && i < |out| then
        r.(cons := CCopy(h, out[i := Get(r.storage, Addr(Slot(r, h), r.size, i))], copied + {i}))
      else r
    case _ => r
  }

  function Exec(width: Width, r: Ring, acts: seq<Action>): Ring {
    if acts == [] then r else Step(width, Exec(width, r, acts[..|acts| - 1]), acts[|acts| - 1])
  }

  lemma {:induction false} ExecShape(width: Width, r: Ring, acts: seq<Action>)
    ensures var r' := Exec(width, r, acts);
      r'.capacity == r.capacity && r'.size == r.size && |r'.storage| == |r.storage|
  {
    if acts != [] {
      ExecShape(width, r, acts[..|acts| - 1]);
    }
  }

  // ----- byte ranges -----

  /** A slot below the capacity lies inside the storage. */
  lemma InStorage(slot: nat, size: nat, i: nat, capacity: nat)
    requires slot < capacity && i < size
    ensures Addr(slot, size, i) < capacity * size
  {
    MulDistributes(slot, capacity - slot, size);
    MulPositive(capacity - slot, size);
  }

  /** Different slots share no byte, and neither do different bytes of one slot. */
  lemma DistinctBytes(s: nat, t: nat, size: nat, i: nat, j: nat)
    requires i < size && j < size && (s != t || i != j)
    ensures Addr(s, size, i) != Addr(t, size, j)
  {
    if s < t {
      MulPositive(t - s, size);
      MulDistributes(s, t - s, size);
    } else if t < s {
      MulPositive(s - t, size);
      MulDistributes(t, s - t, size);
    }
  }

  // ----- the invariant -----

  /** The slot of the k-th element holds its bytes. */
  ghost predicate SlotOk(r: Ring, k: nat)
    requires k < |r.pushed|
  {
    && |r.pushed[k]| == r.size
    && forall i: nat | i < r.size :: Get(r.storage, Addr(Slot(r, k), r.size, i)) == r.pushed[k][i]
  }

  ghost predicate ProducerOk(r: Ring) {
    match r.prod
    case PLoadHead(elem, t) => t == r.tail && |elem| == r.size
    case PCopy(elem, t, copied) =>
      && t == r.tail < r.head + r.capacity && |elem| == r.size
      && forall i: nat | i < r.size && i in copied :: Get(r.storage, Addr(Slot(r, t), r.size, i)) == elem[i]
    case _ => true
  }

  ghost predicate ConsumerOk(r: Ring) {
    match r.cons
    case CLoadTail(h) => h == r.head
    case CCopy(h, out, copied) =>
      && h == r.head < r.tail == |r.pushed| && |out| == r.size == |r.pushed[h]|
      && forall i: nat | i < r.size && i in copied :: out[i] == r.pushed[h][i]
    case _ => true
  }

  ghost predicate Inv(r: Ring) {
    && |r.storage| == r.capacity * r.size
    && |r.pushed| == r.tail && r.head <= r.tail <= r.head + r.capacity
    && r.popped == r.pushed[..r.head]
    && (forall k: nat | r.head <= k < r.tail :: SlotOk(r, k))
    && ProducerOk(r) && ConsumerOk(r)
  }

  lemma InitInv(capacity: nat, size: nat, memory: seq<byte>)
    requires |memory| == capacity * size
    ensures Inv(Init(capacity, size, memory))
  {
  }

  /** The slot being written is not a live one. */
  lemma FreeSlot(r: Ring, k: nat)
    requires Inv(r) && r.head <= k < r.tail < r.head + r.capacity
    ensures Slot(r, k) != Slot(r, r.tail)
  {
    if Slot(r, k) == Slot(r, r.tail) {
      SameCell(k, r.tail, r.capacity);
    }
  }

  lemma CopyInStep(r: Ring, i: nat)
    requires Inv(r) && r.prod.PCopy? && i < r.size && !CopiedAll(r.prod.copied, r.size)
    ensures Inv(StepProducer(Unbounded, r, i))
  {
    var r' := StepProducer(Unbounded, r, i);
    var a := Addr(Slot(r, r.tail), r.size, i);
    InStorage(Slot(r, r.tail), r.size, i, r.capacity);
    forall k: nat | r'.head <= k < r'.tail ensures SlotOk(r', k) {
      assert SlotOk(r, k);
      FreeSlot(r, k);
      forall j: nat | j < r.size ensures Get(r'.storage, Addr(Slot(r', k), r.size, j)) == r.pushed[k][j] {
        DistinctBytes(Slot(r, k), Slot(r, r.tail), r.size, j, i);
      }
    }
    forall j: nat | j < r.size && j in r'.prod.copied
      ensures Get(r'.storage, Addr(Slot(r', r.tail), r.size, j)) == r.prod.elem[j]
    {
      if j != i {
        DistinctBytes(Slot(r, r.tail), Slot(r, r.tail), r.size, j, i);
      }
    }
  }

  lemma PublishStep(r: Ring, i: nat)
    requires Inv(r) && r.prod.PCopy? && CopiedAll(r.prod.copied, r.size)
    ensures Inv(StepProducer(Unbounded, r, i))
  {
    var r' := StepProducer(Unbounded, r, i);
    forall k: nat | r'.head <= k < r'.tail ensures SlotOk(r', k) {
      if k < r.tail {
        assert SlotOk(r, k);
      }
    }
    assert r'.popped == r'.pushed[..r'.head];
  }

  lemma ConsumerStep(r: Ring, i: nat)
    requires Inv(r)
    ensures Inv(StepConsumer(Unbounded, r, i))
  {
    var r' := StepConsumer(Unbounded, r, i);
    if r.cons.CCopy? || r.cons.CLoadTail? {
      assert r.head < r.tail ==> SlotOk(r, r.head);
    }
    if r.cons.CCopy? && CopiedAll(r.cons.copied, r.size) {
      assert r.cons.out == r.pushed[r.head];
      assert r'.popped == r'.pushed[..r'.head];
    }
    forall k: nat | r'.head <= k < r'.tail ensures SlotOk(r', k) {
      assert SlotOk(r, k);
    }
  }

  lemma StepInv(r: Ring, a: Action)
    requires Inv(r)
    ensures Inv(Step(Unbounded, r, a))
  {
    var r' := Step(Unbounded, r, a);
    match a
    case ConsStep(i) => ConsumerStep(r, i);
    case ProdStep(i) =>
      if r.prod.PCopy? && CopiedAll(r.prod.copied, r.size) {
        PublishStep(r, i);
      } else if r.prod.PCopy? && i < r.size {
        CopyInStep(r, i);
      } else {
        assert forall k: nat | r.head <= k < r.tail :: SlotOk(r, k) ==> SlotOk(r', k);
      }
    case _ =>
      assert forall k: nat | r.head <= k < r.tail :: SlotOk(r, k) ==> SlotOk(r', k);
  }

  lemma {:induction false} ExecInv(r: Ring, acts: seq<Action>)
    requires Inv(r)
    ensures Inv(Exec(Unbounded, r, acts))
  {
    if acts != [] {
      ExecInv(r, acts[..|acts| - 1]);
      StepInv(Exec(Unbounded, r, acts[..|acts| - 1]), acts[|acts| - 1]);
    }
  }

  // ----- what every run guarantees -----

  /** No element is torn, lost, duplicated or reordered: the popped elements are always the first
      pushed ones, byte for byte. */
  lemma PoppedIsPrefix(capacity: nat, size: nat, memory: seq<byte>, acts: seq<Action>)
    requires |memory| == capacity * size
    ensures var r := Exec(Unbounded, Init(capacity, size, memory), acts);
      r.popped <= r.pushed && |r.pushed| <= |r.popped| + capacity
  {
    InitInv(capacity, size, memory);
    ExecInv(Init(capacity, size, memory), acts);
    ExecShape(Unbounded, Init(capacity, size, memory), acts);
  }

  /** The byte ranges of the unread elements, and of the slot being filled, are pairwise disjoint
      and inside the storage. */
  lemma LiveSlotsDisjoint(capacity: nat, size: nat, memory: seq<byte>, acts: seq<Action>,
      j: nat, k: nat, a: nat, b: nat)
    requires |memory| == capacity * size && a < size && b < size
    requires var r := Exec(Unbounded, Init(capacity, size, memory), acts);
      r.head <= j < k && k < r.tail + (if r.prod.PCopy? then 1 else 0)
    ensures var r := Exec(Unbounded, Init(capacity, size, memory), acts);
      && Addr(Slot(r, j), size, a) != Addr(Slot(r, k), size, b)
      && Addr(Slot(r, j), size, a) < |r.storage| && Addr(Slot(r, k), size, b) < |r.storage|
  {
    InitInv(capacity, size, memory);
    ExecInv(Init(capacity, size, memory), acts);
    var r := Exec(Unbounded, Init(capacity, size, memory), acts);
    ExecShape(Unbounded, Init(capacity, size, memory), acts);
    if Slot(r, j) == Slot(r, k) {
      SameCell(j, k, capacity);
    }
    DistinctBytes(Slot(r, j), Slot(r, k), size, a, b);
    InStorage(Slot(r, j), size, a, capacity);
    InStorage(Slot(r, k), size, b, capacity);
  }

  /** A push fails exactly when all slots were unread at its load of the head, and a pop fails
      exactly when none was unread at its load of the tail. */
  lemma VerdictsExact(capacity: nat, size: nat, memory: seq<byte>, acts: seq<Action>, i: nat)
    requires |memory| == capacity * size
    ensures var r := Exec(Unbounded, Init(capacity, size, memory), acts);
      && (r.prod.PLoadHead? ==>
            (Step(Unbounded, r, ProdStep(i)).prod == PDone(false) <==> |r.pushed| - |r.popped| == capacity))
      && (r.cons.CLoadTail? ==>
            (Step(Unbounded, r, ConsStep(i)).cons == CDone(None) <==> |r.pushed| == |r.popped|))
  {
    InitInv(capacity, size, memory);
    ExecInv(Init(capacity, size, memory), acts);
    ExecShape(Unbounded, Init(capacity, size, memory), acts);
  }

  /** What the calls return is what happened: a step takes a push to true exactly when it adds the
      element of that call, to false exactly at a load of the head that sees every slot unread, and
      changes what was pushed in no other way; a step takes a pop to an element exactly when it adds
      that element, to false exactly at a load of the tail that sees none. */
  ghost predicate ResultsAgree(r: Ring, r': Ring) {
    && (r'.pushed == r.pushed ||
        (r.prod.PCopy? && r'.pushed == r.pushed + [r.prod.elem] && r'.prod == PDone(true)))
    && (r'.prod == PDone(true) && r'.prod != r.prod ==> |r'.pushed| == |r.pushed| + 1)
    && (r'.prod == PDone(false) && r'.prod != r.prod ==>
          r.prod.PLoadHead? && |r.pushed| - |r.popped| == r.capacity)
    && (r'.popped == r.popped ||
        (r.cons.CCopy? && |r'.popped| == |r.popped| + 1 && r'.cons == CDone(Some(r'.popped[|r.popped|]))))
    && (r'.cons.CDone? && r'.cons != r.cons && r'.cons.result.Some? ==> |r'.popped| == |r.popped| + 1)
    && (r'.cons == CDone(None) && r'.cons != r.cons ==> r.cons.CLoadTail? && |r.pushed| == |r.popped|)
  }

  lemma ResultsMatch(capacity: nat, size: nat, memory: seq<byte>, acts: seq<Action>, a: Action)
    requires |memory| == capacity * size
    ensures var r := Exec(Unbounded, Init(capacity, size, memory), acts); ResultsAgree(r, Step(Unbounded, r, a))
  {
    InitInv(capacity, size, memory);
    ExecInv(Init(capacity, size, memory), acts);
    ResultsOf(Exec(Unbounded, Init(capacity, size, memory), acts), a);
  }

  lemma ResultsOf(r: Ring, a: Action)
    requires Inv(r)
    ensures ResultsAgree(r, Step(Unbounded, r, a))
  {
  }
}
