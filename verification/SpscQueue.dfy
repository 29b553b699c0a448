/** The ring object of sip_spsc_ring.h: byte storage and two counters updated in place, one access
    per method call, the producer's and the consumer's calls interleaved by a schedule. */
module SpscQueue {
  import opened Words
  import opened SpscRing
  import opened SpscWrap

  class ByteRing {
    const width: Width
    const capacity: nat
    const size: nat
    const storage: array<byte>
    var head: nat
    var tail: nat
    var prod: Producer
    var cons: Consumer
    ghost var pushed: seq<seq<byte>>
    ghost var popped: seq<seq<byte>>

    ghost function View(): Ring
      reads this, storage
    {
      Ring(capacity, size, storage[..], head, tail, prod, cons, pushed, popped)
    }

    /** `sip_spsc_init` on the caller's memory. */
    constructor (width: Width, capacity: nat, size: nat, memory: array<byte>)
      ensures storage == memory && this.width == width
      ensures View() == Init(capacity, size, memory[..])
    {
      this.width, this.capacity, this.size, storage := width, capacity, size, memory;
      head, tail, prod, cons, pushed, popped := 0, 0, PIdle, CIdle, [], [];
    }

    method CheckCopied(copied: set<nat>) returns (all: bool)
      ensures all <==> CopiedAll(copied, size)
    {
      all := true;
      for i := 0 to size
        invariant all <==> forall j | 0 <= j < i :: j in copied
      {
        all := all && i in copied;
      }
    }

    /** The next access of `sip_spsc_push`; i chooses the byte inside the memcpy. */
    method PushStep(i: nat)
      modifies this`tail, this`prod, this`pushed, storage
      ensures View() == StepProducer(width, old(View()), i)
    {
      match prod
      case PLoadHead(elem, t) =>
        prod := if UDiff(width, t, head) >= capacity then PDone(false) else PCopy(elem, t, {});
      case PCopy(elem, t, copied) =>
        var all := CheckCopied(copied);
        if all {
          tail := Norm(width, t + 1);
          prod := PDone(true);
          pushed := pushed + [elem];
        } else if i < size && i < |elem| {
          var index := if capacity == 0 then 0 else t % capacity;
          if index * size + i < storage.Length {
            storage[index * size + i] := elem[i];
          }
          prod := PCopy(elem, t, copied + {i});
        }
      case _ =>
    }

    /** The next access of `sip_spsc_pop`. */
    method PopStep(i: nat)
      modifies this`head, this`cons, this`popped
      ensures View() == StepConsumer(width, old(View()), i)
    {
      match cons
      case CLoadTail(h) =>
        cons := if h == tail then CDone(None) else CCopy(h, seq(size, j => 0), {});
      case CCopy(h, out, copied) =>
        var all := CheckCopied(copied);
        if all {
          head := Norm(width, h + 1);
          cons := CDone(Some(out));
          popped := popped + [out];
        } else if i < size && i < |out| {
          var index := if capacity == 0 then 0 else h % capacity;
          var b: byte := if index * size + i < storage.Length then storage[index * size + i] else 0;
          cons := CCopy(h, out[i := b], copied + {i});
        }
      case _ =>
    }

    method Execute(acts: seq<Action>)
      modifies this`head, this`tail, this`prod, this`cons, this`pushed, this`popped, storage
      ensures View() == Exec(width, old(View()), acts)
    {
      for k := 0 to |acts|
        invariant View() == Exec(width, old(View()), acts[..k])
      {
        assert acts[..k + 1][..k] == acts[..k];
        match acts[k]
        case Push(elem) =>
          if (prod.PIdle? || prod.PDone?) && |elem| == size { prod := PLoadHead(elem, tail); }
        case Pop =>
          if cons.CIdle? || cons.CDone? { cons := CLoadTail(head); }
        case ProdStep(i) => PushStep(i);
        case ConsStep(i) => PopStep(i);
      }
      assert acts[..|acts|] == acts;
    }
  }

  /** A fresh w-bit ring whose capacity divides 2^w, under any interleaving. */
  method RunFresh(w: nat, capacity: nat, size: nat, memory: array<byte>, acts: seq<Action>) returns (ring: ByteRing)
    requires Fits(capacity, w) && memory.Length == capacity * size
    modifies memory
    ensures fresh(ring) && ring.popped <= ring.pushed && |ring.pushed| - |ring.popped| <= capacity
    ensures ring.pushed == Exec(Unbounded, Init(capacity, size, old(memory[..])), acts).pushed
  {
    WordRingPrefix(w, capacity, size, memory[..], acts);
    ring := new ByteRing(Bits(w), capacity, size, memory);
    ring.Execute(acts);
  }
}
