/** Frame circulation between the kernel and `sip_xsk_poll_ingress`: the fill ring, the RX ring and
    the frames either side holds.  The kernel is any environment that keeps the ring contract of
    the Linux AF_XDP documentation ("UMEM Fill Ring", "RX Ring"): it takes frames from the fill
    ring in order, keeps them as long as it likes and publishes them on the RX ring. */
module XdpIngress {
  import opened Words

  const BATCH := 64
  const ETHER_HEADER := 14

  datatype Desc = Desc(addr: nat, len: nat)

  /** Where the polling loop is, with its locals. */
  datatype App =
    | Peek
    | Process(idx: nat, rcvd: nat, i: nat)
    | Release(idx: nat, rcvd: nat)
    | Reserve(idx: nat, rcvd: nat, filled: nat)
    | Refill(idx: nat, rcvd: nat, filled: nat, ret: nat, idxFill: nat, i: nat)
    | Submit(idx: nat, rcvd: nat, filled: nat, ret: nat)

  /** `received` lists the addresses read before the release of the current batch; `late` pairs
      each address re-read after the release with the one received. */
  datatype Net = Net(
    fill: seq<nat>, fillProd: nat, fillCons: nat,
    rx: seq<Desc>, rxProd: nat, rxCons: nat,
    held: multiset<nat>, app: App, received: seq<nat>, late: seq<(nat, nat)>,
    packets: nat, bytes: nat)

  datatype Action = Poll(n: nat) | Take | Publish(addr: nat, len: nat)

  /** `sip_xsk_create_ring`: `seeded` frames of `frame` bytes submitted to a fill ring of `fillSize`. */
  function Boot(seeded: nat, fillSize: nat, rxSize: nat, frame: nat): Net {
    Net(seq(fillSize, i => i * frame), seeded, 0, seq(rxSize, i => Desc(0, 0)), 0, 0,
        multiset{}, Peek, [], [], 0, 0)
  }

  function Seeds(seeded: nat, frame: nat): seq<nat> {
    seq(seeded, i => i * frame)
  }

  predicate Wf(s: Net) {
    0 < |s.fill| && 0 < |s.rx|
  }

  function At<T>(ring: seq<T>, p: nat): T
    requires 0 < |ring|
  {
    ring[Cell(p, |ring|)]
  }

  function Put<T>(ring: seq<T>, p: nat, x: T): seq<T>
    requires 0 < |ring|
  {
    ring[Cell(p, |ring|) := x]
  }

  function Step(s: Net, a: Action): Net
    requires Wf(s)
  {
    match a
    case Poll(n) => StepApp(s, n)
    case Take =>
      if s.fillCons < s.fillProd
      then s.(fillCons := s.fillCons + 1, held := s.held + multiset{At(s.fill, s.fillCons)})
      else s
    case Publish(addr, len) =>
      if addr in s.held && s.rxProd < s.rxCons + |s.rx|
      then s.(rx := Put(s.rx, s.rxProd, Desc(addr, len)), rxProd := s.rxProd + 1, held := s.held - multiset{addr})
      else s
  }

  /** One access of the polling loop.  n is what `peek` or `reserve` returns, at most what the ring
      allows; smaller answers cover cached ring pointers and partial reservations. */
  function StepApp(s: Net, n: nat): Net
    requires Wf(s)
  {
    match s.app
    case Peek =>
      if 0 < n <= BATCH && s.rxCons + n <= s.rxProd then s.(app := Process(s.rxCons, n, 0), received := []) else s
    case Process(idx, rcvd, i) =>
      var desc := At(s.rx, idx + i);
      var counted := desc.len >= ETHER_HEADER;
      s.(received := s.received + [desc.addr],
         packets := if counted then s.packets + 1 else s.packets,
         bytes := if counted then s.bytes + desc.len else s.bytes,
         app := if i + 1 < rcvd then Process(idx, rcvd, i + 1) else Release(idx, rcvd))
    case Release(idx, rcvd) =>
      s.(rxCons := s.rxCons + rcvd, app := Reserve(idx, rcvd, 0))
    case Reserve(idx, rcvd, filled) =>
      if filled >= rcvd then s.(app := Peek)
      else if 0 < n <= rcvd - filled && s.fillProd + n <= s.fillCons + |s.fill|
      then s.(app := Refill(idx, rcvd, filled, n, s.fillProd, 0))
      else s
    case Refill(idx, rcvd, filled, ret, idxFill, i) =>
      var addr := At(s.rx, idx + filled + i).addr;
      s.(fill := Put(s.fill, idxFill + i, addr),
         late := s.late + [(if filled + i < |s.received| then s.received[filled + i] else 0, addr)],
         app := if i + 1 < ret then Refill(idx, rcvd, filled, ret, idxFill, i + 1) else Submit(idx, rcvd, filled, ret))
    case Submit(idx, rcvd, filled, ret) =>
      s.(fillProd := s.fillProd + ret, app := Reserve(idx, rcvd, filled + ret))
  }

  function Exec(s: Net, acts: seq<Action>): (r: Net)
    requires Wf(s)
    ensures Wf(r) && |r.fill| == |s.fill| && |r.rx| == |s.rx|
  {
    if acts == [] then s else Step(Exec(s, acts[..|acts| - 1]), acts[|acts| - 1])
  }

  // ----- ring windows as sequences -----

  function Window<T>(ring: seq<T>, from: nat, to: nat): seq<T>
    requires 0 < |ring| && from <= to
  {
    seq(to - from, k requires 0 <= k < to - from => At(ring, from + k))
  }

  lemma WindowPut<T>(ring: seq<T>, from: nat, to: nat, p: nat, x: T)
    requires 0 < |ring| && from <= to <= p < from + |ring|
    ensures Window(Put(ring, p, x), from, to) == Window(ring, from, to)
    ensures At(Put(ring, p, x), p) == x
  {
    forall q: nat | from <= q < to ensures At(Put(ring, p, x), q) == At(ring, q) {
      if Cell(q, |ring|) == Cell(p, |ring|) {
        SameCell(q, p, |ring|);
      }
    }
    forall k: nat | k < to - from ensures Window(Put(ring, p, x), from, to)[k] == Window(ring, from, to)[k] {
      assert At(Put(ring, p, x), from + k) == At(ring, from + k);
    }
  }

  lemma WindowGrow<T>(ring: seq<T>, from: nat, to: nat)
    requires 0 < |ring| && from <= to
    ensures Window(ring, from, to + 1) == Window(ring, from, to) + [At(ring, to)]
  {
  }

  lemma WindowSplit<T>(ring: seq<T>, from: nat, mid: nat, to: nat)
    requires 0 < |ring| && from <= mid <= to
    ensures Window(ring, from, to) == Window(ring, from, mid) + Window(ring, mid, to)
  {
  }

  function Addrs(descs: seq<Desc>): seq<nat> {
    seq(|descs|, k requires 0 <= k < |descs| => descs[k].addr)
  }

  // ----- who holds which frames -----

  function FillFrames(s: Net): seq<nat>
    requires Wf(s) && s.fillCons <= s.fillProd
  {
    Window(s.fill, s.fillCons, s.fillProd)
  }

  function RxFrames(s: Net): seq<nat>
    requires Wf(s) && s.rxCons <= s.rxProd
  {
    Addrs(Window(s.rx, s.rxCons, s.rxProd))
  }

  /** Frames released to the RX ring's producer but not yet given back through the fill ring. */
  function AppFrames(s: Net): seq<nat> {
    match s.app
    case Reserve(_, _, filled) => if filled <= |s.received| then s.received[filled..] else []
    case Refill(_, _, filled, _, _, _) => if filled <= |s.received| then s.received[filled..] else []
    case Submit(_, _, filled, _) => if filled <= |s.received| then s.received[filled..] else []
    case _ => []
  }

  ghost predicate Rings(s: Net) {
    Wf(s) && s.fillCons <= s.fillProd <= s.fillCons + |s.fill| && s.rxCons <= s.rxProd <= s.rxCons + |s.rx|
  }

  ghost predicate Conserved(s: Net, seeds: multiset<nat>)
    requires Rings(s)
  {
    multiset(FillFrames(s)) + s.held + multiset(RxFrames(s)) + multiset(AppFrames(s)) == seeds
  }

  /** The slots of the batch from k on still hold the received addresses. */
  ghost predicate StillThere(s: Net, idx: nat, rcvd: nat, k: nat)
    requires Wf(s)
  {
    |s.received| == rcvd && forall p: nat | idx + k <= p < idx + rcvd :: At(s.rx, p).addr == s.received[p - idx]
  }

  ghost predicate AppOk(s: Net)
    requires Rings(s)
  {
    match s.app
    case Peek => true
    case Process(idx, rcvd, i) =>
      && idx == s.rxCons && i < rcvd && idx + rcvd <= s.rxProd && |s.received| == i
      && forall p: nat | idx <= p < idx + i :: At(s.rx, p).addr == s.received[p - idx]
    case Release(idx, rcvd) =>
      idx == s.rxCons && idx + rcvd <= s.rxProd && StillThere(s, idx, rcvd, 0)
    case Reserve(idx, rcvd, filled) =>
      s.rxCons == idx + rcvd && filled <= rcvd && StillThere(s, idx, rcvd, filled)
    case Refill(idx, rcvd, filled, ret, idxFill, i) =>
      && s.rxCons == idx + rcvd && i < ret && filled + ret <= rcvd && StillThere(s, idx, rcvd, filled)
      && idxFill == s.fillProd && s.fillProd + ret <= s.fillCons + |s.fill|
      && forall p: nat | s.fillProd <= p < s.fillProd + i :: At(s.fill, p) == s.received[filled + (p - s.fillProd)]
    case Submit(idx, rcvd, filled, ret) =>
      && s.rxCons == idx + rcvd && filled + ret <= rcvd && StillThere(s, idx, rcvd, filled)
      && s.fillProd + ret <= s.fillCons + |s.fill|
      && forall p: nat | s.fillProd <= p < s.fillProd + ret :: At(s.fill, p) == s.received[filled + (p - s.fillProd)]
  }

  ghost predicate LateOk(s: Net) {
    forall k | 0 <= k < |s.late| :: s.late[k].0 == s.late[k].1
  }

  ghost predicate Inv(s: Net, seeds: multiset<nat>) {
    Rings(s) && Conserved(s, seeds) && AppOk(s) && LateOk(s) && |seeds| <= |s.rx|
  }

  /** Counting frames: rings, kernel and application together hold |seeds| of them. */
  lemma Count(s: Net, seeds: multiset<nat>)
    requires Rings(s) && Conserved(s, seeds)
    ensures (s.fillProd - s.fillCons) + |s.held| + (s.rxProd - s.rxCons) + |AppFrames(s)| == |seeds|
  {
  }

  lemma BootInv(seeded: nat, fillSize: nat, rxSize: nat, frame: nat)
    requires 0 < fillSize && seeded <= fillSize && 0 < rxSize
    ensures var s := Boot(seeded, fillSize, rxSize, frame);
      && Rings(s) && Conserved(s, multiset(Seeds(seeded, frame))) && AppOk(s) && LateOk(s)
  {
    var s := Boot(seeded, fillSize, rxSize, frame);
    forall k: nat | k < seeded ensures At(s.fill, k) == k * frame {
      CellSmall(k, fillSize);
    }
    assert FillFrames(s) == Seeds(seeded, frame);
    assert RxFrames(s) == [];
  }

  // ----- the kernel's steps -----

  lemma TakeFrames(s: Net)
    requires Rings(s) && s.fillCons < s.fillProd
    ensures FillFrames(s) == [At(s.fill, s.fillCons)] + FillFrames(Step(s, Take))
  {
    WindowSplit(s.fill, s.fillCons, s.fillCons + 1, s.fillProd);
    assert Window(s.fill, s.fillCons, s.fillCons + 1) == [At(s.fill, s.fillCons)];
  }

  lemma TakeKeepsBatch(s: Net)
    requires Rings(s) && AppOk(s) && s.fillCons < s.fillProd
    ensures Rings(Step(s, Take)) && AppOk(Step(s, Take)) && AppFrames(Step(s, Take)) == AppFrames(s)
  {
  }

  lemma TakeInv(s: Net, seeds: multiset<nat>)
    requires Inv(s, seeds) && s.fillCons < s.fillProd
    ensures Inv(Step(s, Take), seeds)
  {
    var s', a := Step(s, Take), At(s.fill, s.fillCons);
    TakeKeepsBatch(s);
    TakeFrames(s);
    var before, after := FillFrames(s), FillFrames(s');
    assert RxFrames(s') == RxFrames(s);
    Shift([a], before, after, s.held, s'.held);
  }

  /** A frame leaves the front of a list for a bag. */
  lemma Shift(front: seq<nat>, list: seq<nat>, rest: seq<nat>, bag: multiset<nat>, bag': multiset<nat>)
    requires list == front + rest && bag' == bag + multiset(front)
    ensures multiset(list) + bag == multiset(rest) + bag'
  {
    assert multiset(list) == multiset(front) + multiset(rest);
  }

  /** A frame leaves a bag for the back of a list. */
  lemma Append(back: seq<nat>, list: seq<nat>, longer: seq<nat>, bag: multiset<nat>, bag': multiset<nat>)
    requires longer == list + back && bag == bag' + multiset(back)
    ensures multiset(list) + bag == multiset(longer) + bag'
  {
    assert multiset(longer) == multiset(list) + multiset(back);
  }

  /** The slot the kernel publishes into is not one the application still has to re-read: a frame
      is in the kernel's hands, so ring and application together hold fewer than |rx| frames. */
  lemma PublishSlot(s: Net, seeds: multiset<nat>, addr: nat, p: nat)
    requires Inv(s, seeds) && addr in s.held && s.rxProd < s.rxCons + |s.rx|
    requires p < s.rxProd && s.rxCons <= p + |AppFrames(s)|
    ensures Cell(p, |s.rx|) != Cell(s.rxProd, |s.rx|)
  {
    Count(s, seeds);
    assert 1 <= |s.held| by {
      assert s.held == (s.held - multiset{addr}) + multiset{addr};
    }
    if Cell(p, |s.rx|) == Cell(s.rxProd, |s.rx|) {
      SameCell(p, s.rxProd, |s.rx|);
    }
  }

  lemma PublishKeepsBatch(s: Net, s': Net)
    requires Rings(s) && Rings(s') && AppOk(s)
    requires s' == s.(rx := s'.rx, rxProd := s.rxProd + 1, held := s'.held) && |s'.rx| == |s.rx|
    requires forall p: nat | p < s.rxProd && s.rxCons <= p + |AppFrames(s)| :: At(s'.rx, p) == At(s.rx, p)
    ensures AppOk(s')
  {
  }

  lemma PublishFrames(s: Net, addr: nat, len: nat)
    requires Rings(s) && addr in s.held && s.rxProd < s.rxCons + |s.rx|
    ensures var s' := Step(s, Publish(addr, len));
      && Rings(s') && RxFrames(s') == RxFrames(s) + [addr]
      && FillFrames(s') == FillFrames(s) && AppFrames(s') == AppFrames(s)
  {
    WindowPut(s.rx, s.rxCons, s.rxProd, s.rxProd, Desc(addr, len));
    WindowGrow(Put(s.rx, s.rxProd, Desc(addr, len)), s.rxCons, s.rxProd);
  }

  lemma PublishKeepsSlots(s: Net, seeds: multiset<nat>, addr: nat, len: nat)
    requires Inv(s, seeds) && addr in s.held && s.rxProd < s.rxCons + |s.rx|
    ensures AppOk(Step(s, Publish(addr, len)))
  {
    var s' := Step(s, Publish(addr, len));
    forall p: nat | p < s.rxProd && s.rxCons <= p + |AppFrames(s)| ensures At(s'.rx, p) == At(s.rx, p) {
      PublishSlot(s, seeds, addr, p);
    }
    PublishKeepsBatch(s, s');
  }

  lemma PublishInv(s: Net, seeds: multiset<nat>, addr: nat, len: nat)
    requires Inv(s, seeds) && addr in s.held && s.rxProd < s.rxCons + |s.rx|
    ensures Inv(Step(s, Publish(addr, len)), seeds)
  {
    var s' := Step(s, Publish(addr, len));
    PublishKeepsSlots(s, seeds, addr, len);
    PublishFrames(s, addr, len);
    assert s.held == s'.held + multiset([addr]);
    Append([addr], RxFrames(s), RxFrames(s'), s.held, s'.held);
  }

  // ----- the polling loop's steps -----

  lemma ReleaseFrames(s: Net, n: nat)
    requires Rings(s) && AppOk(s) && s.app.Release?
    ensures var s' := StepApp(s, n);
      && Rings(s') && AppOk(s') && RxFrames(s) == s.received + RxFrames(s')
      && FillFrames(s') == FillFrames(s) && AppFrames(s') == s.received && AppFrames(s) == []
  {
    var mid := s.rxCons + s.app.rcvd;
    WindowSplit(s.rx, s.rxCons, mid, s.rxProd);
    forall k: nat | k < s.app.rcvd ensures Addrs(Window(s.rx, s.rxCons, mid))[k] == s.received[k] {
      assert At(s.rx, s.rxCons + k).addr == s.received[(s.rxCons + k) - s.app.idx];
    }
    assert Addrs(Window(s.rx, s.rxCons, mid)) == s.received;
  }

  lemma ReleaseInv(s: Net, seeds: multiset<nat>, n: nat)
    requires Inv(s, seeds) && s.app.Release?
    ensures Inv(StepApp(s, n), seeds)
  {
    var s' := StepApp(s, n);
    ReleaseFrames(s, n);
    Shift(s.received, RxFrames(s), RxFrames(s'), multiset{}, multiset(s.received));
  }

  /** The address copied into the fill ring is the one received, and goes behind the ring's window. */
  lemma RefillSlot(s: Net, n: nat)
    requires Rings(s) && AppOk(s) && s.app.Refill?
    ensures var s' := StepApp(s, n);
      && FillFrames(s') == FillFrames(s)
      && (forall r: nat | s.fillProd <= r < s.fillProd + s.app.i :: At(s'.fill, r) == At(s.fill, r))
      && At(s'.fill, s.fillProd + s.app.i) == s.received[s.app.filled + s.app.i]
      && s'.late == s.late + [(s.received[s.app.filled + s.app.i], s.received[s.app.filled + s.app.i])]
  {
    var p, q := s.fillProd + s.app.i, s.app.idx + s.app.filled + s.app.i;
    var addr := At(s.rx, q).addr;
    assert addr == s.received[q - s.app.idx];
    forall r: nat | s.fillProd <= r < p ensures At(Put(s.fill, p, addr), r) == At(s.fill, r) {
      if Cell(r, |s.fill|) == Cell(p, |s.fill|) {
        SameCell(r, p, |s.fill|);
      }
    }
    WindowPut(s.fill, s.fillCons, s.fillProd, p, addr);
  }

  lemma RefillKeepsFrames(s: Net, n: nat)
    requires Rings(s) && AppOk(s) && s.app.Refill?
    ensures Rings(StepApp(s, n)) && AppFrames(StepApp(s, n)) == AppFrames(s)
    ensures StillThere(StepApp(s, n), s.app.idx, s.app.rcvd, s.app.filled)
  {
  }

  lemma RefillKeepsBatch(s: Net, n: nat)
    requires Rings(s) && AppOk(s) && s.app.Refill?
    ensures Rings(StepApp(s, n)) && AppOk(StepApp(s, n)) && AppFrames(StepApp(s, n)) == AppFrames(s)
  {
    RefillKeepsFrames(s, n);
    RefillSlot(s, n);
  }

  lemma RefillInv(s: Net, seeds: multiset<nat>, n: nat)
    requires Inv(s, seeds) && s.app.Refill?
    ensures Inv(StepApp(s, n), seeds)
  {
    RefillKeepsBatch(s, n);
    RefillSlot(s, n);
    assert RxFrames(StepApp(s, n)) == RxFrames(s);
  }

  lemma SubmitFrames(s: Net, n: nat)
    requires Rings(s) && AppOk(s) && s.app.Submit?
    ensures var s' := StepApp(s, n); var batch := s.received[s.app.filled..s.app.filled + s.app.ret];
      && Rings(s') && AppOk(s') && RxFrames(s') == RxFrames(s)
      && FillFrames(s') == FillFrames(s) + batch && AppFrames(s) == batch + AppFrames(s')
  {
    var filled, ret := s.app.filled, s.app.ret;
    var batch := s.received[filled..filled + ret];
    WindowSplit(s.fill, s.fillCons, s.fillProd, s.fillProd + ret);
    forall k: nat | k < ret ensures Window(s.fill, s.fillProd, s.fillProd + ret)[k] == batch[k] {
      assert At(s.fill, s.fillProd + k) == s.received[filled + ((s.fillProd + k) - s.fillProd)];
    }
    assert Window(s.fill, s.fillProd, s.fillProd + ret) == batch;
    assert s.received[filled..] == batch + s.received[filled + ret..];
  }

  lemma SubmitInv(s: Net, seeds: multiset<nat>, n: nat)
    requires Inv(s, seeds) && s.app.Submit?
    ensures Inv(StepApp(s, n), seeds)
  {
    var s' := StepApp(s, n);
    SubmitFrames(s, n);
    var batch := s.received[s.app.filled..s.app.filled + s.app.ret];
    Shift(batch, AppFrames(s), AppFrames(s'), multiset{}, multiset(batch));
    Append(batch, FillFrames(s), FillFrames(s'), multiset(batch), multiset{});
  }

  lemma LocalFrames(s: Net, n: nat)
    requires Rings(s) && AppOk(s) && (s.app.Peek? || s.app.Process? || s.app.Reserve?)
    ensures var s' := StepApp(s, n);
      && Rings(s') && AppOk(s') && s'.held == s.held && s'.late == s.late && |s'.rx| == |s.rx|
      && RxFrames(s') == RxFrames(s) && FillFrames(s') == FillFrames(s) && AppFrames(s') == AppFrames(s)
  {
  }

  /** Peeking, reading a descriptor, and reserving room move no frame. */
  lemma LocalInv(s: Net, seeds: multiset<nat>, n: nat)
    requires Inv(s, seeds) && (s.app.Peek? || s.app.Process? || s.app.Reserve?)
    ensures Inv(StepApp(s, n), seeds)
  {
    LocalFrames(s, n);
  }

  lemma PollInv(s: Net, seeds: multiset<nat>, n: nat)
    requires Inv(s, seeds)
    ensures Inv(StepApp(s, n), seeds)
  {
    if s.app.Release? {
      ReleaseInv(s, seeds, n);
    } else if s.app.Refill? {
      RefillInv(s, seeds, n);
    } else if s.app.Submit? {
      SubmitInv(s, seeds, n);
    } else {
      LocalInv(s, seeds, n);
    }
  }

  lemma StepInv(s: Net, a: Action, seeds: multiset<nat>)
    requires Inv(s, seeds)
    ensures Inv(Step(s, a), seeds)
  {
    match a
    case Take => if s.fillCons < s.fillProd { TakeInv(s, seeds); }
    case Publish(addr, len) =>
      if addr in s.held && s.rxProd < s.rxCons + |s.rx| { PublishInv(s, seeds, addr, len); }
    case Poll(n) => PollInv(s, seeds, n);
  }

  lemma {:induction false} ExecInv(s: Net, acts: seq<Action>, seeds: multiset<nat>)
    requires Inv(s, seeds)
    ensures Inv(Exec(s, acts), seeds)
  {
    if acts != [] {
      ExecInv(s, acts[..|acts| - 1], seeds);
      StepInv(Exec(s, acts[..|acts| - 1]), acts[|acts| - 1], seeds);
    }
  }

  // ----- what every run guarantees -----

  /** In a list without repetitions every member counts once. */
  lemma {:induction false} DistinctOnce(s: seq<nat>, a: nat)
    requires forall i, j | 0 <= i < j < |s| :: s[i] != s[j]
    ensures multiset(s)[a] == if a in s then 1 else 0
  {
    if s != [] {
      var k := |s| - 1;
      DistinctOnce(s[..k], a);
      assert s == s[..k] + [s[k]];
      assert multiset(s) == multiset(s[..k]) + multiset{s[k]};
    }
  }

  lemma SeedOnce(seeded: nat, frame: nat, a: nat)
    requires 0 < frame
    ensures multiset(Seeds(seeded, frame))[a] == if a in Seeds(seeded, frame) then 1 else 0
  {
    var s := Seeds(seeded, frame);
    forall i, j | 0 <= i < j < |s| ensures s[i] != s[j] {
      MulPositive(j - i, frame);
      assert s[j] - s[i] == (j - i) * frame;
    }
    DistinctOnce(s, a);
  }

  /** Frame a is in exactly one of the four places if it was seeded, and nowhere otherwise. */
  ghost predicate InOnePlace(s: Net, seeds: seq<nat>, a: nat) {
    Rings(s) &&
    multiset(FillFrames(s))[a] + s.held[a] + multiset(RxFrames(s))[a] + multiset(AppFrames(s))[a]
      == if a in seeds then 1 else 0
  }

  /** Fill ring, kernel, RX ring and application always hold exactly the seeded frames, each frame
      in one place; between batches the application holds none. */
  lemma FramesPartition(seeded: nat, fillSize: nat, rxSize: nat, frame: nat, acts: seq<Action>, a: nat)
    requires 0 < fillSize && seeded <= fillSize && 0 < rxSize && seeded <= rxSize && 0 < frame
    ensures var s := Exec(Boot(seeded, fillSize, rxSize, frame), acts);
      InOnePlace(s, Seeds(seeded, frame), a) && (s.app.Peek? ==> AppFrames(s) == [])
  {
    var seeds := multiset(Seeds(seeded, frame));
    BootInv(seeded, fillSize, rxSize, frame);
    ExecInv(Boot(seeded, fillSize, rxSize, frame), acts, seeds);
    SeedOnce(seeded, frame, a);
    var s := Exec(Boot(seeded, fillSize, rxSize, frame), acts);
    assert (multiset(FillFrames(s)) + s.held + multiset(RxFrames(s)) + multiset(AppFrames(s)))[a] == seeds[a];
  }

  /** While the application owes frames, the fill ring has room for them. */
  lemma RoomForBatch(s: Net, seeds: multiset<nat>)
    requires Inv(s, seeds) && |seeds| <= |s.fill| && s.app.Reserve?
    ensures s.fillProd + (s.app.rcvd - s.app.filled) <= s.fillCons + |s.fill|
  {
    Count(s, seeds);
  }

  /** The fill ring always has room for what the application still owes, so a reservation of the
      whole remainder never has to wait. */
  lemma RefillHasRoom(seeded: nat, fillSize: nat, rxSize: nat, frame: nat, acts: seq<Action>)
    requires 0 < fillSize && seeded <= fillSize && 0 < rxSize && seeded <= rxSize
    ensures var s := Exec(Boot(seeded, fillSize, rxSize, frame), acts);
      s.app.Reserve? ==> s.fillProd + (s.app.rcvd - s.app.filled) <= s.fillCons + fillSize
  {
    var seeds := multiset(Seeds(seeded, frame));
    BootInv(seeded, fillSize, rxSize, frame);
    ExecInv(Boot(seeded, fillSize, rxSize, frame), acts, seeds);
    if Exec(Boot(seeded, fillSize, rxSize, frame), acts).app.Reserve? {
      RoomForBatch(Exec(Boot(seeded, fillSize, rxSize, frame), acts), seeds);
    }
  }

  /** Every address re-read after the release is the address received before it. */
  ghost predicate LateReadsSound(seeded: nat, fillSize: nat, rxSize: nat, frame: nat)
    requires 0 < fillSize && 0 < rxSize
  {
    forall acts :: LateOk(Exec(Boot(seeded, fillSize, rxSize, frame), acts))
  }

  lemma LateReads(seeded: nat, fillSize: nat, rxSize: nat, frame: nat, acts: seq<Action>)
    requires 0 < fillSize && seeded <= fillSize && 0 < rxSize && seeded <= rxSize
    ensures LateOk(Exec(Boot(seeded, fillSize, rxSize, frame), acts))
  {
    BootInv(seeded, fillSize, rxSize, frame);
    ExecInv(Boot(seeded, fillSize, rxSize, frame), acts, multiset(Seeds(seeded, frame)));
  }

  // ----- with more frames than RX slots the late read can be wrong -----

  lemma ExecSnoc(s: Net, acts: seq<Action>, a: Action)
    requires Wf(s)
    ensures Exec(s, acts + [a]) == Step(Exec(s, acts), a)
  {
    assert (acts + [a])[..|acts|] == acts;
  }

  /** The kernel moved frames 0 .. k-1 straight from the fill ring of b to its empty RX ring. */
  ghost predicate Moved(b: Net, s: Net, k: nat) {
    && Wf(b) && b.fillCons == b.rxProd == b.rxCons == 0 && b.held == multiset{}
    && s == b.(rx := s.rx, rxProd := k, fillCons := k) && |s.rx| == |b.rx|
    && k <= |s.rx| && k <= |b.fill| && (forall j: nat | j < k :: s.rx[j].addr == b.fill[j])
  }

  lemma KernelMoves(b: Net, s: Net, k: nat)
    requires Moved(b, s, k) && k < b.fillProd && k < |b.rx| && k < |b.fill|
    ensures Moved(b, Step(Step(s, Take), Publish(b.fill[k], 0)), k + 1)
  {
    CellSmall(k, |b.fill|);
    CellSmall(k, |b.rx|);
    var s1 := Step(s, Take);
    assert s1 == s.(fillCons := k + 1, held := multiset{b.fill[k]});
    assert multiset{b.fill[k]} - multiset{b.fill[k]} == multiset{};
  }

  lemma {:induction false} KernelFills(b: Net, k: nat) returns (acts: seq<Action>)
    requires Moved(b, b, 0) && k <= b.fillProd && k <= |b.rx| && k <= |b.fill|
    ensures Moved(b, Exec(b, acts), k)
  {
    acts := [];
    if k != 0 {
      acts := KernelFills(b, k - 1);
      KernelMoves(b, Exec(b, acts), k - 1);
      ExecSnoc(b, acts, Take);
      ExecSnoc(b, acts + [Take], Publish(b.fill[k - 1], 0));
      acts := acts + [Take] + [Publish(b.fill[k - 1], 0)];
    }
  }

  /** One packet of the full RX ring is taken in and its slot released. */
  lemma ReleaseFirst(s: Net)
    requires Wf(s) && s.app.Peek? && s.rxCons == 0 && 1 <= s.rxProd
    ensures var s3 := Step(Step(Step(s, Poll(1)), Poll(0)), Poll(0));
      s3 == s.(app := Reserve(0, 1, 0), rxCons := 1, received := [s.rx[0].addr],
               packets := s3.packets, bytes := s3.bytes)
  {
    CellSmall(0, |s.rx|);
    assert Step(s, Poll(1)).app == Process(0, 1, 0);
    assert Step(Step(s, Poll(1)), Poll(0)).app == Release(0, 1);
  }

  /** The RX ring is full and the kernel keeps one more frame; as soon as the application releases
      the first slot the kernel publishes into it, before the application re-reads it.  `Late` is the
      state after the re-read. */
  ghost predicate Late(b: Net, s: Net, rxSize: nat, last: nat) {
    && Wf(b) && |b.rx| == rxSize && |s.rx| == rxSize && rxSize < |b.fill|
    && s.fill == Put(b.fill, b.fillProd, last) && s.fillCons == rxSize + 1 && s.fillProd == b.fillProd
    && s.held == multiset{} && s.rxCons == 1 && s.rxProd == rxSize + 1
    && s.rx[0].addr == last && (forall j: nat | 1 <= j < rxSize :: s.rx[j].addr == b.fill[j])
    && s.app == Submit(0, 1, 0, 1) && s.received == [b.fill[0]] && s.late == [(b.fill[0], last)]
  }

  /** From a full RX ring: the kernel takes one more frame, the application takes in one packet and
      releases its slot. */
  lemma TakeRelease(b: Net, s: Net, rxSize: nat, last: nat)
    requires Moved(b, s, rxSize) && 0 < rxSize == |b.rx| < |b.fill| && b.app == Peek
    requires rxSize < b.fillProd && last == b.fill[rxSize]
    ensures var s1 := Step(Step(Step(Step(s, Take), Poll(1)), Poll(0)), Poll(0));
      s1 == s.(fillCons := rxSize + 1, held := multiset{last}, app := Reserve(0, 1, 0), rxCons := 1,
               received := [b.fill[0]], packets := s1.packets, bytes := s1.bytes)
  {
    CellSmall(rxSize, |b.fill|);
    var s1 := Step(s, Take);
    assert s1 == s.(fillCons := rxSize + 1, held := multiset{last});
    ReleaseFirst(s1);
  }

  /** The kernel publishes into that slot, and the application re-reads it. */
  lemma PublishReread(b: Net, s: Net, rxSize: nat, last: nat)
    requires Wf(b) && 0 < rxSize == |b.rx| == |s.rx| < |b.fill| && b.fillProd <= |b.fill| && b.late == []
    requires s == b.(rx := s.rx, rxProd := rxSize, fillCons := rxSize + 1, held := multiset{last},
                     app := Reserve(0, 1, 0), rxCons := 1, received := [b.fill[0]],
                     packets := s.packets, bytes := s.bytes)
    requires forall j: nat | j < rxSize :: s.rx[j].addr == b.fill[j]
    ensures Late(b, Step(Step(Step(s, Publish(last, 0)), Poll(1)), Poll(0)), rxSize, last)
  {
    CellSmall(0, rxSize);
    ModUnique(rxSize, rxSize, 1, 0);
    var s1 := Step(s, Publish(last, 0));
    assert s1 == s.(rx := Put(s.rx, rxSize, Desc(last, 0)), rxProd := rxSize + 1, held := multiset{});
    var s2 := Step(s1, Poll(1));
    assert s2 == s1.(app := Refill(0, 1, 0, 1, s.fillProd, 0));
  }

  lemma LateRun(seeded: nat, fillSize: nat, rxSize: nat, frame: nat) returns (acts: seq<Action>)
    requires 0 < fillSize && seeded <= fillSize && 0 < rxSize < seeded && 0 < frame
    ensures var b := Boot(seeded, fillSize, rxSize, frame); Late(b, Exec(b, acts), rxSize, rxSize * frame)
  {
    var b := Boot(seeded, fillSize, rxSize, frame);
    acts := KernelFills(b, rxSize);
    var s, last := Exec(b, acts), rxSize * frame;
    TakeRelease(b, s, rxSize, last);
    PublishReread(b, Step(Step(Step(Step(s, Take), Poll(1)), Poll(0)), Poll(0)), rxSize, last);
    ExecSnoc(b, acts, Take);
    acts := acts + [Take];
    ExecSnoc(b, acts, Poll(1));
    acts := acts + [Poll(1)];
    ExecSnoc(b, acts, Poll(0));
    acts := acts + [Poll(0)];
    ExecSnoc(b, acts, Poll(0));
    acts := acts + [Poll(0)];
    ExecSnoc(b, acts, Publish(last, 0));
    acts := acts + [Publish(last, 0)];
    ExecSnoc(b, acts, Poll(1));
    acts := acts + [Poll(1)];
    ExecSnoc(b, acts, Poll(0));
    acts := acts + [Poll(0)];
  }

  lemma LateReadOverwritten(seeded: nat, fillSize: nat, rxSize: nat, frame: nat) returns (acts: seq<Action>)
    requires 0 < fillSize && seeded <= fillSize && 0 < rxSize < seeded && 0 < frame
    ensures !LateOk(Exec(Boot(seeded, fillSize, rxSize, frame), acts))
  {
    acts := LateRun(seeded, fillSize, rxSize, frame);
    MulPositive(rxSize, frame);
    var s := Exec(Boot(seeded, fillSize, rxSize, frame), acts);
    assert s.late[0].0 != s.late[0].1;
  }

  /** After its submission frame 0 is nowhere (and frame rxSize is in two places). */
  lemma FrameGone(seeded: nat, fillSize: nat, rxSize: nat, frame: nat, s: Net)
    requires 0 < fillSize && seeded <= fillSize && 0 < rxSize < seeded && 0 < frame
    requires Late(Boot(seeded, fillSize, rxSize, frame), s, rxSize, rxSize * frame)
    ensures var s' := Step(s, Poll(0)); Rings(s') && 0 !in FillFrames(s') && 0 !in RxFrames(s') && AppFrames(s') == []
  {
    var s', b, last := Step(s, Poll(0)), Boot(seeded, fillSize, rxSize, frame), rxSize * frame;
    MulPositive(rxSize, frame);
    forall p: nat | rxSize + 1 <= p < seeded + 1 ensures At(s'.fill, p) != 0 {
      if p < seeded {
        CellSmall(p, fillSize);
        OldSlot(b.fill, seeded, p);
        MulPositive(p, frame);
      }
    }
    forall p: nat | 1 <= p < rxSize + 1 ensures At(s'.rx, p).addr != 0 {
      if p < rxSize {
        CellSmall(p, rxSize);
        MulPositive(p, frame);
      } else {
        ModUnique(rxSize, rxSize, 1, 0);
      }
    }
    assert s' == s.(fillProd := seeded + 1, app := Reserve(0, 1, 1));
  }

  /** Writing behind a whole ring touches slot 0 at most. */
  lemma OldSlot(ring: seq<nat>, end: nat, p: nat)
    requires 0 < p < end <= |ring|
    ensures Cell(p, |ring|) != Cell(end, |ring|)
  {
    CellSmall(p, |ring|);
    if end == |ring| {
      ModUnique(end, |ring|, 1, 0);
    } else {
      CellSmall(end, |ring|);
    }
  }

  lemma CountAbsent(s: seq<nat>, a: nat)
    requires a !in s
    ensures multiset(s)[a] == 0
  {
  }

  /** The frames stay partitioned on every run exactly when no more of them circulate than the RX
      ring has slots. */
  lemma PartitionExactly(seeded: nat, fillSize: nat, rxSize: nat, frame: nat)
    requires 0 < fillSize && seeded <= fillSize && 0 < rxSize && 0 < frame
    ensures (forall acts, a ::
        InOnePlace(Exec(Boot(seeded, fillSize, rxSize, frame), acts), Seeds(seeded, frame), a)) <==> seeded <= rxSize
  {
    var b, seeds := Boot(seeded, fillSize, rxSize, frame), Seeds(seeded, frame);
    if seeded <= rxSize {
      forall acts, a ensures InOnePlace(Exec(b, acts), seeds, a) {
        FramesPartition(seeded, fillSize, rxSize, frame, acts, a);
      }
    } else {
      var acts := LateRun(seeded, fillSize, rxSize, frame);
      FrameGone(seeded, fillSize, rxSize, frame, Exec(b, acts));
      ExecSnoc(b, acts, Poll(0));
      var s := Exec(b, acts + [Poll(0)]);
      CountAbsent(FillFrames(s), 0);
      CountAbsent(RxFrames(s), 0);
      assert 0 in seeds by { assert seeds[0] == 0; }
      assert !InOnePlace(s, seeds, 0);
    }
  }

  /** The late read is sound on every run exactly when no more frames circulate than the RX ring
      has slots. */
  lemma LateReadsExactly(seeded: nat, fillSize: nat, rxSize: nat, frame: nat)
    requires 0 < fillSize && seeded <= fillSize && 0 < rxSize && 0 < frame
    ensures LateReadsSound(seeded, fillSize, rxSize, frame) <==> seeded <= rxSize
  {
    if seeded <= rxSize {
      forall acts ensures LateOk(Exec(Boot(seeded, fillSize, rxSize, frame), acts)) {
        LateReads(seeded, fillSize, rxSize, frame, acts);
      }
    } else {
      var acts := LateReadOverwritten(seeded, fillSize, rxSize, frame);
    }
  }

  // ----- the counters of the loop -----

  /** The descriptor a step reads before the release, if any. */
  function ReadBy(s: Net, a: Action): seq<Desc>
    requires Wf(s)
  {
    if a.Poll? && s.app.Process? then [At(s.rx, s.app.idx + s.app.i)] else []
  }

  /** Those of a run, in order. */
  function Read(s: Net, acts: seq<Action>): seq<Desc>
    requires Wf(s)
  {
    if acts == [] then []
    else Read(s, acts[..|acts| - 1]) + ReadBy(Exec(s, acts[..|acts| - 1]), acts[|acts| - 1])
  }

  /** How many of them are as long as an Ethernet header, and how long those are together. */
  function Packets(descs: seq<Desc>): nat {
    if descs == [] then 0
    else Packets(descs[..|descs| - 1]) + if descs[|descs| - 1].len >= 14 then 1 else 0
  }

  function Bytes(descs: seq<Desc>): nat {
    if descs == [] then 0
    else Bytes(descs[..|descs| - 1]) + if descs[|descs| - 1].len >= 14 then descs[|descs| - 1].len else 0
  }

  lemma CounterStep(s: Net, a: Action, before: seq<Desc>)
    requires Wf(s) && s.packets == Packets(before) && s.bytes == Bytes(before)
    ensures Step(s, a).packets == Packets(before + ReadBy(s, a)) && Step(s, a).bytes == Bytes(before + ReadBy(s, a))
  {
    if a.Poll? && s.app.Process? {
      assert (before + ReadBy(s, a))[..|before|] == before;
    } else {
      assert before + [] == before;
    }
  }

  lemma {:induction false} CountersFrom(b: Net, acts: seq<Action>)
    requires Wf(b) && b.packets == b.bytes == 0
    ensures Exec(b, acts).packets == Packets(Read(b, acts)) && Exec(b, acts).bytes == Bytes(Read(b, acts))
  {
    if acts != [] {
      CountersFrom(b, acts[..|acts| - 1]);
      CounterStep(Exec(b, acts[..|acts| - 1]), acts[|acts| - 1], Read(b, acts[..|acts| - 1]));
    }
  }

  /** On every run the two counters are those sums over the descriptors read. */
  lemma CountersExact(seeded: nat, fillSize: nat, rxSize: nat, frame: nat, acts: seq<Action>)
    requires 0 < fillSize && 0 < rxSize
    ensures var b := Boot(seeded, fillSize, rxSize, frame);
      Exec(b, acts).packets == Packets(Read(b, acts)) && Exec(b, acts).bytes == Bytes(Read(b, acts))
  {
    CountersFrom(Boot(seeded, fillSize, rxSize, frame), acts);
  }

  /** A batch is of one to 64 packets. */
  lemma {:induction false} BatchBound(seeded: nat, fillSize: nat, rxSize: nat, frame: nat, acts: seq<Action>)
    requires 0 < fillSize && 0 < rxSize
    ensures var app := Exec(Boot(seeded, fillSize, rxSize, frame), acts).app; !app.Peek? ==> 0 < app.rcvd <= 64
  {
    if acts != [] {
      BatchBound(seeded, fillSize, rxSize, frame, acts[..|acts| - 1]);
    }
  }
}
