/** The socket handle: both rings updated in place by the polling loop and by the kernel. */
module XdpHandle {
  import opened Words
  import opened XdpIngress

  class Handle {
    const fill: array<nat>
    const rx: array<Desc>
    var fillProd: nat
    var fillCons: nat
    var rxProd: nat
    var rxCons: nat
    var held: multiset<nat>
    var app: App
    var received: seq<nat>
    var packets: nat
    var bytes: nat
    ghost var late: seq<(nat, nat)>

    ghost function View(): Net
      reads this, fill, rx
    {
      Net(fill[..], fillProd, fillCons, rx[..], rxProd, rxCons, held, app, received, late, packets, bytes)
    }

    ghost predicate Valid()
      reads this
    {
      0 < fill.Length && 0 < rx.Length && (fill as object) != (rx as object)
    }

    /** `sip_xsk_create_ring`: reserve the whole fill ring, write the frame addresses, submit. */
    constructor (fillSize: nat, rxSize: nat, frame: nat)
      requires 0 < fillSize && 0 < rxSize
      ensures Valid() && fresh(fill) && fresh(rx)
      ensures View() == Boot(fillSize, fillSize, rxSize, frame)
    {
      fill := new nat[fillSize];
      rx := new Desc[rxSize](i => Desc(0, 0));
      fillProd, fillCons, rxProd, rxCons := 0, 0, 0, 0;
      held, app, received, late := multiset{}, Peek, [], [];
      packets, bytes := 0, 0;
      new;
      for i := 0 to fillSize
        invariant Valid() && View() == Boot(0, fillSize, rxSize, frame).(fill := fill[..])
        invariant forall j: nat | j < i :: fill[j] == j * frame
      {
        fill[i] := i * frame;
      }
      fillProd := fillSize;
      assert fill[..] == Boot(fillSize, fillSize, rxSize, frame).fill;
    }

    /** The next access of `sip_xsk_poll_ingress`. */
    method PollStep(n: nat)
      requires Valid()
      modifies this`fillProd, this`rxCons, this`app, this`received, this`packets, this`bytes, this`late, fill
      ensures Valid() && View() == StepApp(old(View()), n)
    {
      if app.Peek? || app.Process? || app.Release? {
        ReceiveStep(n);
      } else {
        RefillStep(n);
      }
    }

    method ReceiveStep(n: nat)
      requires Valid() && (app.Peek? || app.Process? || app.Release?)
      modifies this`rxCons, this`app, this`received, this`packets, this`bytes
      ensures View() == StepApp(old(View()), n)
    {
      match app
      case Peek =>
        if 0 < n <= BATCH && rxCons + n <= rxProd {
          app := Process(rxCons, n, 0);
          received := [];
        }
      case Process(idx, rcvd, i) =>
        var desc := rx[(idx + i) % rx.Length];
        if desc.len >= ETHER_HEADER {
          packets := packets + 1;
          bytes := bytes + desc.len;
        }
        received := received + [desc.addr];
        app := if i + 1 < rcvd then Process(idx, rcvd, i + 1) else Release(idx, rcvd);
      case Release(idx, rcvd) =>
        rxCons := rxCons + rcvd;
        app := Reserve(idx, rcvd, 0);
    }

    method RefillStep(n: nat)
      requires Valid() && (app.Reserve? || app.Refill? || app.Submit?)
      modifies this`fillProd, this`app, this`late, fill
      ensures View() == StepApp(old(View()), n)
    {
      match app
      case Reserve(idx, rcvd, filled) =>
        if filled >= rcvd {
          app := Peek;
        } else if 0 < n <= rcvd - filled && fillProd + n <= fillCons + fill.Length {
          app := Refill(idx, rcvd, filled, n, fillProd, 0);
        }
      case Refill(_, _, _, _, _, _) =>
        CopyStep(n);
      case Submit(idx, rcvd, filled, ret) =>
        fillProd := fillProd + ret;
        app := Reserve(idx, rcvd, filled + ret);
    }

    /** One late read: the descriptor's address goes into the fill ring. */
    method CopyStep(n: nat)
      requires Valid() && app.Refill?
      modifies this`app, this`late, fill
      ensures View() == StepApp(old(View()), n)
    {
      var i := app.i;
      var desc := rx[(app.idx + app.filled + i) % rx.Length];
      late := late + [(if app.filled + i < |received| then received[app.filled + i] else 0, desc.addr)];
      fill[(app.idxFill + i) % fill.Length] := desc.addr;
      app := AfterCopy(app);
    }

    /** One step of the kernel. */
    method KernelStep(a: Action)
      requires Valid() && !a.Poll?
      modifies this`fillCons, this`rxProd, this`held, rx
      ensures Valid() && View() == Step(old(View()), a)
    {
      match a
      case Take => TakeStep();
      case Publish(addr, len) => PublishStep(addr, len);
    }

    method TakeStep()
      requires Valid()
      modifies this`fillCons, this`held
      ensures View() == Step(old(View()), Take)
    {
      if fillCons < fillProd {
        held := held + multiset{fill[fillCons % fill.Length]};
        fillCons := fillCons + 1;
      }
    }

    method PublishStep(addr: nat, len: nat)
      requires Valid()
      modifies this`rxProd, this`held, rx
      ensures View() == Step(old(View()), Publish(addr, len))
    {
      if addr in held && rxProd < rxCons + rx.Length {
        rx[rxProd % rx.Length] := Desc(addr, len);
        rxProd := rxProd + 1;
        held := held - multiset{addr};
      }
    }

    method Execute(acts: seq<Action>)
      requires Valid()
      modifies this`fillProd, this`rxCons, this`app, this`received, this`packets, this`bytes, this`late, fill
      modifies this`fillCons, this`rxProd, this`held, rx
      ensures Valid() && View() == Exec(old(View()), acts)
    {
      for i := 0 to |acts|
        invariant Valid() && View() == Exec(old(View()), acts[..i])
      {
        assert acts[..i + 1][..i] == acts[..i];
        if acts[i].Poll? {
          PollStep(acts[i].n);
        } else {
          KernelStep(acts[i]);
        }
      }
      assert acts[..|acts|] == acts;
    }

    /** Any number of kernel steps between two accesses of the loop. */
    method Kernel(acts: seq<Action>, ghost seeds: multiset<nat>)
      requires Valid() && Inv(View(), seeds) && KernelOnly(acts)
      modifies this`fillCons, this`rxProd, this`held, rx
      ensures Valid() && Inv(View(), seeds) && rxProd >= old(rxProd)
    {
      for i := 0 to |acts|
        invariant Valid() && Inv(View(), seeds) && rxProd >= old(rxProd)
      {
        StepInv(View(), acts[i], seeds);
        KernelStep(acts[i]);
      }
    }

    /** One access of the loop, with any kernel steps before it.  `mid` is what the access saw: the
        kernel had moved its own counters and frames, and nothing of the loop's. */
    method Access(n: nat, env: seq<Action>, ghost seeds: multiset<nat>) returns (ghost mid: Net)
      requires Valid() && Inv(View(), seeds) && KernelOnly(env)
      modifies this`fillProd, this`rxCons, this`app, this`received, this`packets, this`bytes, this`late, fill
      modifies this`fillCons, this`rxProd, this`held, rx
      ensures Valid() && Inv(View(), seeds) && Inv(mid, seeds)
      ensures mid.app == old(app) && mid.rxCons == old(rxCons) && mid.fillProd == old(fillProd)
      ensures mid.received == old(received) && mid.late == old(late)
      ensures |mid.fill| == fill.Length && View() == StepApp(mid, n)
    {
      Kernel(env, seeds);
      mid := View();
      PollInv(mid, seeds, n);
      PollStep(n);
    }

    method ProcessOne(env: seq<Action>, ghost seeds: multiset<nat>)
      requires Valid() && Inv(View(), seeds) && KernelOnly(env) && app.Process?
      modifies this`fillProd, this`rxCons, this`app, this`received, this`packets, this`bytes, this`late, fill
      modifies this`fillCons, this`rxProd, this`held, rx
      ensures Valid() && Inv(View(), seeds)
      ensures rxCons == old(rxCons) && fillProd == old(fillProd) && late == old(late)
      ensures app == AfterRead(old(app))
    {
      ghost var mid := Access(0, env, seeds);
      ProcessEffect(mid, View());
    }

    method ReleaseBatch(env: seq<Action>, ghost seeds: multiset<nat>)
      requires Valid() && Inv(View(), seeds) && KernelOnly(env) && app.Release?
      modifies this`fillProd, this`rxCons, this`app, this`received, this`packets, this`bytes, this`late, fill
      modifies this`fillCons, this`rxProd, this`held, rx
      ensures Valid() && Inv(View(), seeds)
      ensures rxCons == old(rxCons) + old(app).rcvd && fillProd == old(fillProd) && late == old(late)
      ensures app == Reserve(old(app).idx, old(app).rcvd, 0) && |received| == old(app).rcvd
    {
      ghost var mid := Access(0, env, seeds);
      ReleaseEffect(mid, View());
    }

    /** A reservation answered with n slots, at most what the batch still needs; 0 is a refusal. */
    method ReserveSome(n: nat, env: seq<Action>, ghost seeds: multiset<nat>)
      requires Valid() && Inv(View(), seeds) && KernelOnly(env) && |seeds| <= fill.Length
      requires app.Reserve? && n <= app.rcvd - app.filled && app.filled < app.rcvd
      modifies this`fillProd, this`rxCons, this`app, this`received, this`packets, this`bytes, this`late, fill
      modifies this`fillCons, this`rxProd, this`held, rx
      ensures Valid() && Inv(View(), seeds)
      ensures rxCons == old(rxCons) && fillProd == old(fillProd) && late == old(late) && received == old(received)
      ensures app == if n == 0 then old(app) else Refill(old(app).idx, old(app).rcvd, old(app).filled, n, fillProd, 0)
    {
      ghost var mid := Access(n, env, seeds);
      ReserveEffect(mid, View(), n, seeds);
    }

    /** One late read; `before` are the late reads of earlier batches. */
    method RefillOne(env: seq<Action>, ghost before: seq<(nat, nat)>, ghost seeds: multiset<nat>)
      requires Valid() && Inv(View(), seeds) && KernelOnly(env) && app.Refill?
      requires app.filled + app.i < |received| && late == LateUpTo(before, received, app.filled + app.i)
      modifies this`fillProd, this`rxCons, this`app, this`received, this`packets, this`bytes, this`late, fill
      modifies this`fillCons, this`rxProd, this`held, rx
      ensures Valid() && Inv(View(), seeds)
      ensures rxCons == old(rxCons) && fillProd == old(fillProd) && received == old(received)
      ensures app == AfterCopy(old(app)) && late == LateUpTo(before, received, old(app).filled + old(app).i + 1)
    {
      ghost var mid := Access(0, env, seeds);
      RefillEffect(mid, View());
      LateGrows(before, received, mid.app.filled + mid.app.i);
    }

    method SubmitBatch(env: seq<Action>, ghost seeds: multiset<nat>)
      requires Valid() && Inv(View(), seeds) && KernelOnly(env) && app.Submit?
      modifies this`fillProd, this`rxCons, this`app, this`received, this`packets, this`bytes, this`late, fill
      modifies this`fillCons, this`rxProd, this`held, rx
      ensures Valid() && Inv(View(), seeds)
      ensures rxCons == old(rxCons) && fillProd == old(fillProd) + old(app).ret
      ensures late == old(late) && received == old(received)
      ensures app == AfterSubmit(old(app))
    {
      ghost var mid := Access(0, env, seeds);
      SubmitEffect(mid, View());
    }

    /** The first half of an iteration: peek n descriptors, read them, release their slots. */
    method ReceiveBatch(n: nat, env: nat -> seq<Action>, ghost seeds: multiset<nat>)
      requires Valid() && Inv(View(), seeds) && forall i: nat :: KernelOnly(env(i))
      requires app.Peek? && 0 < n <= BATCH && rxCons + n <= rxProd
      modifies this, fill, rx
      ensures Valid() && Inv(View(), seeds) && app == Reserve(old(rxCons), n, 0) && |received| == n
      ensures rxCons == old(rxCons) + n && fillProd == old(fillProd) && late == old(late)
    {
      StepInv(View(), Poll(n), seeds);
      PollStep(n);
      for i := 0 to n
        invariant Valid() && Inv(View(), seeds)
        invariant rxCons == old(rxCons) && fillProd == old(fillProd) && late == old(late)
        invariant app == ReadAt(old(rxCons), n, i)
      {
        ProcessOne(env(i), seeds);
      }
      ReleaseBatch(env(n), seeds);
    }

    /** The late reads of one reservation, partial or not; `before` are those of earlier batches. */
    method RefillBatch(env: nat -> seq<Action>, ghost before: seq<(nat, nat)>, ghost seeds: multiset<nat>)
      requires Valid() && Inv(View(), seeds) && forall i: nat :: KernelOnly(env(i))
      requires app.Refill? && app.i == 0 && app.filled + app.ret <= |received| && 0 < app.ret
      requires late == LateUpTo(before, received, app.filled)
      modifies this, fill, rx
      ensures Valid() && Inv(View(), seeds)
      ensures app == Submit(old(app).idx, old(app).rcvd, old(app).filled, old(app).ret)
      ensures received == old(received) && late == LateUpTo(before, received, app.filled + app.ret)
      ensures rxCons == old(rxCons) && fillProd == old(fillProd)
    {
      ghost var got, start := received, app;
      var filled, n := app.filled, app.ret;
      for i := 0 to n
        invariant Valid() && Inv(View(), seeds) && received == got
        invariant rxCons == old(rxCons) && fillProd == old(fillProd)
        invariant app == CopyAt(start, i)
        invariant late == LateUpTo(before, got, filled + i)
      {
        RefillOne(env(i), before, seeds);
      }
    }

    /** One turn of the replenishing loop: a reservation, and if it was not refused its late reads and
        its submission. */
    method GiveBack(n: nat, env: nat -> seq<Action>, ghost before: seq<(nat, nat)>, ghost seeds: multiset<nat>)
      requires Valid() && Inv(View(), seeds) && |seeds| <= fill.Length && forall i: nat :: KernelOnly(env(i))
      requires app.Reserve? && n <= app.rcvd - app.filled && app.filled < app.rcvd == |received|
      requires late == LateUpTo(before, received, app.filled)
      modifies this, fill, rx
      ensures Valid() && Inv(View(), seeds) && app == Reserve(old(app).idx, old(app).rcvd, old(app).filled + n)
      ensures received == old(received) && late == LateUpTo(before, received, app.filled)
      ensures rxCons == old(rxCons) && fillProd == old(fillProd) + n
    {
      ReserveSome(n, env(0), seeds);
      if n != 0 {
        RefillBatch((i: nat) => env(i + 1), before, seeds);
        SubmitBatch(env(n + 1), seeds);
      }
    }

    /** The same for any answer to the reservation, if the batch still needs slots. */
    method Turn(answer: nat, env: nat -> seq<Action>, ghost before: seq<(nat, nat)>, ghost seeds: multiset<nat>)
      requires Valid() && Inv(View(), seeds) && |seeds| <= fill.Length && forall i: nat :: KernelOnly(env(i))
      requires app.Reserve? && app.filled <= app.rcvd == |received|
      requires late == LateUpTo(before, received, app.filled)
      modifies this, fill, rx
      ensures Valid() && Inv(View(), seeds) && app.Reserve? && app.rcvd == old(app).rcvd
      ensures old(app).filled <= app.filled <= app.rcvd && (answer >= app.rcvd ==> app.filled == app.rcvd)
      ensures received == old(received) && late == LateUpTo(before, received, app.filled)
      ensures rxCons == old(rxCons) && fillProd == old(fillProd) + (app.filled - old(app).filled)
    {
      if app.filled < app.rcvd {
        var rest := app.rcvd - app.filled;
        GiveBack(if answer < rest then answer else rest, env, before, seeds);
      }
    }

    /** The second half: whatever the reservations answer (refusals and partial grants, any number of
        them), and one more for the rest if any is left, the whole batch is given back. */
    method ReplenishBatch(answers: seq<nat>, env: (nat, nat) -> seq<Action>, ghost seeds: multiset<nat>)
      requires Valid() && Inv(View(), seeds) && |seeds| <= fill.Length && forall j: nat, i: nat :: KernelOnly(env(j, i))
      requires app.Reserve? && app.rcvd == |received| && app.filled == 0
      modifies this, fill, rx
      ensures Valid() && Inv(View(), seeds) && app.Reserve? && app.rcvd == app.filled
      ensures received == old(received) && late == old(late) + Twice(received)
      ensures rxCons == old(rxCons) && fillProd == old(fillProd) + |received|
    {
      ghost var before, got := late, received;
      LateEnds(before, got);
      for j := 0 to |answers|
        invariant Valid() && Inv(View(), seeds) && received == got
        invariant app.Reserve? && app.filled <= app.rcvd == |got|
        invariant rxCons == old(rxCons) && fillProd == old(fillProd) + app.filled
        invariant late == LateUpTo(before, got, app.filled)
      {
        Turn(answers[j], (i: nat) => env(j, i), before, seeds);
      }
      Turn(app.rcvd, (i: nat) => env(|answers|, i), before, seeds);
    }

    /** One iteration of the loop that received n packets, with kernel steps between its accesses and
        any answers to its reservations.  The n frames received are the n frames given back, in
        order. */
    method PollIteration(n: nat, answers: seq<nat>, read: nat -> seq<Action>, refill: (nat, nat) -> seq<Action>,
        ghost seeds: multiset<nat>)
      requires Valid() && Inv(View(), seeds) && |seeds| <= fill.Length
      requires (forall i: nat :: KernelOnly(read(i))) && (forall j: nat, i: nat :: KernelOnly(refill(j, i)))
      requires app.Peek? && 0 < n <= BATCH && rxCons + n <= rxProd
      modifies this, fill, rx
      ensures Valid() && Inv(View(), seeds) && app.Peek?
      ensures rxCons == old(rxCons) + n && fillProd == old(fillProd) + n
      ensures |received| == n && late == old(late) + Twice(received)
    {
      ReceiveBatch(n, read, seeds);
      ReplenishBatch(answers, refill, seeds);
      StepInv(View(), Poll(0), seeds);
      PollStep(0);
    }
  }

  // ----- what one access does to the loop's own state -----

  /** The inner loops: the next descriptor, or out of the loop. */
  function AfterRead(a: App): App
    requires a.Process?
  {
    if a.i + 1 < a.rcvd then Process(a.idx, a.rcvd, a.i + 1) else Release(a.idx, a.rcvd)
  }

  /** The program point after i turns of an inner loop. */
  function ReadAt(idx: nat, n: nat, i: nat): App {
    if i < n then Process(idx, n, i) else Release(idx, n)
  }

  function CopyAt(a: App, i: nat): App
    requires a.Refill?
  {
    if i < a.ret then Refill(a.idx, a.rcvd, a.filled, a.ret, a.idxFill, i) else Submit(a.idx, a.rcvd, a.filled, a.ret)
  }

  function AfterCopy(a: App): App
    requires a.Refill?
  {
    if a.i + 1 < a.ret then Refill(a.idx, a.rcvd, a.filled, a.ret, a.idxFill, a.i + 1)
    else Submit(a.idx, a.rcvd, a.filled, a.ret)
  }

  function AfterSubmit(a: App): App
    requires a.Submit?
  {
    Reserve(a.idx, a.rcvd, a.filled + a.ret)
  }

  lemma ProcessEffect(s: Net, s': Net)
    requires Wf(s) && s.app.Process? && s' == StepApp(s, 0)
    ensures s'.rxCons == s.rxCons && s'.fillProd == s.fillProd && s'.late == s.late
    ensures s'.app == AfterRead(s.app)
  {
  }

  lemma ReleaseEffect(s: Net, s': Net)
    requires Rings(s) && AppOk(s) && s.app.Release? && s' == StepApp(s, 0)
    ensures s'.rxCons == s.rxCons + s.app.rcvd && s'.fillProd == s.fillProd && s'.late == s.late
    ensures s'.app == Reserve(s.app.idx, s.app.rcvd, 0) && |s'.received| == s.app.rcvd
  {
  }

  lemma ReserveEffect(s: Net, s': Net, n: nat, seeds: multiset<nat>)
    requires Inv(s, seeds) && |seeds| <= |s.fill|
    requires s.app.Reserve? && n <= s.app.rcvd - s.app.filled && s.app.filled < s.app.rcvd
    requires s' == StepApp(s, n)
    ensures s'.rxCons == s.rxCons && s'.fillProd == s.fillProd && s'.late == s.late && s'.received == s.received
    ensures s'.app == if n == 0 then s.app else Refill(s.app.idx, s.app.rcvd, s.app.filled, n, s.fillProd, 0)
  {
    RoomForBatch(s, seeds);
  }

  lemma RefillEffect(s: Net, s': Net)
    requires Rings(s) && AppOk(s) && s.app.Refill? && s' == StepApp(s, 0)
    ensures s'.rxCons == s.rxCons && s'.fillProd == s.fillProd && s'.received == s.received
    ensures s'.app == AfterCopy(s.app)
    ensures var k := s.app.filled + s.app.i;
      k < |s.received| && s'.late == s.late + [(s.received[k], s.received[k])]
  {
    RefillSlot(s, 0);
  }

  lemma SubmitEffect(s: Net, s': Net)
    requires Wf(s) && s.app.Submit? && s' == StepApp(s, 0)
    ensures s'.rxCons == s.rxCons && s'.fillProd == s.fillProd + s.app.ret
    ensures s'.late == s.late && s'.received == s.received
    ensures s'.app == AfterSubmit(s.app)
  {
  }

  predicate KernelOnly(acts: seq<Action>) {
    forall a | a in acts :: !a.Poll?
  }

  /** Each address paired with itself: what the late reads of a batch must be. */
  function Twice(got: seq<nat>): seq<(nat, nat)> {
    seq(|got|, j requires 0 <= j < |got| => (got[j], got[j]))
  }

  /** The late reads after the first i of a batch, `before` being those of earlier batches. */
  function LateUpTo(before: seq<(nat, nat)>, got: seq<nat>, i: nat): seq<(nat, nat)>
    requires i <= |got|
  {
    before + Twice(got[..i])
  }

  lemma LateGrows(before: seq<(nat, nat)>, got: seq<nat>, i: nat)
    requires i < |got|
    ensures LateUpTo(before, got, i + 1) == LateUpTo(before, got, i) + [(got[i], got[i])]
  {
    assert Twice(got[..i + 1]) == Twice(got[..i]) + [(got[i], got[i])];
  }

  lemma LateEnds(before: seq<(nat, nat)>, got: seq<nat>)
    ensures LateUpTo(before, got, 0) == before && LateUpTo(before, got, |got|) == before + Twice(got)
  {
    assert got[..|got|] == got;
  }
}
