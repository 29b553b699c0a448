/** The queue seen from its callers: what each call of `mpmc_enqueue` and `mpmc_dequeue` does between
    its begin and its return, on every run, and that a call left alone comes to its end. */
module MpmcCalls {
  import opened Words
  import opened Mpmc
  import opened MpmcTheorems
  import opened MpmcSolo

  predicate InEnqueue<T>(pc: Pc<T>) {
    pc.EnqLoad? || pc.EnqCas? || pc.EnqReload? || pc.EnqCopy? || pc.EnqPublish?
  }

  predicate InDequeue<T>(pc: Pc<T>) {
    pc.DeqLoad? || pc.DeqCas? || pc.DeqReload? || pc.DeqCopy? || pc.DeqRelease?
  }

  // ----- when a dequeue answers -----

  /** Whatever step of whatever run takes a thread to the answer 0 is its load of a sequence number,
      with its position the head, and that position unclaimed or still being written.  An exchange
      that fails, spuriously or because another consumer was faster, never answers 0.  And a thread
      comes to an item only by the release of the position it won. */
  lemma AnswersOnlyFrom<T>(n: nat, blank: T, acts: seq<Action<T>>, a: Action<T>, t: Tid)
    requires 2 <= n
    ensures var w := Exec(Start(n, blank), acts);
      var pc, pc' := PcOf(w.m, t), PcOf(Next(w, a).m, t);
      && (pc' == DeqDone(None) && pc != DeqDone(None) ==>
            && a.Run? && a.t == t && pc == DeqLoad(w.m.head)
            && (w.m.head == w.m.tail || exists u: Tid :: WritingAt(w.m, u, w.m.head)))
      && (HasAnswer(pc') && pc' != pc ==>
            && a.Run? && a.t == t && pc.DeqRelease? && pc.item == pc'.result.value
            && pc.pos < |Takes(Start(n, blank), acts)| && Takes(Start(n, blank), acts)[pc.pos].t == t
            && pc.pos < |Claims(Start(n, blank), acts)| && pc.item == Claims(Start(n, blank), acts)[pc.pos].item)
  {
    History(n, blank, acts);
    var w := Exec(Start(n, blank), acts);
    var pc, pc' := PcOf(w.m, t), PcOf(Next(w, a).m, t);
    assert ThreadOk(w, t);
    if pc' == DeqDone(None) && pc != DeqDone(None) {
      NoneByLoad(w.m, a, t);
      EmptyVerdictExact(n, blank, acts, t, a.weakFails);
    } else if HasAnswer(pc') && pc' != pc {
      SomeByRelease(w.m, a, t);
    }
  }

  lemma NoneByLoad<T>(m: Mem<T>, a: Action<T>, t: Tid)
    requires Wf(m) && PcOf(Step(Unbounded, m, a), t) == DeqDone(None) && PcOf(m, t) != DeqDone(None)
    ensures a.Run? && a.t == t && PcOf(m, t).DeqLoad?
  {
  }

  lemma SomeByRelease<T>(m: Mem<T>, a: Action<T>, t: Tid)
    requires Wf(m) && HasAnswer(PcOf(Step(Unbounded, m, a), t)) && PcOf(Step(Unbounded, m, a), t) != PcOf(m, t)
    ensures a.Run? && a.t == t && PcOf(m, t).DeqRelease?
    ensures PcOf(m, t).item == PcOf(Step(Unbounded, m, a), t).result.value
  {
  }

  // ----- every enqueue puts its item once -----

  /** The items thread t called `mpmc_enqueue` with, in order. */
  function Offered<T>(w: World<T>, acts: seq<Action<T>>, t: Tid): seq<T>
    requires Wf(w.m)
  {
    if acts == [] then []
    else
      var pre, a := acts[..|acts| - 1], acts[|acts| - 1];
      Offered(w, pre, t)
      + if a.BeginEnqueue? && a.t == t && CanBegin(Exec(w, pre).m, t) then [a.item] else []
  }

  /** The items of the positions thread t won on the tail, in order. */
  function PutBy<T>(claims: seq<Claim<T>>, t: Tid): seq<T> {
    if claims == [] then []
    else
      var c := claims[|claims| - 1];
      PutBy(claims[..|claims| - 1], t) + if c.t == t then [c.item] else []
  }

  lemma PutByConcat<T>(claims: seq<Claim<T>>, more: seq<Claim<T>>, t: Tid)
    requires |more| <= 1
    ensures PutBy(claims + more, t) == PutBy(claims, t) + if |more| == 1 && more[0].t == t then [more[0].item] else []
  {
    if more == [] {
      assert claims + more == claims;
    } else {
      assert (claims + more)[..|claims|] == claims;
    }
  }

  /** What a thread still has to put. */
  function Pending<T>(pc: Pc<T>): seq<T> {
    if pc.EnqLoad? || pc.EnqCas? || pc.EnqReload? then [pc.item] else []
  }

  lemma EnqueueStepOf<T>(w: World<T>, a: Action<T>, t: Tid)
    requires Wf(w.m)
    ensures var pc, pc' := PcOf(w.m, t), PcOf(Next(w, a).m, t);
      var put := if |ClaimOf(w.m, a)| == 1 && ClaimOf(w.m, a)[0].t == t then [ClaimOf(w.m, a)[0].item] else [];
      var offered := if a.BeginEnqueue? && a.t == t && CanBegin(w.m, t) then [a.item] else [];
      Pending(pc) + offered == put + Pending(pc')
  {
  }

  /** On every run a thread has put exactly the items it called `mpmc_enqueue` with, once each and in
      order, but for the one whose call has not won a position yet.  In particular a call that has
      returned has put its item. */
  lemma {:induction false} EveryEnqueuePuts<T>(n: nat, blank: T, acts: seq<Action<T>>, t: Tid)
    requires 0 < n
    ensures var w := Start(n, blank);
      Offered(w, acts, t) == PutBy(Claims(w, acts), t) + Pending(PcOf(Exec(w, acts).m, t))
  {
    var w := Start(n, blank);
    if acts != [] {
      var pre, a := acts[..|acts| - 1], acts[|acts| - 1];
      EveryEnqueuePuts(n, blank, pre, t);
      var v := Exec(w, pre);
      EnqueueStepOf(v, a, t);
      PutByConcat(Claims(w, pre), ClaimOf(v.m, a), t);
      var offered := if a.BeginEnqueue? && a.t == t && CanBegin(v.m, t) then [a.item] else [];
      var put := if |ClaimOf(v.m, a)| == 1 && ClaimOf(v.m, a)[0].t == t then [ClaimOf(v.m, a)[0].item] else [];
      Exchange(PutBy(Claims(w, pre), t), Pending(PcOf(v.m, t)), offered, put, Pending(PcOf(Next(v, a).m, t)));
    }
  }

  lemma Exchange<X>(done: seq<X>, pending: seq<X>, offered: seq<X>, put: seq<X>, pending': seq<X>)
    requires pending + offered == put + pending'
    ensures (done + pending) + offered == (done + put) + pending'
  {
    assert (done + pending) + offered == done + (pending + offered);
    assert (done + put) + pending' == done + (put + pending');
  }

  // ----- every dequeue answers once, with what it took -----

  /** How often thread t called `mpmc_dequeue`. */
  function Asked<T>(w: World<T>, acts: seq<Action<T>>, t: Tid): nat
    requires Wf(w.m)
  {
    if acts == [] then 0
    else
      var pre, a := acts[..|acts| - 1], acts[|acts| - 1];
      Asked(w, pre, t) + if a.BeginDequeue? && a.t == t && CanBegin(Exec(w, pre).m, t) then 1 else 0
  }

  /** How often a call of thread t came to an answer, and how often to an item. */
  function Answers<T>(w: World<T>, acts: seq<Action<T>>, t: Tid): (nat, nat)
    requires Wf(w.m)
  {
    if acts == [] then (0, 0)
    else
      var pre, a := acts[..|acts| - 1], acts[|acts| - 1];
      var v, so_far := Exec(w, pre), Answers(w, pre, t);
      var pc' := PcOf(Next(v, a).m, t);
      if pc'.DeqDone? && !PcOf(v.m, t).DeqDone?
      then (so_far.0 + 1, so_far.1 + if pc'.result.Some? then 1 else 0) else so_far
  }

  /** How many positions thread t won on the head. */
  function TakenBy(takes: seq<Take>, t: Tid): nat {
    if takes == [] then 0
    else TakenBy(takes[..|takes| - 1], t) + if takes[|takes| - 1].t == t then 1 else 0
  }

  lemma TakenByConcat(takes: seq<Take>, more: seq<Take>, t: Tid)
    requires |more| <= 1
    ensures TakenBy(takes + more, t) == TakenBy(takes, t) + if |more| == 1 && more[0].t == t then 1 else 0
  {
    if more == [] {
      assert takes + more == takes;
    } else {
      assert (takes + more)[..|takes|] == takes;
    }
  }

  predicate Holding<T>(pc: Pc<T>) {
    pc.DeqCopy? || pc.DeqRelease?
  }

  lemma DequeueStepOf<T>(w: World<T>, a: Action<T>, t: Tid)
    requires Wf(w.m)
    ensures var pc, pc' := PcOf(w.m, t), PcOf(Next(w, a).m, t);
      var asked := if a.BeginDequeue? && a.t == t && CanBegin(w.m, t) then 1 else 0;
      var answered := if pc'.DeqDone? && !pc.DeqDone? then 1 else 0;
      var item := if pc'.DeqDone? && !pc.DeqDone? && pc'.result.Some? then 1 else 0;
      var took := if |TakeOf(w.m, a)| == 1 && TakeOf(w.m, a)[0].t == t then 1 else 0;
      && (if InDequeue(pc) then 1 else 0) + asked == answered + (if InDequeue(pc') then 1 else 0)
      && (if Holding(pc) then 1 else 0) + took == item + (if Holding(pc') then 1 else 0)
  {
  }

  /** On every run each call of `mpmc_dequeue` has answered once, but for the one still running; and
      the answers with an item are as many as the positions won, but for the one still in hand: no
      call takes an item and answers 0, or answers with an item it did not take. */
  lemma {:induction false} EveryDequeueAnswers<T>(n: nat, blank: T, acts: seq<Action<T>>, t: Tid)
    requires 0 < n
    ensures var w := Start(n, blank); var pc := PcOf(Exec(w, acts).m, t);
      && Asked(w, acts, t) == Answers(w, acts, t).0 + (if InDequeue(pc) then 1 else 0)
      && TakenBy(Takes(w, acts), t) == Answers(w, acts, t).1 + (if Holding(pc) then 1 else 0)
  {
    var w := Start(n, blank);
    if acts != [] {
      var pre, a := acts[..|acts| - 1], acts[|acts| - 1];
      EveryDequeueAnswers(n, blank, pre, t);
      DequeueStepOf(Exec(w, pre), a, t);
      TakenByConcat(Takes(w, pre), TakeOf(Exec(w, pre).m, a), t);
    }
  }

  // ----- a call left alone comes to its end -----

  function Solo<T>(t: Tid, k: nat): seq<Action<T>> {
    if k == 0 then [] else [Run(t, false)] + Solo(t, k - 1)
  }

  lemma ExecSolo<T>(w: World<T>, t: Tid, k: nat)
    requires Wf(w.m)
    ensures Exec(w, Solo(t, k + 1)) == Exec(Next(w, Run(t, false)), Solo(t, k))
  {
    var a: Action<T> := Run(t, false);
    StepWf(Unbounded, w.m, a);
    ExecConcat(w, [a], Solo(t, k));
    assert [a][..0] == [];
    assert Exec(w, [a]) == Next(w, a);
  }

  lemma SoloOnce<T>(w: World<T>, t: Tid) returns (k: nat, r: World<T>)
    requires Wf(w.m)
    ensures k == 1 && r == Next(w, Run(t, false)) && r == Exec(w, Solo(t, k))
  {
    k, r := 1, Next(w, Run(t, false));
    ExecSolo(w, t, 0);
  }

  function DequeueRank<T>(m: Mem<T>, t: Tid): nat {
    match PcOf(m, t)
    case DeqRelease(_, _) => 1
    case DeqCopy(_) => 2
    case DeqCas(pos) => if pos == m.head then 3 else 5
    case DeqLoad(pos) => if pos == m.head then 4 else 6
    case DeqReload => 5
    case _ => 0
  }

  lemma DequeueCloser<T>(w: World<T>, t: Tid) returns (w': World<T>)
    requires Inv(w) && InDequeue(PcOf(w.m, t))
    ensures w' == Next(w, Run(t, false)) && Inv(w')
    ensures var pc' := PcOf(w'.m, t);
      pc'.DeqDone? || (InDequeue(pc') && DequeueRank(w'.m, t) < DequeueRank(w.m, t))
  {
    w' := Next(w, Run(t, false));
    assert ThreadOk(w, t);
    NextInv(w, Run(t, false));
    if PcOf(w.m, t).DeqLoad? {
      DequeueVerdict(w, PcOf(w.m, t).pos);
    }
  }

  lemma {:induction false} DequeueEnds<T>(w: World<T>, t: Tid) returns (k: nat, r: World<T>)
    requires Inv(w) && InDequeue(PcOf(w.m, t))
    ensures 0 < k <= DequeueRank(w.m, t) && r == Exec(w, Solo(t, k)) && PcOf(r.m, t).DeqDone?
    decreases DequeueRank(w.m, t)
  {
    var w' := DequeueCloser(w, t);
    if PcOf(w'.m, t).DeqDone? {
      k, r := SoloOnce(w, t);
    } else {
      var k', r' := DequeueEnds(w', t);
      ExecSolo(w, t, k');
      k, r := k' + 1, r';
    }
  }

  /** From every reachable state, whatever the other threads are in the middle of and however stale
      its position, a dequeue left alone answers within six steps. */
  lemma DequeueAnswersAlone<T>(n: nat, blank: T, acts: seq<Action<T>>, t: Tid) returns (k: nat)
    requires 2 <= n && InDequeue(PcOf(Exec(Start(n, blank), acts).m, t))
    ensures k <= 6 && PcOf(Exec(Start(n, blank), acts + Solo(t, k)).m, t).DeqDone?
  {
    var r;
    History(n, blank, acts);
    k, r := DequeueEnds(Exec(Start(n, blank), acts), t);
    ExecConcat(Start(n, blank), acts, Solo(t, k));
  }

  function EnqueueRank<T>(m: Mem<T>, t: Tid): nat {
    match PcOf(m, t)
    case EnqPublish(_, _) => 1
    case EnqCopy(_, _) => 2
    case EnqCas(_, pos) => if pos == m.tail then 3 else 5
    case EnqLoad(_, pos) => if pos == m.tail then 4 else 6
    case EnqReload(_, _) => 5
    case _ => 0
  }

  /** The thread has just seen that the slot of the next position is not free. */
  ghost predicate SeesFull<T>(w: World<T>, t: Tid) {
    && PcOf(w.m, t).EnqReload? && PcOf(w.m, t).yielded
    && |w.m.sequence| <= w.m.tail && StageOf(w.h, w.m.tail - |w.m.sequence|) != Released
  }

  lemma EnqueueCloser<T>(w: World<T>, t: Tid)
    requires Inv(w) && InEnqueue(PcOf(w.m, t))
    ensures var w' := Next(w, Run(t, false)); var pc' := PcOf(w'.m, t);
      Inv(w') && (pc'.Idle? || SeesFull(w', t) || (InEnqueue(pc') && EnqueueRank(w'.m, t) < EnqueueRank(w.m, t)))
  {
    assert ThreadOk(w, t);
    NextInv(w, Run(t, false));
    if PcOf(w.m, t).EnqLoad? {
      EnqueueVerdict(w, PcOf(w.m, t).pos);
    }
  }

  lemma {:induction false} EnqueueEnds<T>(w: World<T>, t: Tid) returns (k: nat, r: World<T>)
    requires Inv(w) && InEnqueue(PcOf(w.m, t))
    ensures 0 < k <= EnqueueRank(w.m, t) && r == Exec(w, Solo(t, k)) && (PcOf(r.m, t).Idle? || SeesFull(r, t))
    decreases EnqueueRank(w.m, t)
  {
    EnqueueCloser(w, t);
    var w' := Next(w, Run(t, false));
    if PcOf(w'.m, t).Idle? || SeesFull(w', t) {
      k, r := SoloOnce(w, t);
    } else {
      var k', r' := EnqueueEnds(w', t);
      ExecSolo(w, t, k');
      k, r := k' + 1, r';
    }
  }

  /** The enqueue waits, and the position one lap before the tail has not been returned. */
  ghost predicate WaitsForRoom<T>(m: Mem<T>, n: nat, results: seq<Claim<T>>, t: Tid) {
    PcOf(m, t).EnqReload? && n <= m.tail && !ReturnedAt(results, m.tail - n)
  }

  lemma FullNotReturned<T>(w: World<T>, n: nat, results: seq<Claim<T>>, t: Tid)
    requires Inv(w) && |w.m.sequence| == n && ReturnsRecorded(w.h, results) && SeesFull(w, t)
    ensures WaitsForRoom(w.m, n, results, t)
  {
  }

  /** And an enqueue left alone returns within six steps, or finds the queue full. */
  lemma EnqueueReturnsAlone<T>(n: nat, blank: T, acts: seq<Action<T>>, t: Tid) returns (k: nat)
    requires 2 <= n && InEnqueue(PcOf(Exec(Start(n, blank), acts).m, t))
    ensures 0 < k <= 6
    ensures var m := Exec(Start(n, blank), acts + Solo(t, k)).m;
      PcOf(m, t).Idle? || WaitsForRoom(m, n, Returns(Start(n, blank), acts + Solo(t, k)), t)
  {
    var w, r := Start(n, blank), Start(n, blank);
    History(n, blank, acts);
    k, r := EnqueueEnds(Exec(w, acts), t);
    ExecConcat(w, acts, Solo(t, k));
    History(n, blank, acts + Solo(t, k));
    if !PcOf(r.m, t).Idle? {
      FullNotReturned(r, n, Returns(w, acts + Solo(t, k)), t);
    }
  }
}
