/** One thread at a time: the queue as a bounded first-in first-out list, and why it needs two cells. */
module MpmcSolo {
  import opened Words
  import opened Mpmc
  import opened MpmcTheorems
  import opened MpmcRefinement

  /** No thread is between its claim and its final store; threads may hold stale positions. */
  ghost predicate NoneCopying<T>(m: Mem<T>) {
    forall t: Tid :: !Copying(PcOf(m, t))
  }

  function Contents<T>(w: World<T>): seq<T> {
    if w.m.head <= w.m.tail <= |w.h.items| then w.h.items[w.m.head..w.m.tail] else []
  }

  /** All steps of the schedule are thread t's, and none of its comparisons lags. */
  ghost predicate Alone<T>(v: World<T>, acts: seq<Action<T>>, t: Tid)
    requires Wf(v.m)
  {
    && (forall a | a in acts :: a.t == t)
    && forall w: nat | 2 * |v.m.sequence| <= Pow2(w) :: LagBounded(w, v, acts)
  }

  /** The position a thread is about to compare is the live one. */
  predicate Current<T>(m: Mem<T>, pc: Pc<T>) {
    && (pc.EnqLoad? || pc.EnqCas? ==> pc.pos == m.tail)
    && (pc.DeqLoad? || pc.DeqCas? ==> pc.pos == m.head)
  }

  lemma AloneStep<T>(v: World<T>, acts: seq<Action<T>>, r: World<T>, t: Tid, a: Action<T>)
    returns (acts': seq<Action<T>>)
    requires Wf(v.m) && Alone(v, acts, t) && a.t == t && r == Exec(v, acts)
    requires a.Run? ==> Current(r.m, PcOf(r.m, t))
    ensures acts' == acts + [a] && Alone(v, acts', t) && Exec(v, acts') == Next(r, a)
  {
    acts' := acts + [a];
    assert acts'[..|acts|] == acts;
  }

  ghost predicate OthersKept<T>(m: Mem<T>, m': Mem<T>, t: Tid) {
    forall u: Tid | u != t :: PcOf(m', u) == PcOf(m, u)
  }

  /** Load the tail, see the cell free, win the position. */
  lemma EnqueueClaims<T>(v: World<T>, t: Tid, x: T) returns (a: World<T>, b: World<T>, c: World<T>)
    requires Wf(v.m) && CanBegin(v.m, t) && |v.h.items| == |v.h.stages| == v.m.tail
    requires v.m.sequence[Cell(v.m.tail, |v.m.sequence|)] == v.m.tail
    ensures a == Next(v, BeginEnqueue(t, x)) && Current(a.m, PcOf(a.m, t))
    ensures Wf(a.m) && b == Next(a, Run(t, false)) && Current(b.m, PcOf(b.m, t))
    ensures Wf(b.m) && c == Next(b, Run(t, false)) && PcOf(c.m, t) == EnqCopy(x, v.m.tail)
    ensures c.m == v.m.(tail := v.m.tail + 1, threads := c.m.threads) && OthersKept(v.m, c.m, t)
    ensures c.h.items == v.h.items + [x] && |c.h.items| == |c.h.stages|
  {
    a := Next(v, BeginEnqueue(t, x));
    b := Next(a, Run(t, false));
    assert b.m == v.m.(threads := b.m.threads) && b.h == v.h && PcOf(b.m, t) == EnqCas(x, v.m.tail);
    c := Next(b, Run(t, false));
  }

  /** Write the payload, publish the position. */
  lemma EnqueueStores<T>(c: World<T>, t: Tid, x: T, pos: nat) returns (d: World<T>, e: World<T>)
    requires Wf(c.m) && PcOf(c.m, t) == EnqCopy(x, pos)
    ensures Current(c.m, PcOf(c.m, t)) && d == Next(c, Run(t, false)) && Current(d.m, PcOf(d.m, t))
    ensures Wf(d.m) && e == Next(d, Run(t, false)) && PcOf(e.m, t) == Idle
    ensures var cell := Cell(pos, |c.m.sequence|);
      e.m == c.m.(data := c.m.data[cell := x], sequence := c.m.sequence[cell := pos + 1], threads := e.m.threads)
    ensures OthersKept(c.m, e.m, t) && e.h.items == c.h.items && |e.h.stages| == |c.h.stages|
  {
    d := Next(c, Run(t, false));
    assert PcOf(d.m, t) == EnqPublish(x, pos);
    e := Next(d, Run(t, false));
  }

  /** The steps of an enqueue that finds its cell free. */
  lemma EnqueueSteps<T>(v: World<T>, t: Tid, x: T) returns (acts: seq<Action<T>>, r: World<T>)
    requires Wf(v.m) && CanBegin(v.m, t) && |v.h.items| == |v.h.stages| == v.m.tail
    requires v.m.sequence[Cell(v.m.tail, |v.m.sequence|)] == v.m.tail
    ensures r == Exec(v, acts) && Alone(v, acts, t)
    ensures var pos := v.m.tail; var c := Cell(pos, |v.m.sequence|);
      && r.m == v.m.(tail := pos + 1, data := v.m.data[c := x], sequence := v.m.sequence[c := pos + 1],
                     threads := r.m.threads)
      && PcOf(r.m, t) == Idle && OthersKept(v.m, r.m, t)
      && r.h.items == v.h.items + [x] && |r.h.items| == |r.h.stages|
  {
    var a, b, c := EnqueueClaims(v, t, x);
    var d, e := EnqueueStores(c, t, x, v.m.tail);
    acts := [];
    acts := AloneStep(v, acts, v, t, BeginEnqueue(t, x));
    acts := AloneStep(v, acts, a, t, Run(t, false));
    acts := AloneStep(v, acts, b, t, Run(t, false));
    acts := AloneStep(v, acts, c, t, Run(t, false));
    acts := AloneStep(v, acts, d, t, Run(t, false));
    r := e;
  }

  /** Load the head, see the cell published, win the position. */
  lemma DequeueClaims<T>(v: World<T>, t: Tid) returns (a: World<T>, b: World<T>, c: World<T>)
    requires Wf(v.m) && CanBegin(v.m, t)
    requires v.m.sequence[Cell(v.m.head, |v.m.sequence|)] == v.m.head + 1
    ensures a == Next(v, BeginDequeue(t)) && Current(a.m, PcOf(a.m, t))
    ensures Wf(a.m) && b == Next(a, Run(t, false)) && Current(b.m, PcOf(b.m, t))
    ensures Wf(b.m) && c == Next(b, Run(t, false)) && PcOf(c.m, t) == DeqCopy(v.m.head)
    ensures c.m == v.m.(head := v.m.head + 1, threads := c.m.threads) && OthersKept(v.m, c.m, t)
    ensures c.h.items == v.h.items
  {
    a := Next(v, BeginDequeue(t));
    b := Next(a, Run(t, false));
    assert b.m == v.m.(threads := b.m.threads) && b.h == v.h && PcOf(b.m, t) == DeqCas(v.m.head);
    c := Next(b, Run(t, false));
  }

  /** Read the payload, release the cell. */
  lemma DequeueStores<T>(c: World<T>, t: Tid, pos: nat) returns (d: World<T>, e: World<T>)
    requires Wf(c.m) && PcOf(c.m, t) == DeqCopy(pos)
    ensures Current(c.m, PcOf(c.m, t)) && d == Next(c, Run(t, false)) && Current(d.m, PcOf(d.m, t))
    ensures Wf(d.m) && e == Next(d, Run(t, false))
    ensures PcOf(e.m, t) == DeqDone(Some(c.m.data[Cell(pos, |c.m.sequence|)]))
    ensures e.m.head == c.m.head && e.m.tail == c.m.tail && OthersKept(c.m, e.m, t) && e.h.items == c.h.items
  {
    d := Next(c, Run(t, false));
    assert PcOf(d.m, t) == DeqRelease(c.m.data[Cell(pos, |c.m.sequence|)], pos);
    e := Next(d, Run(t, false));
  }

  /** The steps of a dequeue that finds its cell ready. */
  lemma DequeueSteps<T>(v: World<T>, t: Tid) returns (acts: seq<Action<T>>, r: World<T>)
    requires Wf(v.m) && CanBegin(v.m, t)
    requires v.m.sequence[Cell(v.m.head, |v.m.sequence|)] == v.m.head + 1
    ensures r == Exec(v, acts) && Alone(v, acts, t)
    ensures var pos := v.m.head;
      && r.m.head == pos + 1 && r.m.tail == v.m.tail && r.h.items == v.h.items
      && PcOf(r.m, t) == DeqDone(Some(v.m.data[Cell(pos, |v.m.sequence|)]))
      && OthersKept(v.m, r.m, t)
  {
    var a, b, c := DequeueClaims(v, t);
    var d, e := DequeueStores(c, t, v.m.head);
    acts := [];
    acts := AloneStep(v, acts, v, t, BeginDequeue(t));
    acts := AloneStep(v, acts, a, t, Run(t, false));
    acts := AloneStep(v, acts, b, t, Run(t, false));
    acts := AloneStep(v, acts, c, t, Run(t, false));
    acts := AloneStep(v, acts, d, t, Run(t, false));
    r := e;
  }

  /** While nobody copies, every position is either waiting in the queue or finished. */
  lemma Settled<T>(w: World<T>, p: nat)
    requires Inv(w) && NoneCopying(w.m) && p < |w.h.stages|
    ensures w.h.stages[p] == if p < w.m.head then Released else Published
  {
    assert OwnerOk(w, p);
  }

  /** So the tail's cell is free unless the queue is full, and the head's is ready unless it is empty. */
  lemma SettledVerdicts<T>(w: World<T>)
    requires Inv(w) && NoneCopying(w.m)
    ensures var n := |w.m.sequence|;
      && (if w.m.tail < w.m.head + n then w.m.sequence[Cell(w.m.tail, n)] == w.m.tail
          else w.m.sequence[Cell(w.m.tail, n)] < w.m.tail)
      && (if w.m.head < w.m.tail
          then w.m.sequence[Cell(w.m.head, n)] == w.m.head + 1 && w.m.data[Cell(w.m.head, n)] == w.h.items[w.m.head]
          else w.m.sequence[Cell(w.m.head, n)] < w.m.head + 1)
  {
    var n := |w.m.sequence|;
    EnqueueVerdict(w, w.m.tail);
    DequeueVerdict(w, w.m.head);
    if n <= w.m.tail {
      Settled(w, w.m.tail - n);
    }
    if w.m.head < w.m.tail {
      Settled(w, w.m.head);
      assert CellOk(w, w.m.head);
    }
  }

  /** An enqueue that runs alone on a queue with room appends its item and returns, whatever stale
      positions other threads hold. */
  lemma SoloEnqueue<T>(w: World<T>, t: Tid, x: T) returns (acts: seq<Action<T>>, r: World<T>)
    requires Inv(w) && NoneCopying(w.m) && CanBegin(w.m, t) && |Contents(w)| < |w.m.sequence|
    ensures r == Exec(w, acts) && Alone(w, acts, t) && Inv(r) && NoneCopying(r.m)
    ensures Contents(r) == Contents(w) + [x] && PcOf(r.m, t) == Idle
    ensures r.m.head == w.m.head && r.m.tail == w.m.tail + 1
    ensures forall u: Tid | u != t :: PcOf(r.m, u) == PcOf(w.m, u)
  {
    SettledVerdicts(w);
    acts, r := EnqueueSteps(w, t, x);
    ExecInv(w, acts);
  }

  /** On a full queue it goes round its loop and the queue stays as it is. */
  lemma SoloEnqueueWaits<T>(w: World<T>, t: Tid, x: T)
    requires Inv(w) && NoneCopying(w.m) && PcOf(w.m, t) == EnqLoad(x, w.m.tail) && |Contents(w)| == |w.m.sequence|
    ensures var v := Next(w, Run(t, false)); var v' := Next(v, Run(t, false));
      PcOf(v.m, t) == EnqReload(x, true) && v'.m == w.m.(threads := v'.m.threads)
      && PcOf(v'.m, t) == PcOf(w.m, t) && v'.h == w.h
  {
    SettledVerdicts(w);
  }

  /** A dequeue that runs alone on a queue that is not empty removes the first item and returns it. */
  lemma SoloDequeue<T>(w: World<T>, t: Tid) returns (acts: seq<Action<T>>, r: World<T>)
    requires Inv(w) && NoneCopying(w.m) && CanBegin(w.m, t) && Contents(w) != []
    ensures r == Exec(w, acts) && Alone(w, acts, t) && Inv(r) && NoneCopying(r.m)
    ensures Contents(r) == Contents(w)[1..] && PcOf(r.m, t) == DeqDone(Some(Contents(w)[0]))
    ensures r.m.head == w.m.head + 1 && r.m.tail == w.m.tail
    ensures forall u: Tid | u != t :: PcOf(r.m, u) == PcOf(w.m, u)
  {
    SettledVerdicts(w);
    acts, r := DequeueSteps(w, t);
    ExecInv(w, acts);
  }

  /** On an empty queue it answers 0. */
  lemma SoloDequeueEmpty<T>(w: World<T>, t: Tid)
    requires Inv(w) && NoneCopying(w.m) && PcOf(w.m, t) == DeqLoad(w.m.head) && Contents(w) == []
    ensures PcOf(Next(w, Run(t, false)).m, t) == DeqDone(None)
  {
    SettledVerdicts(w);
  }

  lemma {:induction false} ExecConcat<T>(v: World<T>, a: seq<Action<T>>, b: seq<Action<T>>)
    requires Wf(v.m)
    ensures Exec(v, a + b) == Exec(Exec(v, a), b)
    ensures forall w: nat :: LagBounded(w, v, a) && LagBounded(w, Exec(v, a), b) ==> LagBounded(w, v, a + b)
  {
    if b == [] {
      assert a + b == a;
    } else {
      assert (a + b)[..|a + b| - 1] == a + b[..|b| - 1];
      ExecConcat(v, a, b[..|b| - 1]);
    }
  }

  /** Two cells are needed: with one cell a published position looks free to the next producer, and
      after two enqueues, one after the other, only the second item is in memory. */
  lemma CapacityOneOverwrites<T>(blank: T, x: T, y: T) returns (acts: seq<Action<T>>)
    ensures var r := Exec(Start(1, blank), acts);
      Contents(r) == [x, y] && r.m.data == [y] && r.m.head == 0
  {
    var first, v := EnqueueSteps(Start(1, blank), 0, x);
    assert v.m.sequence == [1];
    var second, r := EnqueueSteps(v, 0, y);
    acts := first + second;
    ExecConcat(Start(1, blank), first, second);
  }
}
