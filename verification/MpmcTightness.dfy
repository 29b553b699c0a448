/** The lag bounds of the wrapping queue cannot be relaxed: one position beyond that of the load, a
    run exists in which a consumer reports an empty queue while the queue is full; at a whole word,
    one in which a stale exchange succeeds. */
module MpmcTightness {
  import opened Words
  import opened Mpmc
  import opened MpmcTheorems
  import opened MpmcRefinement
  import opened MpmcSolo

  /** A run so far: its lags are bounded, nobody is copying, thread 0 still waits at `parked`. */
  ghost predicate Parked<T>(w: nat, s: World<T>, acts: seq<Action<T>>, parked: Pc<T>) {
    && Wf(s.m) && LagBounded(w, s, acts)
    && var v := Exec(s, acts);
    Inv(v) && NoneCopying(v.m) && CanBegin(v.m, 1) && PcOf(v.m, 0) == parked
  }

  /** Thread 0 loads the head and stops before it looks at the cell. */
  lemma ParkAtLoad<T>(n: nat, w: nat, blank: T) returns (acts: seq<Action<T>>)
    requires 2 <= n
    ensures Parked(w, Start(n, blank), acts, DeqLoad(0))
    ensures Exec(Start(n, blank), acts).m.head == Exec(Start(n, blank), acts).m.tail == 0
  {
    var s := Start(n, blank);
    StartInv(n, blank);
    acts := [BeginDequeue(0)];
    assert acts[..0] == [];
    assert Exec(s, acts) == Next(s, BeginDequeue(0));
    NextInv(s, BeginDequeue(0));
    assert Exec(s, acts).m.threads == map[0 := DeqLoad(0)];
  }

  /** Work of thread 1 alone leaves thread 0 parked. */
  lemma StillParked<T>(w: nat, s: World<T>, pre: seq<Action<T>>, more: seq<Action<T>>, r: World<T>, parked: Pc<T>)
    requires Parked(w, s, pre, parked) && 2 * |s.m.sequence| <= Pow2(w)
    requires Alone(Exec(s, pre), more, 1) && r == Exec(Exec(s, pre), more)
    requires Inv(r) && NoneCopying(r.m) && CanBegin(r.m, 1) && PcOf(r.m, 0) == PcOf(Exec(s, pre).m, 0)
    ensures Parked(w, s, pre + more, parked) && Exec(s, pre + more) == r
  {
    ExecConcat(s, pre, more);
  }

  /** Thread 0 finds the first item published and stops before its exchange. */
  lemma ParkAtExchange<T>(n: nat, w: nat, blank: T) returns (acts: seq<Action<T>>)
    requires 2 <= n && 2 * n <= Pow2(w)
    ensures Parked(w, Start(n, blank), acts, DeqCas(0))
    ensures Exec(Start(n, blank), acts).m.head == 0 && Exec(Start(n, blank), acts).m.tail == 1
  {
    var s := Start(n, blank);
    var park := ParkAtLoad(n, w, blank);
    var v := Exec(s, park);
    var more, r := SoloEnqueue(v, 1, blank);
    StillParked(w, s, park, more, r, DeqLoad(0));
    acts := SeesItem(w, s, park + more, r);
  }

  /** One step takes the parked thread from its load to its exchange. */
  lemma SeesItem<T>(w: nat, s: World<T>, pre: seq<Action<T>>, v: World<T>) returns (acts: seq<Action<T>>)
    requires Parked(w, s, pre, DeqLoad(0)) && 2 * |s.m.sequence| <= Pow2(w)
    requires v == Exec(s, pre) && v.m.head == 0 && v.m.tail == 1
    ensures Parked(w, s, acts, DeqCas(0))
    ensures Exec(s, acts).m.head == 0 && Exec(s, acts).m.tail == 1
  {
    acts := pre + [Run(0, false)];
    assert acts[..|pre|] == pre;
    SettledVerdicts(v);
    NextInv(v, Run(0, false));
    var v' := Next(v, Run(0, false));
    assert v' == World(Goto(v.m, 0, DeqCas(0)), v.h);
    forall t: Tid ensures !Copying(PcOf(v'.m, t)) {
      assert !Copying(PcOf(v.m, t));
    }
  }

  /** With thread 0 parked while `left0` items are in the queue, thread 1 puts `rounds` items through
      the queue and leaves `left` in it. */
  lemma {:induction false} ParkedRun<T>(w: nat, s: World<T>, base: seq<Action<T>>, parked: Pc<T>, blank: T,
      left0: nat, rounds: nat, left: nat) returns (acts: seq<Action<T>>)
    requires Parked(w, s, base, parked) && 2 * |s.m.sequence| <= Pow2(w)
    requires Exec(s, base).m.head == 0 && Exec(s, base).m.tail == left0 <= 1
    requires left <= |s.m.sequence| && (rounds == 0 ==> left0 <= left)
    ensures Parked(w, s, acts, parked)
    ensures var v := Exec(s, acts); v.m.head == rounds && v.m.tail == rounds + left
    decreases rounds, left
  {
    if rounds == 0 && left == left0 {
      acts := base;
    } else if left != 0 {
      var pre := ParkedRun(w, s, base, parked, blank, left0, rounds, left - 1);
      var v := Exec(s, pre);
      assert |Contents(v)| == left - 1;
      var more, r := SoloEnqueue(v, 1, blank);
      StillParked(w, s, pre, more, r, parked);
      acts := pre + more;
    } else {
      var pre := ParkedRun(w, s, base, parked, blank, left0, rounds - 1, 1);
      var v := Exec(s, pre);
      assert |Contents(v)| == 1;
      var more, r := SoloDequeue(v, 1);
      StillParked(w, s, pre, more, r, parked);
      acts := pre + more;
    }
  }

  /** Half a word is the first cell again. */
  lemma HalfWordCell(k: nat, w: nat)
    requires 1 <= k < w
    ensures Pow2(w) == 2 * Pow2(w - 1) && Pow2(k) <= Pow2(w - 1) && 2 <= Pow2(k)
    ensures Cell(Pow2(w - 1), Pow2(k)) == Cell(0, Pow2(k))
  {
    Pow2Grows(1, k);
    Pow2Grows(k, w - 1);
    PowersDivide(k, w - 1);
    ModUnique(0, Pow2(k), 0, 0);
  }

  /** A consumer parked at 0 in front of a full queue whose last position is half a word. */
  lemma ParkedGap<T>(w: nat, v: World<T>, n: nat, half: nat)
    requires Inv(v) && NoneCopying(v.m) && |v.m.sequence| == n <= half
    requires v.m.head == half - n + 1 && v.m.tail == half + 1 && Cell(half, n) == Cell(0, n)
    ensures Gap(v.m, 0) == half
  {
    assert CellOk(v, half);
    Settled(v, half);
  }

  /** A lag of 2^(w-1) - capacity is harmless, one more is not: the w-bit queue reaches a state in
      which it is full, thread 0's position lags the head by 2^(w-1) - capacity + 1, and thread 0
      answers 0, where the unbounded queue retries. */
  lemma LagBoundTight<T>(k: nat, w: nat, blank: T) returns (acts: seq<Action<T>>)
    requires 1 <= k < w
    ensures var u := Exec(Start(Pow2(k), blank), acts).m; var m := ExecMem(Bits(w), Init(Pow2(k), blank), acts);
      && LagBounded(w, Start(Pow2(k), blank), acts) && m == Wrap(Bits(w), u)
      && PcOf(u, 0) == DeqLoad(0) && 2 * (u.head + Pow2(k)) == Pow2(w) + 2
      && u.tail == u.head + Pow2(k)
      && PcOf(RunThread(Bits(w), m, 0, false), 0) == DeqDone(None)
      && PcOf(RunThread(Unbounded, u, 0, false), 0) == DeqReload
  {
    var n, half := Pow2(k), Pow2(w - 1);
    HalfWordCell(k, w);
    PowersDivide(k, w);
    var park := ParkAtLoad(n, w, blank);
    acts := ParkedRun(w, Start(n, blank), park, DeqLoad(0), blank, 0, half - n + 1, n);
    WordQueueRefines(k, w, blank, acts, 0);
    var v := Exec(Start(n, blank), acts);
    ParkedGap(w, v, n, half);
    StaleBeyondBound(w, v, 0);
  }

  /** Nor can the bound of the exchange: after a whole word of items a thread parked before its
      exchange wins position 0 on words, where the unbounded queue makes it load the head again. */
  lemma ExchangeBoundTight<T>(k: nat, w: nat, blank: T) returns (acts: seq<Action<T>>)
    requires 1 <= k < w
    ensures var u := Exec(Start(Pow2(k), blank), acts).m; var m := ExecMem(Bits(w), Init(Pow2(k), blank), acts);
      && LagBounded(w, Start(Pow2(k), blank), acts) && m == Wrap(Bits(w), u)
      && PcOf(u, 0) == DeqCas(0) && u.head == Pow2(w)
      && PcOf(RunThread(Bits(w), m, 0, false), 0) == DeqCopy(0)
      && PcOf(RunThread(Unbounded, u, 0, false), 0) == DeqLoad(u.head)
  {
    var n := Pow2(k);
    HalfWordCell(k, w);
    var park := ParkAtExchange(n, w, blank);
    acts := ParkedRun(w, Start(n, blank), park, DeqCas(0), blank, 1, Pow2(w), 0);
    WordQueueRefines(k, w, blank, acts, 0);
    ModUnique(0, Pow2(w), 0, 0);
    ModUnique(Pow2(w), Pow2(w), 1, 0);
    ExchangeExact(w, Exec(Start(n, blank), acts).m, 0, false);
  }
}
