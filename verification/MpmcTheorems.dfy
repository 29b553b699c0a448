/** What every run of the queue guarantees, stated on what its threads did: which positions were
    won on the tail and on the head, and which items came back. */
module MpmcTheorems {
  import opened Words
  import opened Mpmc

  datatype Claim<T> = Claim(t: Tid, item: T, pos: nat)
  datatype Take = Take(t: Tid, pos: nat)

  /** What a step wins on the tail: the winner's locals at a successful compare-and-exchange. */
  function ClaimOf<T>(m: Mem<T>, a: Action<T>): seq<Claim<T>> {
    if a.Run? && PcOf(m, a.t).EnqCas? && m.tail == PcOf(m, a.t).pos && !a.weakFails
    then [Claim(a.t, PcOf(m, a.t).item, PcOf(m, a.t).pos)] else []
  }

  /** What a step wins on the head. */
  function TakeOf<T>(m: Mem<T>, a: Action<T>): seq<Take> {
    if a.Run? && PcOf(m, a.t).DeqCas? && m.head == PcOf(m, a.t).pos && !a.weakFails
    then [Take(a.t, PcOf(m, a.t).pos)] else []
  }

  /** The item a step hands back from `mpmc_dequeue`. */
  function ReturnOf<T>(m: Mem<T>, a: Action<T>): seq<Claim<T>> {
    if a.Run? && PcOf(m, a.t).DeqRelease?
    then [Claim(a.t, PcOf(m, a.t).item, PcOf(m, a.t).pos)] else []
  }

  function Claims<T>(w: World<T>, acts: seq<Action<T>>): seq<Claim<T>>
    requires Wf(w.m)
  {
    if acts == [] then [] else
    Claims(w, acts[..|acts| - 1]) + ClaimOf(Exec(w, acts[..|acts| - 1]).m, acts[|acts| - 1])
  }

  function Takes<T>(w: World<T>, acts: seq<Action<T>>): seq<Take>
    requires Wf(w.m)
  {
    if acts == [] then [] else
    Takes(w, acts[..|acts| - 1]) + TakeOf(Exec(w, acts[..|acts| - 1]).m, acts[|acts| - 1])
  }

  function Returns<T>(w: World<T>, acts: seq<Action<T>>): seq<Claim<T>>
    requires Wf(w.m)
  {
    if acts == [] then [] else
    Returns(w, acts[..|acts| - 1]) + ReturnOf(Exec(w, acts[..|acts| - 1]).m, acts[|acts| - 1])
  }

  ghost predicate ReturnedAt<T>(results: seq<Claim<T>>, p: int) {
    exists k :: 0 <= k < |results| && results[k].pos == p
  }

  ghost predicate ClaimsRecorded<T>(h: Hist<T>, claims: seq<Claim<T>>) {
    && |claims| == |h.items| == |h.writers| == |h.stages|
    && (forall i | 0 <= i < |claims| :: claims[i] == Claim(h.writers[i], h.items[i], i))
  }

  ghost predicate TakesRecorded<T>(h: Hist<T>, takes: seq<Take>) {
    && |takes| == |h.readers|
    && (forall i | 0 <= i < |takes| :: takes[i] == Take(h.readers[i], i))
  }

  ghost predicate ReturnsRecorded<T>(h: Hist<T>, results: seq<Claim<T>>) {
    && |h.readers| <= |h.items| == |h.stages|
    && (forall k | 0 <= k < |results| ::
          && results[k].pos < |h.readers| && h.stages[results[k].pos] == Released
          && results[k].item == h.items[results[k].pos] && results[k].t == h.readers[results[k].pos])
    && (forall j, k | 0 <= j < k < |results| :: results[j].pos != results[k].pos)
    && (forall p: nat | p < |h.stages| && h.stages[p] == Released :: ReturnedAt(results, p))
  }

  lemma ClaimStep<T>(v: World<T>, a: Action<T>, claims: seq<Claim<T>>)
    requires Inv(v) && ClaimsRecorded(v.h, claims)
    ensures ClaimsRecorded(Next(v, a).h, claims + ClaimOf(v.m, a))
  {
  }

  lemma TakeStep<T>(v: World<T>, a: Action<T>, takes: seq<Take>)
    requires Inv(v) && TakesRecorded(v.h, takes)
    ensures TakesRecorded(Next(v, a).h, takes + TakeOf(v.m, a))
  {
  }

  /** A position becomes released at the step that returns its item, and stays so. */
  ghost predicate ReleasedBy<T>(h: Hist<T>, h': Hist<T>, r: seq<Claim<T>>, p: nat) {
    p < |h'.stages| ==>
      (h'.stages[p] == Released <==> (p < |h.stages| && h.stages[p] == Released) || (|r| == 1 && r[0].pos == p))
  }

  ghost predicate Returning<T>(h: Hist<T>, r: seq<Claim<T>>) {
    |r| == 0 ||
    (|r| == 1 && r[0].pos < |h.readers| <= |h.items| == |h.stages| && h.stages[r[0].pos] == Reading
     && r[0].item == h.items[r[0].pos] && r[0].t == h.readers[r[0].pos])
  }

  lemma ReleaseStep<T>(v: World<T>, a: Action<T>)
    requires Inv(v)
    ensures var h, h', r := v.h, Next(v, a).h, ReturnOf(v.m, a);
      && h.items <= h'.items && h.readers <= h'.readers && |h.stages| <= |h'.stages|
      && Returning(h, r) && forall p: nat :: ReleasedBy(h, h', r, p)
  {
    assert ThreadOk(v, a.t);
  }

  lemma ReturnsExtend<T>(h: Hist<T>, h': Hist<T>, results: seq<Claim<T>>, r: seq<Claim<T>>)
    requires ReturnsRecorded(h, results)
    requires h.items <= h'.items && h.readers <= h'.readers && |h.stages| <= |h'.stages|
    requires |h'.readers| <= |h'.items| == |h'.stages|
    requires Returning(h, r) && forall p: nat :: ReleasedBy(h, h', r, p)
    ensures ReturnsRecorded(h', results + r)
  {
    var results' := results + r;
    forall k | 0 <= k < |results'|
      ensures results'[k].pos < |h'.readers| && h'.stages[results'[k].pos] == Released
        && results'[k].item == h'.items[results'[k].pos] && results'[k].t == h'.readers[results'[k].pos]
    {
      assert ReleasedBy(h, h', r, results'[k].pos);
    }
    forall p: nat | p < |h'.stages| && h'.stages[p] == Released ensures ReturnedAt(results', p) {
      assert ReleasedBy(h, h', r, p);
      if p < |h.stages| && h.stages[p] == Released {
        assert ReturnedAt(results, p);
        var k :| 0 <= k < |results| && results[k].pos == p;
        assert results'[k].pos == p;
      } else {
        assert results'[|results|].pos == p;
      }
    }
  }

  lemma ReturnStep<T>(v: World<T>, a: Action<T>, results: seq<Claim<T>>)
    requires Inv(v) && ReturnsRecorded(v.h, results)
    ensures ReturnsRecorded(Next(v, a).h, results + ReturnOf(v.m, a))
  {
    NextInv(v, a);
    ReleaseStep(v, a);
    ReturnsExtend(v.h, Next(v, a).h, results, ReturnOf(v.m, a));
  }

  ghost predicate Answered<T>(results: seq<Claim<T>>, t: Tid, x: T) {
    exists k :: 0 <= k < |results| && results[k].t == t && results[k].item == x
  }

  predicate HasAnswer<T>(pc: Pc<T>) {
    pc.DeqDone? && pc.result.Some?
  }

  /** A thread that holds an item got it from a dequeue of its own. */
  ghost predicate AnswersRecorded<T>(m: Mem<T>, results: seq<Claim<T>>) {
    forall t: Tid | HasAnswer(PcOf(m, t)) :: Answered(results, t, PcOf(m, t).result.value)
  }

  lemma AnswerStep<T>(v: World<T>, a: Action<T>, results: seq<Claim<T>>)
    requires Wf(v.m) && AnswersRecorded(v.m, results)
    ensures AnswersRecorded(Next(v, a).m, results + ReturnOf(v.m, a))
  {
    var m', results' := Next(v, a).m, results + ReturnOf(v.m, a);
    forall t: Tid | HasAnswer(PcOf(m', t)) ensures Answered(results', t, PcOf(m', t).result.value) {
      var x := PcOf(m', t).result.value;
      if PcOf(v.m, t) == DeqDone(Some(x)) {
        assert Answered(results, t, x);
        var k :| 0 <= k < |results| && results[k].t == t && results[k].item == x;
        assert results'[k].t == t && results'[k].item == x;
      } else {
        assert results'[|results|].t == t && results'[|results|].item == x;
      }
    }
  }

  lemma {:induction false} EveryAnswerRecorded<T>(n: nat, blank: T, acts: seq<Action<T>>)
    requires 2 <= n
    ensures AnswersRecorded(Exec(Start(n, blank), acts).m, Returns(Start(n, blank), acts))
  {
    if acts != [] {
      EveryAnswerRecorded(n, blank, acts[..|acts| - 1]);
      AnswerStep(Exec(Start(n, blank), acts[..|acts| - 1]), acts[|acts| - 1],
                 Returns(Start(n, blank), acts[..|acts| - 1]));
    }
  }

  /** Thread t won a position of the head at which x had been claimed. */
  ghost predicate AnsweredFrom<T>(w: World<T>, acts: seq<Action<T>>, t: Tid, x: T)
    requires Wf(w.m)
  {
    exists p :: 0 <= p < |Takes(w, acts)| <= |Claims(w, acts)|
      && Takes(w, acts)[p].t == t && Claims(w, acts)[p].item == x
  }

  /** Every item a dequeue handed to its thread is the item claimed at a position that thread won. */
  lemma AnswerIsClaimed<T>(n: nat, blank: T, acts: seq<Action<T>>, t: Tid, x: T)
    requires 2 <= n && PcOf(Exec(Start(n, blank), acts).m, t) == DeqDone(Some(x))
    ensures AnsweredFrom(Start(n, blank), acts, t, x)
  {
    var w := Start(n, blank);
    EveryAnswerRecorded(n, blank, acts);
    History(n, blank, acts);
    assert Answered(Returns(w, acts), t, x);
    var k :| 0 <= k < |Returns(w, acts)| && Returns(w, acts)[k].t == t && Returns(w, acts)[k].item == x;
    var p := Returns(w, acts)[k].pos;
    assert Takes(w, acts)[p].t == t && Claims(w, acts)[p].item == x;
  }

  /** The history is what the threads did. */
  lemma {:induction false} History<T>(n: nat, blank: T, acts: seq<Action<T>>)
    requires 2 <= n
    ensures var w := Start(n, blank); var r := Exec(w, acts);
      && Inv(r) && ClaimsRecorded(r.h, Claims(w, acts))
      && TakesRecorded(r.h, Takes(w, acts)) && ReturnsRecorded(r.h, Returns(w, acts))
  {
    var w := Start(n, blank);
    StartInv(n, blank);
    ExecInv(w, acts);
    if acts != [] {
      var pre, a := acts[..|acts| - 1], acts[|acts| - 1];
      History(n, blank, pre);
      var v := Exec(w, pre);
      ClaimStep(v, a, Claims(w, pre));
      TakeStep(v, a, Takes(w, pre));
      ReturnStep(v, a, Returns(w, pre));
    }
  }

  // ----- exclusivity -----

  predicate Copying<T>(pc: Pc<T>) {
    pc.EnqCopy? || pc.EnqPublish? || pc.DeqCopy? || pc.DeqRelease?
  }

  /** Two threads between their claim and their final store work on different cells, so no payload
      is written while another thread reads or writes it. */
  lemma NoSharedCell<T>(n: nat, blank: T, acts: seq<Action<T>>, t: Tid, u: Tid)
    requires 2 <= n && t != u
    ensures var m := Exec(Start(n, blank), acts).m;
      Copying(PcOf(m, t)) && Copying(PcOf(m, u)) ==>
        PcOf(m, t).pos != PcOf(m, u).pos && Cell(PcOf(m, t).pos, n) != Cell(PcOf(m, u).pos, n)
  {
    var w := Exec(Start(n, blank), acts);
    assert Inv(w) by {
      History(n, blank, acts);
    }
    assert ThreadOk(w, t) && ThreadOk(w, u);
    if Copying(PcOf(w.m, t)) && Copying(PcOf(w.m, u)) {
      Exclusive(w, PcOf(w.m, t).pos, PcOf(w.m, u).pos);
    }
  }

  /** However stale `pos` is, a compare-and-exchange can only succeed while the cell still shows
      the sequence number that was read before it. */
  lemma CasImpliesFresh<T>(n: nat, blank: T, acts: seq<Action<T>>, t: Tid)
    requires 2 <= n
    ensures var m := Exec(Start(n, blank), acts).m; var pc := PcOf(m, t);
      && (pc.EnqCas? && m.tail == pc.pos ==> m.sequence[Cell(pc.pos, n)] == pc.pos)
      && (pc.DeqCas? && m.head == pc.pos ==> m.sequence[Cell(pc.pos, n)] == pc.pos + 1)
  {
    History(n, blank, acts);
    assert ThreadOk(Exec(Start(n, blank), acts), t);
  }

  predicate WritingAt<T>(m: Mem<T>, u: Tid, pos: int) {
    (PcOf(m, u).EnqCopy? || PcOf(m, u).EnqPublish?) && PcOf(m, u).pos == pos
  }

  // ----- first-in first-out, nothing lost or duplicated -----

  /** The k-th winner of the tail gets position k, and so does the k-th winner of the head; whoever
      returns an item returns the one put at the position it won; no position is returned twice. */
  lemma FifoExactlyOnce<T>(n: nat, blank: T, acts: seq<Action<T>>)
    requires 2 <= n
    ensures var w := Start(n, blank);
      var claims, takes, results := Claims(w, acts), Takes(w, acts), Returns(w, acts);
      && (forall i | 0 <= i < |claims| :: claims[i].pos == i)
      && (forall i | 0 <= i < |takes| :: takes[i].pos == i)
      && |takes| <= |claims| <= |takes| + n
      && (forall k | 0 <= k < |results| ::
            && results[k].pos < |takes|
            && results[k].t == takes[results[k].pos].t
            && results[k].item == claims[results[k].pos].item)
      && (forall j, k | 0 <= j < k < |results| :: results[j].pos != results[k].pos)
  {
    History(n, blank, acts);
  }

  /** In every state, a taken position has been returned exactly when the thread that took it is
      no longer between its claim and its release: nothing is lost, however many are in flight. */
  lemma NothingLost<T>(n: nat, blank: T, acts: seq<Action<T>>, p: nat)
    requires 2 <= n && p < |Takes(Start(n, blank), acts)|
    ensures var w := Start(n, blank); var pc := PcOf(Exec(w, acts).m, Takes(w, acts)[p].t);
      ReturnedAt(Returns(w, acts), p) <==> !((pc.DeqCopy? || pc.DeqRelease?) && pc.pos == p)
  {
    History(n, blank, acts);
    var w := Exec(Start(n, blank), acts);
    assert OwnerOk(w, p) && ThreadOk(w, w.h.readers[p]);
  }

  /** In every state, a claimed position that is not taken yet is either still being written by the
      thread that claimed it, and then shows no reader its number, or complete in its cell. */
  lemma PublishedStays<T>(n: nat, blank: T, acts: seq<Action<T>>, p: nat)
    requires 2 <= n
    requires var w := Start(n, blank); |Takes(w, acts)| <= p < |Claims(w, acts)|
    ensures var m, c := Exec(Start(n, blank), acts).m, Claims(Start(n, blank), acts)[p];
      if WritingAt(m, c.t, p) then m.sequence[Cell(p, n)] == p
      else m.sequence[Cell(p, n)] == p + 1 && m.data[Cell(p, n)] == c.item
  {
    History(n, blank, acts);
    var w := Exec(Start(n, blank), acts);
    assert OwnerOk(w, p) && CellOk(w, p) && ThreadOk(w, w.h.writers[p]);
  }

  lemma ClaimsOneMore<T>(w: World<T>, acts: seq<Action<T>>)
    requires Wf(w.m) && acts != []
    ensures Claims(w, acts[..|acts| - 1]) <= Claims(w, acts)
  {
  }

  lemma {:induction false} ClaimsGrow<T>(w: World<T>, earlier: seq<Action<T>>, later: seq<Action<T>>)
    requires Wf(w.m)
    ensures Claims(w, earlier) <= Claims(w, earlier + later)
  {
    var all := earlier + later;
    if later == [] {
      assert all == earlier;
    } else {
      assert all[..|all| - 1] == earlier + later[..|later| - 1];
      ClaimsGrow(w, earlier, later[..|later| - 1]);
      ClaimsOneMore(w, all);
    }
  }

  /** A producer that has not returned yet holds the position its call claimed. */
  lemma WriterHoldsClaim<T>(n: nat, blank: T, acts: seq<Action<T>>, t: Tid)
    requires 2 <= n
    requires var pc := PcOf(Exec(Start(n, blank), acts).m, t); pc.EnqCopy? || pc.EnqPublish?
    ensures var pc, claims := PcOf(Exec(Start(n, blank), acts).m, t), Claims(Start(n, blank), acts);
      pc.pos < |claims| && claims[pc.pos] == Claim(t, pc.item, pc.pos)
  {
    History(n, blank, acts);
    assert ThreadOk(Exec(Start(n, blank), acts), t);
  }

  /** A thread comes to hold a position only by claiming the tail. */
  lemma HoldsByClaim<T>(v: World<T>, a: Action<T>, u: Tid, pos: nat)
    requires Wf(v.m) && WritingAt(Next(v, a).m, u, pos)
    ensures WritingAt(v.m, u, pos) || pos == v.m.tail
  {
  }

  /** A call that begins after `earlier` claims a position beyond all those claimed in it. */
  lemma {:induction false} LaterCallClaimsLater<T>(
      n: nat, blank: T, earlier: seq<Action<T>>, later: seq<Action<T>>, u: Tid, pos: nat)
    requires 2 <= n && CanBegin(Exec(Start(n, blank), earlier).m, u)
    requires WritingAt(Exec(Start(n, blank), earlier + later).m, u, pos)
    ensures |Claims(Start(n, blank), earlier)| <= pos
  {
    var s, all := Start(n, blank), earlier + later;
    assert earlier + [] == earlier;
    if later != [] {
      assert all[..|all| - 1] == earlier + later[..|later| - 1];
      var v := Exec(s, all[..|all| - 1]);
      HoldsByClaim(v, all[|all| - 1], u, pos);
      if WritingAt(v.m, u, pos) {
        LaterCallClaimsLater(n, blank, earlier, later[..|later| - 1], u, pos);
      } else {
        History(n, blank, all[..|all| - 1]);
        ClaimsGrow(s, earlier, later[..|later| - 1]);
      }
    }
  }

  lemma PrefixClaims<T>(w: World<T>, before: seq<Action<T>>, acts: seq<Action<T>>)
    requires Wf(w.m) && before <= acts
    ensures |Claims(w, before)| <= |Claims(w, acts)|
  {
    assert acts == before + acts[|before|..];
    ClaimsGrow(w, before, acts[|before|..]);
  }

  lemma PublishReturns<T>(w: World<T>, before: seq<Action<T>>, t: Tid, weakFails: bool)
    requires Wf(w.m) && PcOf(Exec(w, before).m, t).EnqPublish?
    ensures PcOf(Exec(w, before + [Run(t, weakFails)]).m, t).Idle?
  {
    assert (before + [Run(t, weakFails)])[..|before|] == before;
  }

  /** An enqueue that returns before another begins gets the smaller position: thread t returns by
      the step after `before`, thread u is not inside a call at the end of `earlier`, which contains
      that step, and holds its position after some `later` steps. */
  lemma RealTimeOrder<T>(n: nat, blank: T, before: seq<Action<T>>, t: Tid, weakFails: bool,
      earlier: seq<Action<T>>, later: seq<Action<T>>, u: Tid, pos: nat)
    requires 2 <= n && PcOf(Exec(Start(n, blank), before).m, t).EnqPublish?
    requires before + [Run(t, weakFails)] <= earlier && CanBegin(Exec(Start(n, blank), earlier).m, u)
    requires WritingAt(Exec(Start(n, blank), earlier + later).m, u, pos)
    ensures PcOf(Exec(Start(n, blank), before + [Run(t, weakFails)]).m, t).Idle?
    ensures PcOf(Exec(Start(n, blank), before).m, t).pos < pos
  {
    WriterHoldsClaim(n, blank, before, t);
    PrefixClaims(Start(n, blank), before, before + [Run(t, weakFails)]);
    PrefixClaims(Start(n, blank), before + [Run(t, weakFails)], earlier);
    LaterCallClaimsLater(n, blank, earlier, later, u, pos);
    PublishReturns(Start(n, blank), before, t, weakFails);
  }

  // ----- verdicts -----

  /** `mpmc_dequeue` returns 0 exactly when, at its load, its position was still the head and that
      position was unclaimed or its producer had not published it yet; it retries only if another
      consumer was faster; and it goes on only to an item that is complete. */
  lemma EmptyVerdictExact<T>(n: nat, blank: T, acts: seq<Action<T>>, t: Tid, weakFails: bool)
    requires 2 <= n && PcOf(Exec(Start(n, blank), acts).m, t).DeqLoad?
    ensures var w := Exec(Start(n, blank), acts);
      var pos, pc := PcOf(w.m, t).pos, PcOf(Next(w, Run(t, weakFails)).m, t);
      && (pc == DeqDone(None) <==>
            pos == w.m.head && (pos == w.m.tail || exists u: Tid :: WritingAt(w.m, u, pos)))
      && (pc == DeqReload ==> pos < w.m.head)
      && (pc == DeqCas(pos) && pos == w.m.head ==>
            var claims := Claims(Start(n, blank), acts);
            pos < |claims| && w.m.data[Cell(pos, n)] == claims[pos].item)
  {
    History(n, blank, acts);
    var w := Exec(Start(n, blank), acts);
    var pos := PcOf(w.m, t).pos;
    assert ThreadOk(w, t);
    DequeueVerdict(w, pos);
    if pos == w.m.head < w.m.tail {
      assert CellOk(w, pos) && OwnerOk(w, pos);
      if w.h.stages[pos] == Writing {
        assert WritingAt(w.m, w.h.writers[pos], pos);
      } else {
        forall u: Tid ensures !WritingAt(w.m, u, pos) {
          assert ThreadOk(w, u);
        }
      }
    }
  }

  /** Thread t's load of the sequence number sends it to the yielding retry exactly when its
      position is still the tail and the position one lap earlier has not been returned; any other
      retry means it was overtaken. */
  ghost predicate FullVerdict<T>(w: World<T>, n: nat, results: seq<Claim<T>>, t: Tid, weakFails: bool)
    requires Wf(w.m) && PcOf(w.m, t).EnqLoad?
  {
    var x, pos, pc := PcOf(w.m, t).item, PcOf(w.m, t).pos, PcOf(Next(w, Run(t, weakFails)).m, t);
    && (pc == EnqReload(x, true) <==> pos == w.m.tail && n <= pos && !ReturnedAt(results, pos - n))
    && (pc == EnqReload(x, false) ==> pos < w.m.tail)
  }

  lemma FullAt<T>(w: World<T>, n: nat, results: seq<Claim<T>>, t: Tid, weakFails: bool)
    requires Inv(w) && |w.m.sequence| == n && ReturnsRecorded(w.h, results) && PcOf(w.m, t).EnqLoad?
    ensures FullVerdict(w, n, results, t, weakFails)
  {
    var pos := PcOf(w.m, t).pos;
    assert ThreadOk(w, t);
    EnqueueVerdict(w, pos);
    if n <= pos == w.m.tail {
      assert ReturnedAt(results, pos - n) <==> StageOf(w.h, pos - n) == Released;
    }
  }

  /** `mpmc_enqueue` yields exactly when the queue is full at its load. */
  lemma FullVerdictExact<T>(n: nat, blank: T, acts: seq<Action<T>>, t: Tid, weakFails: bool)
    requires 2 <= n && PcOf(Exec(Start(n, blank), acts).m, t).EnqLoad?
    ensures FullVerdict(Exec(Start(n, blank), acts), n, Returns(Start(n, blank), acts), t, weakFails)
  {
    History(n, blank, acts);
    FullAt(Exec(Start(n, blank), acts), n, Returns(Start(n, blank), acts), t, weakFails);
  }
}
