/** The shared-memory bridge daemon of sip_bridge_daemon.c: it copies events from the ring into the
    ledger, one transaction each, and advances `tail` after the commit.  The process may die before
    any step and be started again; the ring and the committed ledger survive. */
module BridgeDaemon {
  import opened Words

  datatype Event = Event(trace: nat, timestamp: nat, payload: string)

  datatype Pc =
    | Down
    | Poll(lt: nat)
    | Bind(lt: nat)                                                // an event is there
    | Bound(lt: nat, trace: nat, timestamp: nat)                   // payload still bound by pointer
    | Begun(lt: nat, trace: nat, timestamp: nat)
    | Stepped(lt: nat, pending: Option<Event>)                     // inserted, or refused by the key
    | Committed(lt: nat)

  /** `published` records what the producer made visible through `head`. */
  datatype State = State(
    events: seq<Event>, head: nat, tail: nat, ledger: seq<Event>, pc: Pc, published: seq<Event>)

  datatype Action = Write(e: Event) | Publish | Daemon | Crash | Restart

  function Boot(ring: seq<Event>): State {
    State(ring, 0, 0, [], Down, [])
  }

  predicate HasTrace(ledger: seq<Event>, trace: nat) {
    exists k :: 0 <= k < |ledger| && ledger[k].trace == trace
  }

  /** INSERT under the primary key: a row whose trace id is present is refused. */
  function Insert(ledger: seq<Event>, e: Event): seq<Event> {
    if HasTrace(ledger, e.trace) then ledger else ledger + [e]
  }

  function Slot(s: State, p: nat): Event
    requires 0 < |s.events|
  {
    s.events[Cell(p, |s.events|)]
  }

  function Step(s: State, a: Action): State
    requires 0 < |s.events|
  {
    match a
    case Write(e) =>
      // the producer fills the next slot only while it is free
      if s.head < s.tail + |s.events| then s.(events := s.events[Cell(s.head, |s.events|) := e]) else s
    case Publish =>
      if s.head < s.tail + |s.events| then s.(head := s.head + 1, published := s.published + [Slot(s, s.head)]) else s
    case Crash => s.(pc := Down)
    case Restart => if s.pc.Down? then s.(pc := Poll(s.tail)) else s
    case Daemon => StepDaemon(s)
  }

  function StepDaemon(s: State): State
    requires 0 < |s.events|
  {
    match s.pc
    case Down => s
    case Poll(lt) => if lt == s.head then s else s.(pc := Bind(lt))
    case Bind(lt) => s.(pc := Bound(lt, Slot(s, lt).trace, Slot(s, lt).timestamp))
    case Bound(lt, trace, timestamp) => s.(pc := Begun(lt, trace, timestamp))
    case Begun(lt, trace, timestamp) =>
      var row := Event(trace, timestamp, Slot(s, lt).payload);
      s.(pc := Stepped(lt, if HasTrace(s.ledger, trace) then None else Some(row)))
    case Stepped(lt, pending) =>
      s.(ledger := if pending.Some? then s.ledger + [pending.value] else s.ledger, pc := Committed(lt))
    case Committed(lt) => s.(tail := lt + 1, pc := Poll(lt + 1))
  }

  function Exec(s: State, acts: seq<Action>): (r: State)
    requires 0 < |s.events|
    ensures |r.events| == |s.events|
  {
    if acts == [] then s else Step(Exec(s, acts[..|acts| - 1]), acts[|acts| - 1])
  }

  // ----- the ledger as a function of the published events -----

  /** Each event inserted once, in order; of several with one trace id the first. */
  function FirstWins(events: seq<Event>): seq<Event> {
    if events == [] then [] else Insert(FirstWins(events[..|events| - 1]), events[|events| - 1])
  }

  predicate DistinctTraces(events: seq<Event>) {
    forall i, j | 0 <= i < j < |events| :: events[i].trace != events[j].trace
  }

  lemma {:induction false} FirstWinsTraces(events: seq<Event>, trace: nat)
    ensures HasTrace(FirstWins(events), trace) <==> HasTrace(events, trace)
  {
    if events != [] {
      var pre, e := events[..|events| - 1], events[|events| - 1];
      FirstWinsTraces(pre, trace);
      if HasTrace(pre, trace) {
        var k :| 0 <= k < |pre| && pre[k].trace == trace;
        assert events[k].trace == trace;
      }
      if HasTrace(FirstWins(pre), trace) {
        var k :| 0 <= k < |FirstWins(pre)| && FirstWins(pre)[k].trace == trace;
        assert FirstWins(events)[k].trace == trace;
      }
      if e.trace == trace {
        assert events[|events| - 1].trace == trace;
        if !HasTrace(FirstWins(pre), trace) {
          assert FirstWins(events)[|FirstWins(pre)|].trace == trace;
        }
      }
    }
  }

  /** Everything is kept, once each, exactly when the trace ids are distinct. */
  lemma {:induction false} FirstWinsAll(events: seq<Event>)
    ensures FirstWins(events) == events <==> DistinctTraces(events)
    ensures |FirstWins(events)| <= |events|
  {
    if events != [] {
      var pre, e := events[..|events| - 1], events[|events| - 1];
      FirstWinsAll(pre);
      FirstWinsTraces(pre, e.trace);
      if DistinctTraces(events) {
        assert DistinctTraces(pre);
      } else if DistinctTraces(pre) {
        var i, j :| 0 <= i < j < |events| && events[i].trace == events[j].trace;
        assert j == |events| - 1;
        assert pre[i].trace == e.trace;
      }
    }
  }

  lemma InsertTwice(ledger: seq<Event>, e: Event)
    ensures Insert(Insert(ledger, e), e) == Insert(ledger, e)
  {
    if !HasTrace(ledger, e.trace) {
      assert (ledger + [e])[|ledger|].trace == e.trace;
    }
  }

  lemma FirstWinsNext(published: seq<Event>, k: nat)
    requires k < |published|
    ensures FirstWins(published[..k + 1]) == Insert(FirstWins(published[..k]), published[k])
  {
    assert published[..k + 1][..k] == published[..k];
  }

  // ----- the invariant -----

  ghost predicate Recorded(s: State, k: nat) {
    k <= |s.published| && s.ledger == FirstWins(s.published[..k])
  }

  ghost predicate PcOk(s: State)
    requires |s.published| == s.head
  {
    match s.pc
    case Down => true
    case Poll(lt) => lt == s.tail
    case Bind(lt) => lt == s.tail < s.head
    case Bound(lt, trace, timestamp) =>
      lt == s.tail < s.head && trace == s.published[lt].trace && timestamp == s.published[lt].timestamp
    case Begun(lt, trace, timestamp) =>
      lt == s.tail < s.head && trace == s.published[lt].trace && timestamp == s.published[lt].timestamp
    case Stepped(lt, pending) =>
      && lt == s.tail < s.head
      && pending == if HasTrace(s.ledger, s.published[lt].trace) then None else Some(s.published[lt])
    case Committed(lt) => lt == s.tail < s.head && Recorded(s, s.tail + 1)
  }

  ghost predicate Inv(s: State) {
    && 0 < |s.events| && |s.published| == s.head && s.tail <= s.head <= s.tail + |s.events|
    && (forall p: nat | s.tail <= p < s.head :: Slot(s, p) == s.published[p])
    && (Recorded(s, s.tail) || Recorded(s, s.tail + 1))
    && PcOk(s)
  }

  /** The producer fills a slot that holds no unread event. */
  lemma ProducerSlots(s: State, a: Action)
    requires Inv(s) && (a.Write? || a.Publish?) && s.head < s.tail + |s.events|
    ensures forall p: nat | s.tail <= p < s.head :: Slot(Step(s, a), p) == Slot(s, p)
  {
    forall p: nat | s.tail <= p < s.head ensures Slot(Step(s, a), p) == Slot(s, p) {
      if a.Write? && Cell(p, |s.events|) == Cell(s.head, |s.events|) {
        SameCell(p, s.head, |s.events|);
      }
    }
  }

  /** More published events leave the ledger's account of the first k alone. */
  lemma StillRecorded(s: State, s': State, k: nat)
    requires Recorded(s, k) && s.published <= s'.published && s'.ledger == s.ledger
    ensures Recorded(s', k)
  {
    assert s'.published[..k] == s.published[..k];
  }

  lemma ProducerInv(s: State, a: Action)
    requires Inv(s) && (a.Write? || a.Publish?)
    ensures Inv(Step(s, a))
  {
    if s.head < s.tail + |s.events| {
      ProducerSlots(s, a);
      if Recorded(s, s.tail) {
        StillRecorded(s, Step(s, a), s.tail);
      }
      if Recorded(s, s.tail + 1) {
        StillRecorded(s, Step(s, a), s.tail + 1);
      }
    }
  }

  /** Committing the row of the oldest unread event, whether it is new or was already there. */
  lemma CommitInv(s: State)
    requires Inv(s) && s.pc.Stepped?
    ensures Inv(StepDaemon(s))
  {
    FirstWinsNext(s.published, s.tail);
    InsertTwice(FirstWins(s.published[..s.tail]), s.published[s.tail]);
    assert Recorded(StepDaemon(s), s.tail + 1);
  }

  lemma ReadInv(s: State)
    requires Inv(s) && (s.pc.Poll? || s.pc.Bind? || s.pc.Bound? || s.pc.Begun?)
    ensures Inv(StepDaemon(s))
  {
    var s' := StepDaemon(s);
    assert s' == s.(pc := s'.pc);
    if s.tail < s.head {
      assert Slot(s, s.tail) == s.published[s.tail];
    }
    assert Recorded(s', s.tail) || Recorded(s', s.tail + 1);
  }

  lemma AdvanceInv(s: State)
    requires Inv(s) && s.pc.Committed?
    ensures Inv(StepDaemon(s))
  {
    var s' := StepDaemon(s);
    assert Recorded(s', s'.tail);
  }

  lemma StepInv(s: State, a: Action)
    requires Inv(s)
    ensures Inv(Step(s, a))
  {
    if a.Write? || a.Publish? {
      ProducerInv(s, a);
    } else if a.Daemon? && s.pc.Stepped? {
      CommitInv(s);
    } else if a.Daemon? && s.pc.Committed? {
      AdvanceInv(s);
    } else if a.Daemon? && !s.pc.Down? {
      ReadInv(s);
    } else {
      assert Step(s, a) == s.(pc := Step(s, a).pc);
    }
  }

  lemma {:induction false} ExecInv(ring: seq<Event>, acts: seq<Action>)
    requires 0 < |ring|
    ensures Inv(Exec(Boot(ring), acts))
  {
    if acts != [] {
      ExecInv(ring, acts[..|acts| - 1]);
      StepInv(Exec(Boot(ring), acts[..|acts| - 1]), acts[|acts| - 1]);
    }
  }

  /** Through any crashes and restarts the ledger holds the first k published events, duplicates of
      a trace id dropped, where k is `tail` or `tail + 1`. */
  lemma LedgerThroughCrashes(ring: seq<Event>, acts: seq<Action>)
    requires 0 < |ring|
    ensures var s := Exec(Boot(ring), acts);
      Recorded(s, s.tail) || Recorded(s, s.tail + 1)
  {
    ExecInv(ring, acts);
  }

  /** With distinct trace ids: exactly the first k published events, once each, in order. */
  lemma ExactlyOnce(ring: seq<Event>, acts: seq<Action>)
    requires 0 < |ring| && DistinctTraces(Exec(Boot(ring), acts).published)
    ensures var s := Exec(Boot(ring), acts);
      && (|s.ledger| == s.tail || |s.ledger| == s.tail + 1)
      && |s.ledger| <= |s.published| && s.ledger == s.published[..|s.ledger|]
  {
    LedgerThroughCrashes(ring, acts);
    var s := Exec(Boot(ring), acts);
    var k := if Recorded(s, s.tail) then s.tail else s.tail + 1;
    FirstWinsAll(s.published[..k]);
  }

  /** Once the daemon has caught up, the ledger is complete exactly when the trace ids are distinct. */
  lemma CaughtUpExactly(ring: seq<Event>, acts: seq<Action>)
    requires 0 < |ring|
    ensures var s := Exec(Boot(ring), acts);
      s.tail == s.head ==> (s.ledger == s.published <==> DistinctTraces(s.published))
  {
    ExecInv(ring, acts);
    var s := Exec(Boot(ring), acts);
    FirstWinsAll(s.published);
    if s.tail == s.head {
      assert s.published[..s.tail] == s.published;
    }
  }

  // ----- a run that loses an event to the primary key -----

  lemma ExecSnoc(s: State, acts: seq<Action>, a: Action)
    requires 0 < |s.events|
    ensures Exec(s, acts + [a]) == Step(Exec(s, acts), a)
  {
    assert (acts + [a])[..|acts|] == acts;
  }

  function DaemonTurn(s: State): State
    requires 0 < |s.events|
  {
    StepDaemon(StepDaemon(StepDaemon(StepDaemon(StepDaemon(StepDaemon(s))))))
  }

  lemma TurnRun(b: State, pre: seq<Action>) returns (acts: seq<Action>)
    requires 0 < |b.events|
    ensures Exec(b, acts) == DaemonTurn(Exec(b, pre))
  {
    ExecSnoc(b, pre, Daemon);
    ExecSnoc(b, pre + [Daemon], Daemon);
    ExecSnoc(b, pre + [Daemon] + [Daemon], Daemon);
    acts := pre + [Daemon] + [Daemon] + [Daemon];
    ExecSnoc(b, acts, Daemon);
    ExecSnoc(b, acts + [Daemon], Daemon);
    ExecSnoc(b, acts + [Daemon] + [Daemon], Daemon);
    acts := acts + [Daemon] + [Daemon] + [Daemon];
  }

  /** The daemon copies the one event that is there. */
  lemma TurnEffect(s: State, e: Event)
    requires 0 < |s.events| && s.pc == Poll(s.tail) && s.head == s.tail + 1 && Slot(s, s.tail) == e
    ensures DaemonTurn(s) == s.(tail := s.tail + 1, pc := Poll(s.tail + 1), ledger := Insert(s.ledger, e))
  {
    var s2 := StepDaemon(StepDaemon(s));
    assert s2 == s.(pc := Bound(s.tail, e.trace, e.timestamp));
    var s4 := StepDaemon(StepDaemon(s2));
    assert s4 == s.(pc := Stepped(s.tail, if HasTrace(s.ledger, e.trace) then None else Some(e)));
  }

  /** From its poll on an empty ring: the producer fills the next slot and the daemon copies it. */
  lemma OneEvent(b: State, pre: seq<Action>, e: Event) returns (acts: seq<Action>)
    requires 0 < |b.events|
    requires var s := Exec(b, pre); s.pc == Poll(s.tail) && s.head == s.tail
    ensures var s, r := Exec(b, pre), Exec(b, acts);
      && r.pc == Poll(r.tail) && r.head == r.tail
      && r.published == s.published + [e] && r.ledger == Insert(s.ledger, e)
  {
    var s := Exec(b, pre);
    ExecSnoc(b, pre, Write(e));
    ExecSnoc(b, pre + [Write(e)], Publish);
    var s' := Exec(b, pre + [Write(e)] + [Publish]);
    assert s'.head == s.head + 1 && Slot(s', s.tail) == e;
    TurnEffect(s', e);
    acts := TurnRun(b, pre + [Write(e)] + [Publish]);
  }

  /** The other case happens on every ring: two events with one trace id, published one after the
      other, are both taken from the ring, and the ledger has the first. */
  lemma RepeatedTrace(ring: seq<Event>, first: Event, second: Event) returns (acts: seq<Action>)
    requires 0 < |ring| && first.trace == second.trace
    ensures var s := Exec(Boot(ring), acts);
      s.tail == s.head && s.published == [first, second] && s.ledger == [first]
  {
    var b := Boot(ring);
    ExecSnoc(b, [], Restart);
    acts := OneEvent(b, [] + [Restart], first);
    acts := OneEvent(b, acts, second);
    assert [first][0].trace == second.trace;
    assert HasTrace([first], second.trace) && Insert([], first) == [first];
    assert [] + [first] + [second] == [first, second];
  }

  /** Five steps of the turn: the row is committed and `tail` has not moved. */
  lemma CommitsFirst(b: State, pre: seq<Action>, s: State, e: Event) returns (acts: seq<Action>)
    requires 0 < |b.events| && s == Exec(b, pre) && s.pc == Poll(0) && s.head == 1 && s.ledger == [] && Slot(s, 0) == e
    ensures Exec(b, acts) == s.(ledger := [e], pc := Committed(0))
  {
    ExecSnoc(b, pre, Daemon);
    ExecSnoc(b, pre + [Daemon], Daemon);
    acts := pre + [Daemon] + [Daemon];
    assert Exec(b, acts) == s.(pc := Bound(0, e.trace, e.timestamp));
    ExecSnoc(b, acts, Daemon);
    ExecSnoc(b, acts + [Daemon], Daemon);
    acts := acts + [Daemon] + [Daemon];
    assert Exec(b, acts) == s.(pc := Stepped(0, Some(e)));
    ExecSnoc(b, acts, Daemon);
    acts := acts + [Daemon];
    assert [] + [e] == [e];
  }

  /** The process can die between commit and advance: on every ring, a run after which the daemon is
      down, the event is in the ledger and in the ring. */
  lemma DiesBeforeAdvance(ring: seq<Event>, e: Event) returns (acts: seq<Action>)
    requires 0 < |ring|
    ensures var s := Exec(Boot(ring), acts);
      s.pc.Down? && s.tail == 0 && s.head == 1 && s.published == [e] && s.ledger == [e]
  {
    var b := Boot(ring);
    ExecSnoc(b, [], Restart);
    ExecSnoc(b, [] + [Restart], Write(e));
    acts := [] + [Restart] + [Write(e)];
    ExecSnoc(b, acts, Publish);
    acts := acts + [Publish];
    var s := Exec(b, acts);
    assert s.published == [e];
    acts := CommitsFirst(b, acts, s, e);
    ExecSnoc(b, acts, Crash);
    acts := acts + [Crash];
  }

  // ----- the daemon catches up -----

  /** Steps to an empty ring, for a daemon that is up: six for each event that waits. */
  function Left(s: State): int {
    var backlog := 6 * (s.head - s.tail);
    match s.pc
    case Down => backlog
    case Poll(_) => backlog
    case Bind(_) => backlog - 1
    case Bound(_, _, _) => backlog - 2
    case Begun(_, _, _) => backlog - 3
    case Stepped(_, _) => backlog - 4
    case Committed(_) => backlog - 5
  }

  /** d is what a running daemon has made of s with k of its steps. */
  ghost predicate Advanced(s: State, d: State, k: nat) {
    Inv(d) && !d.pc.Down? && Left(d) == Left(s) - k && d.head == s.head && d.published == s.published
  }

  lemma OneStepMore(s: State, d: State, k: nat)
    requires Advanced(s, d, k) && k < Left(s)
    ensures Advanced(s, StepDaemon(d), k + 1)
  {
    StepInv(d, Daemon);
  }

  /** The schedule after which only the daemon runs, for k steps. */
  function Daemons(pre: seq<Action>, k: nat): seq<Action> {
    if k == 0 then pre else Daemons(pre, k - 1) + [Daemon]
  }

  lemma {:induction false} Copies(b: State, pre: seq<Action>, s: State, k: nat)
    requires 0 < |b.events| && s == Exec(b, pre) && Inv(s) && !s.pc.Down? && k <= Left(s)
    ensures Advanced(s, Exec(b, Daemons(pre, k)), k)
  {
    if k != 0 {
      Copies(b, pre, s, k - 1);
      ExecSnoc(b, Daemons(pre, k - 1), Daemon);
      OneStepMore(s, Exec(b, Daemons(pre, k - 1)), k - 1);
    }
  }

  lemma NothingLeft(s: State)
    requires Inv(s) && !s.pc.Down? && Left(s) == 0
    ensures s.tail == s.head && s.ledger == FirstWins(s.published)
  {
    assert s.published[..s.head] == s.published;
  }

  /** What a daemon that has caught up with s leaves. */
  predicate CaughtUp(s: State, d: State) {
    && d.tail == d.head == s.head && d.published == s.published && d.ledger == FirstWins(s.published)
    && (DistinctTraces(s.published) ==> d.ledger == s.published)
  }

  lemma CatchesUpFrom(b: State, pre: seq<Action>, s: State) returns (k: nat)
    requires 0 < |b.events| && s == Exec(b, pre) && Inv(s) && !s.pc.Down?
    ensures k <= 6 * (s.head - s.tail) <= 6 * |s.events| && CaughtUp(s, Exec(b, Daemons(pre, k)))
  {
    k := Left(s);
    Copies(b, pre, s, k);
    NothingLeft(Exec(b, Daemons(pre, k)));
    FirstWinsAll(s.published);
  }

  /** From every reachable state, also one in which the process died between any two statements, the
      daemon (started again if it is down) empties the ring in at most six steps for each event that
      waits, whatever the backlog; the ledger then holds every published event, the first of each
      trace id, in order. */
  lemma CatchesUp(ring: seq<Event>, acts: seq<Action>) returns (up: seq<Action>, k: nat)
    requires 0 < |ring|
    ensures var s := Exec(Boot(ring), acts);
      && up == (if s.pc.Down? then acts + [Restart] else acts)
      && k <= 6 * (s.head - s.tail) <= 6 * |ring| && CaughtUp(s, Exec(Boot(ring), Daemons(up, k)))
  {
    ExecInv(ring, acts);
    var s := Exec(Boot(ring), acts);
    if s.pc.Down? {
      up := acts + [Restart];
      ExecSnoc(Boot(ring), acts, Restart);
      StepInv(s, Restart);
      k := CatchesUpFrom(Boot(ring), up, Step(s, Restart));
    } else {
      up := acts;
      k := CatchesUpFrom(Boot(ring), up, s);
    }
  }

  // ----- the daemon process over the mapped ring -----

  class Bridge {
    const events: array<Event>
    var head: nat
    var tail: nat
    var ledger: seq<Event>
    var pc: Pc
    ghost var published: seq<Event>

    ghost function View(): State
      reads this, events
    {
      State(events[..], head, tail, ledger, pc, published)
    }

    constructor (ring: array<Event>)
      ensures events == ring && View() == Boot(ring[..])
    {
      events := ring;
      head, tail, ledger, pc, published := 0, 0, [], Down, [];
    }

    method HasRow(trace: nat) returns (found: bool)
      ensures found <==> HasTrace(ledger, trace)
    {
      found := false;
      for k := 0 to |ledger|
        invariant found <==> exists j :: 0 <= j < k && ledger[j].trace == trace
      {
        found := found || ledger[k].trace == trace;
      }
    }

    /** The next statement of the polling loop. */
    method DaemonStep()
      requires 0 < events.Length
      modifies this`tail, this`ledger, this`pc
      ensures View() == StepDaemon(old(View()))
    {
      match pc
      case Down =>
      case Poll(lt) =>
        if lt != head { pc := Bind(lt); }
      case Bind(lt) =>
        var ev := events[lt % events.Length];
        pc := Bound(lt, ev.trace, ev.timestamp);
      case Bound(lt, trace, timestamp) =>
        pc := Begun(lt, trace, timestamp);
      case Begun(lt, trace, timestamp) =>
        var refused := HasRow(trace);
        pc := Stepped(lt, if refused then None else Some(Event(trace, timestamp, events[lt % events.Length].payload)));
      case Stepped(lt, pending) =>
        if pending.Some? { ledger := ledger + [pending.value]; }
        pc := Committed(lt);
      case Committed(lt) =>
        tail := lt + 1;
        pc := Poll(lt + 1);
    }

    /** Producer, daemon, crashes and restarts in any order. */
    method Execute(acts: seq<Action>)
      requires 0 < events.Length
      modifies this, events
      ensures View() == Exec(old(View()), acts)
    {
      for i := 0 to |acts|
        invariant View() == Exec(old(View()), acts[..i])
      {
        assert acts[..i + 1][..i] == acts[..i];
        match acts[i]
        case Write(e) =>
          if head < tail + events.Length { events[head % events.Length] := e; }
        case Publish =>
          if head < tail + events.Length {
            published := published + [events[head % events.Length]];
            head := head + 1;
          }
        case Daemon => DaemonStep();
        case Crash => pc := Down;
        case Restart => if pc.Down? { pc := Poll(tail); }
      }
      assert acts[..|acts|] == acts;
    }
  }
}
