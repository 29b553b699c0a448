/** The ingress metering engine (ingress_metering.py): submissions that interleave at every await, a
    durable nonce vault, a bounded queue, a batch writer, stop, restart and process crash. */
module Ingress {
  import opened Words

  /** What a call of `submit_envelope_payload` carries.  `stale` is the verdict of the freshness
      check, `fault` the reason given by the signature check (None when it passes). */
  datatype Request = Request(pubkey: string, nonce: string, payload: string, stale: bool, fault: Option<string>)

  datatype Row = Row(call: nat, request: Request)

  type Key = (string, string)

  datatype Reason = TimestampStale | BadSignature(why: string) | NonceReplay | DatabaseFault | Backpressure

  datatype Status = Accepted | Rejected(reason: Reason)

  /** A call between its awaits; `Lost` calls were in flight when the process died. */
  datatype Call =
    | Inserting(request: Request)
    | Inserted(request: Request)
    | Answered(request: Request, status: Status)
    | Lost(request: Request)

  /** `_batch_writer_loop`; at `Flush` the executemany runs in the thread pool, at `Settle` its await
      has still to return; `last` after the loop. */
  datatype Writer = Off | Test | Get | Decide | Flush(last: bool) | Settle(last: bool) | Final | Exited

  datatype Config = Config(maxDepth: int, batchSize: int)

  /** A batch that left memory: written to the table, or lost to a failed flush or a crash. */
  datatype Departure = Departure(rows: seq<Row>, durable: bool)

  datatype State = State(
    vault: map<Key, nat>, rows: seq<Row>,                                    // on disk
    connected: bool, stop: bool, queue: seq<Row>, batch: seq<Row>, writer: Writer,
    unfinished: int, calls: map<nat, Call>,
    accepted: seq<Row>, departures: seq<Departure>)                          // history

  datatype Action =
    | Submit(id: nat, request: Request)
    | Insert(id: nat)
    | Resume(id: nat)
    | StartEngine | SetStop | Close | Crash
    | Write(flushOk: bool, timesOut: bool)

  function Boot(): State {
    State(map[], [], false, false, [], [], Off, 0, map[], [], [])
  }

  function KeyOf(r: Request): Key {
    (r.pubkey, r.nonce)
  }

  /** `asyncio.Queue.full`: a maxsize that is not positive means no bound. */
  predicate Full(c: Config, s: State) {
    0 < c.maxDepth <= |s.queue|
  }

  function Answer(s: State, id: nat, status: Status): State
    requires id in s.calls
  {
    s.(calls := s.calls[id := Answered(s.calls[id].request, status)])
  }

  function Step(c: Config, s: State, a: Action): State {
    match a
    case Submit(id, r) =>
      if id in s.calls then s
      else s.(calls := s.calls[id :=
        if r.stale then Answered(r, Rejected(TimestampStale))
        else if r.fault.Some? then Answered(r, Rejected(BadSignature(r.fault.value)))
        else Inserting(r)])
    case Insert(id) =>
      if id in s.calls && s.calls[id].Inserting? then InsertRecord(s, id) else s
    case Resume(id) =>
      if id in s.calls && s.calls[id].Inserted? then Enqueue(c, s, id) else s
    case StartEngine =>
      if s.writer.Off? then s.(connected := true, stop := false, writer := Test, batch := []) else s
    case SetStop => s.(stop := true)
    case Close =>
      if s.stop && (s.writer.Exited? || s.writer.Off?) then s.(connected := false, writer := Off) else s
    case Crash => Died(s)
    case Write(flushOk, timesOut) => StepWriter(c, s, flushOk, timesOut)
  }

  /** Memory is gone, the vault and the table stay. */
  function Died(s: State): State {
    State(s.vault, s.rows, false, false, [], [], Off, 0, AbandonAll(s.calls),
          s.accepted, Depart(s.departures, Unflushed(s) + s.queue, false))
  }

  function Abandon(k: Call): Call {
    if k.Inserting? || k.Inserted? then Lost(k.request) else k
  }

  function AbandonAll(calls: map<nat, Call>): map<nat, Call> {
    map id | id in calls :: Abandon(calls[id])
  }

  function Depart(ds: seq<Departure>, rows: seq<Row>, durable: bool): seq<Departure> {
    if rows == [] then ds else ds + [Departure(rows, durable)]
  }

  /** `_insert_idempotency_record_sync` and its except clauses. */
  function InsertRecord(s: State, id: nat): State
    requires id in s.calls && s.calls[id].Inserting?
  {
    var r := s.calls[id].request;
    if !s.connected then Answer(s, id, Rejected(DatabaseFault))
    else if KeyOf(r) in s.vault then Answer(s, id, Rejected(NonceReplay))
    else s.(vault := s.vault[KeyOf(r) := id], calls := s.calls[id := Inserted(r)])
  }

  /** `put_nowait` */
  function Enqueue(c: Config, s: State, id: nat): State
    requires id in s.calls
  {
    var row := Row(id, s.calls[id].request);
    if Full(c, s) then Answer(s, id, Rejected(Backpressure))
    else
      Answer(s, id, Accepted)
        .(queue := s.queue + [row], unfinished := s.unfinished + 1, accepted := s.accepted + [row])
  }

  /** The part of the batch that no flush has dealt with yet. */
  function Unflushed(s: State): seq<Row> {
    if s.writer.Settle? then [] else s.batch
  }

  /** The writer up to its next await or test.  `timesOut`: the wait for an item ends in a timeout
      (it may, even when an item is queued); `flushOk`: the executemany does not raise. */
  function StepWriter(c: Config, s: State, flushOk: bool, timesOut: bool): State {
    match s.writer
    case Off => s
    case Test => s.(writer := if !s.stop || s.queue != [] then Get else Final)
    case Get =>
      if timesOut then s.(writer := Decide)
      else if s.queue == [] then s
      else s.(queue := s.queue[1..], batch := s.batch + [s.queue[0]], writer := Decide)
    case Decide =>
      s.(writer := if |s.batch| >= c.batchSize || (s.batch != [] && s.stop) then Flush(false) else Test)
    case Flush(_) => Commit(s, flushOk)
    case Settle(_) => Settled(s)
    case Final => s.(writer := if s.batch != [] then Flush(true) else Exited)
    case Exited => s
  }

  /** The executemany commits or raises, in the thread pool. */
  function Commit(s: State, flushOk: bool): State
    requires s.writer.Flush?
  {
    s.(rows := if flushOk then s.rows + s.batch else s.rows,
       departures := Depart(s.departures, s.batch, flushOk), writer := Settle(s.writer.last))
  }

  /** After the await: one task_done per item, then batch.clear(). */
  function Settled(s: State): State
    requires s.writer.Settle?
  {
    s.(unfinished := s.unfinished - |s.batch|, batch := [], writer := if s.writer.last then Exited else Test)
  }

  function Exec(c: Config, s: State, acts: seq<Action>): State {
    if acts == [] then s else Step(c, Exec(c, s, acts[..|acts| - 1]), acts[|acts| - 1])
  }

  // ----- where the accepted rows are -----

  function AllRows(ds: seq<Departure>): seq<Row> {
    if ds == [] then [] else AllRows(ds[..|ds| - 1]) + ds[|ds| - 1].rows
  }

  function DurableRows(ds: seq<Departure>): seq<Row> {
    if ds == [] then []
    else DurableRows(ds[..|ds| - 1]) + if ds[|ds| - 1].durable then ds[|ds| - 1].rows else []
  }

  lemma DepartRows(ds: seq<Departure>, rows: seq<Row>, durable: bool)
    ensures AllRows(Depart(ds, rows, durable)) == AllRows(ds) + rows
    ensures DurableRows(Depart(ds, rows, durable)) == DurableRows(ds) + if durable then rows else []
  {
    if rows != [] {
      assert Depart(ds, rows, durable)[..|ds|] == ds;
    }
  }

  ghost predicate NothingLost(ds: seq<Departure>) {
    forall k | 0 <= k < |ds| :: ds[k].durable
  }

  lemma {:induction false} LossExact(ds: seq<Departure>)
    requires forall k | 0 <= k < |ds| :: ds[k].rows != []
    ensures |DurableRows(ds)| <= |AllRows(ds)|
    ensures DurableRows(ds) == AllRows(ds) <==> NothingLost(ds)
    ensures |DurableRows(ds)| == |AllRows(ds)| <==> NothingLost(ds)
  {
    if ds != [] {
      LossExact(ds[..|ds| - 1]);
    }
  }

  /** The batch size the writer really uses: it looks only after adding an item. */
  function Quota(c: Config): nat {
    if c.batchSize < 1 then 1 else c.batchSize
  }

  /** The writer has left its loop. */
  predicate Leaving(s: State) {
    s.writer.Final? || s.writer.Exited? || ((s.writer.Flush? || s.writer.Settle?) && s.writer.last)
  }

  /** Accepted rows, in order: what left memory, then the batch, then the queue. */
  ghost predicate Placed(accepted: seq<Row>, rows: seq<Row>, ds: seq<Departure>, batch: seq<Row>, queue: seq<Row>) {
    && accepted == AllRows(ds) + batch + queue
    && rows == DurableRows(ds)
    && (forall k | 0 <= k < |ds| :: ds[k].rows != [])
  }

  ghost predicate CountsOk(c: Config, s: State) {
    && s.unfinished == |s.batch| + |s.queue|
    && (0 < c.maxDepth ==> |s.queue| <= c.maxDepth)
    && |s.batch| <= Quota(c)
    && (s.writer.Test? || s.writer.Get? || s.writer.Final? ==> |s.batch| < Quota(c))
    && (s.writer.Off? || s.writer.Exited? ==> s.batch == [])
    && (s.writer.Flush? && !s.stop ==> |s.batch| >= c.batchSize)
    && (Leaving(s) ==> s.stop)
    && (!s.writer.Off? ==> s.connected)
  }

  ghost predicate StatePlaced(s: State) {
    Placed(s.accepted, s.rows, s.departures, Unflushed(s), s.queue)
  }

  ghost predicate RowsOk(c: Config, s: State) {
    StatePlaced(s) && CountsOk(c, s)
  }

  lemma BatchLeaves(done: seq<Row>, batch: seq<Row>, queue: seq<Row>)
    ensures (done + batch) + [] + queue == done + batch + queue
  {
    assert (done + batch) + [] == done + batch;
  }

  lemma HeadMoves(done: seq<Row>, batch: seq<Row>, queue: seq<Row>)
    requires queue != []
    ensures done + (batch + [queue[0]]) + queue[1..] == done + batch + queue
  {
    assert queue == [queue[0]] + queue[1..];
  }

  lemma AllLeave(done: seq<Row>, batch: seq<Row>, queue: seq<Row>)
    ensures (done + (batch + queue)) + [] + [] == done + batch + queue
  {
    assert done + (batch + queue) == done + batch + queue;
  }

  lemma RowJoins(done: seq<Row>, batch: seq<Row>, queue: seq<Row>, row: Row)
    ensures done + batch + (queue + [row]) == done + batch + queue + [row]
  {
  }

  lemma FlushPlaced(accepted: seq<Row>, rows: seq<Row>, ds: seq<Departure>, batch: seq<Row>, queue: seq<Row>,
      durable: bool)
    requires Placed(accepted, rows, ds, batch, queue)
    ensures Placed(accepted, if durable then rows + batch else rows, Depart(ds, batch, durable), [], queue)
  {
    DepartRows(ds, batch, durable);
    BatchLeaves(AllRows(ds), batch, queue);
    assert DurableRows(ds) + [] == DurableRows(ds);
  }

  lemma CrashPlaced(accepted: seq<Row>, rows: seq<Row>, ds: seq<Departure>, batch: seq<Row>, queue: seq<Row>)
    requires Placed(accepted, rows, ds, batch, queue)
    ensures Placed(accepted, rows, Depart(ds, batch + queue, false), [], [])
  {
    DepartRows(ds, batch + queue, false);
    AllLeave(AllRows(ds), batch, queue);
    assert DurableRows(ds) + [] == DurableRows(ds);
  }

  lemma GetPlaced(accepted: seq<Row>, rows: seq<Row>, ds: seq<Departure>, batch: seq<Row>, queue: seq<Row>)
    requires Placed(accepted, rows, ds, batch, queue) && queue != []
    ensures Placed(accepted, rows, ds, batch + [queue[0]], queue[1..])
  {
    HeadMoves(AllRows(ds), batch, queue);
  }

  lemma PutPlaced(accepted: seq<Row>, rows: seq<Row>, ds: seq<Departure>, batch: seq<Row>, queue: seq<Row>, row: Row)
    requires Placed(accepted, rows, ds, batch, queue)
    ensures Placed(accepted + [row], rows, ds, batch, queue + [row])
  {
    RowJoins(AllRows(ds), batch, queue, row);
  }

  lemma FlushStepPlaced(c: Config, s: State, flushOk: bool, timesOut: bool)
    requires StatePlaced(s) && s.writer.Flush?
    ensures StatePlaced(StepWriter(c, s, flushOk, timesOut))
  {
    FlushPlaced(s.accepted, s.rows, s.departures, s.batch, s.queue, flushOk);
  }

  lemma GetStepPlaced(c: Config, s: State, flushOk: bool)
    requires StatePlaced(s) && s.writer.Get? && s.queue != []
    ensures StatePlaced(StepWriter(c, s, flushOk, false))
  {
    GetPlaced(s.accepted, s.rows, s.departures, s.batch, s.queue);
  }

  /** Every other step of the loop moves no row. */
  lemma WriterTurns(c: Config, s: State, flushOk: bool, timesOut: bool)
    requires !s.writer.Flush? && !s.writer.Settle? && !(s.writer.Get? && s.queue != [] && !timesOut)
    ensures var s' := StepWriter(c, s, flushOk, timesOut);
      s' == s.(writer := s'.writer) && !s'.writer.Settle? && (s'.writer.Off? <==> s.writer.Off?)
  {
  }

  lemma LoopPlaced(c: Config, s: State, flushOk: bool, timesOut: bool)
    requires StatePlaced(s) && !s.writer.Flush? && !s.writer.Settle?
    ensures StatePlaced(StepWriter(c, s, flushOk, timesOut))
  {
    if s.writer.Get? && s.queue != [] && !timesOut {
      GetStepPlaced(c, s, flushOk);
    } else {
      WriterTurns(c, s, flushOk, timesOut);
    }
  }

  lemma WriterPlaced(c: Config, s: State, flushOk: bool, timesOut: bool)
    requires StatePlaced(s)
    ensures StatePlaced(StepWriter(c, s, flushOk, timesOut))
  {
    if s.writer.Flush? {
      FlushStepPlaced(c, s, flushOk, timesOut);
    } else if s.writer.Settle? {
      assert StatePlaced(Settled(s));
    } else {
      LoopPlaced(c, s, flushOk, timesOut);
    }
  }

  lemma WriterCounts(c: Config, s: State, flushOk: bool, timesOut: bool)
    requires CountsOk(c, s)
    ensures CountsOk(c, StepWriter(c, s, flushOk, timesOut))
  {
  }

  lemma PlacedStep(c: Config, s: State, a: Action)
    requires StatePlaced(s) && (a.StartEngine? ==> s.batch == [])
    ensures StatePlaced(Step(c, s, a))
  {
    if a.Crash? {
      CrashPlaced(s.accepted, s.rows, s.departures, Unflushed(s), s.queue);
    } else if a.Resume? && a.id in s.calls {
      PutPlaced(s.accepted, s.rows, s.departures, Unflushed(s), s.queue, Row(a.id, s.calls[a.id].request));
    } else if a.Write? {
      WriterPlaced(c, s, a.flushOk, a.timesOut);
    }
  }

  lemma CountsStep(c: Config, s: State, a: Action)
    requires CountsOk(c, s)
    ensures CountsOk(c, Step(c, s, a))
  {
    if a.Write? {
      WriterCounts(c, s, a.flushOk, a.timesOut);
    }
  }

  lemma RowsStep(c: Config, s: State, a: Action)
    requires RowsOk(c, s)
    ensures RowsOk(c, Step(c, s, a))
  {
    if a.StartEngine? && !s.writer.Off? {
      assert Step(c, s, a) == s;
    } else {
      PlacedStep(c, s, a);
    }
    CountsStep(c, s, a);
  }

  // ----- who owns which nonce -----

  predicate SameElsewhere(s: State, d: State) {
    d.accepted == s.accepted && d.calls == s.calls && d.vault == s.vault
  }

  /** A call that put its key into the vault. */
  predicate Owns(k: Call) {
    k.Inserted? || (k.Answered? && (k.status == Accepted || k.status == Rejected(Backpressure)))
  }

  ghost predicate CallOk(calls: map<nat, Call>, vault: map<Key, nat>, id: nat) {
    id in calls && Owns(calls[id]) ==>
      KeyOf(calls[id].request) in vault && vault[KeyOf(calls[id].request)] == id
  }

  ghost predicate KeyOk(calls: map<nat, Call>, vault: map<Key, nat>, key: Key) {
    key in vault ==>
      vault[key] in calls && KeyOf(calls[vault[key]].request) == key
      && (Owns(calls[vault[key]]) || calls[vault[key]].Lost?)
  }

  ghost predicate OwnersOk(calls: map<nat, Call>, vault: map<Key, nat>) {
    (forall id: nat :: CallOk(calls, vault, id)) && (forall key: Key :: KeyOk(calls, vault, key))
  }

  ghost predicate AcceptedOk(calls: map<nat, Call>, accepted: seq<Row>) {
    && (forall i | 0 <= i < |accepted| ::
          accepted[i].call in calls && calls[accepted[i].call] == Answered(accepted[i].request, Accepted))
    && (forall i, j | 0 <= i < j < |accepted| :: accepted[i].call != accepted[j].call)
    && (forall id | id in calls && calls[id].Answered? && calls[id].status == Accepted ::
          Row(id, calls[id].request) in accepted)
  }

  ghost predicate VaultOk(s: State) {
    OwnersOk(s.calls, s.vault) && AcceptedOk(s.calls, s.accepted)
  }

  /** A call moves on: an owner stays an owner, and a call that never owned does not start to. */
  lemma MoveOwners(calls: map<nat, Call>, vault: map<Key, nat>, id: nat, k: Call)
    requires OwnersOk(calls, vault)
    requires id in calls && !calls[id].Lost? ==> Owns(calls[id]) == Owns(k) && calls[id].request == k.request
    requires id in calls ==> !calls[id].Lost?
    requires id !in calls ==> !Owns(k)
    ensures OwnersOk(calls[id := k], vault)
  {
    var calls' := calls[id := k];
    forall other: nat ensures CallOk(calls', vault, other) {
      assert CallOk(calls, vault, other);
    }
    forall key: Key ensures KeyOk(calls', vault, key) {
      assert KeyOk(calls, vault, key);
    }
  }

  lemma ClaimKey(calls: map<nat, Call>, vault: map<Key, nat>, id: nat)
    requires OwnersOk(calls, vault) && id in calls && calls[id].Inserting? && KeyOf(calls[id].request) !in vault
    ensures OwnersOk(calls[id := Inserted(calls[id].request)], vault[KeyOf(calls[id].request) := id])
  {
    var r := calls[id].request;
    var calls', vault' := calls[id := Inserted(r)], vault[KeyOf(r) := id];
    forall other: nat ensures CallOk(calls', vault', other) {
      assert CallOk(calls, vault, other);
    }
    forall key: Key ensures KeyOk(calls', vault', key) {
      assert KeyOk(calls, vault, key);
    }
  }

  /** A call that is not answered accepted, before and after, does not touch the accepted rows. */
  lemma MoveAccepted(calls: map<nat, Call>, accepted: seq<Row>, id: nat, k: Call)
    requires AcceptedOk(calls, accepted)
    requires id in calls ==> !(calls[id].Answered? && calls[id].status == Accepted)
    requires !(k.Answered? && k.status == Accepted)
    ensures AcceptedOk(calls[id := k], accepted)
  {
  }

  lemma AcceptRow(calls: map<nat, Call>, accepted: seq<Row>, id: nat)
    requires AcceptedOk(calls, accepted) && id in calls && calls[id].Inserted?
    ensures AcceptedOk(calls[id := Answered(calls[id].request, Accepted)], accepted + [Row(id, calls[id].request)])
  {
    var row := Row(id, calls[id].request);
    var calls', accepted' := calls[id := Answered(row.request, Accepted)], accepted + [row];
    assert accepted'[|accepted|] == row;
    forall other | other in calls' && calls'[other].Answered? && calls'[other].status == Accepted
      ensures Row(other, calls'[other].request) in accepted'
    {
      if other != id {
        assert Row(other, calls[other].request) in accepted;
      }
    }
  }

  lemma InsertOwners(s: State, id: nat)
    requires VaultOk(s) && id in s.calls && s.calls[id].Inserting?
    ensures VaultOk(InsertRecord(s, id))
  {
    var r := s.calls[id].request;
    if s.connected && KeyOf(r) !in s.vault {
      ClaimKey(s.calls, s.vault, id);
      MoveAccepted(s.calls, s.accepted, id, Inserted(r));
    } else {
      var k := Answered(r, Rejected(if s.connected then NonceReplay else DatabaseFault));
      MoveOwners(s.calls, s.vault, id, k);
      MoveAccepted(s.calls, s.accepted, id, k);
    }
  }

  lemma ResumeOwners(c: Config, s: State, id: nat)
    requires VaultOk(s) && id in s.calls && s.calls[id].Inserted?
    ensures VaultOk(Enqueue(c, s, id))
  {
    var k := Answered(s.calls[id].request, if Full(c, s) then Rejected(Backpressure) else Accepted);
    MoveOwners(s.calls, s.vault, id, k);
    if Full(c, s) {
      MoveAccepted(s.calls, s.accepted, id, k);
    } else {
      AcceptRow(s.calls, s.accepted, id);
    }
  }

  lemma CrashOwners(c: Config, s: State)
    requires VaultOk(s)
    ensures VaultOk(Step(c, s, Crash))
  {
    var calls' := Step(c, s, Crash).calls;
    forall id: nat ensures CallOk(calls', s.vault, id) {
      assert CallOk(s.calls, s.vault, id);
    }
    forall key: Key ensures KeyOk(calls', s.vault, key) {
      assert KeyOk(s.calls, s.vault, key);
    }
    assert AcceptedOk(calls', s.accepted);
  }

  lemma SubmitOwners(c: Config, s: State, id: nat, r: Request)
    requires VaultOk(s) && id !in s.calls
    ensures VaultOk(Step(c, s, Submit(id, r)))
  {
    var k := Step(c, s, Submit(id, r)).calls[id];
    MoveOwners(s.calls, s.vault, id, k);
    MoveAccepted(s.calls, s.accepted, id, k);
  }

  lemma WriterKeepsVault(c: Config, s: State, flushOk: bool, timesOut: bool)
    ensures SameElsewhere(s, StepWriter(c, s, flushOk, timesOut))
  {
    if s.writer.Flush? {
      assert SameElsewhere(s, Commit(s, flushOk));
    } else if s.writer.Settle? {
      assert SameElsewhere(s, Settled(s));
    }
  }

  /** Starting, stopping, closing and the writer touch neither the vault nor the calls. */
  lemma VaultKept(c: Config, s: State, a: Action)
    requires a.StartEngine? || a.SetStop? || a.Close? || a.Write?
    ensures SameElsewhere(s, Step(c, s, a))
  {
    if a.Write? {
      WriterKeepsVault(c, s, a.flushOk, a.timesOut);
    }
  }

  lemma VaultStep(c: Config, s: State, a: Action)
    requires VaultOk(s)
    ensures VaultOk(Step(c, s, a))
  {
    if a.Insert? {
      if a.id in s.calls && s.calls[a.id].Inserting? { InsertOwners(s, a.id); }
    } else if a.Resume? {
      if a.id in s.calls && s.calls[a.id].Inserted? { ResumeOwners(c, s, a.id); }
    } else if a.Submit? {
      if a.id !in s.calls { SubmitOwners(c, s, a.id, a.request); }
    } else if a.Crash? {
      CrashOwners(c, s);
    } else {
      VaultKept(c, s, a);
    }
  }

  ghost predicate Inv(c: Config, s: State) {
    RowsOk(c, s) && VaultOk(s)
  }

  lemma {:induction false} ExecInv(c: Config, acts: seq<Action>)
    ensures Inv(c, Exec(c, Boot(), acts))
  {
    if acts != [] {
      ExecInv(c, acts[..|acts| - 1]);
      RowsStep(c, Exec(c, Boot(), acts[..|acts| - 1]), acts[|acts| - 1]);
      VaultStep(c, Exec(c, Boot(), acts[..|acts| - 1]), acts[|acts| - 1]);
    }
  }

  // ----- at most once -----

  predicate IsAccepted(s: State, id: nat) {
    id in s.calls && s.calls[id].Answered? && s.calls[id].status == Accepted
  }

  /** Over all interleavings, restarts and crashes, one raw (pubkey, nonce) pair is accepted at most
      once, and the accepted rows are one per accepted call. */
  lemma AtMostOnce(c: Config, acts: seq<Action>, i: nat, j: nat)
    ensures var s := Exec(c, Boot(), acts);
      && (IsAccepted(s, i) && IsAccepted(s, j) && KeyOf(s.calls[i].request) == KeyOf(s.calls[j].request) ==> i == j)
      && (IsAccepted(s, i) ==> Row(i, s.calls[i].request) in s.accepted)
      && (forall a, b | 0 <= a < b < |s.accepted| :: KeyOf(s.accepted[a].request) != KeyOf(s.accepted[b].request))
  {
    ExecInv(c, acts);
    var s := Exec(c, Boot(), acts);
    forall a, b | 0 <= a < b < |s.accepted| ensures KeyOf(s.accepted[a].request) != KeyOf(s.accepted[b].request) {
      assert CallOk(s.calls, s.vault, s.accepted[a].call) && CallOk(s.calls, s.vault, s.accepted[b].call);
    }
    assert CallOk(s.calls, s.vault, i) && CallOk(s.calls, s.vault, j);
  }

  /** Every key of the vault belongs to exactly one call: accepted, refused for backpressure, or
      without an answer (still in flight, or lost with its process). */
  lemma VaultOwner(c: Config, acts: seq<Action>, key: Key, other: nat)
    requires key in Exec(c, Boot(), acts).vault
    ensures var s := Exec(c, Boot(), acts); var id := s.vault[key];
      && id in s.calls && KeyOf(s.calls[id].request) == key
      && (IsAccepted(s, id) || s.calls[id] == Answered(s.calls[id].request, Rejected(Backpressure))
          || s.calls[id].Inserted? || s.calls[id].Lost?)
      && (other in s.calls && Owns(s.calls[other]) && KeyOf(s.calls[other].request) == key ==> other == id)
  {
    ExecInv(c, acts);
    var s := Exec(c, Boot(), acts);
    assert KeyOk(s.calls, s.vault, key) && CallOk(s.calls, s.vault, other);
  }

  /** A call whose key has been accepted before is answered with the replay reason, also after a
      restart; one whose key is new gets into the vault. */
  lemma ReplayAnswer(c: Config, acts: seq<Action>, id: nat, earlier: nat)
    requires var s := Exec(c, Boot(), acts);
      id in s.calls && s.calls[id].Inserting? && s.connected
    ensures var s := Exec(c, Boot(), acts);
      var s', key := Step(c, s, Insert(id)), KeyOf(s.calls[id].request);
      && (IsAccepted(s, earlier) && KeyOf(s.calls[earlier].request) == key ==>
            s'.calls[id].Answered? && s'.calls[id].status == Rejected(NonceReplay))
      && (key !in s.vault ==> s'.calls[id].Inserted? && s'.vault == s.vault[key := id])
  {
    ExecInv(c, acts);
    assert CallOk(Exec(c, Boot(), acts).calls, Exec(c, Boot(), acts).vault, earlier);
  }

  // ----- what the checks before the vault keep out -----

  /** What a call may be, given the verdicts its request carries: a stale one is refused as stale, a
      fresh one with a bad signature is refused with the reason of the signature check, and only the
      others get any further. */
  predicate Screened(k: Call) {
    if k.request.stale then k == Answered(k.request, Rejected(TimestampStale))
    else if k.request.fault.Some? then k == Answered(k.request, Rejected(BadSignature(k.request.fault.value)))
    else k.Answered? ==> LateAnswer(k.status)
  }

  /** The answers of a call that passed both checks. */
  predicate LateAnswer(status: Status) {
    || status == Accepted || status == Rejected(NonceReplay)
    || status == Rejected(DatabaseFault) || status == Rejected(Backpressure)
  }

  lemma {:induction false} CallsScreened(c: Config, acts: seq<Action>, id: nat)
    ensures var s := Exec(c, Boot(), acts); id in s.calls ==> Screened(s.calls[id])
  {
    if acts != [] {
      CallsScreened(c, acts[..|acts| - 1], id);
      ScreenedStep(c, Exec(c, Boot(), acts[..|acts| - 1]), acts[|acts| - 1], id);
    }
  }

  lemma ScreenedStep(c: Config, s: State, a: Action, id: nat)
    requires id in s.calls ==> Screened(s.calls[id])
    ensures id in Step(c, s, a).calls ==> Screened(Step(c, s, a).calls[id])
  {
    if a.Write? {
      WriterKeepsVault(c, s, a.flushOk, a.timesOut);
    }
  }

  lemma DurableAmongAll(ds: seq<Departure>, row: Row)
    requires row in DurableRows(ds)
    ensures row in AllRows(ds)
  {
  }

  predicate Genuine(r: Request) {
    !r.stale && r.fault.None?
  }

  /** On every run only submissions that are fresh and correctly signed own a nonce, are accepted, or
      have a row in the queue, the batch or the table; every other call has its refusal. */
  lemma Screening(c: Config, acts: seq<Action>)
    ensures var s := Exec(c, Boot(), acts);
      && (forall id | id in s.calls :: Screened(s.calls[id]))
      && (forall key | key in s.vault :: s.vault[key] in s.calls && Genuine(s.calls[s.vault[key]].request))
      && (forall row | row in s.accepted :: Genuine(row.request))
      && (forall row | row in s.rows || row in s.batch || row in s.queue :: Genuine(row.request))
  {
    var s := Exec(c, Boot(), acts);
    ExecInv(c, acts);
    forall id | id in s.calls ensures Screened(s.calls[id]) {
      CallsScreened(c, acts, id);
    }
    forall key | key in s.vault ensures s.vault[key] in s.calls && Genuine(s.calls[s.vault[key]].request) {
      assert KeyOk(s.calls, s.vault, key);
    }
    forall row | row in s.accepted ensures Genuine(row.request) {
      var i :| 0 <= i < |s.accepted| && s.accepted[i] == row;
      assert s.calls[row.call] == Answered(row.request, Accepted);
    }
    forall row | row in s.rows || row in Unflushed(s) || row in s.queue ensures row in s.accepted {
      if row in s.rows {
        DurableAmongAll(s.departures, row);
      }
    }
    BatchGenuine(c, acts);
  }

  /** Also while a flush of the batch has still to be settled. */
  lemma {:induction false} BatchGenuine(c: Config, acts: seq<Action>)
    ensures forall row | row in Exec(c, Boot(), acts).batch :: row in Exec(c, Boot(), acts).accepted
  {
    if acts != [] {
      var pre, a := acts[..|acts| - 1], acts[|acts| - 1];
      BatchGenuine(c, pre);
      ExecInv(c, pre);
      BatchStep(c, Exec(c, Boot(), pre), a);
    }
  }

  lemma BatchComes(c: Config, s: State, a: Action)
    ensures var s' := Step(c, s, a);
      s'.batch == s.batch || s'.batch == [] || (s.queue != [] && s'.batch == s.batch + [s.queue[0]])
  {
  }

  lemma AcceptedGrows(c: Config, s: State, a: Action)
    ensures s.accepted <= Step(c, s, a).accepted
  {
    if a.Write? {
      WriterKeepsVault(c, s, a.flushOk, a.timesOut);
    }
  }

  lemma QueueAccepted(s: State, row: Row)
    requires StatePlaced(s) && row in s.queue
    ensures row in s.accepted
  {
  }

  lemma BatchStep(c: Config, s: State, a: Action)
    requires StatePlaced(s) && forall row | row in s.batch :: row in s.accepted
    ensures forall row | row in Step(c, s, a).batch :: row in Step(c, s, a).accepted
  {
    BatchComes(c, s, a);
    AcceptedGrows(c, s, a);
    forall row | row in Step(c, s, a).batch ensures row in Step(c, s, a).accepted {
      if row !in s.batch {
        QueueAccepted(s, row);
      }
    }
  }

  /** A call that has its answer, or died with its process, stays as it is for ever. */
  lemma {:induction false} AnswersFinal(c: Config, s: State, acts: seq<Action>, id: nat)
    requires id in s.calls && (s.calls[id].Answered? || s.calls[id].Lost?)
    ensures id in Exec(c, s, acts).calls && Exec(c, s, acts).calls[id] == s.calls[id]
  {
    if acts != [] {
      AnswersFinal(c, s, acts[..|acts| - 1], id);
      FinalStep(c, Exec(c, s, acts[..|acts| - 1]), acts[|acts| - 1], id);
    }
  }

  lemma FinalStep(c: Config, s: State, a: Action, id: nat)
    requires id in s.calls && (s.calls[id].Answered? || s.calls[id].Lost?)
    ensures id in Step(c, s, a).calls && Step(c, s, a).calls[id] == s.calls[id]
  {
    if a.Write? {
      WriterKeepsVault(c, s, a.flushOk, a.timesOut);
    }
  }

  /** A refusal by the checks comes at once, and touches neither vault nor queue nor table. */
  lemma RefusedAtOnce(c: Config, s: State, id: nat, r: Request)
    requires id !in s.calls && !Genuine(r)
    ensures var s' := Step(c, s, Submit(id, r));
      && s' == s.(calls := s.calls[id := s'.calls[id]])
      && s'.calls[id] == Answered(r, Rejected(if r.stale then TimestampStale else BadSignature(r.fault.value)))
  {
  }

  // ----- what the vault and the queue answer -----

  /** The answer of the vault, in all cases: an error when the database is closed, a replay when any
      call owned the pair before, and otherwise the pair belongs to this call. */
  lemma VaultAnswer(c: Config, acts: seq<Action>, id: nat)
    requires var s := Exec(c, Boot(), acts); id in s.calls && s.calls[id].Inserting?
    ensures var s := Exec(c, Boot(), acts); var s', r := Step(c, s, Insert(id)), s.calls[id].request;
      && (s'.calls[id] == Answered(r, Rejected(DatabaseFault)) <==> !s.connected)
      && (s'.calls[id] == Answered(r, Rejected(NonceReplay)) <==>
            s.connected && exists other: nat :: OwnsPair(s, other, r.pubkey, r.nonce))
      && (s'.calls[id] == Inserted(r) <==>
            s.connected && forall other: nat :: !OwnsPair(s, other, r.pubkey, r.nonce))
      && s'.vault == (if s'.calls[id].Inserted? then s.vault[(r.pubkey, r.nonce) := id] else s.vault)
  {
    ExecInv(c, acts);
    var s := Exec(c, Boot(), acts);
    var key := KeyOf(s.calls[id].request);
    assert KeyOk(s.calls, s.vault, key);
    if key in s.vault {
      assert OwnsPair(s, s.vault[key], key.0, key.1);
    }
  }

  /** A call that got the raw pair into the vault. */
  ghost predicate OwnsPair(s: State, id: nat, pubkey: string, nonce: string) {
    (pubkey, nonce) in s.vault && s.vault[(pubkey, nonce)] == id
    && id in s.calls && s.calls[id].request.pubkey == pubkey && s.calls[id].request.nonce == nonce
  }

  /** A call that owns its nonce is refused exactly when the queue is bounded and holds as many rows
      as its bound; otherwise it is accepted and its row is the last of the queue. */
  lemma BackpressureExactly(c: Config, acts: seq<Action>, id: nat)
    requires var s := Exec(c, Boot(), acts); id in s.calls && s.calls[id].Inserted?
    ensures var s := Exec(c, Boot(), acts); var s', r := Step(c, s, Resume(id)), s.calls[id].request;
      if c.maxDepth > 0 && |s.queue| == c.maxDepth
      then s' == s.(calls := s.calls[id := Answered(r, Rejected(Backpressure))])
      else
        && s'.calls == s.calls[id := Answered(r, Accepted)] && s'.queue == s.queue + [Row(id, r)]
        && s'.accepted == s.accepted + [Row(id, r)] && s'.vault == s.vault && s'.rows == s.rows
  {
    ExecInv(c, acts);
  }

  /** The vault and the table only grow, through stops, restarts and crashes: a pair keeps its owner
      and a row its place. */
  lemma {:induction false} DiskOnlyGrows(c: Config, s: State, acts: seq<Action>)
    ensures var d := Exec(c, s, acts);
      s.rows <= d.rows && forall key | key in s.vault :: key in d.vault && d.vault[key] == s.vault[key]
  {
    if acts != [] {
      DiskOnlyGrows(c, s, acts[..|acts| - 1]);
      DiskStep(c, Exec(c, s, acts[..|acts| - 1]), acts[|acts| - 1]);
    }
  }

  lemma DiskStep(c: Config, s: State, a: Action)
    ensures var d := Step(c, s, a);
      s.rows <= d.rows && forall key | key in s.vault :: key in d.vault && d.vault[key] == s.vault[key]
  {
    if a.Write? {
      WriterKeepsVault(c, s, a.flushOk, a.timesOut);
    }
  }

  lemma {:induction false} ConnectedRun(c: Config, acts: seq<Action>)
    ensures var s := Exec(c, Boot(), acts); s.connected <==> !s.writer.Off?
  {
    if acts != [] {
      ConnectedRun(c, acts[..|acts| - 1]);
      ConnectedStep(c, Exec(c, Boot(), acts[..|acts| - 1]), acts[|acts| - 1]);
    }
  }

  lemma ConnectedStep(c: Config, s: State, a: Action)
    requires s.connected <==> !s.writer.Off?
    ensures var s' := Step(c, s, a); s'.connected <==> !s'.writer.Off?
  {
    if a.Write? {
      WriterConnected(c, s, a.flushOk, a.timesOut);
    }
  }

  lemma WriterConnected(c: Config, s: State, flushOk: bool, timesOut: bool)
    ensures var s' := StepWriter(c, s, flushOk, timesOut);
      s'.connected == s.connected && (s'.writer.Off? <==> s.writer.Off?)
  {
    var s' := StepWriter(c, s, flushOk, timesOut);
    if s.writer.Flush? {
      assert s' == Commit(s, flushOk);
    } else if s.writer.Settle? {
      assert s' == Settled(s);
    } else if s.writer.Get? && s.queue != [] && !timesOut {
      assert s' == s.(queue := s.queue[1..], batch := s.batch + [s.queue[0]], writer := Decide);
    } else {
      WriterTurns(c, s, flushOk, timesOut);
    }
  }

  /** While stop is not set a started writer stays in its loop, and the database is open exactly while
      there is a writer. */
  lemma WriterStays(c: Config, acts: seq<Action>)
    ensures var s := Exec(c, Boot(), acts);
      && (!s.stop ==> !s.writer.Final? && !s.writer.Exited?)
      && (s.connected <==> !s.writer.Off?)
  {
    ExecInv(c, acts);
    ConnectedRun(c, acts);
  }

  /** A call in flight when the process dies never gets an answer, whatever happens later, and what
      was in memory is gone. */
  lemma DeathIsFinal(c: Config, s: State, acts: seq<Action>, id: nat)
    requires id in s.calls && !s.calls[id].Answered?
    ensures var d := Step(c, s, Crash);
      && id in Exec(c, d, acts).calls && Exec(c, d, acts).calls[id] == Lost(s.calls[id].request)
      && d.queue == [] && d.batch == [] && d.vault == s.vault && d.rows == s.rows && !d.connected
  {
    AnswersFinal(c, Step(c, s, Crash), acts, id);
  }

  /** An engine started again, after a stop or a crash, serves: stop is cleared, the writer is in its
      loop, and a genuine submission under a new pair is accepted if there is room. */
  lemma RestartServes(c: Config, acts: seq<Action>, id: nat, r: Request)
    requires var s := Exec(c, Boot(), acts);
      && s.writer.Off? && id !in s.calls && Genuine(r) && (r.pubkey, r.nonce) !in s.vault
      && (c.maxDepth > 0 ==> |s.queue| < c.maxDepth)
    ensures var s := Exec(c, Boot(), acts);
      var d := Exec(c, Boot(), acts + [StartEngine] + [Submit(id, r)] + [Insert(id)] + [Resume(id)]);
      && IsAccepted(d, id) && d.queue == s.queue + [Row(id, r)] && d.rows == s.rows && d.batch == []
      && !d.stop && d.connected && d.writer.Test?
  {
    var s := Exec(c, Boot(), acts);
    ExecSnoc(c, Boot(), acts, StartEngine);
    ExecSnoc(c, Boot(), acts + [StartEngine], Submit(id, r));
    ExecSnoc(c, Boot(), acts + [StartEngine] + [Submit(id, r)], Insert(id));
    ExecSnoc(c, Boot(), acts + [StartEngine] + [Submit(id, r)] + [Insert(id)], Resume(id));
    RestartSteps(c, s, id, r);
  }

  lemma RestartSteps(c: Config, s: State, id: nat, r: Request)
    requires s.writer.Off? && id !in s.calls && Genuine(r) && (r.pubkey, r.nonce) !in s.vault
    requires c.maxDepth > 0 ==> |s.queue| < c.maxDepth
    ensures var d := Step(c, Step(c, Step(c, Step(c, s, StartEngine), Submit(id, r)), Insert(id)), Resume(id));
      && IsAccepted(d, id) && d.queue == s.queue + [Row(id, r)] && d.rows == s.rows && d.batch == []
      && !d.stop && d.connected && d.writer.Test?
  {
    var s1 := Step(c, s, StartEngine);
    assert s1 == s.(connected := true, stop := false, writer := Test, batch := []);
    var s2 := Step(c, s1, Submit(id, r));
    assert s2 == s1.(calls := s.calls[id := Inserting(r)]);
    var s3 := Step(c, s2, Insert(id));
    assert s3 == s2.(vault := s.vault[(r.pubkey, r.nonce) := id], calls := s2.calls[id := Inserted(r)]);
  }

  // ----- conservation -----

  /** The steps that lose rows: a flush that raises with rows in its batch, and the death of a
      process that holds rows which no flush has dealt with. */
  predicate Loses(s: State, a: Action) {
    || (a.Write? && !a.flushOk && s.writer.Flush? && s.batch != [])
    || (a.Crash? && Unflushed(s) + s.queue != [])
  }

  predicate NoLoss(c: Config, s: State, acts: seq<Action>) {
    acts == [] ||
    (NoLoss(c, s, acts[..|acts| - 1]) && !Loses(Exec(c, s, acts[..|acts| - 1]), acts[|acts| - 1]))
  }

  lemma DepartLost(ds: seq<Departure>, rows: seq<Row>, durable: bool)
    ensures NothingLost(Depart(ds, rows, durable)) <==> NothingLost(ds) && (durable || rows == [])
  {
    var ds' := Depart(ds, rows, durable);
    if NothingLost(ds') {
      forall k | 0 <= k < |ds| ensures ds[k].durable {
        assert ds'[k] == ds[k];
      }
      if rows != [] {
        assert ds'[|ds|].durable == durable;
      }
    }
  }

  lemma LossStep(c: Config, s: State, a: Action)
    ensures NothingLost(Step(c, s, a).departures) <==> NothingLost(s.departures) && !Loses(s, a)
  {
    if a.Crash? {
      DepartLost(s.departures, Unflushed(s) + s.queue, false);
    } else if a.Write? && s.writer.Flush? {
      DepartLost(s.departures, s.batch, a.flushOk);
    }
  }

  lemma {:induction false} LossRun(c: Config, acts: seq<Action>)
    ensures NothingLost(Exec(c, Boot(), acts).departures) <==> NoLoss(c, Boot(), acts)
  {
    if acts != [] {
      LossRun(c, acts[..|acts| - 1]);
      LossStep(c, Exec(c, Boot(), acts[..|acts| - 1]), acts[|acts| - 1]);
    }
  }

  /** The table, the batch (unless a flush has just dealt with it) and the queue, one after the other. */
  function Line(s: State): seq<Row> {
    s.rows + Unflushed(s) + s.queue
  }

  /** The table, the batch and the queue are all that was ever accepted, in acceptance order, exactly
      when no step of the run lost rows; in every run they are at most that. */
  lemma Conservation(c: Config, acts: seq<Action>)
    ensures var s := Exec(c, Boot(), acts);
      && (Line(s) == s.accepted <==> NoLoss(c, Boot(), acts))
      && |Line(s)| <= |s.accepted|
      && s.accepted == AllRows(s.departures) + Unflushed(s) + s.queue && s.rows == DurableRows(s.departures)
  {
    ExecInv(c, acts);
    LossRun(c, acts);
    var s := Exec(c, Boot(), acts);
    LossExact(s.departures);
    if Line(s) == s.accepted {
      assert |DurableRows(s.departures)| == |AllRows(s.departures)|;
    }
  }

  lemma ExecSnoc(c: Config, s: State, acts: seq<Action>, a: Action)
    ensures Exec(c, s, acts + [a]) == Step(c, Exec(c, s, acts), a)
    ensures NoLoss(c, s, acts + [a]) <==> NoLoss(c, s, acts) && !Loses(Exec(c, s, acts), a)
  {
    assert (acts + [a])[..|acts|] == acts;
  }

  /** A started engine that has accepted one submission, with the writer at the top of its loop. */
  function OneAccepted(r: Request): State {
    var row := Row(0, r);
    State(map[KeyOf(r) := 0], [], true, false, [row], [], Test, 1, map[0 := Answered(r, Accepted)], [row], [])
  }

  lemma AcceptRun(c: Config, r: Request) returns (acts: seq<Action>)
    requires !r.stale && r.fault.None?
    ensures Exec(c, Boot(), acts) == OneAccepted(r) && forall a | a in acts :: !a.SetStop?
  {
    var s0, s1 := Boot(), Boot().(connected := true, writer := Test);
    var s2 := s1.(calls := map[0 := Inserting(r)]);
    var s3 := s2.(vault := map[KeyOf(r) := 0], calls := map[0 := Inserted(r)]);
    assert Step(c, s0, StartEngine) == s1 && Step(c, s1, Submit(0, r)) == s2;
    assert Step(c, s2, Insert(0)) == s3;
    assert Step(c, s3, Resume(0)) == OneAccepted(r);
    ExecSnoc(c, s0, [], StartEngine);
    ExecSnoc(c, s0, [] + [StartEngine], Submit(0, r));
    ExecSnoc(c, s0, [] + [StartEngine] + [Submit(0, r)], Insert(0));
    acts := [] + [StartEngine] + [Submit(0, r)] + [Insert(0)];
    ExecSnoc(c, s0, acts, Resume(0));
    acts := acts + [Resume(0)];
  }

  /** Both kinds of loss happen, under every configuration: the row was answered accepted, and
      neither the table nor memory has it afterwards. */
  lemma LosingRuns(c: Config, r: Request) returns (failed: seq<Action>, died: seq<Action>)
    requires !r.stale && r.fault.None?
    ensures forall acts | acts == failed || acts == died ::
      var s := Exec(c, Boot(), acts);
      IsAccepted(s, 0) && s.accepted == [Row(0, r)] && Line(s) == [] && !NoLoss(c, Boot(), acts)
  {
    var acts := AcceptRun(c, r);
    ExecSnoc(c, Boot(), acts, Crash);
    died := acts + [Crash];
    failed := FailedFlush(c, r, acts);
  }

  /** Stop is set while the row is in the queue; the writer takes it and its flush raises. */
  lemma FailedFlush(c: Config, r: Request, pre: seq<Action>) returns (acts: seq<Action>)
    requires Exec(c, Boot(), pre) == OneAccepted(r)
    ensures var s := Exec(c, Boot(), acts);
      IsAccepted(s, 0) && s.accepted == [Row(0, r)] && Line(s) == [] && !NoLoss(c, Boot(), acts)
  {
    var s, row := OneAccepted(r).(stop := true), Row(0, r);
    var taken := s.(queue := [], batch := [row]);
    ExecSnoc(c, Boot(), pre, SetStop);
    acts := pre + [SetStop];
    assert Step(c, s, Write(true, false)) == s.(writer := Get);
    ExecSnoc(c, Boot(), acts, Write(true, false));
    acts := acts + [Write(true, false)];
    assert Step(c, s.(writer := Get), Write(true, false)) == taken.(writer := Decide);
    ExecSnoc(c, Boot(), acts, Write(true, false));
    acts := acts + [Write(true, false)];
    assert Step(c, taken.(writer := Decide), Write(true, false)) == taken.(writer := Flush(false));
    ExecSnoc(c, Boot(), acts, Write(true, false));
    acts := acts + [Write(true, false)];
    ExecSnoc(c, Boot(), acts, Write(false, false));
    acts := acts + [Write(false, false)];
  }

  /** What is pending is bounded, and `task_done` is called once per item taken and flushed. */
  lemma Pending(c: Config, acts: seq<Action>)
    ensures var s := Exec(c, Boot(), acts);
      && s.unfinished == |s.batch| + |s.queue| >= 0
      && (0 < c.maxDepth ==> |s.batch| + |s.queue| <= c.maxDepth + Quota(c))
  {
    ExecInv(c, acts);
  }

  // ----- what makes the table grow -----

  /** Until stop is set, the table grows only by whole batches. */
  lemma WholeBatches(c: Config, acts: seq<Action>, a: Action)
    ensures var s := Exec(c, Boot(), acts); var s' := Step(c, s, a);
      !s.stop && s'.rows != s.rows ==> s'.rows == s.rows + s.batch && |s.batch| == Quota(c)
  {
    ExecInv(c, acts);
  }

  lemma {:induction false} NeverStopped(c: Config, acts: seq<Action>)
    requires forall a | a in acts :: !a.SetStop?
    ensures !Exec(c, Boot(), acts).stop
  {
    if acts != [] {
      NeverStopped(c, acts[..|acts| - 1]);
    }
  }

  /** So on every run without a stop, whatever timeouts it has, the table is a whole number of
      batches. */
  lemma {:induction false} WholeTable(c: Config, acts: seq<Action>)
    requires forall a | a in acts :: !a.SetStop?
    ensures |Exec(c, Boot(), acts).rows| % Quota(c) == 0
  {
    if acts != [] {
      var pre, a := acts[..|acts| - 1], acts[|acts| - 1];
      WholeTable(c, pre);
      NeverStopped(c, pre);
      WholeBatches(c, pre, a);
      ModShift(|Exec(c, Boot(), pre).rows|, Quota(c), 1);
    }
  }

  /** After a wait, timed out or not, the writer flushes rows exactly if the batch is full, or stop
      is set and there are any; a flush that does not raise then puts the batch into the table. */
  lemma FlushExactly(c: Config, acts: seq<Action>, timesOut: bool)
    requires Exec(c, Boot(), acts).writer.Decide?
    ensures var s := Exec(c, Boot(), acts);
      var s1 := Step(c, s, Write(true, timesOut)); var s2 := Step(c, s1, Write(true, timesOut));
      && (s1.writer.Flush? && s.batch != [] <==> |s.batch| == Quota(c) || (s.batch != [] && s.stop))
      && (s1.writer.Flush? ==> s2.rows == s.rows + s.batch)
      && (!s1.writer.Flush? ==> s2.rows == s.rows && s2.batch == s.batch)
  {
    ExecInv(c, acts);
    var s := Exec(c, Boot(), acts);
    var s1 := Step(c, s, Write(true, timesOut));
    assert s1 == s.(writer := s1.writer) && (s1.writer == Flush(false) || s1.writer == Test);
  }

  /** k turns of the writer's loop in which the wait times out. */
  function Timeouts(k: nat): seq<Action> {
    if k == 0 then [] else Timeouts(k - 1) + [Write(true, true)] + [Write(true, true)] + [Write(true, true)]
  }

  lemma ExecThrice(c: Config, acts: seq<Action>, a: Action)
    ensures Exec(c, Boot(), acts + [a] + [a] + [a]) == Step(c, Step(c, Step(c, Exec(c, Boot(), acts), a), a), a)
  {
    ExecSnoc(c, Boot(), acts, a);
    ExecSnoc(c, Boot(), acts + [a], a);
    ExecSnoc(c, Boot(), acts + [a] + [a], a);
  }

  lemma MoreTimeouts(acts: seq<Action>, t: seq<Action>, a: Action)
    ensures acts + (t + [a] + [a] + [a]) == (acts + t) + [a] + [a] + [a]
  {
  }

  lemma OneTimeout(c: Config, s: State)
    requires s.writer.Test? && !s.stop && |s.batch| < c.batchSize
    ensures var a := Write(true, true); Step(c, Step(c, Step(c, s, a), a), a) == s
  {
    var a := Write(true, true);
    assert Step(c, s, a) == s.(writer := Get);
    assert Step(c, s.(writer := Get), a) == s.(writer := Decide);
  }

  lemma {:induction false} TimeoutsFlushNothing(c: Config, s: State, acts: seq<Action>, k: nat)
    requires Exec(c, Boot(), acts) == s && s.writer.Test? && !s.stop && |s.batch| < c.batchSize
    ensures Exec(c, Boot(), acts + Timeouts(k)) == s
  {
    if k == 0 {
      assert acts + Timeouts(0) == acts;
    } else {
      TimeoutsFlushNothing(c, s, acts, k - 1);
      var a, t := Write(true, true), acts + Timeouts(k - 1);
      MoreTimeouts(acts, Timeouts(k - 1), a);
      ExecThrice(c, t, a);
      OneTimeout(c, s);
    }
  }

  /** A timeout does not flush a partial batch: with a batch size above one, an accepted row stays in
      the batch, and out of the table, through any number of timeouts. */
  lemma PartialBatchWaits(c: Config, r: Request, k: nat) returns (acts: seq<Action>)
    requires 1 < c.batchSize && !r.stale && r.fault.None?
    ensures var s := Exec(c, Boot(), acts + Timeouts(k));
      IsAccepted(s, 0) && s.batch == [Row(0, r)] && s.rows == [] && s.queue == []
  {
    var pre := AcceptRun(c, r);
    var a, s := Write(true, false), OneAccepted(r);
    var taken := s.(queue := [], batch := [Row(0, r)]);
    assert Step(c, s, a) == s.(writer := Get);
    assert Step(c, s.(writer := Get), a) == taken.(writer := Decide);
    assert Step(c, taken.(writer := Decide), a) == taken;
    ExecThrice(c, pre, a);
    acts := pre + [a] + [a] + [a];
    TimeoutsFlushNothing(c, taken, acts, k);
  }

  // ----- stop and drain -----

  /** The writer's remaining work once stop is set. */
  function Remaining(s: State): nat {
    10 * |s.queue| +
    match s.writer
    case Get => if s.queue == [] then 8 else 2
    case Decide => 7
    case Flush(last) => if last then 2 else 6
    case Settle(last) => if last then 1 else 5
    case Test => 4
    case Final => 3
    case _ => 0
  }

  predicate Draining(s: State) {
    s.stop && !s.writer.Off?
  }

  /** Stop came before the writer left its loop. */
  predicate OnTrack(s: State) {
    Leaving(s) ==> s.queue == []
  }

  predicate WriterOnly(acts: seq<Action>) {
    forall a | a in acts :: a.Write?
  }

  /** A wait that times out with an item queued, or goes on with none. */
  predicate Hesitates(s: State, a: Action) {
    s.writer.Get? && a.Write? && a.timesOut != (s.queue == [])
  }

  function Hesitations(c: Config, s: State, acts: seq<Action>): nat {
    if acts == [] then 0
    else
      Hesitations(c, s, acts[..|acts| - 1])
      + if Hesitates(Exec(c, s, acts[..|acts| - 1]), acts[|acts| - 1]) then 1 else 0
  }

  lemma LoopProgress(c: Config, s: State, flushOk: bool, timesOut: bool)
    requires Draining(s) && !s.writer.Flush? && !s.writer.Settle?
    ensures var s' := StepWriter(c, s, flushOk, timesOut);
      && Draining(s') && (OnTrack(s) ==> OnTrack(s')) && (s.writer.Exited? ==> s' == s)
      && (s.writer.Exited? ||
          Remaining(s') + 1 <= Remaining(s) + if s.writer.Get? && timesOut != (s.queue == []) then 6 else 0)
  {
  }

  /** Every step of the writer that is not a hesitation is progress, whether or not its flush raises. */
  lemma DrainProgress(c: Config, s: State, a: Action)
    requires Draining(s) && a.Write?
    ensures Draining(Step(c, s, a)) && (OnTrack(s) ==> OnTrack(Step(c, s, a)))
    ensures s.writer.Exited? ==> Step(c, s, a) == s
    ensures s.writer.Exited? || Remaining(Step(c, s, a)) + 1 <= Remaining(s) + if Hesitates(s, a) then 6 else 0
  {
    if s.writer.Flush? {
      assert Step(c, s, a) == Commit(s, a.flushOk);
    } else if s.writer.Settle? {
      assert Step(c, s, a) == Settled(s);
    } else {
      LoopProgress(c, s, a.flushOk, a.timesOut);
    }
  }

  lemma CommitKeepsOrder(s: State, flushOk: bool)
    requires s.writer.Flush?
    ensures if flushOk || s.batch == [] then Line(Commit(s, flushOk)) == Line(s)
            else |Line(Commit(s, flushOk))| < |Line(s)|
  {
    BatchLeaves(s.rows, s.batch, s.queue);
    assert s.batch == [] ==> s.rows + s.batch == s.rows;
  }

  lemma LoopKeepsOrder(c: Config, s: State, flushOk: bool, timesOut: bool)
    requires !s.writer.Flush? && !s.writer.Settle?
    ensures Line(StepWriter(c, s, flushOk, timesOut)) == Line(s)
  {
    if s.writer.Get? && s.queue != [] && !timesOut {
      HeadMoves(s.rows, s.batch, s.queue);
    } else {
      assert StepWriter(c, s, flushOk, timesOut) == s.(writer := StepWriter(c, s, flushOk, timesOut).writer);
    }
  }

  /** A step of the writer keeps the line of rows, or loses rows from it. */
  lemma WriterKeepsOrder(c: Config, s: State, a: Action)
    requires a.Write?
    ensures SameElsewhere(s, Step(c, s, a))
    ensures if Loses(s, a) then |Line(Step(c, s, a))| < |Line(s)| else Line(Step(c, s, a)) == Line(s)
  {
    WriterKeepsVault(c, s, a.flushOk, a.timesOut);
    if s.writer.Flush? {
      CommitKeepsOrder(s, a.flushOk);
    } else if s.writer.Settle? {
      assert Line(Settled(s)) == Line(s);
    } else {
      LoopKeepsOrder(c, s, a.flushOk, a.timesOut);
    }
  }

  lemma {:induction false} WritesKeepElsewhere(c: Config, s: State, acts: seq<Action>)
    requires WriterOnly(acts)
    ensures SameElsewhere(s, Exec(c, s, acts))
  {
    if acts != [] {
      var pre, a := acts[..|acts| - 1], acts[|acts| - 1];
      WritesKeepElsewhere(c, s, pre);
      WriterKeepsVault(c, Exec(c, s, pre), a.flushOk, a.timesOut);
    }
  }

  lemma {:induction false} DrainMany(c: Config, s: State, acts: seq<Action>)
    requires Draining(s) && OnTrack(s) && RowsOk(c, s) && WriterOnly(acts)
    ensures var d := Exec(c, s, acts);
      && Draining(d) && OnTrack(d) && RowsOk(c, d) && SameElsewhere(s, d)
      && (if NoLoss(c, s, acts) then Line(d) == Line(s) else |Line(d)| < |Line(s)|)
      && (d.writer.Exited? || Remaining(d) + |acts| <= Remaining(s) + 6 * Hesitations(c, s, acts))
  {
    if acts != [] {
      var pre, a := acts[..|acts| - 1], acts[|acts| - 1];
      DrainMany(c, s, pre);
      var m := Exec(c, s, pre);
      DrainProgress(c, m, a);
      WriterKeepsOrder(c, m, a);
      RowsStep(c, m, a);
    }
  }

  lemma Exhausted(d: State)
    ensures d.batch == [] && d.queue == [] ==> Line(d) == d.rows
  {
  }

  lemma DrainFrom(c: Config, s: State, writes: seq<Action>)
    requires RowsOk(c, s) && !s.stop && !s.writer.Off? && WriterOnly(writes)
    ensures var stopped := Step(c, s, SetStop); var d := Exec(c, stopped, writes);
      && SameElsewhere(s, d) && (Line(d) == Line(s) <==> NoLoss(c, stopped, writes))
      && (Remaining(stopped) + 6 * Hesitations(c, stopped, writes) < |writes| ==> d.writer.Exited?)
      && (d.writer.Exited? ==> d.rows == Line(d) && d.queue == [] && d.batch == [] && d.unfinished == 0)
  {
    var stopped := Step(c, s, SetStop);
    RowsStep(c, s, SetStop);
    DrainMany(c, stopped, writes);
    Exhausted(Exec(c, stopped, writes));
  }

  /** After stop, with no submission running, the writer ends however its waits time out and its
      flushes fare: every schedule of its steps longer than the work left and six steps per
      hesitation has exited.  It keeps the rows in order exactly when none of its flushes lost any,
      and once it has exited the table is all there is. */
  lemma EveryDrainEnds(c: Config, acts: seq<Action>, writes: seq<Action>)
    requires var s := Exec(c, Boot(), acts); !s.stop && !s.writer.Off?
    requires WriterOnly(writes)
    ensures var s := Exec(c, Boot(), acts); var stopped := Step(c, s, SetStop);
      var d := Exec(c, stopped, writes);
      && SameElsewhere(s, d) && (Line(d) == Line(s) <==> NoLoss(c, stopped, writes))
      && (Remaining(stopped) + 6 * Hesitations(c, stopped, writes) < |writes| ==> d.writer.Exited?)
      && (d.writer.Exited? ==> d.rows == Line(d) && d.queue == [] && d.batch == [] && d.unfinished == 0)
  {
    ExecInv(c, acts);
    DrainFrom(c, Exec(c, Boot(), acts), writes);
  }

  // ----- the writer run to its end -----

  /** The writer's next step when a queued item is handed over at once. */
  function Prompt(s: State, flushOk: bool): Action {
    Write(flushOk, s.queue == [])
  }

  /** The writer alone until its loop ends; `ok(k)` says how its k-th step's flush fares. */
  function Drain(c: Config, s: State, ok: nat -> bool, k: nat): seq<Action>
    requires Draining(s)
    decreases Remaining(s)
  {
    if s.writer.Exited? then []
    else
      DrainProgress(c, s, Prompt(s, ok(k)));
      [Prompt(s, ok(k))] + Drain(c, Step(c, s, Prompt(s, ok(k))), ok, k + 1)
  }

  lemma {:induction false} ExecCons(c: Config, s: State, a: Action, acts: seq<Action>)
    ensures Exec(c, s, [a] + acts) == Exec(c, Step(c, s, a), acts)
    ensures NoLoss(c, s, [a] + acts) <==> !Loses(s, a) && NoLoss(c, Step(c, s, a), acts)
  {
    if acts == [] {
      assert [a] + acts == [] + [a];
      ExecSnoc(c, s, [], a);
    } else {
      var pre := acts[..|acts| - 1];
      assert ([a] + acts)[..|[a] + acts| - 1] == [a] + pre;
      ExecCons(c, s, a, pre);
    }
  }

  lemma {:induction false} DrainEnds(c: Config, s: State, ok: nat -> bool, k: nat)
    requires Draining(s)
    ensures WriterOnly(Drain(c, s, ok, k)) && Exec(c, s, Drain(c, s, ok, k)).writer.Exited?
    decreases Remaining(s)
  {
    if !s.writer.Exited? {
      var a := Prompt(s, ok(k));
      DrainProgress(c, s, a);
      DrainEnds(c, Step(c, s, a), ok, k + 1);
      ExecCons(c, s, a, Drain(c, Step(c, s, a), ok, k + 1));
    }
  }

  lemma DrainUnfolds(c: Config, s: State, ok: nat -> bool, k: nat)
    requires Draining(s) && !s.writer.Exited?
    ensures var s' := StepWriter(c, s, ok(k), s.queue == []);
      && Draining(s') && Remaining(s') < Remaining(s)
      && Exec(c, s, Drain(c, s, ok, k)) == Exec(c, s', Drain(c, s', ok, k + 1))
  {
    var a := Prompt(s, ok(k));
    DrainProgress(c, s, a);
    ExecCons(c, s, a, Drain(c, Step(c, s, a), ok, k + 1));
  }

  /** Run to its end, the writer leaves nothing behind, and the table is the old line of rows exactly
      when none of its flushes lost rows. */
  lemma DrainRows(c: Config, s: State, ok: nat -> bool)
    requires Draining(s) && OnTrack(s) && RowsOk(c, s)
    ensures var writes := Drain(c, s, ok, 0); var d := Exec(c, s, writes);
      && d.writer.Exited? && d.queue == [] && d.batch == [] && d.unfinished == 0
      && (d.rows == Line(s) <==> NoLoss(c, s, writes)) && SameElsewhere(s, d)
  {
    DrainEnds(c, s, ok, 0);
    DrainMany(c, s, Drain(c, s, ok, 0));
    Exhausted(Exec(c, s, Drain(c, s, ok, 0)));
  }

  lemma {:induction false} ExecConcat(c: Config, s: State, a: seq<Action>, b: seq<Action>)
    ensures Exec(c, s, a + b) == Exec(c, Exec(c, s, a), b)
    ensures NoLoss(c, s, a + b) <==> NoLoss(c, s, a) && NoLoss(c, Exec(c, s, a), b)
  {
    if b == [] {
      assert a + b == a;
    } else {
      assert (a + b)[..|a + b| - 1] == a + b[..|b| - 1];
      ExecConcat(c, s, a, b[..|b| - 1]);
    }
  }

  /** When stop is called on a running engine and no submission runs while it does, the writer ends,
      and the table then holds exactly everything that was ever accepted if and only if no step of
      the whole run, before or after stop, lost rows. */
  lemma StopDrains(c: Config, acts: seq<Action>, ok: nat -> bool)
    requires var s := Exec(c, Boot(), acts); !s.stop && !s.writer.Off?
    ensures var s := Exec(c, Boot(), acts); var writes := Drain(c, Step(c, s, SetStop), ok, 0);
      var run := acts + [SetStop] + writes; var d := Exec(c, Boot(), run);
      && d.writer.Exited? && d.queue == [] && d.batch == [] && d.unfinished == 0
      && d.accepted == s.accepted && (d.rows == s.accepted <==> NoLoss(c, Boot(), run))
  {
    ExecInv(c, acts);
    var s := Exec(c, Boot(), acts);
    var stopped := Step(c, s, SetStop);
    var writes := Drain(c, stopped, ok, 0);
    RowsStep(c, s, SetStop);
    DrainRows(c, stopped, ok);
    ExecSnoc(c, Boot(), acts, SetStop);
    ExecConcat(c, Boot(), acts + [SetStop], writes);
    Conservation(c, acts + [SetStop] + writes);
    Exhausted(Exec(c, Boot(), acts + [SetStop] + writes));
  }

  // ----- a running writer keeps up -----

  function ServeRank(s: State): nat {
    10 * |s.queue| +
    match s.writer
    case Test => 1
    case Get => if s.queue == [] then 6 else 0
    case Decide => 5
    case Flush(_) => 4
    case Settle(_) => 3
    case _ => 0
  }

  lemma ServeStep(c: Config, s: State)
    requires RowsOk(c, s) && !s.stop && !s.writer.Off? && !(s.writer.Test? && s.queue == [])
    ensures var s' := Step(c, s, Prompt(s, true));
      && RowsOk(c, s') && !s'.stop && !s'.writer.Off? && Line(s') == Line(s) && ServeRank(s') < ServeRank(s)
  {
    RowsStep(c, s, Prompt(s, true));
    WriterKeepsOrder(c, s, Prompt(s, true));
  }

  lemma {:induction false} Serve(c: Config, s: State) returns (writes: seq<Action>)
    requires RowsOk(c, s) && !s.stop && !s.writer.Off?
    ensures WriterOnly(writes) && |writes| <= ServeRank(s)
    ensures var d := Exec(c, s, writes);
      RowsOk(c, d) && !d.stop && d.writer.Test? && d.queue == [] && Line(d) == Line(s)
    decreases ServeRank(s)
  {
    writes := [];
    if !(s.writer.Test? && s.queue == []) {
      ServeStep(c, s);
      var a := Prompt(s, true);
      var rest := Serve(c, Step(c, s, a));
      writes := [a] + rest;
      ExecCons(c, s, a, rest);
    }
  }

  /** From every reachable state of a running engine, some steps of the writer (at most ten per
      queued row and six more) bring every queued row into the table or into a batch that is not
      full, in order. */
  lemma WriterKeepsUp(c: Config, acts: seq<Action>) returns (writes: seq<Action>)
    requires var s := Exec(c, Boot(), acts); !s.stop && !s.writer.Off?
    ensures var s := Exec(c, Boot(), acts);
      WriterOnly(writes) && |writes| <= 10 * |s.queue| + 6
    ensures var s, d := Exec(c, Boot(), acts), Exec(c, Boot(), acts + writes);
      && d.queue == [] && |d.batch| < Quota(c) && d.rows + d.batch == Line(s)
      && !d.stop && d.writer.Test?
  {
    ExecInv(c, acts);
    writes := Serve(c, Exec(c, Boot(), acts));
    ExecConcat(c, Boot(), acts, writes);
    var d := Exec(c, Boot(), acts + writes);
    assert d.rows + d.batch + [] == d.rows + d.batch;
  }

  // ----- the engine object -----

  class MeteringEngine {
    const config: Config
    var vault: map<Key, nat>
    var rows: seq<Row>
    var connected: bool
    var stop: bool
    var queue: seq<Row>
    var batch: seq<Row>
    var writer: Writer
    var unfinished: int
    var calls: map<nat, Call>
    ghost var accepted: seq<Row>
    ghost var departures: seq<Departure>

    ghost function View(): State
      reads this
    {
      State(vault, rows, connected, stop, queue, batch, writer, unfinished, calls, accepted, departures)
    }

    constructor (config: Config)
      ensures this.config == config && View() == Boot()
    {
      this.config := config;
      vault, rows, connected, stop, queue, batch := map[], [], false, false, [], [];
      writer, unfinished, calls, accepted, departures := Off, 0, map[], [], [];
    }

    /** The part of `submit_envelope_payload` before its await. */
    method BeginSubmit(id: nat, r: Request)
      requires id !in calls
      modifies this`calls
      ensures View() == Step(config, old(View()), Submit(id, r))
    {
      if r.stale {
        calls := calls[id := Answered(r, Rejected(TimestampStale))];
      } else if r.fault.Some? {
        calls := calls[id := Answered(r, Rejected(BadSignature(r.fault.value)))];
      } else {
        calls := calls[id := Inserting(r)];
      }
    }

    /** The thread-pool call and the except clauses that answer when it raises. */
    method InsertIdempotencyRecord(id: nat)
      requires id in calls && calls[id].Inserting?
      modifies this`vault, this`calls
      ensures View() == Step(config, old(View()), Insert(id))
    {
      var r := calls[id].request;
      if !connected {
        calls := calls[id := Answered(r, Rejected(DatabaseFault))];
      } else if KeyOf(r) in vault {
        calls := calls[id := Answered(r, Rejected(NonceReplay))];
      } else {
        vault := vault[KeyOf(r) := id];
        calls := calls[id := Inserted(r)];
      }
    }

    /** After the await: the fast-path queue submission. */
    method FinishSubmit(id: nat)
      requires id in calls && calls[id].Inserted?
      modifies this`queue, this`unfinished, this`calls, this`accepted
      ensures View() == Step(config, old(View()), Resume(id))
    {
      var r := calls[id].request;
      if 0 < config.maxDepth <= |queue| {
        calls := calls[id := Answered(r, Rejected(Backpressure))];
      } else {
        queue := queue + [Row(id, r)];
        unfinished := unfinished + 1;
        accepted := accepted + [Row(id, r)];
        calls := calls[id := Answered(r, Accepted)];
      }
    }

    /** The executemany of `_flush_batch_to_wal`, in the thread pool. */
    method FlushBatch(flushOk: bool)
      requires writer.Flush?
      modifies this`rows, this`writer, this`departures
      ensures View() == StepWriter(config, old(View()), flushOk, false)
    {
      if flushOk {
        rows := rows + batch;
      }
      departures := Depart(departures, batch, flushOk);
      writer := Settle(writer.last);
    }

    /** The bookkeeping after its await. */
    method FinishFlush()
      requires writer.Settle?
      modifies this`batch, this`writer, this`unfinished
      ensures View() == StepWriter(config, old(View()), true, false)
    {
      var left := unfinished;
      for k := 0 to |batch|
        invariant left == unfinished - k
      {
        left := left - 1;   // task_done
      }
      unfinished, batch, writer := left, [], if writer.last then Exited else Test;
    }

    /** `_batch_writer_loop` up to its next await or test. */
    method WriterStep(flushOk: bool, timesOut: bool)
      modifies this`rows, this`queue, this`batch, this`writer, this`unfinished, this`departures
      ensures View() == StepWriter(config, old(View()), flushOk, timesOut)
    {
      match writer
      case Off =>
      case Test => writer := if !stop || queue != [] then Get else Final;
      case Get =>
        if timesOut {
          writer := Decide;
        } else if queue != [] {
          batch := batch + [queue[0]];
          queue := queue[1..];
          writer := Decide;
        }
      case Decide =>
        writer := if |batch| >= config.batchSize || (batch != [] && stop) then Flush(false) else Test;
      case Flush(_) => FlushBatch(flushOk);
      case Settle(_) => FinishFlush();
      case Final => writer := if batch != [] then Flush(true) else Exited;
      case Exited =>
    }

    /** `start` */
    method Start()
      requires writer.Off?
      modifies this`connected, this`stop, this`batch, this`writer
      ensures View() == Step(config, old(View()), StartEngine)
    {
      connected, stop, batch, writer := true, false, [], Test;
    }

    /** The process dies: memory is gone, calls in flight get no answer. */
    method Die()
      modifies this`connected, this`stop, this`queue, this`batch, this`writer, this`unfinished
      modifies this`calls, this`departures
      ensures View() == Step(config, old(View()), Crash)
    {
      LoseRows();
      connected, stop, writer := false, false, Off;
      calls := AbandonAll(calls);
    }

    method LoseRows()
      modifies this`queue, this`batch, this`unfinished, this`departures
      ensures View() == old(View()).(queue := [], batch := [], unfinished := 0,
        departures := Depart(old(departures), Unflushed(old(View())) + old(queue), false))
    {
      departures := Depart(departures, (if writer.Settle? then [] else batch) + queue, false);
      queue, batch, unfinished := [], [], 0;
    }

    /** Submissions, writer, stop, restart and crash in any order. */
    method Execute(acts: seq<Action>)
      modifies this
      ensures View() == Exec(config, old(View()), acts)
    {
      for i := 0 to |acts|
        invariant View() == Exec(config, old(View()), acts[..i])
      {
        assert acts[..i + 1][..i] == acts[..i];
        match acts[i]
        case Submit(id, r) => if id !in calls { BeginSubmit(id, r); }
        case Insert(id) => if id in calls && calls[id].Inserting? { InsertIdempotencyRecord(id); }
        case Resume(id) => if id in calls && calls[id].Inserted? { FinishSubmit(id); }
        case StartEngine => if writer.Off? { Start(); }
        case SetStop => stop := true;
        case Close => if stop && (writer.Exited? || writer.Off?) { connected, writer := false, Off; }
        case Crash => Die();
        case Write(flushOk, timesOut) => WriterStep(flushOk, timesOut);
      }
      assert acts[..|acts|] == acts;
    }

    /** Awaits the writer's task. */
    method AwaitWriter(ok: nat -> bool)
      requires Draining(View())
      modifies this`rows, this`queue, this`batch, this`writer, this`unfinished, this`departures
      ensures View() == Exec(config, old(View()), Drain(config, old(View()), ok, 0)) && writer.Exited?
    {
      ghost var s := View();
      var k := 0;
      while !writer.Exited?
        invariant Draining(View())
        invariant Exec(config, View(), Drain(config, View(), ok, k)) == Exec(config, s, Drain(config, s, ok, 0))
        decreases Remaining(View())
      {
        DrainUnfolds(config, View(), ok, k);
        WriterStep(ok(k), queue == []);
        k := k + 1;
      }
    }

    /** `stop`: set the event, await the writer (if one was started), close the database. */
    method Stop(ok: nat -> bool)
      requires RowsOk(config, View())
      modifies this
      ensures var s := Step(config, old(View()), SetStop);
        View() == Step(config, if s.writer.Off? then s else Exec(config, s, Drain(config, s, ok, 0)), Close)
      ensures !connected && writer.Off? && accepted == old(accepted) && vault == old(vault)
      ensures old(!stop && !writer.Off?) ==>
        && queue == [] && batch == [] && unfinished == 0
        && var s := Step(config, old(View()), SetStop);
           (rows == old(Line(View())) <==> NoLoss(config, s, Drain(config, s, ok, 0)))
    {
      RowsStep(config, View(), SetStop);
      ghost var working := !stop && !writer.Off?;
      stop := true;
      ghost var s := View();
      if !writer.Off? {
        DrainEnds(config, s, ok, 0);
        WritesKeepElsewhere(config, s, Drain(config, s, ok, 0));
        if working {
          DrainRows(config, s, ok);
        }
        AwaitWriter(ok);
      }
      connected, writer := false, Off;
    }
  }
}
