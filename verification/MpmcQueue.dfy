/** The queue object of src/audit_engine.c: cells, head and tail updated in place, one atomic
    access or one payload copy per method call, driven by an arbitrary schedule. */
module MpmcQueue {
  import opened Words
  import opened Mpmc
  import opened MpmcTheorems
  import opened MpmcRefinement

  class Queue<T(0)> {
    const width: Width
    const sequence: array<nat>
    const data: array<T>
    var head: nat
    var tail: nat
    var threads: map<Tid, Pc<T>>

    ghost predicate Valid()
      reads this
    {
      sequence.Length == data.Length > 0 && (sequence as object) != (data as object)
    }

    ghost function View(): Mem<T>
      reads this, sequence, data
    {
      Mem(sequence[..], data[..], head, tail, threads)
    }

    /** `init_queue` */
    constructor (width: Width, n: nat, blank: T)
      requires 0 < n
      ensures Valid() && fresh(sequence) && fresh(data)
      ensures this.width == width && View() == Init(n, blank)
    {
      this.width := width;
      sequence := new nat[n];
      data := new T[n](i => blank);
      head, tail, threads := 0, 0, map[];
      new;
      for i := 0 to n
        invariant Valid() && data[..] == seq(n, i => blank)
        invariant head == tail == 0 && threads == map[]
        invariant forall j | 0 <= j < i :: sequence[j] == j
      {
        sequence[i] := i;
      }
    }

    method Begin(a: Action<T>)
      requires Valid() && !a.Run?
      modifies this`threads
      ensures Valid() && View() == Step(width, old(View()), a)
    {
      var pc := if a.t in threads then threads[a.t] else Idle;
      if pc.Idle? || pc.DeqDone? {
        match a
        case BeginEnqueue(t, item) => threads := threads[t := EnqLoad(item, tail)];
        case BeginDequeue(t) => threads := threads[t := DeqLoad(head)];
      }
    }

    /** The next access of a thread inside `mpmc_enqueue`. */
    method EnqueueStep(t: Tid, weakFails: bool)
      requires Valid() && t in threads
      requires var pc := threads[t]; pc.EnqLoad? || pc.EnqCas? || pc.EnqReload? || pc.EnqCopy? || pc.EnqPublish?
      modifies this`tail, this`threads, sequence, data
      ensures Valid() && View() == Step(width, old(View()), Run(t, weakFails))
    {
      match threads[t]
      case EnqLoad(x, pos) =>
        var dif := Diff(width, sequence[Cell(pos, sequence.Length)], pos);
        if dif == 0 {
          threads := threads[t := EnqCas(x, pos)];
        } else {
          threads := threads[t := EnqReload(x, dif < 0)];
        }
      case EnqCas(x, pos) =>
        if tail == pos && !weakFails {
          tail := Norm(width, pos + 1);
          threads := threads[t := EnqCopy(x, pos)];
        } else {
          threads := threads[t := EnqLoad(x, tail)];
        }
      case EnqReload(x, _) =>
        threads := threads[t := EnqLoad(x, tail)];
      case EnqCopy(x, pos) =>
        data[Cell(pos, data.Length)] := x;
        threads := threads[t := EnqPublish(x, pos)];
      case EnqPublish(x, pos) =>
        sequence[Cell(pos, sequence.Length)] := Norm(width, pos + 1);
        threads := threads[t := Idle];
    }

    /** The next access of a thread inside `mpmc_dequeue`. */
    method DequeueStep(t: Tid, weakFails: bool)
      requires Valid() && t in threads
      requires var pc := threads[t]; pc.DeqLoad? || pc.DeqCas? || pc.DeqReload? || pc.DeqCopy? || pc.DeqRelease?
      modifies this`head, this`threads, sequence
      ensures Valid() && View() == Step(width, old(View()), Run(t, weakFails))
    {
      match threads[t]
      case DeqLoad(pos) =>
        var dif := Diff(width, sequence[Cell(pos, sequence.Length)], Norm(width, pos + 1));
        if dif == 0 {
          threads := threads[t := DeqCas(pos)];
        } else if dif < 0 {
          threads := threads[t := DeqDone(None)];
        } else {
          threads := threads[t := DeqReload];
        }
      case DeqCas(pos) =>
        if head == pos && !weakFails {
          head := Norm(width, pos + 1);
          threads := threads[t := DeqCopy(pos)];
        } else {
          threads := threads[t := DeqLoad(head)];
        }
      case DeqReload =>
        threads := threads[t := DeqLoad(head)];
      case DeqCopy(pos) =>
        threads := threads[t := DeqRelease(data[Cell(pos, data.Length)], pos)];
      case DeqRelease(x, pos) =>
        sequence[Cell(pos, sequence.Length)] := Norm(width, pos + sequence.Length);
        threads := threads[t := DeqDone(Some(x))];
    }

    /** Runs any schedule.  The object ends where the step machine ends. */
    method Execute(schedule: seq<Action<T>>)
      requires Valid()
      modifies this`head, this`tail, this`threads, sequence, data
      ensures Valid() && View() == ExecMem(width, old(View()), schedule)
    {
      for i := 0 to |schedule|
        invariant Valid() && View() == ExecMem(width, old(View()), schedule[..i])
      {
        assert schedule[..i + 1][..i] == schedule[..i];
        var a := schedule[i];
        var pc := if a.t in threads then threads[a.t] else Idle;
        if !a.Run? {
          Begin(a);
        } else if pc.EnqLoad? || pc.EnqCas? || pc.EnqReload? || pc.EnqCopy? || pc.EnqPublish? {
          EnqueueStep(a.t, a.weakFails);
        } else if pc.DeqLoad? || pc.DeqCas? || pc.DeqReload? || pc.DeqCopy? || pc.DeqRelease? {
          DequeueStep(a.t, a.weakFails);
        }
      }
      assert schedule[..|schedule|] == schedule;
    }
  }

  /** A fresh queue of 2^k cells with w-bit counters, run under any schedule with bounded lag: it is
      the wrapped unbounded queue, and every item a thread of it holds as the answer of a dequeue is
      the item claimed at a position that thread won. */
  method RunFresh<T(0)>(k: nat, w: nat, blank: T, schedule: seq<Action<T>>) returns (q: Queue<T>)
    requires 1 <= k <= w && LagBounded(w, Start(Pow2(k), blank), schedule)
    ensures q.Valid() && fresh(q)
    ensures var s := Start(Pow2(k), blank);
      && q.View() == Wrap(Bits(w), Exec(s, schedule).m)
      && forall t | t in q.threads && HasAnswer(q.threads[t]) ::
            AnsweredFrom(s, schedule, t, q.threads[t].result.value)
  {
    q := new Queue(Bits(w), Pow2(k), blank);
    q.Execute(schedule);
    Pow2Grows(1, k);
    WordQueueRefines(k, w, blank, schedule, 0);
    ghost var s := Start(Pow2(k), blank);
    forall t | t in q.threads && HasAnswer(q.threads[t])
      ensures AnsweredFrom(s, schedule, t, q.threads[t].result.value)
    {
      WordQueueRefines(k, w, blank, schedule, t);
      assert PcOf(q.View(), t) == q.threads[t] == DeqDone(Some(q.threads[t].result.value));
      AnswerIsClaimed(Pow2(k), blank, schedule, t, q.threads[t].result.value);
    }
  }
}
