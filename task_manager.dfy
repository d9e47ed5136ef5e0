/**
 * `TaskManager`: a join set with a capacity. The running tasks are kept as a
 * bag of the outcomes they will complete with; which one completes next is
 * chosen nondeterministically, as the runtime chooses it.
 */
module Tasks {
  import opened Wrappers

  /** How a joined task ended: with its value, or by panicking (or being cancelled). */
  datatype JoinOutcome<T> = Finished(value: T) | Panicked(reason: string)

  /** `join_next(...).and_then(|res| res.ok())` for one joined task. */
  function ValueOf<T>(o: JoinOutcome<T>): (r: Option<T>)
    ensures r.Some? <==> o.Finished?
    ensures r.Some? ==> r.value == o.value
  {
    if o.Finished? then Some(o.value) else None
  }

  class TaskManager<T(==)> {
    /** The tasks in the join set, each as the outcome it will complete with. */
    var pending: multiset<JoinOutcome<T>>
    const maxConcurrent: nat

    constructor (maxConcurrent: nat)
      ensures this.maxConcurrent == maxConcurrent
      ensures pending == multiset{} && Len() == 0
    {
      this.maxConcurrent := maxConcurrent;
      pending := multiset{};
    }

    /** The number of pending tasks: zero exactly when none is pending, and at least the multiplicity of each. */
    function Len(): (n: nat)
      reads this
      ensures n == 0 <==> pending == multiset{}
      ensures forall o :: o in pending ==> pending[o] <= n
    {
      |pending|
    }

    function IsEmpty(): (r: bool)
      reads this
      ensures r <==> Len() == 0
    {
      pending == multiset{}
    }

    /**
     * `spawn_or_wait`: below capacity the task is started and nothing is
     * returned. At capacity the task is NOT started: one running task (if
     * any) is joined, and its value is returned unless it panicked.
     */
    method SpawnOrWait(task: JoinOutcome<T>) returns (r: Option<T>)
      modifies this
      ensures old(Len()) < maxConcurrent ==> pending == old(pending) + multiset{task} && r.None?
      ensures old(Len()) >= maxConcurrent && old(pending) == multiset{} ==> pending == old(pending) && r.None?
      ensures old(Len()) >= maxConcurrent && old(pending) != multiset{} ==>
        exists o :: o in old(pending) && pending == old(pending) - multiset{o} && r == ValueOf(o)
      ensures old(Len()) <= maxConcurrent ==> Len() <= maxConcurrent
    {
      if |pending| >= maxConcurrent {
        if pending == multiset{} {
          return None;
        }
        var o :| o in pending;
        pending := pending - multiset{o};
        return ValueOf(o);
      }
      pending := pending + multiset{task};
      return None;
    }

    /** `join_all`: joins every task; the values of those that did not panic are returned. */
    method JoinAll() returns (results: seq<T>)
      modifies this
      ensures pending == multiset{} && IsEmpty()
      ensures forall v :: multiset(results)[v] == old(pending)[Finished(v)]
      ensures |results| <= old(Len())
    {
      results := [];
      while pending != multiset{}
        invariant forall v :: multiset(results)[v] + pending[Finished(v)] == old(pending)[Finished(v)]
        invariant |results| + |pending| <= old(|pending|)
        decreases |pending|
      {
        var o :| o in pending;
        pending := pending - multiset{o};
        if o.Finished? {
          results := results + [o.value];
        }
      }
    }
  }

  /** With capacity zero nothing is ever started. */
  method ZeroCapacityNeverSpawns<T(==)>(a: JoinOutcome<T>, b: JoinOutcome<T>) returns (len: nat, first: Option<T>)
    ensures len == 0 && first.None?
  {
    var m := new TaskManager<T>(0);
    first := m.SpawnOrWait(a);
    var _ := m.SpawnOrWait(b);
    len := m.Len();
  }

  /** A manager of capacity two runs two tasks, and a third call waits instead of starting more. */
  method CapacityIsRespected(a: int, b: int, c: int) returns (len: nat, joined: Option<int>)
    ensures len == 1
    ensures joined == Some(a) || joined == Some(b)
  {
    var m := new TaskManager<int>(2);
    var r1 := m.SpawnOrWait(Finished(a));
    var r2 := m.SpawnOrWait(Finished(b));
    assert m.pending == multiset{Finished(a), Finished(b)};
    joined := m.SpawnOrWait(Finished(c));
    len := m.Len();
  }
}
