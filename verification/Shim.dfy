/**
 Kernel objects across the three object tables of the shim: semaphores, queues and tasks.

 Every slot in use holds one kernel notification. The ledger below says that the live notifications are exactly the
 ones so held, each by one slot, whatever creates and deletes have been made, failed creates included.
 */
module Shim {
  import opened Prelude
  import Kernel
  import Semaphores
  import Queues
  import Tasks

  /** What each slot of a table holds. */
  type Holdings = seq<Option<Kernel.Handle>>

  function SemHoldings(ss: seq<Semaphores.Sem>): (r: Holdings)
    ensures |r| == |ss|
  {
    seq(|ss|, i requires 0 <= i < |ss| => if ss[i].used then Some(ss[i].notif) else None)
  }

  function QueueHoldings(qs: seq<Queues.QueueDefinition>): (r: Holdings)
    ensures |r| == |qs|
  {
    seq(|qs|, i requires 0 <= i < |qs| => if qs[i].used then Some(qs[i].notif) else None)
  }

  function TaskHoldings(ts: seq<Tasks.Tcb>): (r: Holdings)
    ensures |r| == |ts|
  {
    seq(|ts|, i requires 0 <= i < |ts| => if ts[i].used then Some(ts[i].notif) else None)
  }

  /** The live handles are exactly those held, and no two slots hold the same one. */
  ghost predicate Exact(hs: Holdings, live: set<Kernel.Handle>) {
    && (forall i :: 0 <= i < |hs| && hs[i].Some? ==> hs[i].value in live)
    && (forall x :: x in live ==> Some(x) in hs)
    && (forall i, j :: 0 <= i < j < |hs| && hs[i].Some? ==> hs[i] != hs[j])
  }

  lemma ExactTake(hs: Holdings, live: set<Kernel.Handle>, k: nat, x: Kernel.Handle)
    requires Exact(hs, live) && k < |hs| && hs[k].None? && x !in live
    ensures Exact(hs[k := Some(x)], live + {x})
  {
    var hs' := hs[k := Some(x)];
    forall y | y in live + {x}
      ensures Some(y) in hs'
    {
      if y != x {
        var i :| 0 <= i < |hs| && hs[i] == Some(y);
        assert hs'[i] == Some(y);
      } else {
        assert hs'[k] == Some(y);
      }
    }
  }

  lemma ExactFree(hs: Holdings, live: set<Kernel.Handle>, k: nat)
    requires Exact(hs, live) && k < |hs| && hs[k].Some?
    ensures Exact(hs[k := None], live - {hs[k].value})
  {
    var hs' := hs[k := None];
    forall y | y in live - {hs[k].value}
      ensures Some(y) in hs'
    {
      var i :| 0 <= i < |hs| && hs[i] == Some(y);
      assert hs'[i] == Some(y);
    }
  }

  /** An operation that takes, frees or leaves alone slot `k`. `h` says whether it did anything. */
  predicate Changes(before: Holdings, after: Holdings, h: Option<nat>, v: Option<Kernel.Handle>) {
    |after| == |before| && forall i :: 0 <= i < |after| ==> after[i] == if h == Some(i) then v else before[i]
  }

  /** A create that succeeds puts a fresh handle into a free slot and the live set; one that fails changes neither. */
  lemma CreateKeeps(a: Holdings, before: Holdings, after: Holdings, b: Holdings, live: set<Kernel.Handle>,
                    h: Option<nat>, offer: Option<Kernel.Handle>)
    requires Exact(a + before + b, live) && Changes(before, after, h, offer)
    requires h.Some? ==> h.value < |before| && before[h.value].None? && offer.Some? && offer.value !in live
    ensures Exact(a + after + b, live + if h.Some? then {offer.value} else {})
  {
    if h.Some? {
      ExactTake(a + before + b, live, |a| + h.value, offer.value);
      assert a + after + b == (a + before + b)[|a| + h.value := offer];
    } else {
      assert after == before;
      assert live + {} == live;
    }
  }

  /** A delete takes a handle out of its slot and out of the live set, or changes neither. */
  lemma DeleteKeeps(a: Holdings, before: Holdings, after: Holdings, b: Holdings, live: set<Kernel.Handle>, h: Option<nat>)
    requires Exact(a + before + b, live) && Changes(before, after, h, None)
    ensures var freed := if h.Some? && h.value < |before| then before[h.value] else None;
      Exact(a + after + b, live - if freed.Some? then {freed.value} else {})
  {
    var freed := if h.Some? && h.value < |before| then before[h.value] else None;
    if freed.Some? {
      assert (a + before + b)[|a| + h.value] == freed;
      ExactFree(a + before + b, live, |a| + h.value);
      assert a + after + b == (a + before + b)[|a| + h.value := None];
    } else {
      assert after == before;
      assert live - {} == live;
    }
  }

  /** Every held handle is live. */
  lemma HeldIsLive(a: Holdings, hs: Holdings, b: Holdings, live: set<Kernel.Handle>, i: nat)
    requires Exact(a + hs + b, live) && i < |hs| && hs[i].Some?
    ensures hs[i].value in live
  {
    assert (a + hs + b)[|a| + i] == hs[i];
  }

  /** A call into the shim, or a thread outside it. `offer` and `tid` are the kernel's choices. */
  datatype Op =
    | CreateSem(maxCount: nat, initial: nat, offer: Option<Kernel.Handle>)
    | CreateMutex(offer: Option<Kernel.Handle>)
    | DeleteSem(h: Option<nat>)
    | CreateQueue(length: nat, itemSize: nat, offer: Option<Kernel.Handle>)
    | DeleteQueue(h: Option<nat>)
    | CreateTask(hasCode: bool, offer: Option<Kernel.Handle>, tid: Option<Kernel.Tid>)
    | DeleteTask(self: Kernel.Tid, h: Option<nat>)
    | OtherThreadStarts(tid: Option<Kernel.Tid>)

  /** No queue size of the list, added to what the pool can have handed out, reaches 2^32. */
  predicate SizesSmall(ops: seq<Op>) {
    forall i :: 0 <= i < |ops| && ops[i].CreateQueue? ==> ops[i].length * ops[i].itemSize < WORD - Queues.POOL_BYTES
  }

  class Objects {
    const kernel: Kernel.System
    const sems: Semaphores.SemaphoreService
    const queues: Queues.QueueService
    const tasks: Tasks.TaskService

    /** The ledger: live notifications are those held, each once; used TCBs have distinct live threads. */
    ghost predicate Conserved()
      reads kernel, sems, queues, tasks
    {
      && |queues.queues| == Queues.MAX_QUEUES
      && Tasks.TidsOk(tasks.tasks, kernel.threads)
      && Exact(SemHoldings(sems.sems) + QueueHoldings(queues.queues) + TaskHoldings(tasks.tasks), kernel.notifs)
    }

    /** What an operation may rely on: the kernel offers fresh ids, and only live threads call. */
    predicate Possible(op: Op)
      reads kernel
    {
      match op
      case CreateSem(maxCount, _, offer) => maxCount < WORD && (offer.Some? ==> offer.value !in kernel.notifs)
      case CreateMutex(offer) => offer.Some? ==> offer.value !in kernel.notifs
      case DeleteSem(_) => true
      case CreateQueue(_, _, offer) => offer.Some? ==> offer.value !in kernel.notifs
      case DeleteQueue(_) => true
      case CreateTask(_, offer, tid) =>
        (offer.Some? ==> offer.value !in kernel.notifs) && (tid.Some? ==> tid.value !in kernel.threads)
      case DeleteTask(self, _) => self in kernel.threads
      case OtherThreadStarts(tid) => tid.Some? ==> tid.value !in kernel.threads
    }

    /** The queue create does not grant a size that has wrapped 32 bits. */
    ghost predicate GrantFits(op: Op)
      reads queues
    {
      op.CreateQueue? ==>
        var p := Queues.PoolState(queues.qpoolUsed, queues.granted);
        !(Queues.Reaches(queues.queues, op.length, op.itemSize) && Queues.GrantWraps(p, Queues.Request(op.length, op.itemSize)))
    }

    constructor ()
      ensures Conserved() && queues.Valid()
      ensures fresh(kernel) && fresh(sems) && fresh(queues) && fresh(queues.qpool) && fresh(tasks)
    {
      kernel := new Kernel.System();
      sems := new Semaphores.SemaphoreService();
      queues := new Queues.QueueService();
      tasks := new Tasks.TaskService();
    }

    method DoSem(op: Op)
      requires Conserved() && Possible(op) && (op.CreateSem? || op.CreateMutex? || op.DeleteSem?)
      modifies sems, kernel`notifs
      ensures Conserved()
    {
      ghost var before := SemHoldings(sems.sems);
      ghost var rest := QueueHoldings(queues.queues) + TaskHoldings(tasks.tasks);
      ghost var live := kernel.notifs;
      assert before + QueueHoldings(queues.queues) + TaskHoldings(tasks.tasks) == [] + before + rest;
      match op {
        case CreateSem(maxCount, initial, offer) =>
          var h := sems.XSemaphoreCreateCounting(kernel, maxCount, initial, offer);
          CreateKeeps([], before, SemHoldings(sems.sems), rest, live, h, offer);
        case CreateMutex(offer) =>
          var h := sems.XSemaphoreCreateMutex(kernel, offer);
          CreateKeeps([], before, SemHoldings(sems.sems), rest, live, h, offer);
        case DeleteSem(h) =>
          if sems.Live(h) {
            HeldIsLive([], before, rest, live, h.value);
          }
          sems.VSemaphoreDelete(kernel, h);
          DeleteKeeps([], before, SemHoldings(sems.sems), rest, live, h);
      }
      assert [] + SemHoldings(sems.sems) + rest
          == SemHoldings(sems.sems) + QueueHoldings(queues.queues) + TaskHoldings(tasks.tasks);
    }

    method DoQueue(op: Op)
      requires Conserved() && Possible(op) && (op.CreateQueue? || op.DeleteQueue?)
      modifies queues, kernel`notifs
      ensures Conserved()
      ensures old(queues.Valid()) ==> (queues.Valid() <==> old(GrantFits(op)))
    {
      ghost var before := QueueHoldings(queues.queues);
      ghost var a := SemHoldings(sems.sems);
      ghost var b := TaskHoldings(tasks.tasks);
      ghost var live := kernel.notifs;
      match op {
        case CreateQueue(length, itemSize, offer) =>
          var h := queues.XQueueCreate(kernel, length, itemSize, offer);
          CreateKeeps(a, before, QueueHoldings(queues.queues), b, live, h, offer);
        case DeleteQueue(h) =>
          if queues.Live(h) {
            HeldIsLive(a, before, b, live, h.value);
          }
          queues.VQueueDelete(kernel, h);
          DeleteKeeps(a, before, QueueHoldings(queues.queues), b, live, h);
      }
    }

    method DoTask(op: Op)
      requires Conserved() && Possible(op) && (op.CreateTask? || op.DeleteTask?)
      modifies tasks, kernel
      ensures Conserved()
    {
      ghost var before := TaskHoldings(tasks.tasks);
      ghost var a := SemHoldings(sems.sems) + QueueHoldings(queues.queues);
      ghost var live := kernel.notifs;
      assert a + before == a + before + [];
      match op {
        case CreateTask(hasCode, offer, tid) =>
          var h := tasks.XTaskCreate(kernel, hasCode, offer, tid);
          CreateKeeps(a, before, TaskHoldings(tasks.tasks), [], live, h, offer);
        case DeleteTask(self, h) =>
          forall i | 0 <= i < |tasks.tasks| && tasks.tasks[i].used
            ensures tasks.tasks[i].notif in kernel.notifs
          {
            HeldIsLive(a, before, [], live, i);
          }
          var exits, gone := tasks.VTaskDelete(kernel, self, h);
          DeleteKeeps(a, before, TaskHoldings(tasks.tasks), [], live, gone);
      }
      assert a + TaskHoldings(tasks.tasks) + [] == a + TaskHoldings(tasks.tasks);
    }

    /**
     Every operation keeps the ledger, whatever sizes it asks for; no delete inside it destroys a notification that is
     not live. The queue table stays sound exactly when no wrapped size is granted.
     */
    method Do(op: Op)
      requires Conserved() && Possible(op)
      modifies sems, queues, tasks, kernel
      ensures Conserved()
      ensures old(queues.Valid()) ==> (queues.Valid() <==> old(GrantFits(op)))
    {
      match op {
        case CreateSem(_, _, _) => DoSem(op);
        case CreateMutex(_) => DoSem(op);
        case DeleteSem(_) => DoSem(op);
        case CreateQueue(_, _, _) => DoQueue(op);
        case DeleteQueue(_) => DoQueue(op);
        case CreateTask(_, _, _) => DoTask(op);
        case DeleteTask(_, _) => DoTask(op);
        case OtherThreadStarts(tid) => var _ := kernel.ThreadCreate(tid);
      }
    }

    /**
     Any run of operations, from any conserved state, ends in a conserved state; with sizes that cannot wrap the queue
     table stays sound as well.
     */
    method DoAll(ops: seq<Op>)
      requires Conserved()
      modifies sems, queues, tasks, kernel
      ensures Conserved()
      ensures old(queues.Valid()) && SizesSmall(ops) ==> queues.Valid()
    {
      for i := 0 to |ops|
        invariant Conserved()
        invariant old(queues.Valid()) && SizesSmall(ops) ==> queues.Valid()
      {
        if Possible(ops[i]) {
          Do(ops[i]);
        }
      }
    }
  }
}
