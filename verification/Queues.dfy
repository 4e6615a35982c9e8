/**
 Queues as byte rings carved out of one shared pool (freertos/src/freertos_queue.c).

 The first part relates the bytes of the pool to sequences of items; the second is the code.
 */
module Queues {
  import opened Prelude
  import Kernel

  const MAX_QUEUES: nat := 4
  const POOL_BYTES: nat := 512

  /** One slot of `g_queues`. `storage` is an offset into the pool. */
  datatype QueueDefinition = QueueDefinition(
    used: bool,
    notif: Kernel.Handle,
    storage: nat,
    itemSize: nat,
    length: nat,
    head: nat,
    tail: nat,
    messages: nat)
  {
    /** Bytes of storage, in unbounded arithmetic. */
    function Bytes(): nat {
      length * itemSize
    }

    /** The ring position of the k-th queued item. */
    function Position(k: nat): nat {
      if head + k < length then head + k else head + k - length
    }

    /** What holds of a slot in use when `poolUsed` bytes of the pool have been handed out. */
    predicate Ok(poolUsed: nat) {
      && 1 <= length && 1 <= itemSize
      && head < length && tail < length && messages <= length
      && tail == Position(messages)
      && storage + Bytes() <= poolUsed
    }
  }

  const FREE := QueueDefinition(false, 0, 0, 0, 0, 0, 0, 0)

  // ---------------------------------------------------------------------------------------------------------------
  // Bytes and items
  // ---------------------------------------------------------------------------------------------------------------

  /** The byte offset of ring position `p`: `q->storage + p * q->item_size`. */
  function Offset(q: QueueDefinition, p: nat): nat {
    q.storage + p * q.itemSize
  }

  /** Positions of a ring do not overlap and stay inside its storage. */
  lemma OffsetBounds(q: QueueDefinition, p: nat, r: nat)
    ensures q.storage <= Offset(q, p)
    ensures p < r ==> Offset(q, p) + q.itemSize <= Offset(q, r)
    ensures p < q.length ==> Offset(q, p) + q.itemSize <= q.storage + q.Bytes()
  {
    if p < r {
      MulStep(p, r, q.itemSize);
    }
    if p < q.length {
      MulStep(p, q.length, q.itemSize);
    }
  }

  lemma MulStep(a: nat, b: nat, n: nat)
    requires a < b
    ensures a * n + n <= b * n
  {
    MulMonotone(n, a + 1, b);
    assert (a + 1) * n == a * n + n;
  }

  /** The item stored at ring position `p`. */
  function ItemAt(mem: seq<byte>, q: QueueDefinition, p: nat): Item
    requires Offset(q, p) + q.itemSize <= |mem|
  {
    mem[Offset(q, p)..Offset(q, p) + q.itemSize]
  }

  ghost predicate InMemory(mem: seq<byte>, q: QueueDefinition) {
    q.Ok(|mem|)
  }

  /** The abstract value of a ring: its items from the head on. */
  function Contents(mem: seq<byte>, q: QueueDefinition): (r: seq<Item>)
    requires InMemory(mem, q)
    ensures |r| == q.messages
  {
    seq(q.messages, k requires 0 <= k < q.messages =>
      OffsetBounds(q, q.Position(k), q.length);
      ItemAt(mem, q, q.Position(k)))
  }

  /** `mem` with `item` copied to `at`: the effect of memcpy. */
  function Store(mem: seq<byte>, at: nat, item: Item): (r: seq<byte>)
    requires at + |item| <= |mem|
    ensures |r| == |mem|
  {
    mem[..at] + item + mem[at + |item|..]
  }

  /** A copy to ring position `p` changes the item there and no other position of the ring. */
  lemma StoreItem(mem: seq<byte>, q: QueueDefinition, p: nat, item: Item, r: nat)
    requires InMemory(mem, q) && p < q.length && r < q.length && |item| == q.itemSize
    requires Offset(q, p) + q.itemSize <= |mem| && Offset(q, r) + q.itemSize <= |mem|
    ensures ItemAt(Store(mem, Offset(q, p), item), q, r) == if r == p then item else ItemAt(mem, q, r)
  {
    OffsetBounds(q, p, r);
    OffsetBounds(q, r, p);
    StoreSlice(mem, Offset(q, p), item, Offset(q, r), Offset(q, r) + q.itemSize);
  }

  /** A copy leaves every slice beside it unchanged, and its own slice is the item. */
  lemma StoreSlice(mem: seq<byte>, at: nat, item: Item, lo: nat, hi: nat)
    requires at + |item| <= |mem| && lo <= hi <= |mem|
    ensures hi <= at || at + |item| <= lo ==> Store(mem, at, item)[lo..hi] == mem[lo..hi]
    ensures lo == at && hi == at + |item| ==> Store(mem, at, item)[lo..hi] == item
  {
    var mem' := Store(mem, at, item);
    forall k | 0 <= k < |mem|
      ensures mem'[k] == if at <= k < at + |item| then item[k - at] else mem[k]
    {
      StoreByte(mem, at, item, k);
    }
    if hi <= at || at + |item| <= lo {
      forall k | 0 <= k < hi - lo
        ensures mem'[lo..hi][k] == mem[lo..hi][k]
      {
        assert mem'[lo + k] == mem[lo + k];
      }
      assert mem'[lo..hi] == mem[lo..hi];
    }
    if lo == at && hi == at + |item| {
      forall k | 0 <= k < |item|
        ensures mem'[lo..hi][k] == item[k]
      {
        assert mem'[lo + k] == item[k];
      }
      assert mem'[lo..hi] == item;
    }
  }

  lemma StoreByte(mem: seq<byte>, at: nat, item: Item, k: nat)
    requires at + |item| <= |mem| && k < |mem|
    ensures Store(mem, at, item)[k] == if at <= k < at + |item| then item[k - at] else mem[k]
  {
  }

  predicate Disjoint(q: QueueDefinition, r: QueueDefinition) {
    q.storage + q.Bytes() <= r.storage || r.storage + r.Bytes() <= q.storage
  }

  /** Framing: a copy into one ring does not change the contents of a ring with other storage. */
  lemma StoreFrame(mem: seq<byte>, q: QueueDefinition, p: nat, item: Item, other: QueueDefinition)
    requires InMemory(mem, q) && InMemory(mem, other) && Disjoint(q, other)
    requires p < q.length && |item| == q.itemSize && Offset(q, p) + q.itemSize <= |mem|
    ensures Contents(Store(mem, Offset(q, p), item), other) == Contents(mem, other)
  {
    var mem' := Store(mem, Offset(q, p), item);
    OffsetBounds(q, p, q.length);
    forall k | 0 <= k < other.messages
      ensures Contents(mem', other)[k] == Contents(mem, other)[k]
    {
      var r := other.Position(k);
      OffsetBounds(other, r, other.length);
      StoreSlice(mem, Offset(q, p), item, Offset(other, r), Offset(other, r) + other.itemSize);
    }
  }

  /** The slot after `queue_send` (lines 45 to 58), and the ring position written. */
  function SendPosition(q: QueueDefinition, front: bool): nat
    requires 1 <= q.length
  {
    if !front then q.tail else if q.head == 0 then q.length - 1 else q.head - 1
  }

  function AfterSend(q: QueueDefinition, front: bool): QueueDefinition
    requires 1 <= q.length
  {
    if front then q.(head := SendPosition(q, true), messages := q.messages + 1)
    else q.(tail := if q.tail + 1 >= q.length then 0 else q.tail + 1, messages := q.messages + 1)
  }

  /** The position written is free: no queued item sits there, before or after. */
  lemma SendPositions(q: QueueDefinition, front: bool)
    requires 1 <= q.length && q.head < q.length && q.tail == q.Position(q.messages) && q.messages < q.length
    ensures var p := SendPosition(q, front); var q' := AfterSend(q, front);
      && p < q.length && q'.head < q.length && q'.tail < q.length && q'.tail == q'.Position(q'.messages)
      && (forall k :: 0 <= k < q.messages ==> q'.Position(if front then k + 1 else k) == q.Position(k) != p)
      && q'.Position(if front then 0 else q.messages) == p
  {
  }

  /** A send on a ring with room prepends or appends exactly one item. */
  lemma SendRefines(mem: seq<byte>, q: QueueDefinition, item: Item, front: bool)
    requires InMemory(mem, q) && q.messages < q.length && |item| == q.itemSize
    ensures Offset(q, SendPosition(q, front)) + q.itemSize <= |mem|
    ensures AfterSend(q, front).Ok(|mem|)
    ensures Contents(Store(mem, Offset(q, SendPosition(q, front)), item), AfterSend(q, front))
         == Push(Contents(mem, q), item, front)
  {
    SendPositions(q, front);
    var p := SendPosition(q, front);
    OffsetBounds(q, p, q.length);
    var q' := AfterSend(q, front);
    var mem' := Store(mem, Offset(q, p), item);
    forall k | 0 <= k < q.messages
      ensures Contents(mem', q')[if front then k + 1 else k] == Contents(mem, q)[k]
    {
      SentItem(mem, q, item, front, q.Position(k));
    }
    SentItem(mem, q, item, front, p);
  }

  lemma SentItem(mem: seq<byte>, q: QueueDefinition, item: Item, front: bool, r: nat)
    requires InMemory(mem, q) && q.messages < q.length && |item| == q.itemSize && r < q.length
    ensures var p := SendPosition(q, front);
      && p < q.length && Offset(q, p) + q.itemSize <= |mem| && Offset(q, r) + q.itemSize <= |mem|
      && ItemAt(Store(mem, Offset(q, p), item), AfterSend(q, front), r) == if r == p then item else ItemAt(mem, q, r)
  {
    SendPositions(q, front);
    OffsetBounds(q, SendPosition(q, front), q.length);
    OffsetBounds(q, r, q.length);
    StoreItem(mem, q, SendPosition(q, front), item, r);
  }

  /** The slot after `xQueueReceive` (lines 134 to 139). */
  function AfterReceive(q: QueueDefinition): QueueDefinition
    requires q.messages > 0
  {
    q.(head := if q.head + 1 >= q.length then 0 else q.head + 1, messages := q.messages - 1)
  }

  /** A receive on a ring that is not empty takes exactly the first item. */
  lemma ReceiveRefines(mem: seq<byte>, q: QueueDefinition)
    requires InMemory(mem, q) && q.messages > 0
    ensures Offset(q, q.head) + q.itemSize <= |mem|
    ensures ItemAt(mem, q, q.head) == Contents(mem, q)[0]
    ensures AfterReceive(q).Ok(|mem|)
    ensures Contents(mem, AfterReceive(q)) == Contents(mem, q)[1..]
  {
    OffsetBounds(q, q.head, q.length);
    var q' := AfterReceive(q);
    forall k | 0 <= k < q'.messages
      ensures Contents(mem, q')[k] == Contents(mem, q)[k + 1]
    {
      assert q'.Position(k) == q.Position(k + 1);
    }
  }

  // ---------------------------------------------------------------------------------------------------------------
  // The pool
  // ---------------------------------------------------------------------------------------------------------------

  /** A slice of the pool, with its true (unbounded) size. */
  datatype Slice = Slice(off: nat, size: nat)

  /** The slices handed out so far, in order, tile the first `used` bytes of the pool. */
  predicate Tiled(slices: seq<Slice>, used: nat) {
    if slices == [] then used == 0
    else
      var last := slices[|slices| - 1];
      last.off + last.size == used && Tiled(slices[..|slices| - 1], last.off)
  }

  function TotalSize(slices: seq<Slice>): nat {
    if slices == [] then 0 else TotalSize(slices[..|slices| - 1]) + slices[|slices| - 1].size
  }

  /** Slices that tile are pairwise disjoint and in bounds, and the bump pointer is the sum of their sizes. */
  lemma {:induction false} TiledSlices(slices: seq<Slice>, used: nat)
    requires Tiled(slices, used)
    ensures forall i :: 0 <= i < |slices| ==> slices[i].off + slices[i].size <= used
    ensures forall i, j :: 0 <= i < j < |slices| ==> slices[i].off + slices[i].size <= slices[j].off
    ensures TotalSize(slices) == used
  {
    if slices == [] {
    } else {
      TiledSlices(slices[..|slices| - 1], slices[|slices| - 1].off);
    }
  }

  /** One `xQueueCreate` request that reaches the allocator. */
  datatype Request = Request(length: nat, itemSize: nat)

  datatype PoolState = PoolState(used: nat, slices: seq<Slice>)

  /** The check of `qpool_alloc` lets the request through. */
  predicate Granted(p: PoolState, r: Request) {
    Add32(p.used, Mul32(r.length, r.itemSize)) <= POOL_BYTES
  }

  /** The bump pointer in 32-bit arithmetic, and the slice a granted request will use, in true size. */
  function Alloc(p: PoolState, r: Request): PoolState {
    if !Granted(p, r) then p
    else PoolState(Add32(p.used, Mul32(r.length, r.itemSize)), p.slices + [Slice(p.used, r.length * r.itemSize)])
  }

  /** The request is granted, and its slice ends beyond the 32-bit range, so that the check has passed on a wrapped sum. */
  predicate GrantWraps(p: PoolState, r: Request) {
    Granted(p, r) && p.used + r.length * r.itemSize >= WORD
  }

  /** Which slots are in use. */
  function Used(qs: seq<QueueDefinition>): (r: seq<bool>)
    ensures |r| == |qs| && forall i :: 0 <= i < |r| ==> r[i] == qs[i].used
  {
    seq(|qs|, i requires 0 <= i < |qs| => qs[i].used)
  }

  /** No slot in use reaches outside the first `used` bytes or into the storage of another. */
  ghost predicate TableOk(qs: seq<QueueDefinition>, used: nat) {
    && (forall i :: 0 <= i < |qs| && qs[i].used ==> qs[i].Ok(used))
    && (forall i, j :: 0 <= i < |qs| && 0 <= j < |qs| && i != j && qs[i].used && qs[j].used ==> Disjoint(qs[i], qs[j]))
  }

  predicate SameShape(q: QueueDefinition, r: QueueDefinition) {
    r == q.(head := r.head, tail := r.tail, messages := r.messages)
  }

  /** A ring update of one slot keeps the table, and a copy into its storage changes no other slot's items. */
  lemma UpdateTable(qs: seq<QueueDefinition>, used: nat, i: nat, q': QueueDefinition)
    requires TableOk(qs, used) && i < |qs| && qs[i].used && SameShape(qs[i], q') && q'.Ok(used)
    ensures TableOk(qs[i := q'], used)
  {
  }

  lemma FrameOthers(qs: seq<QueueDefinition>, mem: seq<byte>, i: nat, p: nat, item: Item)
    requires TableOk(qs, |mem|) && i < |qs| && qs[i].used
    requires p < qs[i].length && |item| == qs[i].itemSize && Offset(qs[i], p) + qs[i].itemSize <= |mem|
    ensures forall j :: 0 <= j < |qs| && j != i && qs[j].used ==>
      Contents(Store(mem, Offset(qs[i], p), item), qs[j]) == Contents(mem, qs[j])
  {
    forall j | 0 <= j < |qs| && j != i && qs[j].used
      ensures Contents(Store(mem, Offset(qs[i], p), item), qs[j]) == Contents(mem, qs[j])
    {
      StoreFrame(mem, qs[i], p, item, qs[j]);
    }
  }

  lemma TableMonotone(qs: seq<QueueDefinition>, used: nat, more: nat)
    requires TableOk(qs, used) && used <= more
    ensures TableOk(qs, more)
  {
    forall i | 0 <= i < |qs| && qs[i].used
      ensures qs[i].Ok(more)
    {
      assert qs[i].Ok(used);
    }
  }

  /** A grant keeps the pool tiled exactly when its size has not wrapped. */
  lemma AllocTiled(p: PoolState, r: Request)
    requires p.used <= POOL_BYTES && Tiled(p.slices, p.used)
    ensures Alloc(p, r).used <= POOL_BYTES
    ensures !GrantWraps(p, r) ==> p.used <= Alloc(p, r).used
    ensures Tiled(Alloc(p, r).slices, Alloc(p, r).used) <==> !GrantWraps(p, r)
  {
    var p' := Alloc(p, r);
    if p'.slices != p.slices {
      assert p'.slices[..|p'.slices| - 1] == p.slices;
    }
  }

  /** The slot that a create has cleared, or filled with a new ring at the end of the pool. */
  lemma TableWithSlot(qs: seq<QueueDefinition>, used: nat, i: nat, q: QueueDefinition, more: nat)
    requires TableOk(qs, used) && used <= more && i < |qs| && !qs[i].used
    requires q.used ==> q.Ok(more) && used <= q.storage
    ensures TableOk(qs[i := q], more)
  {
    TableMonotone(qs, used, more);
  }

  /** The slot of a new, empty ring whose storage starts at `storage`. */
  function NewRing(notif: Kernel.Handle, storage: nat, r: Request): QueueDefinition {
    QueueDefinition(true, notif, storage, r.itemSize, r.length, 0, 0, 0)
  }

  /** A create request gets as far as the pool allocator. */
  predicate Reaches(qs: seq<QueueDefinition>, length: nat, itemSize: nat) {
    length != 0 && itemSize != 0 && FreeSlot(Used(qs)) < |qs|
  }

  datatype SendResult = Pass | Full | Waits
  datatype ReceiveResult = Received(item: Item) | Empty | WaitsForItem

  /** A call of a client on one queue, without a timeout, and an entry of a log: what it returned, and the item it got. */
  datatype Call = Send(item: Item, front: bool) | Receive

  datatype Entry = Entry(call: Call, ok: bool, got: Item)

  /** What a log says is queued. */
  function Queued(initial: seq<Item>, log: seq<Entry>): seq<Item> {
    if log == [] then initial
    else
      After(Queued(initial, log[..|log| - 1]), log[|log| - 1])
  }

  function After(queued: seq<Item>, e: Entry): seq<Item> {
    if !e.ok then queued
    else
      match e.call
      case Send(item, front) => if front then [item] + queued else queued + [item]
      case Receive => if queued == [] then [] else queued[1..]
  }

  /** Every result follows from the ones before it: sends pass below the length, receives return the first item. */
  predicate QueueLaw(initial: seq<Item>, length: nat, log: seq<Entry>) {
    log != [] ==>
      var before := log[..|log| - 1];
      QueueLaw(initial, length, before) && Lawful(Queued(initial, before), length, log[|log| - 1])
  }

  /** The log is of these calls. */
  predicate Logs(log: seq<Entry>, calls: seq<Call>) {
    |log| == |calls| && forall i :: 0 <= i < |log| ==> log[i].call == calls[i]
  }

  predicate Sized(calls: seq<Call>, itemSize: nat) {
    forall i :: 0 <= i < |calls| ==> (calls[i].Send? ==> |calls[i].item| == itemSize)
  }

  /** The result of one more call, when `queued` is what the log says. */
  predicate Lawful(queued: seq<Item>, length: nat, e: Entry) {
    match e.call
    case Send(_, _) => e.ok == (|queued| < length)
    case Receive => e.ok == (queued != []) && (e.ok ==> e.got == queued[0])
  }

  lemma LawExtend(initial: seq<Item>, length: nat, log: seq<Entry>, e: Entry)
    requires QueueLaw(initial, length, log) && Lawful(Queued(initial, log), length, e)
    ensures QueueLaw(initial, length, log + [e])
    ensures Queued(initial, log + [e]) == After(Queued(initial, log), e)
  {
    assert (log + [e])[..|log + [e]| - 1] == log;
  }

  /** A log of sends to the back only. */
  predicate BackSends(log: seq<Entry>) {
    forall i :: 0 <= i < |log| ==> log[i].call.Send? && !log[i].call.front
  }

  function ItemsOf(log: seq<Entry>): (r: seq<Item>)
    requires BackSends(log)
    ensures |r| == |log|
  {
    seq(|log|, i requires 0 <= i < |log| => log[i].call.item)
  }

  /** What the law says of an empty queue of a given length: exactly so many sends pass, and the next ones are refused. */
  lemma {:induction false} FillsUp(length: nat, log: seq<Entry>)
    requires QueueLaw([], length, log) && BackSends(log)
    ensures forall i :: 0 <= i < |log| ==> (log[i].ok <==> i < length)
    ensures Queued([], log) == if |log| <= length then ItemsOf(log) else ItemsOf(log)[..length]
  {
    if log == [] {
    } else {
      var before := log[..|log| - 1];
      FillsUp(length, before);
      assert ItemsOf(log) == ItemsOf(before) + [log[|log| - 1].call.item];
    }
  }

  /** ... and receives return what is queued, in order and each item once; then they are refused. */
  lemma {:induction false} Drains(initial: seq<Item>, length: nat, log: seq<Entry>)
    requires QueueLaw(initial, length, log) && forall i :: 0 <= i < |log| ==> log[i].call.Receive?
    ensures forall i :: 0 <= i < |log| ==>
      (log[i].ok <==> i < |initial|) && (i < |initial| ==> log[i].got == initial[i])
    ensures Queued(initial, log) == if |log| <= |initial| then initial[|log|..] else []
  {
    if log == [] {
    } else {
      Drains(initial, length, log[..|log| - 1]);
    }
  }

  /** The statics of freertos_queue.c, and the history of slices handed out by `qpool_alloc`. */
  class QueueService {
    var queues: seq<QueueDefinition>
    const qpool: array<byte>
    var qpoolUsed: nat
    ghost var granted: seq<Slice>

    ghost predicate Valid()
      reads this, qpool
    {
      && qpool.Length == POOL_BYTES
      && |queues| == MAX_QUEUES
      && qpoolUsed <= POOL_BYTES
      && Tiled(granted, qpoolUsed)
      && TableOk(queues, qpoolUsed)
    }

    /** A handle that points to a slot in use. */
    predicate Live(h: Option<nat>)
      reads this
    {
      h.Some? && h.value < |queues| && queues[h.value].used
    }

    /** The items queued in slot `i`, none when it is not in use. */
    ghost function Items(i: nat): seq<Item>
      requires Valid() && i < |queues|
      reads this, qpool
    {
      TableMonotone(queues, qpoolUsed, POOL_BYTES);
      if queues[i].used then Contents(qpool[..], queues[i]) else []
    }

    constructor ()
      ensures Valid() && fresh(qpool)
      ensures queues == seq(MAX_QUEUES, _ => FREE) && qpoolUsed == 0 && granted == []
    {
      queues := seq(MAX_QUEUES, _ => FREE);
      qpool := new byte[POOL_BYTES](_ => 0);
      qpoolUsed := 0;
      granted := [];
    }

    /** memcpy into the pool. */
    method CopyIn(at: nat, item: Item)
      requires at + |item| <= qpool.Length
      modifies qpool
      ensures qpool[..] == Store(old(qpool[..]), at, item)
    {
      forall k | 0 <= k < |item| {
        qpool[at + k] := item[k];
      }
    }

    /** `queue_send` for one pass of its loop; `Waits` is the branch that blocks on the notification. */
    method QueueSend(h: Option<nat>, item: Option<Item>, ticks: nat, toFront: bool) returns (r: SendResult)
      requires Valid()
      requires Live(h) && item.Some? ==> |item.value| == queues[h.value].itemSize
      modifies `queues, qpool
      ensures Valid()
      ensures r.Pass? <==> old(Live(h)) && item.Some? && |old(Items(h.value))| < old(queues[h.value].length)
      ensures r.Waits? <==> !r.Pass? && old(Live(h)) && item.Some? && ticks != 0
      ensures r.Pass? ==> SameShape(old(queues[h.value]), queues[h.value])
      ensures r.Pass? ==> Items(h.value) == Push(old(Items(h.value)), item.value, toFront)
      ensures forall j :: 0 <= j < |queues| && !(r.Pass? && j == h.value) ==>
        queues[j] == old(queues[j]) && Items(j) == old(Items(j))
    {
      if h.None? || h.value >= |queues| || !queues[h.value].used || item.None? {
        return Full;
      }
      var i := h.value;
      var q := queues[i];
      if q.messages < q.length {
        ghost var mem := qpool[..];
        TableMonotone(queues, qpoolUsed, POOL_BYTES);
        SendRefines(mem, q, item.value, toFront);
        FrameOthers(queues, mem, i, SendPosition(q, toFront), item.value);
        q := WriteSlot(q, item.value, toFront);
        UpdateTable(queues, qpoolUsed, i, q);
        queues := queues[i := q];
        return Pass;
      }
      return if ticks == 0 then Full else Waits;
    }

    /** Lines 45 to 58: choose the ring position, copy the item there, and count it. */
    method WriteSlot(q0: QueueDefinition, item: Item, toFront: bool) returns (q: QueueDefinition)
      requires q0.Ok(qpool.Length) && qpool.Length < WORD && q0.messages < q0.length && |item| == q0.itemSize
      requires Offset(q0, SendPosition(q0, toFront)) + q0.itemSize <= qpool.Length
      modifies qpool
      ensures q == AfterSend(q0, toFront)
      ensures qpool[..] == Store(old(qpool[..]), Offset(q0, SendPosition(q0, toFront)), item)
    {
      q := q0;
      var slot;
      if toFront {
        if q.head == 0 {
          q := q.(head := q.length - 1);
        } else {
          q := q.(head := q.head - 1);
        }
        slot := q.storage + Mul32(q.head, q.itemSize);
      } else {
        slot := q.storage + Mul32(q.tail, q.itemSize);
        q := q.(tail := q.tail + 1);
        if q.tail >= q.length {
          q := q.(tail := 0);
        }
      }
      CopyIn(slot, item);
      q := q.(messages := q.messages + 1);
    }

    /** `xQueueReceive` for one pass of its loop. `buffer` says whether the caller gave one. */
    method XQueueReceive(h: Option<nat>, buffer: bool, ticks: nat) returns (r: ReceiveResult)
      requires Valid()
      modifies `queues
      ensures Valid()
      ensures r.Received? <==> old(Live(h)) && buffer && old(Items(h.value)) != []
      ensures r.WaitsForItem? <==> !r.Received? && old(Live(h)) && buffer && ticks != 0
      ensures r.Received? ==> SameShape(old(queues[h.value]), queues[h.value])
      ensures r.Received? ==> [r.item] + Items(h.value) == old(Items(h.value))
      ensures forall j :: 0 <= j < |queues| && !(r.Received? && j == h.value) ==>
        queues[j] == old(queues[j]) && Items(j) == old(Items(j))
    {
      if h.None? || h.value >= |queues| || !queues[h.value].used || !buffer {
        return Empty;
      }
      var i := h.value;
      var q := queues[i];
      if q.messages > 0 {
        TableMonotone(queues, qpoolUsed, POOL_BYTES);
        ReceiveRefines(qpool[..], q);
        var slot := q.storage + Mul32(q.head, q.itemSize);
        var item := qpool[slot..slot + q.itemSize];
        q := q.(head := q.head + 1);
        if q.head >= q.length {
          q := q.(head := 0);
        }
        q := q.(messages := q.messages - 1);
        UpdateTable(queues, qpoolUsed, i, q);
        queues := queues[i := q];
        return Received(item);
      }
      return if ticks == 0 then Empty else WaitsForItem;
    }

    /** `xQueueOverwrite`: on a queue of length one, the new item replaces whatever was there. */
    method XQueueOverwrite(h: Option<nat>, item: Option<Item>) returns (ok: bool)
      requires Valid()
      requires Live(h) && item.Some? ==> |item.value| == queues[h.value].itemSize
      modifies `queues, qpool
      ensures Valid()
      ensures ok <==> old(Live(h)) && item.Some? && old(queues[h.value].length) == 1
      ensures ok ==> SameShape(old(queues[h.value]), queues[h.value]) && Items(h.value) == [item.value]
      ensures forall j :: 0 <= j < |queues| && !(ok && j == h.value) ==>
        queues[j] == old(queues[j]) && Items(j) == old(Items(j))
    {
      if h.None? || h.value >= |queues| || !queues[h.value].used || queues[h.value].length != 1 || item.None? {
        return false;
      }
      var i := h.value;
      if queues[i].messages == 0 {
        var r := QueueSend(h, item, 0, false);
        return r.Pass?;
      }
      ghost var mem := qpool[..];
      var q := queues[i];
      TableMonotone(queues, qpoolUsed, POOL_BYTES);
      OffsetBounds(q, 0, q.length);
      StoreItem(mem, q, 0, item.value, 0);
      FrameOthers(queues, mem, i, 0, item.value);
      CopyIn(q.storage, item.value);
      return true;
    }

    method UxQueueMessagesWaiting(h: Option<nat>) returns (n: nat)
      requires Valid()
      ensures n == if Live(h) then |Items(h.value)| else 0
    {
      if h.None? || h.value >= |queues| || !queues[h.value].used {
        return 0;
      }
      return queues[h.value].messages;
    }

    /** `qpool_alloc` in 32-bit arithmetic; `size` is what the caller will use, `n` what it asks for. */
    method QpoolAlloc(n: nat, ghost size: nat) returns (off: Option<nat>)
      modifies `qpoolUsed, `granted
      ensures off == if Add32(old(qpoolUsed), n) > POOL_BYTES then None else Some(old(qpoolUsed))
      ensures off.None? ==> qpoolUsed == old(qpoolUsed) && granted == old(granted)
      ensures off.Some? ==> qpoolUsed == Add32(old(qpoolUsed), n)
      ensures off.Some? ==> granted == old(granted) + [Slice(off.value, size)]
    {
      if Add32(qpoolUsed, n) > POOL_BYTES {
        return None;
      }
      off := Some(qpoolUsed);
      granted := granted + [Slice(qpoolUsed, size)];
      qpoolUsed := Add32(qpoolUsed, n);
    }

    /** `queue_alloc`: the first free slot, cleared. */
    method QueueAlloc() returns (h: Option<nat>)
      modifies `queues
      ensures var f := FreeSlot(Used(old(queues)));
        if f == |old(queues)| then h == None && queues == old(queues)
        else h == Some(f) && queues == old(queues)[f := FREE]
    {
      var i := 0;
      while i < |queues| && queues[i].used
        invariant i <= |queues|
        invariant forall j :: 0 <= j < i ==> queues[j].used
      {
        i := i + 1;
      }
      if i == |queues| {
        return None;
      }
      queues := queues[i := FREE];
      return Some(i);
    }

    /** The code of `xQueueCreate`, lines 83 to 106: what it does to slots, pool and kernel. */
    method CreateRing(kernel: Kernel.System, length: nat, itemSize: nat, offer: Option<Kernel.Handle>)
      returns (h: Option<nat>)
      requires offer.Some? ==> offer.value !in kernel.notifs
      modifies `queues, `qpoolUsed, `granted, kernel`notifs
      ensures var f := FreeSlot(Used(old(queues)));
        var p := PoolState(old(qpoolUsed), old(granted));
        var r := Request(length, itemSize);
        if Reaches(old(queues), length, itemSize) then
          && PoolState(qpoolUsed, granted) == Alloc(p, r)
          && h == (if Granted(p, r) && offer.Some? then Some(f) else None)
          && queues == old(queues)[f := if h.Some? then NewRing(offer.value, p.used, r) else FREE]
        else
          h == None && queues == old(queues) && PoolState(qpoolUsed, granted) == p
      ensures kernel.notifs == old(kernel.notifs) + if h.Some? then {offer.value} else {}
    {
      if length == 0 || itemSize == 0 {
        return None;
      }
      var slot := QueueAlloc();
      if slot.None? {
        return None;
      }
      var bytes := Mul32(length, itemSize);
      var off := QpoolAlloc(bytes, length * itemSize);
      if off.None? {
        return None;
      }
      var notif := kernel.NotifCreate(offer);
      if notif.None? {
        return None;
      }
      queues := queues[slot.value := QueueDefinition(true, notif.value, off.value, itemSize, length, 0, 0, 0)];
      return slot;
    }

    /**
     `xQueueCreate`. The new ring is empty and lies in bytes of the pool that were never handed out before, and the table
     stays sound, exactly when no wrapped size is granted. Slots and notifications are right in any case.
     */
    method XQueueCreate(kernel: Kernel.System, length: nat, itemSize: nat, offer: Option<Kernel.Handle>)
      returns (h: Option<nat>)
      requires |queues| == MAX_QUEUES && (offer.Some? ==> offer.value !in kernel.notifs)
      modifies `queues, `qpoolUsed, `granted, kernel`notifs
      ensures h.Some? <==>
        && Reaches(old(queues), length, itemSize)
        && Granted(PoolState(old(qpoolUsed), old(granted)), Request(length, itemSize))
        && offer.Some?
      ensures kernel.notifs == old(kernel.notifs) + if h.Some? then {offer.value} else {}
      ensures |queues| == MAX_QUEUES
      ensures h.Some? ==>
        && h.value < MAX_QUEUES && !old(queues)[h.value].used
        && queues[h.value].used && queues[h.value].notif == offer.value
        && queues[h.value].length == length && queues[h.value].itemSize == itemSize
        && queues[h.value].storage == old(qpoolUsed) && queues[h.value].messages == 0
      ensures var p := PoolState(old(qpoolUsed), old(granted));
        PoolState(qpoolUsed, granted)
          == if Reaches(old(queues), length, itemSize) then Alloc(p, Request(length, itemSize)) else p
      ensures forall j :: 0 <= j < MAX_QUEUES && h != Some(j) ==>
        queues[j].used == old(queues)[j].used && (queues[j].used ==> queues[j] == old(queues)[j])
      ensures old(Valid()) ==>
        var p := PoolState(old(qpoolUsed), old(granted));
        Valid() <==> !(Reaches(old(queues), length, itemSize) && GrantWraps(p, Request(length, itemSize)))
      ensures old(Valid()) && Valid() ==>
        forall j :: 0 <= j < MAX_QUEUES ==> Items(j) == if h == Some(j) then [] else old(Items(j))
    {
      h := CreateRing(kernel, length, itemSize, offer);
      ghost var p := PoolState(old(qpoolUsed), old(granted));
      ghost var r := Request(length, itemSize);
      if old(Valid()) && Reaches(old(queues), length, itemSize) {
        AllocTiled(p, r);
        if !GrantWraps(p, r) {
          ghost var f := FreeSlot(Used(old(queues)));
          TableWithSlot(old(queues), p.used, f, queues[f], qpoolUsed);
        }
      }
    }

    /** The law of a queue, over any calls on it: every result follows from the ones before it. */
    method UseQueue(h: nat, calls: seq<Call>) returns (log: seq<Entry>)
      requires Valid() && Live(Some(h)) && Sized(calls, queues[h].itemSize)
      modifies `queues, qpool
      ensures Valid() && Live(Some(h))
      ensures Logs(log, calls) && QueueLaw(old(Items(h)), old(queues[h].length), log)
      ensures Items(h) == Queued(old(Items(h)), log)
    {
      log := [];
      ghost var initial, q := Items(h), queues[h];
      for i := 0 to |calls|
        invariant Valid() && Live(Some(h)) && queues[h].length == q.length && queues[h].itemSize == q.itemSize
        invariant |log| == i && forall k :: 0 <= k < i ==> log[k].call == calls[k]
        invariant QueueLaw(initial, q.length, log) && Items(h) == Queued(initial, log)
      {
        var entry := DoCall(h, calls[i]);
        LawExtend(initial, q.length, log, entry);
        log := log + [entry];
      }
    }

    method DoCall(h: nat, call: Call) returns (entry: Entry)
      requires Valid() && Live(Some(h)) && (call.Send? ==> |call.item| == queues[h].itemSize)
      modifies `queues, qpool
      ensures Valid() && Live(Some(h)) && SameShape(old(queues[h]), queues[h])
      ensures entry.call == call
      ensures Lawful(old(Items(h)), queues[h].length, entry) && Items(h) == After(old(Items(h)), entry)
      ensures forall j :: 0 <= j < |queues| && j != h ==> queues[j] == old(queues[j]) && Items(j) == old(Items(j))
    {
      match call {
        case Send(item, front) =>
          var r := QueueSend(Some(h), Some(item), 0, front);
          entry := Entry(call, r.Pass?, []);
        case Receive =>
          var r := XQueueReceive(Some(h), true, 0);
          entry := Entry(call, r.Received?, if r.Received? then r.item else []);
      }
    }

    /** A queue from its creation on: it holds as many items as were asked for, of the size that was asked for. */
    method CreateAndUse(kernel: Kernel.System, length: nat, itemSize: nat, offer: Option<Kernel.Handle>, calls: seq<Call>)
      returns (h: Option<nat>, log: seq<Entry>)
      requires Valid() && (offer.Some? ==> offer.value !in kernel.notifs)
      requires Sized(calls, itemSize)
      modifies `queues, `qpoolUsed, `granted, kernel`notifs, qpool
      ensures h.Some? && old(qpoolUsed) + length * itemSize < WORD ==> Logs(log, calls) && QueueLaw([], length, log)
    {
      log := [];
      var before := qpoolUsed;
      h := XQueueCreate(kernel, length, itemSize, offer);
      if h.Some? && before + length * itemSize < WORD {
        log := UseQueue(h.value, calls);
      }
    }

    /** `vQueueDelete`: the notification goes, the bytes are never given back. */
    method VQueueDelete(kernel: Kernel.System, h: Option<nat>)
      requires Live(h) ==> queues[h.value].notif in kernel.notifs
      modifies `queues, kernel`notifs
      ensures old(Valid()) ==> Valid()
      ensures old(Live(h)) ==> queues == old(queues)[h.value := old(queues[h.value]).(used := false)]
      ensures !old(Live(h)) ==> queues == old(queues)
      ensures kernel.notifs == old(kernel.notifs) - if old(Live(h)) then {old(queues[h.value].notif)} else {}
      ensures old(Valid()) ==> forall j :: 0 <= j < |queues| && h != Some(j) ==> Items(j) == old(Items(j))
    {
      if h.None? || h.value >= |queues| || !queues[h.value].used {
        return;
      }
      kernel.NotifDestroy(queues[h.value].notif);
      queues := queues[h.value := queues[h.value].(used := false)];
    }
  }

  // ---------------------------------------------------------------------------------------------------------------
  // Runs of the pool allocator
  // ---------------------------------------------------------------------------------------------------------------

  function AllocAll(requests: seq<Request>): PoolState {
    if requests == [] then PoolState(0, [])
    else Alloc(AllocAll(requests[..|requests| - 1]), requests[|requests| - 1])
  }

  /** Every slice lies in the pool, and no two share a byte. */
  ghost predicate WellCarved(slices: seq<Slice>) {
    && (forall i :: 0 <= i < |slices| ==> slices[i].off + slices[i].size <= POOL_BYTES)
    && (forall i, j :: 0 <= i < j < |slices| ==>
          slices[i].off + slices[i].size <= slices[j].off || slices[j].off + slices[j].size <= slices[i].off)
  }

  /** The size arithmetic of every request that was granted fitted in 32 bits. */
  predicate SizesFit(requests: seq<Request>) {
    requests == [] ||
    var before := requests[..|requests| - 1];
    var r := requests[|requests| - 1];
    var p := AllocAll(before);
    SizesFit(before) && !GrantWraps(p, r)
  }

  /** What a 32-bit size check is worth: a granted slice fits the pool exactly when its end has not wrapped. */
  lemma SliceFitsIff(used: nat, r: Request)
    requires used <= POOL_BYTES && Add32(used, Mul32(r.length, r.itemSize)) <= POOL_BYTES
    ensures used + r.length * r.itemSize <= POOL_BYTES <==> used + r.length * r.itemSize < WORD
  {
  }

  /**
   Over any history of creates, whatever was deleted in between, the slices ever handed out are in the pool and pairwise
   disjoint exactly when no granted request wrapped its size arithmetic; then they tile the used part of the pool, so
   the bump pointer is the sum of their sizes.
   */
  lemma {:induction false} PoolDisjointIff(requests: seq<Request>)
    ensures var p := AllocAll(requests);
      && p.used <= POOL_BYTES
      && (WellCarved(p.slices) <==> SizesFit(requests))
      && (SizesFit(requests) ==> Tiled(p.slices, p.used) && TotalSize(p.slices) == p.used)
  {
    if requests == [] {
    } else {
      var before := requests[..|requests| - 1];
      var r := requests[|requests| - 1];
      PoolDisjointIff(before);
      var p := AllocAll(before);
      if Granted(p, r) {
        SliceFitsIff(p.used, r);
        ExtendSlices(p.slices, p.used, Slice(p.used, r.length * r.itemSize));
      }
    }
  }

  /** A slice cut off at the end of a tiling is well carved exactly when it ends inside the pool. */
  lemma ExtendSlices(slices: seq<Slice>, used: nat, s: Slice)
    requires used <= POOL_BYTES && s.off == used
    ensures WellCarved(slices + [s]) ==> WellCarved(slices) && used + s.size <= POOL_BYTES
    ensures Tiled(slices, used) && used + s.size <= POOL_BYTES ==>
      WellCarved(slices + [s]) && Tiled(slices + [s], used + s.size) && TotalSize(slices + [s]) == used + s.size
  {
    var longer := slices + [s];
    assert longer[..|longer| - 1] == slices && longer[|longer| - 1] == s;
    assert forall i :: 0 <= i < |slices| ==> slices[i] == longer[i];
    if Tiled(slices, used) && used + s.size <= POOL_BYTES {
      assert Tiled(longer, used + s.size);
      TiledSlices(longer, used + s.size);
    }
  }
}
