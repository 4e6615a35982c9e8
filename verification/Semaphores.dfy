/** The table of semaphores and mutexes: creation and deletion (freertos/src/freertos_semphr.c, lines 6 to 19 and 93 on). */
module Semaphores {
  import opened Prelude
  import Kernel
  import Protocol = SemaphoreProtocol

  const MAX_SEM: nat := 8

  datatype Sem = Sem(
    used: bool,
    kind: Protocol.Kind,
    count: nat,
    maxCount: nat,
    notif: Kernel.Handle,
    owner: Option<Kernel.Tid>)

  const FREE := Sem(false, Protocol.Counting, 0, 0, 0, None)

  /** Which slots are in use. */
  function Used(ss: seq<Sem>): (r: seq<bool>)
    ensures |r| == |ss| && forall i :: 0 <= i < |r| ==> r[i] == ss[i].used
  {
    seq(|ss|, i requires 0 <= i < |ss| => ss[i].used)
  }

  /** A new object as the protocol wants it: used by any threads, it is a valid configuration in its initial state. */
  ghost predicate StartsProtocol(s: Sem, threads: set<Protocol.Tid>, blockers: set<Protocol.Tid>)
    requires blockers <= threads
  {
    var c := Protocol.Config(s.kind, s.maxCount, s.count, threads, blockers);
    c.Valid() && Protocol.Init(c).count == s.count && Protocol.Init(c).owner == s.owner
  }

  datatype TakeResult = Taken | Refused | Waits

  /** A call of one thread on one object, and an entry of a log: the call and whether it returned true. */
  datatype Call = Take(self: Kernel.Tid, ticks: nat) | Give(self: Kernel.Tid)

  datatype Entry = Entry(call: Call, ok: bool)

  /** What a log says about a count: one up for a give that returned true, one down for such a take. */
  function Level(initial: nat, log: seq<Entry>): int {
    if log == [] then initial
    else
      var last := log[|log| - 1];
      Level(initial, log[..|log| - 1]) + if !last.ok then 0 else if last.call.Give? then 1 else -1
  }

  /** What a log says about a mutex: who has taken it last and not given it back. */
  function Holder(initial: Option<Kernel.Tid>, log: seq<Entry>): Option<Kernel.Tid> {
    if log == [] then initial
    else
      var last := log[|log| - 1];
      if !last.ok then Holder(initial, log[..|log| - 1])
      else if last.call.Give? then None
      else Some(last.call.self)
  }

  /** Every result is what the results before it call for: a give passes below the maximum, a take above zero. */
  predicate CountingLaw(initial: nat, max: nat, log: seq<Entry>) {
    log != [] ==>
      var before, last := log[..|log| - 1], log[|log| - 1];
      && CountingLaw(initial, max, before)
      && last.ok == if last.call.Give? then Level(initial, before) < max else Level(initial, before) > 0
  }

  /** A take passes for the holder, or when there is none; a give for the holder only. */
  predicate MutexLaw(initial: Option<Kernel.Tid>, log: seq<Entry>) {
    log != [] ==>
      var before, last := log[..|log| - 1], log[|log| - 1];
      var holder := Holder(initial, before);
      && MutexLaw(initial, before)
      && last.ok == (holder == Some(last.call.self) || (last.call.Take? && holder.None?))
  }

  /** The log is of these calls. */
  predicate Logs(log: seq<Entry>, calls: seq<Call>) {
    |log| == |calls| && forall i :: 0 <= i < |log| ==> log[i].call == calls[i]
  }

  class SemaphoreService {
    var sems: seq<Sem>

    predicate Live(h: Option<nat>)
      reads this
    {
      h.Some? && h.value < |sems| && sems[h.value].used
    }

    constructor ()
      ensures sems == seq(MAX_SEM, _ => FREE)
    {
      sems := seq(MAX_SEM, _ => FREE);
    }

    /** `sem_alloc`: the first free slot, cleared. */
    method SemAlloc() returns (h: Option<nat>)
      modifies this
      ensures var f := FreeSlot(Used(old(sems)));
        if f == |old(sems)| then h == None && sems == old(sems)
        else h == Some(f) && sems == old(sems)[f := FREE]
    {
      var i := 0;
      while i < |sems| && sems[i].used
        invariant i <= |sems|
        invariant forall j :: 0 <= j < i ==> sems[j].used
      {
        i := i + 1;
      }
      if i == |sems| {
        return None;
      }
      sems := sems[i := FREE];
      return Some(i);
    }

    /** The tail the three create functions share: a notification, then the fields, then `used`. */
    method Install(kernel: Kernel.System, h: Option<nat>, offer: Option<Kernel.Handle>, fields: Sem)
      returns (r: Option<nat>)
      requires h.Some? ==> h.value < |sems| && sems[h.value] == FREE
      requires offer.Some? ==> offer.value !in kernel.notifs
      modifies this, kernel`notifs
      ensures r == if offer.Some? then h else None
      ensures kernel.notifs == old(kernel.notifs) + if r.Some? then {offer.value} else {}
      ensures sems == if r.Some? then old(sems)[r.value := fields.(used := true, notif := offer.value)] else old(sems)
    {
      if h.None? {
        return None;
      }
      var notif := kernel.NotifCreate(offer);
      if notif.None? {
        return None;
      }
      sems := sems[h.value := fields.(used := true, notif := notif.value)];
      return h;
    }

    method XSemaphoreCreateBinary(kernel: Kernel.System, offer: Option<Kernel.Handle>) returns (h: Option<nat>)
      requires offer.Some? ==> offer.value !in kernel.notifs
      modifies this, kernel`notifs
      ensures h.Some? <==> FreeSlot(Used(old(sems))) < |old(sems)| && offer.Some?
      ensures h.Some? ==>
        && h.value == FreeSlot(Used(old(sems))) && |sems| == |old(sems)|
        && sems == old(sems)[h.value := sems[h.value]]
        && sems[h.value].used && sems[h.value].notif == offer.value
        && sems[h.value].kind.Counting? && sems[h.value].maxCount == 1 && sems[h.value].count == 0
      ensures h.None? ==> KeepsUsed(old(sems), sems)
      ensures kernel.notifs == old(kernel.notifs) + if h.Some? then {offer.value} else {}
    {
      var s := SemAlloc();
      h := Install(kernel, s, offer, FREE.(kind := Protocol.Counting, maxCount := 1, count := 0));
    }

    /** `xSemaphoreCreateCounting`. */
    method XSemaphoreCreateCounting(kernel: Kernel.System, maxCount: nat, initial: nat, offer: Option<Kernel.Handle>)
      returns (h: Option<nat>)
      requires maxCount < WORD && (offer.Some? ==> offer.value !in kernel.notifs)
      modifies this, kernel`notifs
      ensures h.Some? <==> FreeSlot(Used(old(sems))) < |old(sems)| && maxCount != 0 && offer.Some?
      ensures h.Some? ==>
        && h.value == FreeSlot(Used(old(sems))) && |sems| == |old(sems)|
        && sems == old(sems)[h.value := sems[h.value]]
        && sems[h.value].used && sems[h.value].notif == offer.value
        && sems[h.value].kind.Counting? && sems[h.value].maxCount == maxCount
        && sems[h.value].count <= initial && (sems[h.value].count == initial || sems[h.value].count == maxCount < initial)
        && forall threads, blockers | blockers <= threads :: StartsProtocol(sems[h.value], threads, blockers)
      ensures h.None? ==> KeepsUsed(old(sems), sems)
      ensures kernel.notifs == old(kernel.notifs) + if h.Some? then {offer.value} else {}
    {
      var s := SemAlloc();
      if s.None? || maxCount == 0 {
        return None;
      }
      var count := initial;
      if count > maxCount {
        count := maxCount;
      }
      h := Install(kernel, s, offer, FREE.(kind := Protocol.Counting, maxCount := maxCount, count := count));
    }

    method XSemaphoreCreateMutex(kernel: Kernel.System, offer: Option<Kernel.Handle>) returns (h: Option<nat>)
      requires offer.Some? ==> offer.value !in kernel.notifs
      modifies this, kernel`notifs
      ensures h.Some? <==> FreeSlot(Used(old(sems))) < |old(sems)| && offer.Some?
      ensures h.Some? ==>
        && h.value == FreeSlot(Used(old(sems))) && |sems| == |old(sems)|
        && sems == old(sems)[h.value := sems[h.value]]
        && sems[h.value].used && sems[h.value].notif == offer.value && sems[h.value].kind.Mutex?
        && forall threads, blockers | blockers <= threads :: StartsProtocol(sems[h.value], threads, blockers)
      ensures h.None? ==> KeepsUsed(old(sems), sems)
      ensures kernel.notifs == old(kernel.notifs) + if h.Some? then {offer.value} else {}
    {
      var s := SemAlloc();
      h := Install(kernel, s, offer, FREE.(kind := Protocol.Mutex, maxCount := 1));
    }

    /** `sem_take` by thread `self` as far as its first wait, with nobody else running. */
    method XSemaphoreTake(h: Option<nat>, self: Kernel.Tid, ticks: nat) returns (r: TakeResult)
      modifies this
      ensures old(Live(h)) ==>
        var s := old(sems)[h.value];
        var o := Protocol.TakeSpec(s.kind, s.count, s.owner, self);
        && (r.Taken? <==> o.ok) && (r.Waits? <==> !o.ok && ticks != 0)
        && sems == old(sems)[h.value := s.(count := o.count, owner := o.owner)]
      ensures !old(Live(h)) ==> r.Refused? && sems == old(sems)
    {
      if h.None? || h.value >= |sems| || !sems[h.value].used {
        return Refused;
      }
      var i := h.value;
      var cur := sems[i].count;
      if sems[i].kind.Mutex? {
        if sems[i].owner == Some(self) {
          return Taken;
        }
        if cur == 0 {
          sems := sems[i := sems[i].(count := 1)];
          sems := sems[i := sems[i].(owner := Some(self))];
          assert sems == old(sems)[i := sems[i]];
          return Taken;
        }
      } else if cur > 0 {
        sems := sems[i := sems[i].(count := cur - 1)];
        return Taken;
      }
      return if ticks == 0 then Refused else Waits;
    }

    /** `sem_give` by thread `self`, with nobody else running. */
    method XSemaphoreGive(h: Option<nat>, self: Kernel.Tid) returns (ok: bool)
      modifies this
      ensures old(Live(h)) ==>
        var s := old(sems)[h.value];
        var o := Protocol.GiveSpec(s.kind, s.maxCount, s.count, s.owner, self);
        ok == o.ok && sems == old(sems)[h.value := s.(count := o.count, owner := o.owner)]
      ensures !old(Live(h)) ==> !ok && sems == old(sems)
    {
      if h.None? || h.value >= |sems| || !sems[h.value].used {
        return false;
      }
      var i := h.value;
      if sems[i].kind.Mutex? {
        if sems[i].owner != Some(self) {
          return false;
        }
        sems := sems[i := sems[i].(owner := None)];
        sems := sems[i := sems[i].(count := 0)];
        assert sems == old(sems)[i := sems[i]];
        return true;
      }
      var cur := sems[i].count;
      if cur >= sems[i].maxCount {
        return false;
      }
      sems := sems[i := sems[i].(count := cur + 1)];
      return true;
    }

    /** One call of a client; a take that would wait counts as refused. */
    method DoCall(h: nat, call: Call) returns (ok: bool)
      requires Live(Some(h))
      modifies this
      ensures |sems| == |old(sems)| && sems == old(sems)[h := sems[h]]
      ensures var s := old(sems)[h];
        var o := if call.Give? then Protocol.GiveSpec(s.kind, s.maxCount, s.count, s.owner, call.self)
                 else Protocol.TakeSpec(s.kind, s.count, s.owner, call.self);
        ok == o.ok && sems[h] == s.(count := o.count, owner := o.owner)
    {
      match call {
        case Take(self, ticks) =>
          var r := XSemaphoreTake(Some(h), self, ticks);
          ok := r.Taken?;
        case Give(self) =>
          ok := XSemaphoreGive(Some(h), self);
      }
    }

    /** The law of a counting semaphore, over any calls of any threads: every result follows from the ones before it. */
    method UseCounting(h: nat, calls: seq<Call>) returns (log: seq<Entry>)
      requires Live(Some(h)) && sems[h].kind.Counting?
      modifies this
      ensures Logs(log, calls) && CountingLaw(old(sems[h].count), old(sems[h].maxCount), log)
      ensures |sems| == |old(sems)| && sems == old(sems)[h := sems[h]]
      ensures sems[h] == old(sems[h]).(count := sems[h].count)
      ensures sems[h].count == Level(old(sems[h].count), log)
    {
      log := [];
      ghost var s := sems[h];
      for i := 0 to |calls|
        invariant Logs(log, calls[..i]) && CountingLaw(s.count, s.maxCount, log)
        invariant |sems| == |old(sems)| && sems == old(sems)[h := sems[h]]
        invariant sems[h] == s.(count := sems[h].count) && sems[h].count == Level(s.count, log)
      {
        var ok := DoCall(h, calls[i]);
        ghost var before := log;
        log := log + [Entry(calls[i], ok)];
        assert log[..|log| - 1] == before;
      }
    }

    /** The law of a mutex, over any calls of any threads, from any state in which the count tells whether it is held. */
    method UseMutex(h: nat, calls: seq<Call>) returns (log: seq<Entry>)
      requires Live(Some(h)) && sems[h].kind.Mutex? && sems[h].count == if sems[h].owner.None? then 0 else 1
      modifies this
      ensures Logs(log, calls) && MutexLaw(old(sems[h].owner), log)
      ensures |sems| == |old(sems)| && sems == old(sems)[h := sems[h]]
      ensures sems[h].owner == Holder(old(sems[h].owner), log)
      ensures sems[h] == old(sems[h]).(owner := sems[h].owner, count := if sems[h].owner.None? then 0 else 1)
    {
      log := [];
      ghost var s := sems[h];
      for i := 0 to |calls|
        invariant Logs(log, calls[..i]) && MutexLaw(s.owner, log)
        invariant |sems| == |old(sems)| && sems == old(sems)[h := sems[h]]
        invariant sems[h].owner == Holder(s.owner, log)
        invariant sems[h] == s.(owner := sems[h].owner, count := if sems[h].owner.None? then 0 else 1)
      {
        var ok := DoCall(h, calls[i]);
        ghost var before := log;
        log := log + [Entry(calls[i], ok)];
        assert log[..|log| - 1] == before;
      }
    }

    method VSemaphoreDelete(kernel: Kernel.System, h: Option<nat>)
      requires Live(h) ==> sems[h.value].notif in kernel.notifs
      modifies this, kernel`notifs
      ensures sems == if old(Live(h)) then old(sems)[h.value := old(sems)[h.value].(used := false)] else old(sems)
      ensures kernel.notifs == old(kernel.notifs) - if old(Live(h)) then {old(sems)[h.value].notif} else {}
    {
      if h.None? || h.value >= |sems| || !sems[h.value].used {
        return;
      }
      kernel.NotifDestroy(sems[h.value].notif);
      sems := sems[h.value := sems[h.value].(used := false)];
    }
  }

  /** A failed create clears a free slot at most. */
  predicate KeepsUsed(before: seq<Sem>, after: seq<Sem>) {
    |after| == |before| && forall i :: 0 <= i < |after| ==> after[i].used == before[i].used && (after[i].used ==> after[i] == before[i])
  }
}
