/**
 The task table and call-level task notifications (freertos/src/freertos_task.c).

 Notification calls are whole calls here; NotifyProtocol takes them apart.
 */
module Tasks {
  import opened Prelude
  import opened Words
  import Kernel

  const MAX_TASKS: nat := 8

  datatype Tcb = Tcb(used: bool, tid: Kernel.Tid, notif: Kernel.Handle, notifyValue: Word, notifyPending: bool)

  const CLEARED := Tcb(false, 0, 0, {}, false)

  /** xAction of `xTaskNotify`; `Other` is any value the switch does not know. */
  datatype NotifyAction = NoAction | SetBits | Increment | Overwrite | NoOverwrite | Other

  predicate Accepts(t: Tcb, act: NotifyAction) {
    !act.Other? && !(act.NoOverwrite? && t.notifyPending)
  }

  /** The TCB after an accepted `xTaskNotify`. */
  function Notified(t: Tcb, act: NotifyAction, v: Word): Tcb {
    var value :=
      match act
      case SetBits => t.notifyValue + v
      case Increment => Inc(t.notifyValue)
      case Overwrite => v
      case NoOverwrite => v
      case _ => t.notifyValue;
    t.(notifyValue := value, notifyPending := true)
  }

  /** The TCB after `ulTaskNotifyTake` on a value that is not zero. */
  function Taken(t: Tcb, clear: bool): Tcb {
    var value := if clear || t.notifyValue == {} then {} else Dec(t.notifyValue);
    t.(notifyValue := value, notifyPending := value != {})
  }

  // ---------------------------------------------------------------------------------------------------------------
  // Counting with notify-give and notify-take
  // ---------------------------------------------------------------------------------------------------------------

  datatype Call = Give | Take(clear: bool)

  /** A TCB, and the unbounded tallies of gives and of counts that takes have removed. */
  datatype Ledger = Ledger(tcb: Tcb, gives: nat, removed: nat)

  function Enter(l: Ledger, c: Call): Ledger {
    match c
    case Give => Ledger(Notified(l.tcb, Increment, {}), l.gives + 1, l.removed)
    case Take(clear) =>
      if l.tcb.notifyValue == {} then l
      else Ledger(Taken(l.tcb, clear), l.gives, l.removed + if clear then Number(l.tcb.notifyValue) else 1)
  }

  /** Calls on a TCB that starts with nothing notified; a take that finds zero returns at once (no timeout). */
  function Account(tcb: Tcb, calls: seq<Call>): Ledger {
    if calls == [] then Ledger(tcb.(notifyValue := {}, notifyPending := false), 0, 0)
    else Enter(Account(tcb, calls[..|calls| - 1]), calls[|calls| - 1])
  }

  /** Gives not yet taken. */
  function Outstanding(l: Ledger): int {
    l.gives - l.removed
  }

  ghost predicate NeverWrapped(tcb: Tcb, calls: seq<Call>) {
    forall n :: 0 <= n < |calls| ==> Outstanding(Account(tcb, calls[..n])) < WORD
  }

  /**
   Conservation: over any calls the notification value is the gives less the counts removed, modulo 2^32. As long as no
   earlier point had 2^32 gives outstanding, the pending flag says exactly whether the value is non-zero, except at the
   very give that brings the outstanding count to 2^32.
   */
  lemma {:induction false} NotificationCounting(tcb: Tcb, calls: seq<Call>)
    ensures var l := Account(tcb, calls);
      && 0 <= Outstanding(l)
      && Number(l.tcb.notifyValue) == Outstanding(l) % WORD
      && (l.tcb.notifyValue != {} ==> l.tcb.notifyPending)
      && (NeverWrapped(tcb, calls) ==>
            ((l.tcb.notifyPending <==> l.tcb.notifyValue != {}) <==> Outstanding(l) < WORD))
  {
    if calls == [] {
      ZeroWord({});
    } else {
      var before := calls[..|calls| - 1];
      NotificationCounting(tcb, before);
      var l := Account(tcb, before);
      if NeverWrapped(tcb, calls) {
        NeverWrappedPrefix(tcb, calls);
      }
      EnterCounts(l, calls[|calls| - 1]);
    }
  }

  lemma NeverWrappedPrefix(tcb: Tcb, calls: seq<Call>)
    requires calls != [] && NeverWrapped(tcb, calls)
    ensures NeverWrapped(tcb, calls[..|calls| - 1]) && Outstanding(Account(tcb, calls[..|calls| - 1])) < WORD
  {
    var before := calls[..|calls| - 1];
    forall n | 0 <= n < |before|
      ensures Outstanding(Account(tcb, before[..n])) < WORD
    {
      assert before[..n] == calls[..n];
    }
  }

  /** The word that a counter shows whose true value is `n`. */
  ghost predicate Shows(w: Word, n: int) {
    n >= 0 && Number(w) == n % WORD
  }

  lemma ShowsUp(w: Word, n: int, w': Word, n': int)
    requires Shows(w, n) && w' == Inc(w) && n' == n + 1
    ensures Shows(w', n') && (n < WORD ==> (w' == {} <==> n' >= WORD))
  {
    WordArithmetic(w);
    ZeroWord(w');
    CountsModulo(n);
  }

  lemma ShowsDown(w: Word, n: int, w': Word, n': int)
    requires Shows(w, n) && w != {} && w' == Dec(w) && n' == n - 1
    ensures Shows(w', n')
  {
    WordArithmetic(w);
    CountsModulo(n);
  }

  lemma ShowsZero(w: Word, n: int, w': Word, n': int)
    requires Shows(w, n) && w' == {} && n' == n - Number(w)
    ensures Shows(w', n') && n' <= n
  {
    WordArithmetic(w);
    ZeroWord(w');
    CountsModulo(n);
  }

  lemma ZeroWord(w: Word)
    ensures Number(w) == 0 <==> w == {}
  {
    WordArithmetic(w);
  }

  /** Up one, down one and down to zero, for a count of which a word shows the remainder. */
  lemma CountsModulo(n: nat)
    ensures (n + 1) % WORD == Inc32(n % WORD)
    ensures n % WORD != 0 ==> n >= 1 && (n - 1) % WORD == n % WORD - 1
    ensures n >= n % WORD && (n - n % WORD) % WORD == 0
    ensures n < WORD ==> n % WORD == n
  {
    var q := n / WORD;
    assert n == q * WORD + n % WORD;
  }

  ghost predicate Counted(l: Ledger) {
    Shows(l.tcb.notifyValue, Outstanding(l)) && (l.tcb.notifyValue != {} ==> l.tcb.notifyPending)
  }

  predicate FlagExact(l: Ledger) {
    l.tcb.notifyPending <==> l.tcb.notifyValue != {}
  }

  lemma EnterCounts(l: Ledger, c: Call)
    requires Counted(l)
    ensures Counted(Enter(l, c))
    ensures Outstanding(l) < WORD && FlagExact(l) ==> (FlagExact(Enter(l, c)) <==> Outstanding(Enter(l, c)) < WORD)
  {
    var l' := Enter(l, c);
    match c
    case Give => ShowsUp(l.tcb.notifyValue, Outstanding(l), l'.tcb.notifyValue, Outstanding(l'));
    case Take(clear) =>
      if l.tcb.notifyValue == {} {
      } else if clear {
        ShowsZero(l.tcb.notifyValue, Outstanding(l), l'.tcb.notifyValue, Outstanding(l'));
      } else {
        ShowsDown(l.tcb.notifyValue, Outstanding(l), l'.tcb.notifyValue, Outstanding(l'));
      }
  }

  // ---------------------------------------------------------------------------------------------------------------
  // Laws of notify and wait
  // ---------------------------------------------------------------------------------------------------------------

  datatype Note = Note(act: NotifyAction, v: Word)

  /** An entry of a log of notifications: the call, and whether it returned pdPASS. */
  datatype Entry = Entry(note: Note, ok: bool)

  /** The notification stores a new value over the old one. */
  predicate Overwrites(e: Entry) {
    e.ok && (e.note.act.Overwrite? || e.note.act.NoOverwrite?)
  }

  predicate Sets(e: Entry, k: nat) {
    e.ok && k in e.note.v && !e.note.act.NoAction?
  }

  ghost predicate NoneOverwrites(log: seq<Entry>, from: nat) {
    forall m :: from <= m < |log| ==> !Overwrites(log[m])
  }

  /** Bit `k` was set at the start or by some notification, and no later one has overwritten the value. */
  ghost predicate BitIsSet(initial: Word, log: seq<Entry>, k: nat) {
    || (k in initial && NoneOverwrites(log, 0))
    || exists j :: 0 <= j < |log| && Sets(log[j], k) && NoneOverwrites(log, j + 1)
  }

  lemma BitExtend(initial: Word, log: seq<Entry>, e: Entry, k: nat)
    ensures BitIsSet(initial, log + [e], k) <==> Sets(e, k) || (!Overwrites(e) && BitIsSet(initial, log, k))
  {
    var longer := log + [e];
    assert longer[|log|] == e;
    assert forall m :: 0 <= m < |log| ==> longer[m] == log[m];
    if Sets(e, k) {
      assert NoneOverwrites(longer, |log| + 1);
    } else if BitIsSet(initial, log, k) && !Overwrites(e) {
      if j :| 0 <= j < |log| && Sets(log[j], k) && NoneOverwrites(log, j + 1) {
        assert Sets(longer[j], k) && NoneOverwrites(longer, j + 1);
      } else {
        assert NoneOverwrites(longer, 0);
      }
    }
    if BitIsSet(initial, longer, k) && !Sets(e, k) {
      if j :| 0 <= j < |longer| && Sets(longer[j], k) && NoneOverwrites(longer, j + 1) {
        assert j != |log| && Sets(log[j], k) && NoneOverwrites(log, j + 1);
      } else {
        assert NoneOverwrites(log, 0);
      }
      assert !Overwrites(longer[|log|]);
    }
  }

  datatype Event = SendBits(v: Word) | Collect(exit: Word)

  function BitsSent(events: seq<Event>): Word {
    if events == [] then {}
    else
      var last := events[|events| - 1];
      BitsSent(events[..|events| - 1]) + if last.SendBits? then last.v else {}
  }

  ghost predicate SomeOk(log: seq<Entry>) {
    exists j :: 0 <= j < |log| && log[j].ok
  }

  /**
   The results that a log must show: an unknown action is refused, and one that must not overwrite is refused exactly
   when there was something pending at the start or an earlier notification has passed.
   */
  predicate NotifyLaw(pending: bool, log: seq<Entry>) {
    forall i :: 0 <= i < |log| ==>
      var act := log[i].note.act;
      log[i].ok <==> !act.Other? && (act.NoOverwrite? ==> !pending && forall j :: 0 <= j < i ==> !log[j].ok)
  }

  // ---------------------------------------------------------------------------------------------------------------
  // The table
  // ---------------------------------------------------------------------------------------------------------------

  /** Slots in use have live threads, all different. */
  ghost predicate TidsOk(ts: seq<Tcb>, threads: set<Kernel.Tid>) {
    && (forall i :: 0 <= i < |ts| && ts[i].used ==> ts[i].tid in threads)
    && (forall i, j :: 0 <= i < |ts| && 0 <= j < |ts| && i != j && ts[i].used && ts[j].used ==> ts[i].tid != ts[j].tid)
  }

  /** Which slots are in use. */
  function Used(ts: seq<Tcb>): (r: seq<bool>)
    ensures |r| == |ts| && forall i :: 0 <= i < |r| ==> r[i] == ts[i].used
  {
    seq(|ts|, i requires 0 <= i < |ts| => ts[i].used)
  }

  class TaskService {
    var tasks: seq<Tcb>

    predicate Live(h: Option<nat>)
      reads this
    {
      h.Some? && h.value < |tasks| && tasks[h.value].used
    }

    constructor ()
      ensures tasks == seq(MAX_TASKS, _ => CLEARED)
    {
      tasks := seq(MAX_TASKS, _ => CLEARED);
    }

    /** `fr_task_from_tid`: the slot of a thread, and with distinct thread ids the only one. */
    method FrTaskFromTid(tid: Kernel.Tid, ghost threads: set<Kernel.Tid>) returns (h: Option<nat>)
      requires TidsOk(tasks, threads)
      ensures h.Some? ==> Live(h) && tasks[h.value].tid == tid
      ensures forall i :: 0 <= i < |tasks| && tasks[i].used && tasks[i].tid == tid ==> h == Some(i)
    {
      for i := 0 to |tasks|
        invariant forall j :: 0 <= j < i && tasks[j].used ==> tasks[j].tid != tid
      {
        if tasks[i].used && tasks[i].tid == tid {
          return Some(i);
        }
      }
      return None;
    }

    /** `xTaskCreate`. The TCB slot, when created, is free before; a failure after the notification gives it back. */
    method XTaskCreate(kernel: Kernel.System, hasCode: bool, notifOffer: Option<Kernel.Handle>, tidOffer: Option<Kernel.Tid>)
      returns (h: Option<nat>)
      requires notifOffer.Some? ==> notifOffer.value !in kernel.notifs
      requires tidOffer.Some? ==> tidOffer.value !in kernel.threads
      requires TidsOk(tasks, kernel.threads)
      modifies this, kernel
      ensures TidsOk(tasks, kernel.threads) && |tasks| == |old(tasks)|
      ensures h.Some? <==>
        && hasCode && FreeSlot(Used(old(tasks))) < |old(tasks)|
        && notifOffer.Some? && tidOffer.Some?
      ensures h.Some? ==>
        && Live(h) && h.value == FreeSlot(Used(old(tasks)))
        && tasks[h.value] == Tcb(true, tidOffer.value, notifOffer.value, {}, false)
      ensures forall i :: 0 <= i < |tasks| && h != Some(i) ==>
        tasks[i].used == old(tasks)[i].used && (tasks[i].used ==> tasks[i] == old(tasks)[i])
      ensures kernel.notifs == old(kernel.notifs) + if h.Some? then {notifOffer.value} else {}
      ensures kernel.threads == old(kernel.threads) + if h.Some? then {tidOffer.value} else {}
    {
      if !hasCode {
        return None;
      }
      var i := 0;
      while i < |tasks| && tasks[i].used
        invariant i <= |tasks|
        invariant forall j :: 0 <= j < i ==> tasks[j].used
      {
        i := i + 1;
      }
      if i == |tasks| {
        return None;
      }
      tasks := tasks[i := CLEARED];
      var notif := kernel.NotifCreate(notifOffer);
      if notif.None? {
        return None;
      }
      tasks := tasks[i := tasks[i].(notif := notif.value)];
      var tid := kernel.ThreadCreate(tidOffer);
      if tid.None? {
        kernel.NotifDestroy(notif.value);
        return None;
      }
      tasks := tasks[i := tasks[i].(tid := tid.value, used := true)];
      return Some(i);
    }

    /** `vTaskDelete` called by thread `self`; None deletes the caller. `exits` says that the call does not return. */
    method VTaskDelete(kernel: Kernel.System, self: Kernel.Tid, h: Option<nat>) returns (exits: bool, ghost gone: Option<nat>)
      requires self in kernel.threads && TidsOk(tasks, kernel.threads)
      requires forall i :: 0 <= i < |tasks| && tasks[i].used ==> tasks[i].notif in kernel.notifs
      modifies this, kernel
      ensures TidsOk(tasks, kernel.threads) && |tasks| == |old(tasks)|
      ensures gone.Some? <==>
        if h.Some? then old(Live(h)) else exists i :: 0 <= i < |old(tasks)| && old(tasks)[i].used && old(tasks)[i].tid == self
      ensures gone.Some? ==>
        && (h.Some? ==> gone == h) && old(Live(gone)) && (h.None? ==> old(tasks)[gone.value].tid == self)
        && tasks == old(tasks)[gone.value := old(tasks)[gone.value].(used := false)]
        && kernel.notifs == old(kernel.notifs) - {old(tasks)[gone.value].notif}
        && kernel.threads == old(kernel.threads) - {old(tasks)[gone.value].tid}
      ensures gone.None? ==> tasks == old(tasks) && kernel.notifs == old(kernel.notifs)
      ensures gone.None? ==> kernel.threads == old(kernel.threads) - if h.None? then {self} else {}
      ensures exits <==> self !in kernel.threads
    {
      var target := h;
      if h.None? {
        target := FrTaskFromTid(self, kernel.threads);
      }
      if target.None? || target.value >= |tasks| || !tasks[target.value].used {
        if h.None? {
          kernel.ThreadEnd(self);
        }
        return h.None?, None;
      }
      var i := target.value;
      if tasks[i].tid == self {
        tasks := tasks[i := tasks[i].(used := false)];
        kernel.NotifDestroy(tasks[i].notif);
        kernel.ThreadEnd(self);
        return true, target;
      }
      kernel.ThreadEnd(tasks[i].tid);
      kernel.NotifDestroy(tasks[i].notif);
      tasks := tasks[i := tasks[i].(used := false)];
      return false, target;
    }

    method XTaskNotify(h: Option<nat>, v: Word, act: NotifyAction) returns (ok: bool)
      modifies this
      ensures ok <==> old(Live(h)) && Accepts(old(tasks)[h.value], act)
      ensures tasks == if ok then old(tasks)[h.value := Notified(old(tasks)[h.value], act, v)] else old(tasks)
    {
      if h.None? || h.value >= |tasks| || !tasks[h.value].used {
        return false;
      }
      var t := tasks[h.value];
      match act {
        case NoAction =>
        case SetBits => t := t.(notifyValue := t.notifyValue + v);
        case Increment => t := t.(notifyValue := Inc(t.notifyValue));
        case Overwrite => t := t.(notifyValue := v);
        case NoOverwrite =>
          if t.notifyPending {
            return false;
          }
          t := t.(notifyValue := v);
        case Other => return false;
      }
      tasks := tasks[h.value := t.(notifyPending := true)];
      return true;
    }

    /**
     The law of notifications, over any notifications of one task: which of them pass, whether one is pending afterwards,
     and, as long as none increments, every bit of the value.
     */
    method NotifyAll(h: nat, notes: seq<Note>) returns (log: seq<Entry>)
      requires Live(Some(h))
      modifies this
      ensures |log| == |notes| && forall i :: 0 <= i < |log| ==> log[i].note == notes[i]
      ensures NotifyLaw(old(tasks[h].notifyPending), log)
      ensures |tasks| == |old(tasks)| && tasks == old(tasks)[h := tasks[h]]
      ensures tasks[h].notifyPending == (old(tasks[h].notifyPending) || SomeOk(log))
      ensures (forall i :: 0 <= i < |notes| ==> !notes[i].act.Increment?) ==>
        forall k :: k in tasks[h].notifyValue <==> BitIsSet(old(tasks[h].notifyValue), log, k)
    {
      log := [];
      ghost var t := tasks[h];
      for i := 0 to |notes|
        invariant |log| == i && forall j :: 0 <= j < i ==> log[j].note == notes[j]
        invariant NotifyLaw(t.notifyPending, log)
        invariant |tasks| == |old(tasks)| && tasks == old(tasks)[h := tasks[h]] && tasks[h].used
        invariant tasks[h].notifyPending == (t.notifyPending || SomeOk(log))
        invariant (forall j :: 0 <= j < i ==> !notes[j].act.Increment?) ==>
          forall k :: k in tasks[h].notifyValue <==> BitIsSet(t.notifyValue, log, k)
      {
        var ok := XTaskNotify(Some(h), notes[i].v, notes[i].act);
        forall k: nat {
          BitExtend(t.notifyValue, log, Entry(notes[i], ok), k);
        }
        assert (log + [Entry(notes[i], ok)])[i].ok == ok;
        log := log + [Entry(notes[i], ok)];
      }
    }

    /**
     `xTaskNotifyWait` by thread `self` as far as its first wait: the value handed out, None for no notification. A thread
     that is no task gets none.
     */
    method XTaskNotifyWait(self: Kernel.Tid, entry: Word, exit: Word, ticks: nat, ghost threads: set<Kernel.Tid>)
      returns (value: Option<Word>, waits: bool)
      requires TidsOk(tasks, threads)
      modifies this
      ensures forall i :: 0 <= i < |old(tasks)| && old(tasks)[i].used && old(tasks)[i].tid == self ==>
        var t := old(tasks)[i];
        && value == (if t.notifyPending then Some(t.notifyValue - entry) else None)
        && (waits <==> value.None? && ticks != 0)
        && tasks == old(tasks)[i := t.(notifyPending := false,
             notifyValue := if t.notifyPending then t.notifyValue - entry - exit else t.notifyValue - entry)]
      ensures (forall i :: 0 <= i < |old(tasks)| && old(tasks)[i].used ==> old(tasks)[i].tid != self) ==>
        value.None? && !waits && tasks == old(tasks)
    {
      var h := FrTaskFromTid(self, threads);
      if h.None? {
        return None, false;
      }
      var i := h.value;
      var t := tasks[i];
      t := t.(notifyValue := t.notifyValue - entry);
      tasks := tasks[i := t];
      if !t.notifyPending {
        return None, ticks != 0;
      }
      value := Some(t.notifyValue);
      t := t.(notifyPending := false);
      t := t.(notifyValue := t.notifyValue - exit);
      tasks := tasks[i := t];
      waits := false;
    }

    /**
     Nothing is lost between eSetBits and `xTaskNotifyWait`: over any of these calls on one task, the bits handed out
     together with those still in the value are the bits set together with those there at the start.
     */
    method Exchange(h: nat, events: seq<Event>, ghost threads: set<Kernel.Tid>) returns (got: Word)
      requires Live(Some(h)) && TidsOk(tasks, threads)
      modifies this
      ensures Live(Some(h)) && TidsOk(tasks, threads)
      ensures got + tasks[h].notifyValue == BitsSent(events) + old(tasks[h].notifyValue)
    {
      got := {};
      ghost var start := tasks[h].notifyValue;
      for i := 0 to |events|
        invariant Live(Some(h)) && TidsOk(tasks, threads)
        invariant got + tasks[h].notifyValue == BitsSent(events[..i]) + start
      {
        assert events[..i + 1][..i] == events[..i];
        match events[i] {
          case SendBits(v) =>
            var _ := XTaskNotify(Some(h), v, SetBits);
          case Collect(exit) =>
            var value, _ := XTaskNotifyWait(tasks[h].tid, {}, exit, 0, threads);
            if value.Some? {
              got := got + value.value;
            }
        }
      }
      assert events[..|events|] == events;
    }

    /** `ulTaskNotifyTake` by thread `self` as far as its first wait. A thread that is no task gets zero. */
    method UlTaskNotifyTake(self: Kernel.Tid, clear: bool, ticks: nat, ghost threads: set<Kernel.Tid>)
      returns (val: Word, waits: bool)
      requires TidsOk(tasks, threads)
      modifies this
      ensures forall i :: 0 <= i < |old(tasks)| && old(tasks)[i].used && old(tasks)[i].tid == self ==>
        && val == old(tasks)[i].notifyValue
        && (waits <==> val == {} && ticks != 0)
        && tasks == if val == {} then old(tasks) else old(tasks)[i := Taken(old(tasks)[i], clear)]
      ensures (forall i :: 0 <= i < |old(tasks)| && old(tasks)[i].used ==> old(tasks)[i].tid != self) ==>
        val == {} && !waits && tasks == old(tasks)
    {
      var h := FrTaskFromTid(self, threads);
      if h.None? {
        return {}, false;
      }
      var i := h.value;
      if tasks[i].notifyValue == {} {
        return {}, ticks != 0;
      }
      val := tasks[i].notifyValue;
      var t := tasks[i];
      if clear {
        t := t.(notifyValue := {});
      } else if val != {} {
        t := t.(notifyValue := Dec(val));
      }
      t := t.(notifyPending := t.notifyValue != {});
      tasks := tasks[i := t];
      waits := false;
    }
  }
}
