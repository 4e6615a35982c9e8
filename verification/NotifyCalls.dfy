/**
 Whole notification calls: what the steps of NotifyProtocol amount to when nobody interrupts them is what the call-level
 methods of Tasks do (freertos/src/freertos_task.c, lines 206 to 313).
 */
module NotifyCalls {
  import opened Prelude
  import opened Words
  import Protocol = NotifyProtocol
  import Tasks

  /** The TCB fields that the protocol works on. */
  function View(t: Tasks.Tcb, s: Protocol.State): Tasks.Tcb {
    t.(notifyValue := s.value, notifyPending := s.pending)
  }

  function ActionOf(act: Protocol.Act): Tasks.NotifyAction {
    match act
    case NoAction => Tasks.NoAction
    case SetBits => Tasks.SetBits
    case Increment => Tasks.Increment
    case Overwrite => Tasks.Overwrite
    case NoOverwrite => Tasks.NoOverwrite
  }

  // ---------------------------------------------------------------------------------------------------------------
  // A notifier
  // ---------------------------------------------------------------------------------------------------------------

  function StepsLeft(p: Protocol.NPc): nat {
    match p
    case NIdle => 0
    case Signal => 1
    case Pend => 2
    case Store(_) => 3
    case Update(_, _) => 4
  }

  /** A notifier at `p` runs alone to the end of its call. */
  function Finish(s: Protocol.State, p: Protocol.NPc): Protocol.State
    decreases StepsLeft(p)
  {
    if p.NIdle? then s else Finish(Protocol.NotifierEffect(s, p), Protocol.NotifierNext(s, p))
  }

  lemma {:induction false} FinishElsewhere(s: Protocol.State, p: Protocol.NPc, pc: map<Protocol.Tid, Protocol.NPc>)
    ensures Finish(s.(pc := pc), p) == Finish(s, p).(pc := pc)
    decreases StepsLeft(p)
  {
    if p.NIdle? {
    } else {
      var s' := Protocol.NotifierEffect(s, p);
      assert Protocol.NotifierEffect(s.(pc := pc), p) == s'.(pc := pc);
      FinishElsewhere(s', Protocol.NotifierNext(s, p), pc);
    }
  }

  /** These steps are a run of the protocol, which leaves the other notifiers where they are. */
  lemma {:induction false} FinishIsRun(c: Protocol.Config, s: Protocol.State, t: Protocol.Tid)
    requires s.Shape(c) && Protocol.Reachable(c, s) && t in c.notifiers && Protocol.PlaceOf(s.owner) !in c.heldOff
    ensures Protocol.Reachable(c, Finish(s, s.pc[t]).(pc := s.pc[t := Protocol.NIdle]))
    decreases StepsLeft(s.pc[t])
  {
    var p := s.pc[t];
    if p.NIdle? {
      assert s.pc[t := Protocol.NIdle] == s.pc;
    } else {
      var s' := Protocol.Go(c, s, Protocol.Notifier(t));
      FinishIsRun(c, s', t);
      FinishElsewhere(Protocol.NotifierEffect(s, p), Protocol.NotifierNext(s, p), s'.pc);
      assert s'.pc[t := Protocol.NIdle] == s.pc[t := Protocol.NIdle];
    }
  }

  /** A notification that nobody interrupts does to the TCB what `xTaskNotify` does, and signals exactly when it passes. */
  lemma NotifyAtOnce(s: Protocol.State, act: Protocol.Act, v: Word, tcb: Tasks.Tcb)
    ensures var s' := Finish(s, Protocol.Update(act, v));
      var before := View(tcb, s);
      var ok := Tasks.Accepts(before, ActionOf(act));
      && View(tcb, s') == (if ok then Tasks.Notified(before, ActionOf(act), v) else before)
      && s'.bit == (s.bit || ok) && s'.owner == s.owner
  {
    var s1 := Protocol.NotifierEffect(s, Protocol.Update(act, v));
    if !act.NoOverwrite? {
      PendAndSignal(s1);
    } else if !s.pending {
      PendAndSignal(Protocol.NotifierEffect(s1, Protocol.Store(v)));
    }
  }

  /** The end of a notification that has updated the value. */
  lemma PendAndSignal(s: Protocol.State)
    ensures Finish(s, Protocol.Pend) == s.(pending := true, bit := true)
  {
    var s1 := Protocol.NotifierEffect(s, Protocol.Pend);
    var s2 := Protocol.NotifierEffect(s1, Protocol.Signal);
    assert Finish(s1, Protocol.Signal) == Finish(s2, Protocol.NIdle) == s2;
  }

  // ---------------------------------------------------------------------------------------------------------------
  // The owner
  // ---------------------------------------------------------------------------------------------------------------

  /** The owner has returned, or is about to wait. */
  predicate Stops(p: Protocol.OPc) {
    p.Idle? || p.WBlock? || p.TBlock? || p.WWaiting? || p.TWaiting?
  }

  function OwnStepsLeft(p: Protocol.OPc): nat {
    if Stops(p) then 0
    else
      match p
      case WPoll => 1
      case WClearExit(_) => 2
      case WUnpend(_) => 3
      case WRead(_) => 4
      case WTest(_, _) => 5
      case WClear(_, _, _) => 6
      case TPendStore(_) => 1
      case TPendRead => 2
      case TWrite(_, _) => 3
      case TRead(_) => 4
      case TTest(_, _) => 5
      case TPoll(_) => 6
  }

  /** The owner runs alone until its call returns or waits. */
  function FinishOwner(s: Protocol.State): Protocol.State
    decreases OwnStepsLeft(s.owner)
  {
    if Stops(s.owner) then s else FinishOwner(Protocol.OwnerStep(s))
  }

  lemma OwnerAdvances(s: Protocol.State)
    requires !Stops(s.owner)
    ensures OwnStepsLeft(Protocol.OwnerStep(s).owner) < OwnStepsLeft(s.owner)
  {
  }

  lemma {:induction false} FinishOwnerIsRun(c: Protocol.Config, s: Protocol.State)
    requires s.Shape(c) && Protocol.Reachable(c, s)
    ensures Protocol.Reachable(c, FinishOwner(s))
    decreases OwnStepsLeft(s.owner)
  {
    if Stops(s.owner) {
    } else {
      OwnerAdvances(s);
      var s' := Protocol.Go(c, s, Protocol.Owner);
      assert s' == Protocol.OwnerStep(s);
      FinishOwnerIsRun(c, s');
    }
  }

  /**
   A wait that nobody interrupts: with a notification pending it hands out the value without the entry bits and leaves
   neither flag nor bit nor the masked bits behind; otherwise it clears the entry bits and is about to wait.
   */
  lemma WaitAtOnce(s: Protocol.State, entry: Word, exit: Word, wait: bool)
    requires s.owner.Idle?
    ensures var s' := FinishOwner(s.(owner := Protocol.WClear(entry, exit, wait)));
      if s.pending then
        && s'.owner.Idle? && s'.got == s.value - entry
        && s'.value == s.value - entry - exit && !s'.pending && !s'.bit
      else
        && s'.owner == Protocol.WBlock(exit, wait)
        && s'.value == s.value - entry && !s'.pending && s'.bit == s.bit
  {
    var s1 := Protocol.OwnerStep(s.(owner := Protocol.WClear(entry, exit, wait)));
    var s2 := Protocol.OwnerStep(s1);
    assert FinishOwner(s1) == FinishOwner(s2);
    if s.pending {
      FinishTail(s2, exit);
    }
  }

  lemma FinishTail(s: Protocol.State, exit: Word)
    requires s.owner == Protocol.WRead(exit)
    ensures var s' := FinishOwner(s);
      && s'.owner.Idle? && s'.got == s.value && s'.value == s.value - exit && !s'.pending && !s'.bit
  {
    var s1 := Protocol.OwnerStep(s);
    var s2 := Protocol.OwnerStep(s1);
    var s3 := Protocol.OwnerStep(s2);
    var s4 := Protocol.OwnerStep(s3);
    assert FinishOwner(s) == FinishOwner(s1) == FinishOwner(s2) == FinishOwner(s3) == FinishOwner(s4) == s4;
  }

  /** A take that nobody interrupts does to the TCB what `ulTaskNotifyTake` does, or is about to wait on a zero. */
  lemma TakeAtOnce(s: Protocol.State, clear: bool, wait: bool, tcb: Tasks.Tcb)
    requires s.owner.Idle?
    ensures var s' := FinishOwner(s.(owner := Protocol.TTest(clear, wait)));
      if s.value == {} then
        s'.owner == Protocol.TBlock(clear, wait) && View(tcb, s') == View(tcb, s)
      else
        s'.owner.Idle? && s'.got == s.value && View(tcb, s') == Tasks.Taken(View(tcb, s), clear)
  {
    var s1 := Protocol.OwnerStep(s.(owner := Protocol.TTest(clear, wait)));
    if s.value != {} {
      FinishTake(s1, clear, s.value);
    }
  }

  /** A wait that finds the bit, or is woken by it, hands out the value that is there then; without a timeout it gives up. */
  lemma WaitResumes(s: Protocol.State, exit: Word, wait: bool)
    requires s.owner == Protocol.WBlock(exit, wait) || s.owner == Protocol.WWaiting(exit)
    requires s.owner.WWaiting? ==> s.bit
    ensures var s' := FinishOwner(Protocol.OwnerStep(s));
      if s.owner == Protocol.WBlock(exit, false) then s' == s.(owner := Protocol.Idle)
      else if s.bit then s'.owner.Idle? && s'.got == s.value && s'.value == s.value - exit && !s'.pending && !s'.bit
      else s' == s.(owner := Protocol.WWaiting(exit))
  {
    var s1 := Protocol.OwnerStep(s);
    if s1.owner.WRead? {
      FinishTail(s1, exit);
    }
  }

  /** Likewise for a take. */
  lemma TakeResumes(s: Protocol.State, clear: bool, wait: bool, tcb: Tasks.Tcb)
    requires s.owner == Protocol.TBlock(clear, wait) || s.owner == Protocol.TWaiting(clear)
    requires s.owner.TWaiting? ==> s.bit
    ensures var s' := FinishOwner(Protocol.OwnerStep(s));
      if s.owner == Protocol.TBlock(clear, false) then s' == s.(owner := Protocol.Idle)
      else if !s.bit then s' == s.(owner := Protocol.TWaiting(clear))
      else if s.value == {} then s'.owner == Protocol.TBlock(clear, true) && View(tcb, s') == View(tcb, s) && !s'.bit
      else s'.owner.Idle? && s'.got == s.value && View(tcb, s') == Tasks.Taken(View(tcb, s), clear) && !s'.bit
  {
    var s1 := Protocol.OwnerStep(s);
    if s1.owner.TPoll? {
      WokenTake(s1, clear, tcb);
    }
  }

  /** A take that has been woken clears the bit, and then returns the value or is about to wait again. */
  lemma WokenTake(s: Protocol.State, clear: bool, tcb: Tasks.Tcb)
    requires s.owner == Protocol.TPoll(clear)
    ensures var s' := FinishOwner(s);
      && !s'.bit
      && if s.value == {} then s'.owner == Protocol.TBlock(clear, true) && View(tcb, s') == View(tcb, s)
         else s'.owner.Idle? && s'.got == s.value && View(tcb, s') == Tasks.Taken(View(tcb, s), clear)
  {
    var s1 := Protocol.OwnerStep(s);
    var s2 := Protocol.OwnerStep(s1);
    assert FinishOwner(s) == FinishOwner(s1) == FinishOwner(s2);
    if s.value != {} {
      FinishTake(s2, clear, s.value);
    }
  }

  lemma FinishTake(s: Protocol.State, clear: bool, val: Word)
    requires s.owner == Protocol.TRead(clear) && s.value == val != {}
    ensures var s' := FinishOwner(s);
      && s'.owner.Idle? && s'.got == val
      && s'.value == (if clear then {} else Dec(val)) && s'.pending == (s'.value != {}) && s'.bit == s.bit
  {
    var s1 := Protocol.OwnerStep(s);
    var s2 := Protocol.OwnerStep(s1);
    var s3 := Protocol.OwnerStep(s2);
    var s4 := Protocol.OwnerStep(s3);
    assert FinishOwner(s) == FinishOwner(s1) == FinishOwner(s2) == FinishOwner(s3) == FinishOwner(s4) == s4;
  }
}
