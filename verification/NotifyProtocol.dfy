/**
 Direct-to-task notifications as a protocol (freertos/src/freertos_task.c, lines 206 to 313).

 One task owns a notification value, a pending flag and a kernel notification with one notify bit. It calls
 `xTaskNotifyWait` and `ulTaskNotifyTake`; any number of threads call `xTaskNotify` on it. Every access to the value,
 the flag or the bit is one step.
 */
module NotifyProtocol {
  import opened Prelude
  import opened Words

  type Tid = nat

  datatype Act = NoAction | SetBits | Increment | Overwrite | NoOverwrite

  /** Notifier: update the value, set the pending flag, signal. `Store` follows a clear flag seen by NoOverwrite. */
  datatype NPc = NIdle | Update(act: Act, v: Word) | Store(v: Word) | Pend | Signal

  /** Owner: the steps of `xTaskNotifyWait` (W...) and `ulTaskNotifyTake` (T...). */
  datatype OPc =
    | Idle
    | WClear(entry: Word, exit: Word, wait: bool)
    | WTest(exit: Word, wait: bool)
    | WBlock(exit: Word, wait: bool)
    | WWaiting(exit: Word)
    | WRead(exit: Word)
    | WUnpend(exit: Word)
    | WClearExit(exit: Word)
    | WPoll
    | TTest(clear: bool, wait: bool)
    | TBlock(clear: bool, wait: bool)
    | TWaiting(clear: bool)
    | TPoll(clear: bool)
    | TRead(clear: bool)
    | TWrite(clear: bool, val: Word)
    | TPendRead
    | TPendStore(set1: bool)

  /** The places of the owner, without the arguments of its calls. */
  datatype Place =
    | AtIdle | AtClear | AtTest | AtBlock | AtWaiting | AtRead | AtUnpend | AtClearExit | AtPoll | AtTake

  function PlaceOf(p: OPc): Place {
    match p
    case Idle => AtIdle
    case WClear(_, _, _) => AtClear
    case WTest(_, _) => AtTest
    case WBlock(_, _) => AtBlock
    case WWaiting(_) => AtWaiting
    case WRead(_) => AtRead
    case WUnpend(_) => AtUnpend
    case WClearExit(_) => AtClearExit
    case WPoll => AtPoll
    case _ => AtTake
  }

  /** Where the owner of `xTaskNotifyWait` is before it has been told of anything. */
  const BEFORE_NEWS: set<Place> := {AtIdle, AtClear, AtTest, AtBlock, AtWaiting}

  /**
   The notifying threads, whether the owner may also call `ulTaskNotifyTake`, and the places of the owner at which the
   notifiers are held off, by a lock or by scheduling. The code holds them off nowhere.
   */
  datatype Config = Config(notifiers: set<Tid>, takes: bool, heldOff: set<Place>)

  /**
   `unseen` and `unread` are history: an update has happened since the owner last read the value; and the bits that
   notifiers have set since then and that have not been overwritten by a notifier or cleared on entry to a call. `mask`
   and `since` are the entry mask of the last `xTaskNotifyWait` and the bits set since it was applied; `got` is the value
   last read for the caller.
   */
  datatype State = State(
    value: Word,
    pending: bool,
    bit: bool,
    unseen: bool,
    unread: Word,
    mask: Word,
    since: Word,
    got: Word,
    owner: OPc,
    pc: map<Tid, NPc>)
  {
    ghost predicate Shape(c: Config) {
      forall n :: n in c.notifiers ==> n in pc
    }
  }

  function Init(c: Config): State {
    State({}, false, false, false, {}, {}, {}, {}, Idle, map t | t in c.notifiers :: NIdle)
  }

  datatype Move =
    | CallWait(entry: Word, exit: Word, wait: bool)
    | CallTake(clear: bool, wait: bool)
    | Owner
    | OwnerFails
    | CallNotify(t: Tid, act: Act, v: Word)
    | Notifier(t: Tid)

  ghost predicate Enabled(c: Config, s: State, m: Move)
    requires s.Shape(c)
  {
    match m
    case CallWait(_, _, _) => s.owner.Idle?
    case CallTake(_, _) => s.owner.Idle? && c.takes
    case Owner => !s.owner.Idle? && (s.owner.WWaiting? || s.owner.TWaiting? ==> s.bit)
    case OwnerFails =>
      s.owner.WWaiting? || s.owner.TWaiting? || ((s.owner.WBlock? || s.owner.TBlock?) && s.owner.wait)
    case CallNotify(t, _, _) => t in c.notifiers && s.pc[t].NIdle? && PlaceOf(s.owner) !in c.heldOff
    case Notifier(t) => t in c.notifiers && !s.pc[t].NIdle? && PlaceOf(s.owner) !in c.heldOff
  }

  /** The owner is inside `ulTaskNotifyTake`. */
  predicate InTake(p: OPc) {
    || p.TTest? || p.TBlock? || p.TWaiting? || p.TPoll?
    || p.TRead? || p.TWrite? || p.TPendRead? || p.TPendStore?
  }

  /** Lines 257 to 279, one access at a time. */
  function WaitStep(s: State): (s': State)
    requires !InTake(s.owner)
    ensures s'.pc == s.pc
  {
    match s.owner
    case Idle => s
    case WClear(entry, exit, wait) =>
      s.(value := s.value - entry, unread := s.unread - entry, mask := entry, since := {}, owner := WTest(exit, wait))
    case WTest(exit, wait) => s.(owner := if s.pending then WRead(exit) else WBlock(exit, wait))
    case WBlock(exit, wait) =>
      if !wait then s.(owner := Idle)
      else if s.bit then s.(bit := false, owner := WRead(exit))
      else s.(owner := WWaiting(exit))
    case WWaiting(exit) => s.(bit := false, owner := WRead(exit))
    case WRead(exit) => s.(unseen := false, unread := {}, got := s.value, owner := WUnpend(exit))
    case WUnpend(exit) => s.(pending := false, owner := WClearExit(exit))
    case WClearExit(exit) => s.(value := s.value - exit, owner := WPoll)
    case WPoll => s.(bit := false, owner := Idle)
  }

  /** Lines 292 to 312, one access at a time. */
  function TakeStep(s: State): (s': State)
    requires InTake(s.owner)
    ensures s'.pc == s.pc
  {
    match s.owner
    case TTest(clear, wait) => s.(owner := if s.value == {} then TBlock(clear, wait) else TRead(clear))
    case TBlock(clear, wait) =>
      if !wait then s.(owner := Idle)
      else if s.bit then s.(bit := false, owner := TPoll(clear))
      else s.(owner := TWaiting(clear))
    case TWaiting(clear) => s.(bit := false, owner := TPoll(clear))
    case TPoll(clear) => s.(bit := false, owner := TTest(clear, true))
    case TRead(clear) => s.(unseen := false, unread := {}, got := s.value, owner := TWrite(clear, s.value))
    case TWrite(clear, val) =>
      s.(value := if clear then {} else if val != {} then Dec(val) else s.value, owner := TPendRead)
    case TPendRead => s.(owner := TPendStore(s.value != {}))
    case TPendStore(set1) => s.(pending := set1, owner := Idle)
  }

  function OwnerStep(s: State): (s': State)
    ensures s'.pc == s.pc
  {
    if InTake(s.owner) then TakeStep(s) else WaitStep(s)
  }

  /** Lines 214 to 237, one access at a time: where the notifier goes next, and what it writes. */
  function NotifierNext(s: State, p: NPc): NPc {
    match p
    case NIdle => NIdle
    case Update(act, v) => if !act.NoOverwrite? then Pend else if s.pending then NIdle else Store(v)
    case Store(_) => Pend
    case Pend => Signal
    case Signal => NIdle
  }

  /** An increment keeps the unread bits that its carry does not clear, and adds those that it sets. */
  function Carried(unread: Word, value: Word): Word {
    unread * Inc(value) + (Inc(value) - value)
  }

  function NotifierEffect(s: State, p: NPc): (s': State)
    ensures s'.pc == s.pc && s'.owner == s.owner
  {
    match p
    case NIdle => s
    case Update(act, v) =>
      (match act
       case NoAction => s.(unseen := true)
       case SetBits => s.(value := s.value + v, unread := s.unread + v, since := s.since + v, unseen := true)
       case Increment =>
         var next := Inc(s.value);
         s.(value := next, unread := Carried(s.unread, s.value), since := s.since + (next - s.value), unseen := true)
       case Overwrite => s.(value := v, unread := v, since := s.since + v, unseen := true)
       case NoOverwrite => s)
    case Store(v) => s.(value := v, unread := v, since := s.since + v, unseen := true)
    case Pend => s.(pending := true)
    case Signal => s.(bit := true)
  }

  function NotifierStep(s: State, t: Tid): (s': State)
    requires t in s.pc
    ensures s'.pc.Keys == s.pc.Keys
  {
    NotifierEffect(s, s.pc[t]).(pc := s.pc[t := NotifierNext(s, s.pc[t])])
  }

  function Step(c: Config, s: State, m: Move): (s': State)
    requires s.Shape(c) && Enabled(c, s, m)
    ensures s'.Shape(c)
  {
    match m
    case CallWait(entry, exit, wait) => s.(owner := WClear(entry, exit, wait))
    case CallTake(clear, wait) => s.(owner := TTest(clear, wait))
    case Owner => OwnerStep(s)
    case OwnerFails => s.(owner := Idle)
    case CallNotify(t, act, v) => s.(pc := s.pc[t := Update(act, v)])
    case Notifier(t) => NotifierStep(s, t)
  }

  /** The state a run ends in, or None when some move of it was not enabled. */
  ghost function Exec(c: Config, moves: seq<Move>): (r: Option<State>)
    ensures r.Some? ==> r.value.Shape(c)
  {
    if moves == [] then Some(Init(c))
    else
      match Exec(c, moves[..|moves| - 1])
      case None => None
      case Some(p) =>
        if Enabled(c, p, moves[|moves| - 1]) then Some(Step(c, p, moves[|moves| - 1])) else None
  }

  ghost predicate Reachable(c: Config, s: State) {
    exists moves :: Exec(c, moves) == Some(s)
  }

  // ---------------------------------------------------------------------------------------------------------------
  // Committed waits
  // ---------------------------------------------------------------------------------------------------------------

  /** Past the "nothing pending" test of `xTaskNotifyWait`, and not given up. */
  predicate WaitCommitted(p: OPc) {
    p.WWaiting? || (p.WBlock? && p.wait)
  }

  /** Past the zero test of `ulTaskNotifyTake`, and not given up. */
  predicate TakeCommitted(p: OPc) {
    p.TWaiting? || (p.TBlock? && p.wait)
  }

  ghost predicate Signalling(pc: map<Tid, NPc>) {
    exists n :: n in pc && pc[n].Signal?
  }

  ghost predicate Notifying(pc: map<Tid, NPc>) {
    exists n :: n in pc && (pc[n].Pend? || pc[n].Signal?)
  }

  /** What a committed owner tested has since become set only if a signal is there or on its way. */
  ghost predicate WakeInv(s: State) {
    && (WaitCommitted(s.owner) && s.pending ==> s.bit || Signalling(s.pc))
    && (TakeCommitted(s.owner) && s.value != {} ==> s.bit || Notifying(s.pc))
  }

  lemma WakeStep(c: Config, s: State, m: Move)
    requires s.Shape(c) && Enabled(c, s, m) && WakeInv(s)
    ensures WakeInv(Step(c, s, m))
  {
    match m
    case CallNotify(t, _, _) => KeepWitness(s, Step(c, s, m), t);
    case Notifier(t) => NotifierWake(s, t);
    case Owner => OwnerWake(s);
    case _ =>
  }

  lemma OwnerWake(s: State)
    requires WakeInv(s) && (s.owner.WWaiting? || s.owner.TWaiting? ==> s.bit)
    ensures WakeInv(OwnerStep(s))
  {
    if InTake(s.owner) {
      TakeWake(s);
    } else {
      WaitWake(s);
    }
  }

  lemma WaitWake(s: State)
    requires WakeInv(s) && !InTake(s.owner)
    ensures WakeInv(WaitStep(s))
  {
    var s' := WaitStep(s);
    if s.owner.WBlock? {
      assert s'.bit == s.bit || s'.owner.WRead?;
    }
  }

  lemma TakeWake(s: State)
    requires WakeInv(s) && InTake(s.owner)
    ensures WakeInv(TakeStep(s))
  {
    var s' := TakeStep(s);
    if s.owner.TBlock? {
      assert s'.bit == s.bit || s'.owner.TPoll?;
    }
  }

  lemma NotifierWake(s: State, t: Tid)
    requires t in s.pc && WakeInv(s)
    ensures WakeInv(NotifierStep(s, t))
  {
    var s' := NotifierStep(s, t);
    KeepWitness(s, s', t);
    assert s'.pc[t] == NotifierNext(s, s.pc[t]);
  }

  /** Other notifiers stay where they are. */
  lemma KeepWitness(s: State, s': State, t: Tid)
    requires t in s.pc && s'.pc.Keys == s.pc.Keys
    requires forall u :: u in s.pc && u != t ==> s'.pc[u] == s.pc[u]
    ensures Signalling(s.pc) && !s.pc[t].Signal? ==> Signalling(s'.pc)
    ensures Notifying(s.pc) && !s.pc[t].Signal? && (s.pc[t].Pend? ==> s'.pc[t].Signal?) ==> Notifying(s'.pc)
  {
    if Signalling(s.pc) && !s.pc[t].Signal? {
      var n :| n in s.pc && s.pc[n].Signal?;
      assert s'.pc[n].Signal?;
    }
    if Notifying(s.pc) && !s.pc[t].Signal? && (s.pc[t].Pend? ==> s'.pc[t].Signal?) {
      var n :| n in s.pc && (s.pc[n].Pend? || s.pc[n].Signal?);
      assert s'.pc[n].Pend? || s'.pc[n].Signal?;
    }
  }

  /**
   No lost wake-up, step by step, with any number of notifiers and any mix of the two calls: if what a committed owner
   has tested is now set, the notify bit is set or a notifier has still to signal.
   */
  lemma {:induction false} NoLostWakeup(c: Config, moves: seq<Move>)
    requires Exec(c, moves).Some?
    ensures WakeInv(Exec(c, moves).value)
  {
    if moves == [] {
    } else {
      NoLostWakeup(c, moves[..|moves| - 1]);
      WakeStep(c, Exec(c, moves[..|moves| - 1]).value, moves[|moves| - 1]);
    }
  }

  // ---------------------------------------------------------------------------------------------------------------
  // The entry mask
  // ---------------------------------------------------------------------------------------------------------------

  /** The owner is inside `xTaskNotifyWait`, past the entry mask, and before or after its read of the value. */
  predicate BeforeRead(p: OPc) {
    p.WTest? || p.WBlock? || p.WWaiting? || p.WRead?
  }

  predicate AfterRead(p: OPc) {
    p.WUnpend? || p.WClearExit? || p.WPoll?
  }

  predicate EntryInv(s: State) {
    && (BeforeRead(s.owner) ==> s.value * s.mask <= s.since)
    && (AfterRead(s.owner) ==> s.got * s.mask <= s.since)
  }

  lemma EntryStep(c: Config, s: State, m: Move)
    requires s.Shape(c) && Enabled(c, s, m) && EntryInv(s)
    ensures EntryInv(Step(c, s, m))
  {
    match m
    case Owner => OwnerEntry(s);
    case Notifier(t) => NotifierEntry(s, s.pc[t]);
    case _ =>
  }

  lemma NotifierEntry(s: State, p: NPc)
    requires EntryInv(s)
    ensures EntryInv(NotifierEffect(s, p))
  {
    var s' := NotifierEffect(s, p);
    assert s.since <= s'.since && s'.mask == s.mask && s'.got == s.got;
    assert s'.value <= s.value + s'.since;
  }

  lemma OwnerEntry(s: State)
    requires EntryInv(s)
    ensures EntryInv(OwnerStep(s))
  {
    if InTake(s.owner) {
      assert !BeforeRead(TakeStep(s).owner) && !AfterRead(TakeStep(s).owner);
    } else if s.owner.WClear? {
      assert (s.value - s.owner.entry) * s.owner.entry == {};
    }
  }

  /**
   In every run the value that `xTaskNotifyWait` hands to its caller contains no bit of the entry mask but those that a
   notifier has set after the mask was applied.
   */
  lemma {:induction false} EntryMaskHolds(c: Config, moves: seq<Move>)
    requires Exec(c, moves).Some?
    ensures EntryInv(Exec(c, moves).value)
  {
    if moves == [] {
    } else {
      EntryMaskHolds(c, moves[..|moves| - 1]);
      EntryStep(c, Exec(c, moves[..|moves| - 1]).value, moves[|moves| - 1]);
    }
  }

  // ---------------------------------------------------------------------------------------------------------------
  // Delivery
  // ---------------------------------------------------------------------------------------------------------------

  /** The owner waits for a notification that is complete in every respect and that it has never seen. */
  ghost predicate LostNotification(s: State) {
    WaitCommitted(s.owner) && s.unseen && !s.bit && !Notifying(s.pc)
  }

  /** A bit set by a notifier has gone from the value, and nobody has read, overwritten or cleared it on entry. */
  predicate LostBits(s: State) {
    !(s.unread <= s.value)
  }

  /** Notifiers can run at `p`, and at some place from which the owner gets there. */
  ghost predicate Exposed(c: Config, p: Place) {
    c.notifiers != {} && p !in c.heldOff && !(BEFORE_NEWS <= c.heldOff)
  }

  ghost predicate FlagPending(pc: map<Tid, NPc>) {
    exists n :: n in pc && pc[n].Pend?
  }

  // --- Nothing is lost where the notifiers are held off ---

  /** With notifiers held off from everywhere that the owner can be, nothing ever happens. */
  ghost predicate Still(c: Config, s: State)
    requires s.Shape(c)
  {
    && PlaceOf(s.owner) in BEFORE_NEWS
    && !s.pending && !s.bit && !s.unseen && s.unread == {}
  }

  lemma StillStep(c: Config, s: State, m: Move)
    requires s.Shape(c) && Enabled(c, s, m) && Still(c, s) && !c.takes
    requires BEFORE_NEWS <= c.heldOff || c.notifiers == {}
    ensures Still(c, Step(c, s, m))
  {
  }

  ghost predicate DeliverInv(s: State) {
    && (s.owner.WUnpend? ==> !s.unseen)
    && (s.unseen ==> s.pending || FlagPending(s.pc))
    && !InTake(s.owner)
  }

  lemma DeliverStep(c: Config, s: State, m: Move)
    requires s.Shape(c) && Enabled(c, s, m) && DeliverInv(s)
    requires !c.takes && AtUnpend in c.heldOff
    ensures DeliverInv(Step(c, s, m))
  {
    match m
    case CallNotify(t, _, _) =>
      if FlagPending(s.pc) {
        var n :| n in s.pc && s.pc[n].Pend?;
        assert Step(c, s, m).pc[n].Pend?;
      }
    case Notifier(t) => NotifierDelivers(s, t);
    case Owner => OwnerDelivers(s);
    case _ =>
  }

  /** The owner's own steps neither make news nor clear the flag without having read what there is. */
  lemma OwnerDelivers(s: State)
    requires DeliverInv(s)
    ensures DeliverInv(WaitStep(s))
  {
    var s' := WaitStep(s);
    if s.owner.WUnpend? || s.owner.WRead? {
      assert !s'.unseen;
    } else {
      assert s'.unseen == s.unseen && s'.pending == s.pending && !s'.owner.WUnpend?;
    }
  }

  lemma NotifierDelivers(s: State, t: Tid)
    requires t in s.pc && DeliverInv(s) && !s.owner.WUnpend?
    ensures DeliverInv(NotifierStep(s, t))
  {
    var s' := NotifierStep(s, t);
    assert s'.pc[t] == NotifierNext(s, s.pc[t]);
    if FlagPending(s.pc) {
      var n :| n in s.pc && s.pc[n].Pend?;
      assert s'.pending || s'.pc[n].Pend?;
    }
  }

  ghost predicate BitsInv(s: State) {
    && !LostBits(s)
    && (s.owner.WUnpend? || s.owner.WClearExit? ==> s.unread == {})
    && !InTake(s.owner)
  }

  lemma BitsStep(c: Config, s: State, m: Move)
    requires s.Shape(c) && Enabled(c, s, m) && BitsInv(s)
    requires !c.takes && AtUnpend in c.heldOff && AtClearExit in c.heldOff
    ensures BitsInv(Step(c, s, m))
  {
  }

  lemma {:induction false} HeldOffExec(c: Config, moves: seq<Move>)
    requires !c.takes && Exec(c, moves).Some?
    ensures var s := Exec(c, moves).value;
      && (BEFORE_NEWS <= c.heldOff || c.notifiers == {} ==> Still(c, s))
      && (AtUnpend in c.heldOff ==> DeliverInv(s))
      && (AtUnpend in c.heldOff && AtClearExit in c.heldOff ==> BitsInv(s))
  {
    if moves == [] {
    } else {
      var before := moves[..|moves| - 1];
      HeldOffExec(c, before);
      var s, m := Exec(c, before).value, moves[|moves| - 1];
      if BEFORE_NEWS <= c.heldOff || c.notifiers == {} {
        StillStep(c, s, m);
      }
      if AtUnpend in c.heldOff {
        DeliverStep(c, s, m);
        if AtClearExit in c.heldOff {
          BitsStep(c, s, m);
        }
      }
    }
  }

  // --- Runs that lose something ---

  lemma Go(c: Config, s: State, m: Move) returns (s': State)
    requires s.Shape(c) && Reachable(c, s) && Enabled(c, s, m)
    ensures s' == Step(c, s, m) && s'.Shape(c) && Reachable(c, s')
  {
    s' := Step(c, s, m);
    var moves :| Exec(c, moves) == Some(s);
    var longer := moves + [m];
    assert longer[..|longer| - 1] == moves;
    assert Exec(c, longer) == Some(s');
  }

  /** A reachable state in which every notifier is idle. */
  ghost predicate Quiet(c: Config, s: State) {
    && s.Shape(c) && Reachable(c, s)
    && forall n :: n in s.pc ==> s.pc[n].NIdle?
  }

  /** A whole `xTaskNotify(..., eSetBits)` by an idle notifier. */
  lemma WholeNotify(c: Config, s: State, n: Tid, v: Word) returns (s': State)
    requires n in c.notifiers && Quiet(c, s) && PlaceOf(s.owner) !in c.heldOff
    ensures Quiet(c, s') && s'.owner == s.owner && s'.unseen && s'.pending && s'.bit
    ensures s'.value == s.value + v && s'.unread == s.unread + v
  {
    s' := Go(c, s, CallNotify(n, SetBits, v));
    s' := Go(c, s', Notifier(n));
    s' := FinishNotify(c, s', n);
  }

  lemma FinishNotify(c: Config, s: State, n: Tid) returns (s': State)
    requires n in c.notifiers && s.Shape(c) && Reachable(c, s) && PlaceOf(s.owner) !in c.heldOff
    requires s.pc[n].Pend? && forall u :: u in s.pc && u != n ==> s.pc[u].NIdle?
    ensures Quiet(c, s') && s'.owner == s.owner && s'.unseen == s.unseen && s'.pending && s'.bit
    ensures s'.value == s.value && s'.unread == s.unread
  {
    s' := Go(c, s, Notifier(n));
    s' := Go(c, s', Notifier(n));
  }

  /** One step of the owner. */
  lemma OwnStep(c: Config, s: State) returns (s': State)
    requires Quiet(c, s) && Enabled(c, s, Owner)
    ensures Quiet(c, s') && s' == OwnerStep(s)
  {
    s' := Go(c, s, Owner);
  }

  /** The owner calls `xTaskNotifyWait` and goes as far as `p`, with nothing pending. */
  lemma CallUpTo(c: Config, s: State, exit: Word, p: Place) returns (s': State)
    requires Quiet(c, s) && s.owner.Idle? && !s.pending && !s.bit && p in BEFORE_NEWS
    ensures Quiet(c, s') && PlaceOf(s'.owner) == p && !s'.pending && !s'.bit
    ensures s'.unseen == s.unseen && s'.unread == s.unread
    ensures s'.owner in {Idle, WClear({}, exit, true), WTest(exit, true), WBlock(exit, true), WWaiting(exit)}
  {
    s' := s;
    if p != AtIdle {
      s' := Go(c, s, CallWait({}, exit, true));
      if p != AtClear {
        s' := OwnStep(c, s');
        if p != AtTest {
          s' := OwnStep(c, s');
          if p != AtBlock {
            s' := OwnStep(c, s');
          }
        }
      }
    }
  }

  /** With a notification pending and signalled, the owner goes on to read the value. */
  lemma GoOn(c: Config, s: State, exit: Word) returns (s': State)
    requires Quiet(c, s) && s.pending && s.bit
    requires s.owner in {Idle, WClear({}, exit, true), WTest(exit, true), WBlock(exit, true), WWaiting(exit)}
    ensures Quiet(c, s') && s'.owner == WRead(exit)
  {
    s' := s;
    if s'.owner.Idle? {
      s' := Go(c, s', CallWait({}, exit, true));
    }
    if s'.owner.WClear? {
      s' := OwnStep(c, s');
    }
    s' := OwnStep(c, s');
  }

  lemma ReadOn(c: Config, s: State, exit: Word) returns (s': State)
    requires Quiet(c, s) && s.pending && s.bit
    requires s.owner in {Idle, WClear({}, exit, true), WTest(exit, true), WBlock(exit, true), WWaiting(exit)}
    ensures Quiet(c, s') && s'.owner == WUnpend(exit) && !s'.unseen && s'.unread == {}
  {
    s' := GoOn(c, s, exit);
    s' := OwnStep(c, s');
  }

  /** Where notifiers can run before the owner has news, it gets to its tail. */
  lemma ReachTail(c: Config, n: Tid, exit: Word) returns (s: State)
    requires n in c.notifiers && !(BEFORE_NEWS <= c.heldOff)
    ensures Quiet(c, s) && s.owner == WUnpend(exit) && !s.unseen && s.unread == {}
  {
    var p :| p in BEFORE_NEWS && p !in c.heldOff;
    assert Exec(c, []) == Some(Init(c));
    s := CallUpTo(c, Init(c), exit, p);
    s := WholeNotify(c, s, n, {});
    s := ReadOn(c, s, exit);
  }

  /** A notification that falls between the owner's read of the value and its clearing of the flag is lost. */
  lemma LosesNotification(c: Config, n: Tid) returns (s: State)
    requires n in c.notifiers && Exposed(c, AtUnpend)
    ensures Reachable(c, s) && LostNotification(s)
  {
    s := ReachTail(c, n, {});
    s := WholeNotify(c, s, n, {});
    s := RunTail(c, s);
    s := CallUpTo(c, s, {}, AtWaiting);
  }

  /** The tail of the call clears the flag and the bit. */
  lemma RunTail(c: Config, s: State) returns (s': State)
    requires Quiet(c, s) && s.owner == WUnpend({})
    ensures Quiet(c, s') && s'.owner.Idle? && !s'.pending && !s'.bit && s'.unseen == s.unseen
  {
    s' := OwnStep(c, s);
    s' := OwnStep(c, s');
    s' := OwnStep(c, s');
  }

  /** A bit that is set between the read of the value and the exit mask is wiped by the mask unread. */
  lemma LosesBits(c: Config, n: Tid) returns (s: State)
    requires n in c.notifiers && (Exposed(c, AtUnpend) || Exposed(c, AtClearExit))
    ensures Reachable(c, s) && LostBits(s)
  {
    s := ReachTail(c, n, {0});
    if AtUnpend !in c.heldOff {
      s := WholeNotify(c, s, n, {0});
      s := OwnStep(c, s);
    } else {
      s := OwnStep(c, s);
      s := WholeNotify(c, s, n, {0});
    }
    assert 0 in s.unread && s.owner == WClearExit({0});
    s := OwnStep(c, s);
  }

  /**
   With `xTaskNotifyWait` alone: no run leaves the owner waiting for a complete notification that it has not seen,
   exactly when the notifiers cannot run between its read of the value and its clearing of the pending flag (or can
   never run before it has news, or there are none). The code does not keep them out.
   */
  lemma DeliveryIff(c: Config)
    requires !c.takes
    ensures (forall s :: Reachable(c, s) ==> !LostNotification(s)) <==> !Exposed(c, AtUnpend)
  {
    if Exposed(c, AtUnpend) {
      var n :| n in c.notifiers;
      var s := LosesNotification(c, n);
    } else {
      forall s | Reachable(c, s)
        ensures !LostNotification(s)
      {
        var moves :| Exec(c, moves) == Some(s);
        HeldOffExec(c, moves);
        NoLostWakeup(c, moves);
        if FlagPending(s.pc) {
          var n :| n in s.pc && s.pc[n].Pend?;
          assert Notifying(s.pc);
        }
      }
    }
  }

  /**
   Payload: in every run each bit that a notifier sets stays in the value until the owner reads it, a notifier
   overwrites it or a call clears it on entry, exactly when the notifiers can run neither before the flag is cleared nor
   before the exit mask is applied. The code does not keep them out.
   */
  lemma BitsIff(c: Config)
    requires !c.takes
    ensures (forall s :: Reachable(c, s) ==> !LostBits(s)) <==> !Exposed(c, AtUnpend) && !Exposed(c, AtClearExit)
  {
    if Exposed(c, AtUnpend) || Exposed(c, AtClearExit) {
      var n :| n in c.notifiers;
      var s := LosesBits(c, n);
    } else {
      forall s | Reachable(c, s)
        ensures !LostBits(s)
      {
        var moves :| Exec(c, moves) == Some(s);
        HeldOffExec(c, moves);
      }
    }
  }
}
