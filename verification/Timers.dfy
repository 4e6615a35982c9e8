/**
 Software timers on a wrapping 32-bit tick (freertos/src/freertos_timers.c, freertos/src/freertos_init.c).

 Every operation is written once, over a `Clock`: the 32-bit clock of the code, with its signed comparison, or an ideal
 clock that never wraps. The theorems relate the two.
 */
module Timers {
  import opened Prelude

  datatype Clock = Word32 | Ideal {

    /** The deadline `p` ticks after `a`. */
    function Plus(a: nat, p: nat): nat {
      match this
      case Ideal => a + p
      case Word32 => if a + p >= WORD then a + p - WORD else a + p
    }

    /** The test of line 17: a signed 32-bit difference on the real clock, a plain comparison on the ideal one. */
    predicate Due(now: nat, expiry: nat) {
      match this
      case Ideal => now >= expiry
      case Word32 => (if now >= expiry then now - expiry else now + WORD - expiry) < HALF
    }
  }

  /** The fields of one slot that decide when it fires. */
  datatype Timer = Timer(used: bool, active: bool, autoReload: bool, period: nat, expiry: nat)

  const FREE := Timer(false, false, false, 0, 0)

  /** The API calls; `i` is the slot that a handle points to. */
  datatype Cmd =
    | Create(period: nat, autoReload: bool)
    | Start(i: nat)
    | Stop(i: nat)
    | ChangePeriod(i: nat, period: nat)
    | Delete(i: nat)

  /** Which slots are in use. */
  function Used(ts: seq<Timer>): (r: seq<bool>)
    ensures |r| == |ts| && forall i :: 0 <= i < |r| ==> r[i] == ts[i].used
  {
    seq(|ts|, i requires 0 <= i < |ts| => ts[i].used)
  }

  /** One API call at tick `now`: the new table, and whether the call reports success. */
  function Do(k: Clock, ts: seq<Timer>, now: nat, c: Cmd): (r: (seq<Timer>, bool))
    ensures |r.0| == |ts|
  {
    match c
    case Create(period, auto) =>
      var f := FreeSlot(Used(ts));
      if period == 0 || f == |ts| then (ts, false) else (ts[f := Timer(true, false, auto, period, 0)], true)
    case Start(i) =>
      if i >= |ts| || !ts[i].used then (ts, false)
      else (ts[i := ts[i].(expiry := k.Plus(now, ts[i].period), active := true)], true)
    case Stop(i) =>
      if i >= |ts| || !ts[i].used then (ts, false) else (ts[i := ts[i].(active := false)], true)
    case ChangePeriod(i, period) =>
      if i >= |ts| || !ts[i].used || period == 0 then (ts, false)
      else (ts[i := ts[i].(period := period, expiry := if ts[i].active then k.Plus(now, period) else ts[i].expiry)], true)
    case Delete(i) =>
      if i >= |ts| || !ts[i].used then (ts, false) else (ts[i := ts[i].(active := false, used := false)], true)
  }

  /** A callback body: any list of API calls. */
  function DoAll(k: Clock, ts: seq<Timer>, now: nat, cmds: seq<Cmd>): (r: seq<Timer>)
    ensures |r| == |ts|
    decreases |cmds|
  {
    if cmds == [] then ts else DoAll(k, Do(k, ts, now, cmds[0]).0, now, cmds[1..])
  }

  predicate Fires(k: Clock, t: Timer, now: nat) {
    t.used && t.active && k.Due(now, t.expiry)
  }

  /** Lines 20 to 27 for slot `i`: its callback runs `cmds`, and then the slot is reloaded or stopped. */
  function Fire(k: Clock, ts: seq<Timer>, now: nat, cmds: seq<Cmd>, i: nat): (r: seq<Timer>)
    requires i < |ts|
    ensures |r| == |ts|
  {
    var after := DoAll(k, ts, now, cmds);
    after[i := if after[i].autoReload then after[i].(expiry := k.Plus(now, after[i].period)) else after[i].(active := false)]
  }

  /** The body of the loop of `fr_timers_on_tick` for slot `i`. */
  function Visit(k: Clock, ts: seq<Timer>, now: nat, scripts: seq<seq<Cmd>>, i: nat): (r: seq<Timer>)
    requires i < |ts| == |scripts|
    ensures |r| == |ts|
  {
    if Fires(k, ts[i], now) then Fire(k, ts, now, scripts[i], i) else ts
  }

  /**
   The sweep from slot `i` on: the new table, and the slots that fired, in order. `scripts[j]` is what the callback of
   slot `j` does if that slot fires; leaving it open covers every callback.
   */
  function Sweep(k: Clock, ts: seq<Timer>, now: nat, scripts: seq<seq<Cmd>>, i: nat): (r: (seq<Timer>, seq<nat>))
    requires i <= |ts| == |scripts|
    ensures |r.0| == |ts|
    decreases |ts| - i
  {
    if i == |ts| then (ts, [])
    else
      var rest := Sweep(k, Visit(k, ts, now, scripts, i), now, scripts, i + 1);
      (rest.0, (if Fires(k, ts[i], now) then [i] else []) + rest.1)
  }

  /** The timer table and the tick counter. */
  datatype System = System(timers: seq<Timer>, tick: nat)

  /** An API call from a thread, or one turn of the tick thread. */
  datatype Event = Api(cmd: Cmd) | Tick(scripts: seq<seq<Cmd>>)

  /** What an event shows: the result of the call, or the slots that fired. */
  datatype Obs = Result(ok: bool) | Fired(slots: seq<nat>)

  function Step(k: Clock, s: System, e: Event): (System, Obs)
    requires e.Tick? ==> |e.scripts| == |s.timers|
  {
    match e
    case Api(cmd) => var r := Do(k, s.timers, s.tick, cmd); (s.(timers := r.0), Result(r.1))
    case Tick(scripts) =>
      var now := k.Plus(s.tick, 1);
      var r := Sweep(k, s.timers, now, scripts, 0);
      (System(r.0, now), Fired(r.1))
  }

  predicate Fits(events: seq<Event>, slots: nat) {
    forall i :: 0 <= i < |events| ==> (events[i].Tick? ==> |events[i].scripts| == slots)
  }

  /** A run from `s`: the final system and everything it showed on the way. */
  function Run(k: Clock, s: System, events: seq<Event>): (r: (System, seq<Obs>))
    requires Fits(events, |s.timers|)
    ensures |r.0.timers| == |s.timers| && |r.1| == |events|
  {
    if events == [] then (s, [])
    else
      var r := Run(k, s, events[..|events| - 1]);
      var t := Step(k, r.0, events[|events| - 1]);
      (t.0, r.1 + [t.1])
  }

  // ---------------------------------------------------------------------------------------------------------------
  // The 32-bit clock refines the ideal one
  // ---------------------------------------------------------------------------------------------------------------

  function WrapTimer(t: Timer): Timer {
    t.(expiry := Wrap(t.expiry))
  }

  function WrapAll(ts: seq<Timer>): seq<Timer> {
    seq(|ts|, i requires 0 <= i < |ts| => WrapTimer(ts[i]))
  }

  function WrapSystem(s: System): System {
    System(WrapAll(s.timers), Wrap(s.tick))
  }

  /** A call that sets no period above 2^31 ticks. */
  predicate CmdOk(c: Cmd) {
    c.Create? || c.ChangePeriod? ==> c.period <= HALF
  }

  predicate CmdsOk(cmds: seq<Cmd>) {
    forall i :: 0 <= i < |cmds| ==> CmdOk(cmds[i])
  }

  predicate ScriptsOk(scripts: seq<seq<Cmd>>) {
    forall i :: 0 <= i < |scripts| ==> CmdsOk(scripts[i])
  }

  predicate EventOk(e: Event) {
    match e
    case Api(cmd) => CmdOk(cmd)
    case Tick(scripts) => ScriptsOk(scripts)
  }

  /** A slot whose deadline is `lead` ticks ahead at least, and within 2^31. */
  predicate SlotOk(t: Timer, now: nat, lead: nat) {
    && t.period <= HALF
    && (t.used ==> 1 <= t.period)
    && (t.used && t.active ==> now + lead <= t.expiry <= now + HALF)
  }

  /** In the middle of a sweep: the slots before `i` have deadlines in the future, the others now at the earliest. */
  predicate TableOk(ts: seq<Timer>, now: nat, i: nat) {
    forall j :: 0 <= j < |ts| ==> SlotOk(ts[j], now, if j < i then 1 else 0)
  }

  /** Between sweeps every active deadline is strictly in the future and at most 2^31 ticks away. */
  predicate SystemOk(s: System) {
    TableOk(s.timers, s.tick, |s.timers|)
  }

  lemma WrapPlus(a: nat, p: nat)
    requires p < WORD
    ensures Word32.Plus(Wrap(a), p) == Wrap(a + p)
  {
  }

  lemma WrapDue(now: nat, expiry: nat)
    requires now <= expiry <= now + HALF
    ensures Word32.Due(Wrap(now), Wrap(expiry)) == Ideal.Due(now, expiry) == (now == expiry)
  {
    var d := expiry - now;
    WrapPlus(now, d);
  }

  lemma WrapUsed(ts: seq<Timer>)
    ensures Used(WrapAll(ts)) == Used(ts)
  {
  }

  lemma WrapUpdate(ts: seq<Timer>, i: nat, t: Timer)
    requires i < |ts|
    ensures WrapAll(ts[i := t]) == WrapAll(ts)[i := WrapTimer(t)]
  {
  }

  lemma RefineDo(ts: seq<Timer>, now: nat, c: Cmd, i: nat)
    requires TableOk(ts, now, i) && CmdOk(c)
    ensures Do(Word32, WrapAll(ts), Wrap(now), c) == (WrapAll(Do(Ideal, ts, now, c).0), Do(Ideal, ts, now, c).1)
    ensures TableOk(Do(Ideal, ts, now, c).0, now, i)
  {
    match c
    case Create(period, auto) =>
      WrapUsed(ts);
      var f := FreeSlot(Used(ts));
      if f < |ts| {
        WrapUpdate(ts, f, Timer(true, false, auto, period, 0));
      }
    case Start(j) =>
      if j < |ts| && ts[j].used {
        assert SlotOk(ts[j], now, if j < i then 1 else 0);
        WrapPlus(now, ts[j].period);
        WrapUpdate(ts, j, ts[j].(expiry := now + ts[j].period, active := true));
      }
    case ChangePeriod(j, period) =>
      if j < |ts| && ts[j].used {
        assert SlotOk(ts[j], now, if j < i then 1 else 0);
        WrapPlus(now, period);
        WrapUpdate(ts, j, ts[j].(period := period, expiry := if ts[j].active then now + period else ts[j].expiry));
      }
    case Stop(j) =>
      if j < |ts| && ts[j].used {
        assert SlotOk(ts[j], now, if j < i then 1 else 0);
        WrapUpdate(ts, j, ts[j].(active := false));
      }
    case Delete(j) =>
      if j < |ts| && ts[j].used {
        assert SlotOk(ts[j], now, if j < i then 1 else 0);
        WrapUpdate(ts, j, ts[j].(active := false, used := false));
      }
  }

  lemma {:induction false} RefineDoAll(ts: seq<Timer>, now: nat, cmds: seq<Cmd>, i: nat)
    requires TableOk(ts, now, i) && CmdsOk(cmds)
    ensures DoAll(Word32, WrapAll(ts), Wrap(now), cmds) == WrapAll(DoAll(Ideal, ts, now, cmds))
    ensures TableOk(DoAll(Ideal, ts, now, cmds), now, i)
    decreases |cmds|
  {
    if cmds == [] {
    } else {
      assert CmdOk(cmds[0]);
      RefineDo(ts, now, cmds[0], i);
      RefineDoAll(Do(Ideal, ts, now, cmds[0]).0, now, cmds[1..], i);
    }
  }

  lemma RefineVisit(ts: seq<Timer>, now: nat, scripts: seq<seq<Cmd>>, i: nat)
    requires i < |ts| == |scripts| && TableOk(ts, now, i) && ScriptsOk(scripts)
    ensures Visit(Word32, WrapAll(ts), Wrap(now), scripts, i) == WrapAll(Visit(Ideal, ts, now, scripts, i))
    ensures TableOk(Visit(Ideal, ts, now, scripts, i), now, i + 1)
    ensures Fires(Word32, WrapAll(ts)[i], Wrap(now)) == Fires(Ideal, ts[i], now)
  {
    var t := ts[i];
    assert SlotOk(t, now, 0);
    if t.used && t.active {
      WrapDue(now, t.expiry);
    }
    if Fires(Ideal, t, now) {
      RefineFire(ts, now, scripts[i], i);
    }
  }

  lemma RefineFire(ts: seq<Timer>, now: nat, cmds: seq<Cmd>, i: nat)
    requires i < |ts| && TableOk(ts, now, i) && CmdsOk(cmds)
    ensures Fire(Word32, WrapAll(ts), Wrap(now), cmds, i) == WrapAll(Fire(Ideal, ts, now, cmds, i))
    ensures TableOk(Fire(Ideal, ts, now, cmds, i), now, i + 1)
  {
    RefineDoAll(ts, now, cmds, i);
    var after := DoAll(Ideal, ts, now, cmds);
    assert SlotOk(after[i], now, 0);
    WrapPlus(now, after[i].period);
    assert forall j :: 0 <= j < i + 1 && j != i ==> SlotOk(after[j], now, 1);
  }

  lemma {:induction false} RefineSweep(ts: seq<Timer>, now: nat, scripts: seq<seq<Cmd>>, i: nat)
    requires i <= |ts| == |scripts| && TableOk(ts, now, i) && ScriptsOk(scripts)
    ensures Sweep(Word32, WrapAll(ts), Wrap(now), scripts, i)
         == (WrapAll(Sweep(Ideal, ts, now, scripts, i).0), Sweep(Ideal, ts, now, scripts, i).1)
    ensures TableOk(Sweep(Ideal, ts, now, scripts, i).0, now, |ts|)
    decreases |ts| - i
  {
    if i == |ts| {
    } else {
      RefineVisit(ts, now, scripts, i);
      RefineSweep(Visit(Ideal, ts, now, scripts, i), now, scripts, i + 1);
    }
  }

  lemma RefineStep(s: System, e: Event)
    requires SystemOk(s) && EventOk(e) && (e.Tick? ==> |e.scripts| == |s.timers|)
    ensures Step(Word32, WrapSystem(s), e) == (WrapSystem(Step(Ideal, s, e).0), Step(Ideal, s, e).1)
    ensures SystemOk(Step(Ideal, s, e).0)
  {
    match e
    case Api(cmd) =>
      RefineDo(s.timers, s.tick, cmd, |s.timers|);
    case Tick(scripts) =>
      WrapPlus(s.tick, 1);
      assert TableOk(s.timers, s.tick + 1, 0) by {
        forall j | 0 <= j < |s.timers|
          ensures SlotOk(s.timers[j], s.tick + 1, 0)
        {
          assert SlotOk(s.timers[j], s.tick, 1);
        }
      }
      RefineSweep(s.timers, s.tick + 1, scripts, 0);
  }

  /**
   Refinement: over any run of API calls and ticks, with any callbacks, the 32-bit code gives the same results, fires
   the same slots at the same ticks and reaches the same table as the ideal clock, however often the tick wraps. After
   every event each active deadline is strictly in the future and within 2^31 ticks.
   */
  lemma {:induction false} ClockRefinement(s: System, events: seq<Event>)
    requires SystemOk(s) && Fits(events, |s.timers|)
    requires forall i :: 0 <= i < |events| ==> EventOk(events[i])
    ensures Run(Word32, WrapSystem(s), events) == (WrapSystem(Run(Ideal, s, events).0), Run(Ideal, s, events).1)
    ensures SystemOk(Run(Ideal, s, events).0)
  {
    if events == [] {
    } else {
      var before := events[..|events| - 1];
      ClockRefinement(s, before);
      RefineStep(Run(Ideal, s, before).0, events[|events| - 1]);
    }
  }

  // ---------------------------------------------------------------------------------------------------------------
  // Exact firing
  // ---------------------------------------------------------------------------------------------------------------

  /** The call concerns slot `i`. A Create takes a free slot, so it never concerns a used one. */
  predicate Touches(c: Cmd, i: nat) {
    !c.Create? && c.i == i
  }

  predicate LeavesAlone(cmds: seq<Cmd>, i: nat) {
    forall j :: 0 <= j < |cmds| ==> !Touches(cmds[j], i)
  }

  predicate EventLeavesAlone(e: Event, i: nat) {
    match e
    case Api(cmd) => !Touches(cmd, i)
    case Tick(scripts) => forall j :: 0 <= j < |scripts| ==> LeavesAlone(scripts[j], i)
  }

  lemma DoUndisturbed(k: Clock, ts: seq<Timer>, now: nat, c: Cmd, i: nat)
    requires i < |ts| && ts[i].used && !Touches(c, i)
    ensures Do(k, ts, now, c).0[i] == ts[i]
  {
  }

  lemma {:induction false} DoAllUndisturbed(k: Clock, ts: seq<Timer>, now: nat, cmds: seq<Cmd>, i: nat)
    requires i < |ts| && ts[i].used && LeavesAlone(cmds, i)
    ensures DoAll(k, ts, now, cmds)[i] == ts[i]
    decreases |cmds|
  {
    if cmds == [] {
    } else {
      DoUndisturbed(k, ts, now, cmds[0], i);
      DoAllUndisturbed(k, Do(k, ts, now, cmds[0]).0, now, cmds[1..], i);
    }
  }

  /** What one sweep does to a slot that nobody touches. */
  function Reload(k: Clock, t: Timer, now: nat): Timer {
    if !Fires(k, t, now) then t
    else if t.autoReload then t.(expiry := k.Plus(now, t.period))
    else t.(active := false)
  }

  /** How often `i` occurs in the list of fired slots. */
  function Count(slots: seq<nat>, i: nat): nat {
    if slots == [] then 0 else (if slots[0] == i then 1 else 0) + Count(slots[1..], i)
  }

  lemma VisitUndisturbed(k: Clock, ts: seq<Timer>, now: nat, scripts: seq<seq<Cmd>>, from: nat, i: nat)
    requires from < |ts| == |scripts| && i < |ts| && ts[i].used && LeavesAlone(scripts[from], i)
    ensures Visit(k, ts, now, scripts, from)[i] == if from == i then Reload(k, ts[i], now) else ts[i]
  {
    DoAllUndisturbed(k, ts, now, scripts[from], i);
  }

  lemma CountPrefix(first: seq<nat>, rest: seq<nat>, i: nat)
    requires |first| <= 1
    ensures Count(first + rest, i) == Count(rest, i) + if first == [i] then 1 else 0
  {
    if first == [] {
      assert first + rest == rest;
    } else {
      assert (first + rest)[1..] == rest;
    }
  }

  lemma {:induction false} SweepUndisturbed(k: Clock, ts: seq<Timer>, now: nat, scripts: seq<seq<Cmd>>, from: nat, i: nat)
    requires from <= |ts| == |scripts| && i < |ts| && ts[i].used
    requires forall j :: from <= j < |scripts| ==> LeavesAlone(scripts[j], i)
    ensures var r := Sweep(k, ts, now, scripts, from);
      && r.0[i] == (if from <= i then Reload(k, ts[i], now) else ts[i])
      && Count(r.1, i) == (if from <= i && Fires(k, ts[i], now) then 1 else 0)
    decreases |ts| - from
  {
    if from == |ts| {
    } else {
      var next := Visit(k, ts, now, scripts, from);
      VisitUndisturbed(k, ts, now, scripts, from, i);
      SweepUndisturbed(k, next, now, scripts, from + 1, i);
      CountPrefix(if Fires(k, ts[from], now) then [from] else [], Sweep(k, next, now, scripts, from + 1).1, i);
    }
  }

  /** The slots come in ascending order, all at least `from`. */
  predicate Ascending(slots: seq<nat>, from: nat) {
    && (forall a :: 0 <= a < |slots| ==> from <= slots[a])
    && (forall a, b :: 0 <= a < b < |slots| ==> slots[a] < slots[b])
  }

  lemma AscendingPrefix(first: seq<nat>, rest: seq<nat>, from: nat)
    requires (first == [] || first == [from]) && Ascending(rest, from + 1)
    ensures Ascending(first + rest, from)
  {
    var all := first + rest;
    if first == [] {
      assert all == rest;
    } else {
      forall a, b | 0 <= a < b < |all|
        ensures all[a] < all[b]
      {
        assert all[b] == rest[b - 1];
        if a > 0 {
          assert all[a] == rest[a - 1];
        }
      }
    }
  }

  /** No slot fires twice in one sweep, whatever the callbacks do: the slots that fire are listed in ascending order. */
  lemma {:induction false} NoDoubleFire(k: Clock, ts: seq<Timer>, now: nat, scripts: seq<seq<Cmd>>, from: nat)
    requires from <= |ts| == |scripts|
    ensures Ascending(Sweep(k, ts, now, scripts, from).1, from)
    decreases |ts| - from
  {
    if from == |ts| {
    } else {
      var next := Visit(k, ts, now, scripts, from);
      NoDoubleFire(k, next, now, scripts, from + 1);
      AscendingPrefix(if Fires(k, ts[from], now) then [from] else [], Sweep(k, next, now, scripts, from + 1).1, from);
    }
  }

  function Ticks(events: seq<Event>): nat {
    if events == [] then 0
    else Ticks(events[..|events| - 1]) + if events[|events| - 1].Tick? then 1 else 0
  }

  function FiredIn(o: Obs, i: nat): nat {
    if o.Fired? then Count(o.slots, i) else 0
  }

  function Firings(obs: seq<Obs>, i: nat): nat {
    if obs == [] then 0
    else Firings(obs[..|obs| - 1], i) + FiredIn(obs[|obs| - 1], i)
  }

  /** Slot `i` is active with its deadline one period ahead, and the fields are 32-bit words. */
  predicate Armed(s: System, i: nat) {
    && i < |s.timers| && s.tick < WORD
    && var t := s.timers[i];
       t.used && t.active && 1 <= t.period < WORD && t.expiry == Word32.Plus(s.tick, t.period)
  }

  /** The last event of a run, and what it adds to the count of firings. */
  lemma RunLast(k: Clock, s: System, events: seq<Event>, i: nat)
    requires Fits(events, |s.timers|) && events != []
    ensures var r := Run(k, s, events[..|events| - 1]);
      var next := Step(k, r.0, events[|events| - 1]);
      && Run(k, s, events).0 == next.0
      && Firings(Run(k, s, events).1, i) == Firings(r.1, i) + FiredIn(next.1, i)
  {
    var all, before := Run(k, s, events).1, Run(k, s, events[..|events| - 1]).1;
    assert all[..|all| - 1] == before;
  }

  /** `f` periods of `p` ticks. */
  function Periods(p: nat, f: nat): nat {
    if f == 0 then 0 else Periods(p, f - 1) + p
  }

  lemma {:induction false} PeriodsMultiply(p: nat, f: nat)
    ensures Periods(p, f) == p * f
  {
    if f == 0 {
    } else {
      PeriodsMultiply(p, f - 1);
      assert p * f == p * (f - 1) + p;
    }
  }

  /** The slot after `n` ticks and `f` firings, when it was armed at tick `start`. */
  predicate Phase(t0: Timer, start: nat, t: Timer, n: nat, f: nat) {
    && t.(active := true, expiry := t0.expiry) == t0
    && (t0.autoReload ==>
          && t.active && t.expiry == Wrap(start + Periods(t0.period, f + 1))
          && Periods(t0.period, f) <= n < Periods(t0.period, f + 1))
    && (!t0.autoReload ==>
          if f == 0 then t == t0 && n < t0.period else f == 1 && !t.active && n >= t0.period)
  }

  /** Up to 2^31 ticks before its true deadline an active timer does nothing; on the deadline it fires. */
  lemma TickBefore(t: Timer, now: nat, deadline: nat)
    requires t.used && t.active && t.period < WORD && t.expiry == Wrap(deadline) && now <= deadline <= now + HALF
    ensures Fires(Word32, t, Wrap(now)) <==> now == deadline
    ensures now < deadline ==> Reload(Word32, t, Wrap(now)) == t
    ensures now == deadline ==>
      Reload(Word32, t, Wrap(now)) == if t.autoReload then t.(expiry := Wrap(now + t.period)) else t.(active := false)
  {
    WrapPlus(now, t.period);
    if now < deadline {
      WrapDistance(now, deadline - now);
      assert now + (deadline - now) == deadline;
    }
  }

  lemma PhaseTickAuto(t0: Timer, start: nat, t: Timer, n: nat, f: nat)
    requires t0.used && t0.active && t0.autoReload && 1 <= t0.period <= HALF + 1
    requires Phase(t0, start, t, n, f)
    ensures Phase(t0, start, Reload(Word32, t, Wrap(start + n + 1)), n + 1,
                  f + if Fires(Word32, t, Wrap(start + n + 1)) then 1 else 0)
  {
    assert Periods(t0.period, f + 2) == Periods(t0.period, f + 1) + t0.period;
    TickBefore(t, start + n + 1, start + Periods(t0.period, f + 1));
  }

  lemma PhaseTick(t0: Timer, start: nat, t: Timer, n: nat, f: nat, t': Timer, f': nat)
    requires t0.used && t0.active && 1 <= t0.period <= HALF + 1 && t0.expiry == Wrap(start + t0.period)
    requires Phase(t0, start, t, n, f)
    requires t' == Reload(Word32, t, Wrap(start + n + 1))
    requires f' == f + if Fires(Word32, t, Wrap(start + n + 1)) then 1 else 0
    ensures Phase(t0, start, t', n + 1, f')
  {
    if t0.autoReload {
      PhaseTickAuto(t0, start, t, n, f);
    } else if f == 0 {
      TickBefore(t, start + n + 1, start + t0.period);
    }
  }

  ghost predicate InPhase(s: System, r: System, i: nat, n: nat, f: nat)
    requires Armed(s, i)
  {
    && |r.timers| == |s.timers| && r.tick == Wrap(s.tick + n) && r.timers[i].used
    && Phase(s.timers[i], s.tick, r.timers[i], n, f)
  }

  lemma PhaseStart(s: System, i: nat)
    requires Armed(s, i)
    ensures InPhase(s, s, i, 0, 0)
  {
    WrapPlus(s.tick, s.timers[i].period);
  }

  lemma PhaseStep(s: System, r: System, e: Event, i: nat, n: nat, f: nat, r': System, n': nat, f': nat)
    requires Armed(s, i) && s.timers[i].period <= HALF + 1
    requires (e.Tick? ==> |e.scripts| == |r.timers|) && EventLeavesAlone(e, i)
    requires InPhase(s, r, i, n, f)
    requires r' == Step(Word32, r, e).0
    requires n' == (if e.Tick? then n + 1 else n) && f' == f + FiredIn(Step(Word32, r, e).1, i)
    ensures InPhase(s, r', i, n', f')
  {
    match e
    case Api(cmd) => DoUndisturbed(Word32, r.timers, r.tick, cmd, i);
    case Tick(scripts) => PhaseSweep(s, r, scripts, i, n, f, r', f');
  }

  lemma PhaseSweep(s: System, r: System, scripts: seq<seq<Cmd>>, i: nat, n: nat, f: nat, r': System, f': nat)
    requires Armed(s, i) && s.timers[i].period <= HALF + 1
    requires |scripts| == |r.timers| && EventLeavesAlone(Tick(scripts), i)
    requires InPhase(s, r, i, n, f)
    requires r' == Step(Word32, r, Tick(scripts)).0 && f' == f + FiredIn(Step(Word32, r, Tick(scripts)).1, i)
    ensures InPhase(s, r', i, n + 1, f')
  {
    var now := Wrap(s.tick + n + 1);
    WrapPlus(s.tick + n, 1);
    SweepUndisturbed(Word32, r.timers, now, scripts, 0, i);
    assert r' == System(Sweep(Word32, r.timers, now, scripts, 0).0, now);
    WrapPlus(s.tick, s.timers[i].period);
    PhaseTick(s.timers[i], s.tick, r.timers[i], n, f, r'.timers[i], f');
  }

  predicate AllLeaveAlone(events: seq<Event>, slots: nat, i: nat) {
    Fits(events, slots) && forall j :: 0 <= j < |events| ==> EventLeavesAlone(events[j], i)
  }

  /** A slot that no event touches goes through its phases one tick at a time. */
  lemma {:induction false} PhaseRun(s: System, events: seq<Event>, i: nat)
    requires Armed(s, i) && s.timers[i].period <= HALF + 1 && AllLeaveAlone(events, |s.timers|, i)
    ensures var r := Run(Word32, s, events); InPhase(s, r.0, i, Ticks(events), Firings(r.1, i))
  {
    if events == [] {
      PhaseStart(s, i);
    } else {
      var before, e := events[..|events| - 1], events[|events| - 1];
      assert AllLeaveAlone(before, |s.timers|, i);
      PhaseRun(s, before, i);
      var r := Run(Word32, s, before);
      RunLast(Word32, s, events, i);
      var r' := Run(Word32, s, events);
      PhaseStep(s, r.0, e, i, Ticks(before), Firings(r.1, i), r'.0, Ticks(events), Firings(r'.1, i));
    }
  }

  lemma QuotientUnique(p: nat, n: nat, f: nat)
    requires 1 <= p && p * f <= n < p * f + p
    ensures f == n / p
  {
    var q := n / p;
    assert n == p * q + n % p;
    MulMonotone(p, f + 1, q);
    MulMonotone(p, q + 1, f);
  }

  /** Firings in the `n` ticks after a start: n/p when the timer reloads; otherwise one if n >= p, and none before. */
  function Expected(period: nat, auto: bool, n: nat): nat
    requires period >= 1
  {
    if auto then n / period else if n >= period then 1 else 0
  }

  predicate OnTime(s: System, i: nat, events: seq<Event>)
    requires i < |s.timers| && s.timers[i].period >= 1 && Fits(events, |s.timers|)
  {
    Firings(Run(Word32, s, events).1, i) == Expected(s.timers[i].period, s.timers[i].autoReload, Ticks(events))
  }

  /**
   Exactness on the wrapping clock: a timer armed with period p and then left alone is on time at every later moment of
   every run, however often the counter wraps and whatever the other timers do, exactly when p is at most 2^31 + 1.
   */
  lemma TimerExactness(s: System, i: nat)
    requires Armed(s, i)
    ensures (forall events :: AllLeaveAlone(events, |s.timers|, i) ==> OnTime(s, i, events))
       <==> s.timers[i].period <= HALF + 1
  {
    if s.timers[i].period <= HALF + 1 {
      forall events | AllLeaveAlone(events, |s.timers|, i)
        ensures OnTime(s, i, events)
      {
        PhaseRun(s, events, i);
        if s.timers[i].autoReload {
          PeriodsMultiply(s.timers[i].period, Firings(Run(Word32, s, events).1, i));
          QuotientUnique(s.timers[i].period, Ticks(events), Firings(Run(Word32, s, events).1, i));
        }
      }
    } else {
      var events := FiresAtOnce(s, i);
    }
  }

  /** A longer period looks past due at the next tick. */
  lemma FiresAtOnce(s: System, i: nat) returns (events: seq<Event>)
    requires Armed(s, i) && s.timers[i].period > HALF + 1
    ensures AllLeaveAlone(events, |s.timers|, i) && !OnTime(s, i, events)
  {
    var t := s.timers[i];
    var scripts: seq<seq<Cmd>> := seq(|s.timers|, _ => []);
    events := [Tick(scripts)];
    assert events[..0] == [];
    WrapPlus(s.tick, 1);
    WrapPlus(s.tick, t.period);
    WrapDistance(s.tick + 1, t.period - 1);
    SweepUndisturbed(Word32, s.timers, Wrap(s.tick + 1), scripts, 0, i);
    assert Run(Word32, s, []) == (s, []);
    assert Run(Word32, s, events).1 == [Step(Word32, s, events[0]).1];
    assert Ticks(events) == 1;
    SmallQuotient(t.period);
  }

  lemma SmallQuotient(p: nat)
    requires p > 1
    ensures 1 / p == 0
  {
  }

  /** The period that counts from the current tick on: `c` starts slot `i`, or changes its period while it is active. */
  function NewPeriod(t: Timer, c: Cmd, i: nat): Option<nat> {
    if c == Start(i) then Some(t.period)
    else if c.ChangePeriod? && c.i == i && t.active && c.period != 0 then Some(c.period)
    else None
  }

  /** A start, or a change of the period of a running timer, arms the timer with that period. */
  lemma Arms(s: System, i: nat, c: Cmd)
    requires i < |s.timers| && s.timers[i].used && s.tick < WORD
    requires var p := NewPeriod(s.timers[i], c, i); p.Some? && 1 <= p.value < WORD
    ensures var r := Step(Word32, s, Api(c));
      r.1 == Result(true) && Armed(r.0, i) && r.0.timers[i].period == NewPeriod(s.timers[i], c, i).value
  {
  }

  /**
   The same from a callback: a timer that is armed in the middle of a sweep and left alone in the rest of it is still
   armed after the sweep, and has not fired, exactly when its slot is behind or its period is at most 2^31.
   */
  lemma ArmedInSweep(ts: seq<Timer>, now: nat, scripts: seq<seq<Cmd>>, from: nat, i: nat)
    requires from <= |ts| == |scripts| && Armed(System(ts, now), i)
    requires forall j :: from <= j < |scripts| ==> LeavesAlone(scripts[j], i)
    ensures var r := Sweep(Word32, ts, now, scripts, from);
      r.0[i] == ts[i] && Count(r.1, i) == 0 <==> i < from || ts[i].period <= HALF
  {
    SweepUndisturbed(Word32, ts, now, scripts, from, i);
    WrapPlus(now, ts[i].period);
    assert Wrap(now) == now;
    WrapDistance(now, ts[i].period);
  }

  /** A callback that starts another timer arms it: at the end of the sweep its deadline is one period ahead. */
  lemma StartedByCallback(ts: seq<Timer>, now: nat, scripts: seq<seq<Cmd>>, j: nat, i: nat, a: seq<Cmd>, b: seq<Cmd>)
    requires j < |ts| == |scripts| && i < |ts| && i != j && now < WORD
    requires Fires(Word32, ts[j], now) && scripts[j] == a + [Start(i)] + b && LeavesAlone(b, i)
    requires forall m :: j < m < |scripts| ==> LeavesAlone(scripts[m], i)
    requires var t := DoAll(Word32, ts, now, a)[i]; t.used && 1 <= t.period <= HALF
    ensures var r := Sweep(Word32, ts, now, scripts, j);
      && Armed(System(r.0, now), i) && Count(r.1, i) == 0
      && r.0[i].period == DoAll(Word32, ts, now, a)[i].period
      && r.0[i].autoReload == DoAll(Word32, ts, now, a)[i].autoReload
  {
    var mid := DoAll(Word32, ts, now, a);
    var started := Do(Word32, mid, now, Start(i)).0;
    RestartIn(Word32, ts, now, a, b, i);
    var next := Visit(Word32, ts, now, scripts, j);
    assert next[i] == started[i];
    ArmedInSweep(next, now, scripts, j + 1, i);
    CountPrefix([j], Sweep(Word32, next, now, scripts, j + 1).1, i);
  }

  predicate Running(t: Timer) {
    t.used && t.active
  }

  lemma {:induction false} DoAllSilent(k: Clock, ts: seq<Timer>, now: nat, cmds: seq<Cmd>, i: nat)
    requires i < |ts| && !Running(ts[i]) && LeavesAlone(cmds, i)
    ensures !Running(DoAll(k, ts, now, cmds)[i])
    decreases |cmds|
  {
    if cmds == [] {
    } else {
      assert !Touches(cmds[0], i);
      DoAllSilent(k, Do(k, ts, now, cmds[0]).0, now, cmds[1..], i);
    }
  }

  lemma {:induction false} SweepSilent(k: Clock, ts: seq<Timer>, now: nat, scripts: seq<seq<Cmd>>, from: nat, i: nat)
    requires from <= |ts| == |scripts| && i < |ts| && !Running(ts[i])
    requires forall j :: 0 <= j < |scripts| ==> LeavesAlone(scripts[j], i)
    ensures var r := Sweep(k, ts, now, scripts, from); !Running(r.0[i]) && Count(r.1, i) == 0
    decreases |ts| - from
  {
    if from == |ts| {
    } else {
      var next := Visit(k, ts, now, scripts, from);
      DoAllSilent(k, ts, now, scripts[from], i);
      SweepSilent(k, next, now, scripts, from + 1, i);
      CountPrefix(if Fires(k, ts[from], now) then [from] else [], Sweep(k, next, now, scripts, from + 1).1, i);
    }
  }

  lemma StepSilent(k: Clock, s: System, e: Event, i: nat)
    requires i < |s.timers| && !Running(s.timers[i]) && (e.Tick? ==> |e.scripts| == |s.timers|) && EventLeavesAlone(e, i)
    ensures var next := Step(k, s, e);
      |next.0.timers| == |s.timers| && !Running(next.0.timers[i]) && FiredIn(next.1, i) == 0
  {
    match e
    case Api(cmd) =>
    case Tick(scripts) => SweepSilent(k, s.timers, k.Plus(s.tick, 1), scripts, 0, i);
  }

  lemma {:induction false} RunSilent(k: Clock, s: System, events: seq<Event>, i: nat)
    requires i < |s.timers| && !Running(s.timers[i]) && AllLeaveAlone(events, |s.timers|, i)
    ensures var r := Run(k, s, events); !Running(r.0.timers[i]) && Firings(r.1, i) == 0
  {
    if events == [] {
    } else {
      var before := events[..|events| - 1];
      assert AllLeaveAlone(before, |s.timers|, i);
      RunSilent(k, s, before, i);
      StepSilent(k, Run(k, s, before).0, events[|events| - 1], i);
      RunLast(k, s, events, i);
    }
  }

  /**
   A timer that is stopped or deleted never fires again until somebody starts that slot, whatever its deadline and
   period, even if the slot is handed out again.
   */
  lemma StopSilences(k: Clock, s: System, i: nat, c: Cmd, events: seq<Event>)
    requires i < |s.timers| && s.timers[i].used && Fits(events, |s.timers|)
    requires c == Stop(i) || c == Delete(i)
    requires forall j :: 0 <= j < |events| ==> EventLeavesAlone(events[j], i)
    ensures Step(k, s, Api(c)).1 == Result(true)
    ensures Firings(Run(k, Step(k, s, Api(c)).0, events).1, i) == 0
  {
    RunSilent(k, Step(k, s, Api(c)).0, events, i);
  }

  // --- From the arguments of the calls ---

  /** A timer that is not running stays as it is until somebody touches it. */
  lemma {:induction false} IdleRun(k: Clock, s: System, events: seq<Event>, i: nat)
    requires i < |s.timers| && s.timers[i].used && !s.timers[i].active && AllLeaveAlone(events, |s.timers|, i)
    ensures Run(k, s, events).0.timers[i] == s.timers[i]
  {
    if events == [] {
    } else {
      var before, e := events[..|events| - 1], events[|events| - 1];
      IdleRun(k, s, before, i);
      var r := Run(k, s, before).0;
      match e
      case Api(cmd) => DoUndisturbed(k, r.timers, r.tick, cmd, i);
      case Tick(scripts) => SweepUndisturbed(k, r.timers, k.Plus(r.tick, 1), scripts, 0, i);
    }
  }

  lemma {:induction false} TickIsWord(s: System, events: seq<Event>)
    requires s.tick < WORD && Fits(events, |s.timers|)
    ensures Run(Word32, s, events).0.tick < WORD
  {
    if events == [] {
    } else {
      TickIsWord(s, events[..|events| - 1]);
    }
  }

  /** A timer that is not running fires by its period and mode from its start on, whenever that is. */
  lemma StartsIdle(s: System, i: nat, middle: seq<Event>, after: seq<Event>)
    requires i < |s.timers| && s.tick < WORD
    requires s.timers[i].used && !s.timers[i].active && 1 <= s.timers[i].period <= HALF + 1
    requires AllLeaveAlone(middle, |s.timers|, i) && AllLeaveAlone(after, |s.timers|, i)
    ensures var started := Step(Word32, Run(Word32, s, middle).0, Api(Start(i)));
      && started.1 == Result(true)
      && Firings(Run(Word32, started.0, after).1, i) == Expected(s.timers[i].period, s.timers[i].autoReload, Ticks(after))
  {
    IdleRun(Word32, s, middle, i);
    TickIsWord(s, middle);
    var s1 := Run(Word32, s, middle).0;
    Arms(s1, i, Start(i));
    var s2 := Step(Word32, s1, Api(Start(i))).0;
    TimerExactness(s2, i);
    assert OnTime(s2, i, after);
  }

  /**
   From the arguments of a create: a successful create with period `p` and mode `auto` takes a slot `f`; once that handle
   is started, after anything that leaves it alone, `n` ticks fire it n/p times if `auto`, and otherwise once from tick p on.
   */
  lemma CreatedTimer(s: System, p: nat, auto: bool, f: nat, middle: seq<Event>, after: seq<Event>)
    requires s.tick < WORD && p <= HALF + 1 && f < |s.timers| && !s.timers[f].used
    requires var created := Step(Word32, s, Api(Create(p, auto)));
      created.1 == Result(true) && created.0.timers[f].used
    requires AllLeaveAlone(middle, |s.timers|, f) && AllLeaveAlone(after, |s.timers|, f)
    ensures var created := Step(Word32, s, Api(Create(p, auto))).0;
      var started := Step(Word32, Run(Word32, created, middle).0, Api(Start(f)));
      && p >= 1 && started.1 == Result(true)
      && Firings(Run(Word32, created, middle).1, f) == 0
      && Firings(Run(Word32, started.0, after).1, f) == Expected(p, auto, Ticks(after))
  {
    var created := Step(Word32, s, Api(Create(p, auto))).0;
    RunSilent(Word32, created, middle, f);
    StartsIdle(created, f, middle, after);
  }

  /** A new period for a timer that is not running takes effect with its next start. */
  lemma ChangedTimer(s: System, i: nat, p: nat, middle: seq<Event>, after: seq<Event>)
    requires i < |s.timers| && s.tick < WORD && s.timers[i].used && !s.timers[i].active && 1 <= p <= HALF + 1
    requires AllLeaveAlone(middle, |s.timers|, i) && AllLeaveAlone(after, |s.timers|, i)
    ensures var changed := Step(Word32, s, Api(ChangePeriod(i, p)));
      var started := Step(Word32, Run(Word32, changed.0, middle).0, Api(Start(i)));
      && changed.1 == Result(true) && started.1 == Result(true)
      && Firings(Run(Word32, changed.0, middle).1, i) == 0
      && Firings(Run(Word32, started.0, after).1, i) == Expected(p, s.timers[i].autoReload, Ticks(after))
  {
    var changed := Step(Word32, s, Api(ChangePeriod(i, p))).0;
    RunSilent(Word32, changed, middle, i);
    StartsIdle(changed, i, middle, after);
  }

  /** A zero period is refused and changes nothing; any other create succeeds exactly when a slot is free. */
  lemma ZeroPeriodRefused(k: Clock, s: System, c: Cmd)
    ensures (c.Create? || c.ChangePeriod?) && c.period == 0 ==> Step(k, s, Api(c)) == (s, Result(false))
    ensures c.Create? && c.period != 0 ==>
      Step(k, s, Api(c)).1 == Result(exists i :: 0 <= i < |s.timers| && !s.timers[i].used)
  {
  }

  predicate NoCreates(events: seq<Event>) {
    forall j :: 0 <= j < |events| ==>
      match events[j]
      case Api(cmd) => !cmd.Create?
      case Tick(scripts) => ScriptsCreateNothing(scripts)
  }

  predicate ScriptsCreateNothing(scripts: seq<seq<Cmd>>) {
    forall m :: 0 <= m < |scripts| ==> CreatesNothing(scripts[m])
  }

  predicate CreatesNothing(cmds: seq<Cmd>) {
    forall m :: 0 <= m < |cmds| ==> !cmds[m].Create?
  }

  lemma {:induction false} FreeAfterCalls(k: Clock, ts: seq<Timer>, now: nat, cmds: seq<Cmd>, i: nat)
    requires i < |ts| && !ts[i].used && CreatesNothing(cmds)
    ensures !DoAll(k, ts, now, cmds)[i].used
    decreases |cmds|
  {
    if cmds == [] {
    } else {
      FreeAfterCalls(k, Do(k, ts, now, cmds[0]).0, now, cmds[1..], i);
    }
  }

  lemma {:induction false} FreeAfterSweep(k: Clock, ts: seq<Timer>, now: nat, scripts: seq<seq<Cmd>>, from: nat, i: nat)
    requires from <= |ts| == |scripts| && i < |ts| && !ts[i].used && ScriptsCreateNothing(scripts)
    ensures !Sweep(k, ts, now, scripts, from).0[i].used
    decreases |ts| - from
  {
    if from == |ts| {
    } else {
      FreeAfterCalls(k, ts, now, scripts[from], i);
      FreeAfterSweep(k, Visit(k, ts, now, scripts, from), now, scripts, from + 1, i);
    }
  }

  lemma {:induction false} FreeAfterRun(k: Clock, s: System, events: seq<Event>, i: nat)
    requires Fits(events, |s.timers|) && i < |s.timers| && !s.timers[i].used && NoCreates(events)
    ensures !Run(k, s, events).0.timers[i].used
  {
    if events == [] {
    } else {
      var before, e := events[..|events| - 1], events[|events| - 1];
      FreeAfterRun(k, s, before, i);
      var r := Run(k, s, before).0;
      if e.Tick? {
        FreeAfterSweep(k, r.timers, k.Plus(r.tick, 1), e.scripts, 0, i);
      }
    }
  }

  /** A deleted handle is dead: until a create hands the slot out again, every call on it fails, and it can be handed out. */
  lemma DeletedIsDead(k: Clock, s: System, i: nat, events: seq<Event>, c: Cmd)
    requires i < |s.timers| && s.timers[i].used && Fits(events, |s.timers|) && NoCreates(events)
    ensures var deleted := Step(k, s, Api(Delete(i)));
      var later := Run(k, deleted.0, events).0;
      && deleted.1 == Result(true)
      && (!c.Create? && c.i == i ==> Step(k, later, Api(c)) == (later, Result(false)))
      && (c.Create? ==> Step(k, later, Api(c)).1 == Result(c.period != 0))
  {
    FreeAfterRun(k, Step(k, s, Api(Delete(i))).0, events, i);
  }

  /** The test of line 17 on a timer started at tick `start`, `n` ticks later. */
  predicate DueAfter(start: nat, p: nat, n: nat) {
    Word32.Due(Wrap(start + n), Wrap(start + p))
  }

  /**
   How long a period may be: the 32-bit test stays quiet before tick start + p and fires there exactly when p is at most
   2^31, or 2^31 + 1 for a timer whose first test comes one tick after its start (`first` = 1).
   */
  lemma ExactPeriodIff(start: nat, p: nat, first: nat)
    requires 1 <= p < WORD && first <= 1
    ensures (DueAfter(start, p, p) && forall n :: first <= n < p ==> !DueAfter(start, p, n)) <==> p <= HALF + first
  {
    if p > HALF + first {
      WrapDistance(start + first, p - first);
      assert DueAfter(start, p, first);
    } else {
      forall n | first <= n < p
        ensures !DueAfter(start, p, n)
      {
        WrapDistance(start + n, p - n);
        assert start + n + (p - n) == start + p;
      }
    }
  }

  /** A deadline `d` ticks ahead looks past due exactly when `d` is more than half the range. */
  lemma WrapDistance(now: nat, d: nat)
    requires 1 <= d < WORD
    ensures Word32.Due(Wrap(now), Wrap(now + d)) <==> d > HALF
  {
    assert Wrap(now + d) == if Wrap(now) + d >= WORD then Wrap(now) + d - WORD else Wrap(now) + d;
  }

  // What the ideal clock keeps: a slot with its deadline in the future stays so until the next tick.

  lemma DoKeepsTable(ts: seq<Timer>, now: nat, c: Cmd, from: nat, i: nat)
    requires TableOk(ts, now, from) && CmdOk(c) && i < |ts| && SlotOk(ts[i], now, 1)
    ensures TableOk(Do(Ideal, ts, now, c).0, now, from) && SlotOk(Do(Ideal, ts, now, c).0[i], now, 1)
  {
    if !c.Create? && c.i < |ts| {
      assert SlotOk(ts[c.i], now, if c.i < from then 1 else 0);
    }
  }

  lemma {:induction false} DoAllKeepsTable(ts: seq<Timer>, now: nat, cmds: seq<Cmd>, from: nat, i: nat)
    requires TableOk(ts, now, from) && CmdsOk(cmds) && i < |ts| && SlotOk(ts[i], now, 1)
    ensures TableOk(DoAll(Ideal, ts, now, cmds), now, from) && SlotOk(DoAll(Ideal, ts, now, cmds)[i], now, 1)
    decreases |cmds|
  {
    if cmds == [] {
    } else {
      assert CmdOk(cmds[0]);
      DoKeepsTable(ts, now, cmds[0], from, i);
      DoAllKeepsTable(Do(Ideal, ts, now, cmds[0]).0, now, cmds[1..], from, i);
    }
  }

  lemma VisitKeepsTable(ts: seq<Timer>, now: nat, scripts: seq<seq<Cmd>>, from: nat, i: nat)
    requires from < |ts| == |scripts| && TableOk(ts, now, from) && CmdsOk(scripts[from])
    requires i < |ts| && SlotOk(ts[i], now, 1)
    ensures TableOk(Visit(Ideal, ts, now, scripts, from), now, from + 1)
    ensures SlotOk(Visit(Ideal, ts, now, scripts, from)[i], now, 1)
  {
    assert SlotOk(ts[from], now, 0);
    if Fires(Ideal, ts[from], now) {
      DoAllKeepsTable(ts, now, scripts[from], from, i);
      var after := DoAll(Ideal, ts, now, scripts[from]);
      assert SlotOk(after[from], now, 0);
      assert forall j :: 0 <= j < from ==> SlotOk(after[j], now, 1);
    }
  }

  lemma {:induction false} SweepSparesFuture(ts: seq<Timer>, now: nat, scripts: seq<seq<Cmd>>, from: nat, i: nat)
    requires from <= |ts| == |scripts| && TableOk(ts, now, from) && ScriptsOk(scripts)
    requires i < |ts| && SlotOk(ts[i], now, 1)
    ensures Count(Sweep(Ideal, ts, now, scripts, from).1, i) == 0
    decreases |ts| - from
  {
    if from == |ts| {
    } else {
      VisitKeepsTable(ts, now, scripts, from, i);
      var next := Visit(Ideal, ts, now, scripts, from);
      SweepSparesFuture(next, now, scripts, from + 1, i);
      CountPrefix(if Fires(Ideal, ts[from], now) then [from] else [], Sweep(Ideal, next, now, scripts, from + 1).1, i);
    }
  }

  /**
   A timer that a callback starts, or gives a new period, during a sweep does not fire in that sweep: once its deadline
   is in the future no callback of the rest of the sweep can make it due.
   */
  lemma NoFireAfterStart(ts: seq<Timer>, now: nat, scripts: seq<seq<Cmd>>, from: nat, i: nat)
    requires from <= |ts| == |scripts| && TableOk(ts, now, from) && ScriptsOk(scripts)
    requires i < |ts| && SlotOk(ts[i], now, 1)
    ensures Count(Sweep(Word32, WrapAll(ts), Wrap(now), scripts, from).1, i) == 0
  {
    RefineSweep(ts, now, scripts, from);
    SweepSparesFuture(ts, now, scripts, from, i);
  }

  /**
   A callback that restarts its own timer is told that it succeeded; unless it touches the timer again, the timer keeps
   running exactly when it is an auto-reload timer, because lines 23 to 27 stop a one-shot after its callback.
   */
  lemma SelfRestart(k: Clock, ts: seq<Timer>, now: nat, before: seq<Cmd>, after: seq<Cmd>, i: nat)
    requires i < |ts| && LeavesAlone(after, i)
    requires DoAll(k, ts, now, before)[i].used
    ensures Do(k, DoAll(k, ts, now, before), now, Start(i)).1
    ensures Fire(k, ts, now, before + [Start(i)] + after, i)[i].active <==> DoAll(k, ts, now, before)[i].autoReload
  {
    RestartIn(k, ts, now, before, after, i);
  }

  /** A start in the middle of a list of calls has its effect if the rest of them leaves the timer alone. */
  lemma RestartIn(k: Clock, ts: seq<Timer>, now: nat, a: seq<Cmd>, b: seq<Cmd>, i: nat)
    requires i < |ts| && LeavesAlone(b, i) && DoAll(k, ts, now, a)[i].used
    ensures DoAll(k, ts, now, a + [Start(i)] + b)[i] == Do(k, DoAll(k, ts, now, a), now, Start(i)).0[i]
  {
    DoAllConcat(k, ts, now, a, [Start(i)] + b);
    assert a + [Start(i)] + b == a + ([Start(i)] + b);
    assert ([Start(i)] + b)[1..] == b;
    DoAllUndisturbed(k, Do(k, DoAll(k, ts, now, a), now, Start(i)).0, now, b, i);
  }

  lemma {:induction false} DoAllConcat(k: Clock, ts: seq<Timer>, now: nat, a: seq<Cmd>, b: seq<Cmd>)
    ensures DoAll(k, ts, now, a + b) == DoAll(k, DoAll(k, ts, now, a), now, b)
    decreases |a|
  {
    if a == [] {
      assert a + b == b;
    } else {
      assert (a + b)[1..] == a[1..] + b;
      DoAllConcat(k, Do(k, ts, now, a[0]).0, now, a[1..], b);
    }
  }

  // ---------------------------------------------------------------------------------------------------------------
  // The code
  // ---------------------------------------------------------------------------------------------------------------

  const MAX_TIMERS: nat := 4

  function PrependFired(fired: seq<nat>, r: (seq<Timer>, seq<nat>)): (p: (seq<Timer>, seq<nat>))
    ensures fired == [] ==> p == r
    ensures r.1 == [] ==> p == (r.0, fired)
  {
    assert fired == [] ==> fired + r.1 == r.1;
    assert r.1 == [] ==> fired + r.1 == fired;
    (r.0, fired + r.1)
  }

  lemma SweepUnfold(k: Clock, ts: seq<Timer>, now: nat, scripts: seq<seq<Cmd>>, i: nat, fired: seq<nat>)
    requires i < |ts| == |scripts|
    ensures PrependFired(fired, Sweep(k, ts, now, scripts, i))
         == PrependFired(if Fires(k, ts[i], now) then fired + [i] else fired,
                         Sweep(k, Visit(k, ts, now, scripts, i), now, scripts, i + 1))
  {
    var rest := Sweep(k, Visit(k, ts, now, scripts, i), now, scripts, i + 1).1;
    assert fired + ([i] + rest) == fired + [i] + rest;
    assert fired + ([] + rest) == fired + rest;
  }

  /** The static timer table `g_timers` and the tick counter `g_tick`. */
  class TimerService {
    var timers: seq<Timer>
    var tick: nat

    ghost function State(): System
      reads this
    {
      System(timers, tick)
    }

    constructor ()
      ensures State() == System(seq(MAX_TIMERS, _ => FREE), 0)
    {
      timers, tick := seq(MAX_TIMERS, _ => FREE), 0;
    }

    /** `xTimerCreate`; `hasCallback` says that the callback is not null. */
    method XTimerCreate(period: nat, autoReload: bool, hasCallback: bool) returns (handle: Option<nat>)
      modifies `timers
      ensures hasCallback ==> (timers, handle.Some?) == Do(Word32, old(timers), tick, Create(period, autoReload))
      ensures !hasCallback ==> handle.None? && timers == old(timers)
      ensures handle.Some? ==> handle.value < |timers| && !old(timers)[handle.value].used && timers[handle.value].used
    {
      if period == 0 || !hasCallback {
        return None;
      }
      var i := 0;
      while i < |timers| && timers[i].used
        invariant i <= |timers|
        invariant forall j :: 0 <= j < i ==> timers[j].used
      {
        i := i + 1;
      }
      if i == |timers| {
        return None;
      }
      timers := timers[i := Timer(true, false, autoReload, period, 0)];
      return Some(i);
    }

    method XTimerStart(handle: Option<nat>) returns (ok: bool)
      modifies `timers
      ensures handle.Some? ==> (timers, ok) == Do(Word32, old(timers), tick, Start(handle.value))
      ensures handle.None? ==> !ok && timers == old(timers)
    {
      if handle.None? || handle.value >= |timers| || !timers[handle.value].used {
        return false;
      }
      var i := handle.value;
      timers := timers[i := timers[i].(expiry := Word32.Plus(tick, timers[i].period))];
      timers := timers[i := timers[i].(active := true)];
      assert timers == old(timers)[i := timers[i]];
      return true;
    }

    method XTimerStop(handle: Option<nat>) returns (ok: bool)
      modifies `timers
      ensures handle.Some? ==> (timers, ok) == Do(Word32, old(timers), tick, Stop(handle.value))
      ensures handle.None? ==> !ok && timers == old(timers)
    {
      if handle.None? || handle.value >= |timers| || !timers[handle.value].used {
        return false;
      }
      timers := timers[handle.value := timers[handle.value].(active := false)];
      return true;
    }

    method XTimerChangePeriod(handle: Option<nat>, period: nat) returns (ok: bool)
      modifies `timers
      ensures handle.Some? ==> (timers, ok) == Do(Word32, old(timers), tick, ChangePeriod(handle.value, period))
      ensures handle.None? ==> !ok && timers == old(timers)
    {
      if handle.None? || handle.value >= |timers| || !timers[handle.value].used || period == 0 {
        return false;
      }
      var i := handle.value;
      timers := timers[i := timers[i].(period := period)];
      if timers[i].active {
        timers := timers[i := timers[i].(expiry := Word32.Plus(tick, period))];
      }
      assert timers == old(timers)[i := timers[i]];
      return true;
    }

    method XTimerDelete(handle: Option<nat>) returns (ok: bool)
      modifies `timers
      ensures handle.Some? ==> (timers, ok) == Do(Word32, old(timers), tick, Delete(handle.value))
      ensures handle.None? ==> !ok && timers == old(timers)
    {
      if handle.None? || handle.value >= |timers| || !timers[handle.value].used {
        return false;
      }
      var i := handle.value;
      timers := timers[i := timers[i].(active := false)];
      timers := timers[i := timers[i].(used := false)];
      assert timers == old(timers)[i := timers[i]];
      return true;
    }

    /** A callback: the API calls of its script, made one by one on the live table. */
    method RunCallback(cmds: seq<Cmd>)
      modifies `timers
      ensures timers == DoAll(Word32, old(timers), tick, cmds)
    {
      ghost var start := timers;
      for j := 0 to |cmds|
        invariant DoAll(Word32, start, tick, cmds) == DoAll(Word32, timers, tick, cmds[j..])
      {
        assert cmds[j..][1..] == cmds[j + 1..];
        match cmds[j] {
          case Create(period, auto) => var _ := XTimerCreate(period, auto, true);
          case Start(i) => var _ := XTimerStart(Some(i));
          case Stop(i) => var _ := XTimerStop(Some(i));
          case ChangePeriod(i, period) => var _ := XTimerChangePeriod(Some(i), period);
          case Delete(i) => var _ := XTimerDelete(Some(i));
        }
      }
    }

    /** The loop body of `fr_timers_on_tick`, lines 13 to 27. */
    method VisitSlot(cmds: seq<Cmd>, i: nat) returns (fires: bool)
      requires i < |timers|
      modifies `timers
      ensures fires == Fires(Word32, old(timers)[i], tick)
      ensures timers == if fires then Fire(Word32, old(timers), tick, cmds, i) else old(timers)
    {
      if !timers[i].used || !timers[i].active {
        return false;
      }
      if !Word32.Due(tick, timers[i].expiry) {
        return false;
      }
      RunCallback(cmds);
      if timers[i].autoReload {
        timers := timers[i := timers[i].(expiry := Word32.Plus(tick, timers[i].period))];
      } else {
        timers := timers[i := timers[i].(active := false)];
      }
      return true;
    }

    /** `fr_timers_on_tick`: one pass over the table at the current tick. */
    method OnTick(scripts: seq<seq<Cmd>>) returns (fired: seq<nat>)
      requires |scripts| == |timers|
      modifies `timers
      ensures (timers, fired) == Sweep(Word32, old(timers), tick, scripts, 0)
    {
      fired := [];
      ghost var goal := Sweep(Word32, timers, tick, scripts, 0);
      var n := |timers|;
      for i := 0 to n
        invariant |timers| == n
        invariant goal == PrependFired(fired, Sweep(Word32, timers, tick, scripts, i))
      {
        SweepUnfold(Word32, timers, tick, scripts, i, fired);
        var fires := VisitSlot(scripts[i], i);
        if fires {
          fired := fired + [i];
        }
      }
    }

    /** One turn of the tick thread: lines 26 and 27 of freertos_init.c. */
    method TickEntry(scripts: seq<seq<Cmd>>) returns (fired: seq<nat>)
      requires |scripts| == |timers|
      modifies this
      ensures (State(), Fired(fired)) == Step(Word32, old(State()), Tick(scripts))
    {
      tick := Word32.Plus(tick, 1);
      fired := OnTick(scripts);
    }
  }
}
