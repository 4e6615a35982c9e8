/**
 Queue senders and receivers as a protocol (freertos/src/freertos_queue.c).

 Any number of threads send to and receive from one live queue. The test and update of the ring is one step, and so
 is each notification signal, wait and poll. Both sides share one wake bit.
 */
module QueueProtocol {
  import opened Prelude

  type Tid = nat

  /** One queue, the threads that use it, and those that may send, or receive, with a non-zero timeout. */
  datatype Config = Config(length: nat, threads: set<Tid>, sendBlockers: set<Tid>, recvBlockers: set<Tid>) {
    ghost predicate Valid() {
      1 <= length && sendBlockers <= threads && recvBlockers <= threads
    }

    function Blockers(op: Op): set<Tid> {
      if op.Send? then sendBlockers else recvBlockers
    }
  }

  /** An operation in progress: a send to the back or the front, or a receive. */
  datatype Op = Send(item: Item, front: bool) | Receive

  /** The next step of a thread. */
  datatype Pc =
    | Idle
    | Test(op: Op, wait: bool)
    | Signal(op: Op)
    | Block(op: Op, wait: bool)
    | Waiting(op: Op)
    | Poll(op: Op)

  /** What a call has returned: pdPASS or not. */
  datatype Answer = Answer(op: Op, ok: bool)

  /** The queue, its notification, and the history of items accepted and handed out, and of what calls returned. */
  datatype State = State(
    contents: seq<Item>,
    wakeBit: bool,
    waiter: Option<Tid>,
    pc: map<Tid, Pc>,
    sent: seq<Item>,
    received: seq<Item>,
    answers: seq<Answer>)
  {
    ghost predicate Shape(c: Config) {
      forall t :: t in c.threads ==> t in pc
    }
  }

  function Init(c: Config): State {
    State([], false, None, map t | t in c.threads :: Idle, [], [], [])
  }

  datatype Action = Call(op: Op, wait: bool) | Run | FailWait

  ghost predicate Enabled(c: Config, s: State, t: Tid, a: Action)
    requires s.Shape(c)
  {
    && t in c.threads
    && match s.pc[t]
       case Idle => a.Call? && (a.wait ==> t in c.Blockers(a.op))
       case Block(_, wait) => a.Run? || (a.FailWait? && wait)
       case Waiting(_) => a.FailWait? || (a.Run? && s.wakeBit)
       case _ => a.Run?
  }

  /** The operation would go through now. */
  predicate Ready(c: Config, s: State, op: Op) {
    if op.Send? then |s.contents| < c.length else |s.contents| > 0
  }

  /** The ring update of an operation that goes through, and its entry in the history. */
  function Perform(c: Config, s: State, op: Op): State
    requires Ready(c, s, op)
  {
    match op
    case Send(item, front) =>
      s.(contents := Push(s.contents, item, front), sent := s.sent + [item])
    case Receive =>
      s.(contents := s.contents[1..], received := s.received + [s.contents[0]])
  }

  /** Where the step of `t` leaves `t`: lines 43 to 74 for a send, 132 to 155 for a receive. */
  function NextPc(c: Config, s: State, t: Tid, a: Action): Pc
    requires t in s.pc
  {
    match s.pc[t]
    case Idle => if a.Call? then Test(a.op, a.wait) else Idle
    case Test(op, wait) => if Ready(c, s, op) then Signal(op) else Block(op, wait)
    case Signal(_) => Idle
    case Block(op, wait) =>
      if !wait || a.FailWait? then Idle
      else if s.wakeBit then Poll(op)
      else if s.waiter.None? then Waiting(op)
      else Idle
    case Waiting(op) => if a.FailWait? then Idle else Poll(op)
    case Poll(op) => Test(op, true)
  }

  /** What the step of `t` does to the queue, the notification and the history. */
  function Effect(c: Config, s: State, t: Tid, a: Action): State
    requires t in s.pc
  {
    match s.pc[t]
    case Test(op, _) => if Ready(c, s, op) then Perform(c, s, op) else s
    case Signal(_) => s.(wakeBit := true)
    case Block(op, wait) =>
      if !wait || a.FailWait? then s
      else if s.wakeBit then s.(wakeBit := false)
      else if s.waiter.None? then s.(waiter := Some(t))
      else s
    case Waiting(_) => if a.FailWait? then s.(waiter := None) else s.(waiter := None, wakeBit := false)
    case Poll(_) => s.(wakeBit := false)
    case _ => s
  }

  /** The answers after the step of `t`: pdPASS after the signal (lines 60 and 141), a refusal where a call ends unserved. */
  function Answered(c: Config, s: State, t: Tid, a: Action): seq<Answer>
    requires t in s.pc
  {
    var p := s.pc[t];
    if !p.Idle? && NextPc(c, s, t, a).Idle? then s.answers + [Answer(p.op, p.Signal?)] else s.answers
  }

  function Step(c: Config, s: State, t: Tid, a: Action): (s': State)
    requires s.Shape(c) && t in c.threads
    ensures s'.Shape(c)
  {
    Effect(c, s, t, a).(pc := s.pc[t := NextPc(c, s, t, a)], answers := Answered(c, s, t, a))
  }

  datatype Move = Move(t: Tid, a: Action)

  /** The state a run ends in, or None when some move of it was not enabled. */
  ghost function Exec(c: Config, s: State, moves: seq<Move>): (r: Option<State>)
    requires s.Shape(c)
    ensures r.Some? ==> r.value.Shape(c)
  {
    if moves == [] then Some(s)
    else
      var m := moves[|moves| - 1];
      match Exec(c, s, moves[..|moves| - 1])
      case None => None
      case Some(p) => if Enabled(c, p, m.t, m.a) then Some(Step(c, p, m.t, m.a)) else None
  }

  ghost predicate Reachable(c: Config, s: State) {
    exists moves :: Exec(c, Init(c), moves) == Some(s)
  }

  // ---------------------------------------------------------------------------------------------------------------
  // History
  // ---------------------------------------------------------------------------------------------------------------

  predicate BackOnly(moves: seq<Move>) {
    forall i :: 0 <= i < |moves| ==> !(moves[i].a.Call? && moves[i].a.op.Send? && moves[i].a.op.front)
  }

  predicate FrontSend(p: Pc) {
    !p.Idle? && !p.Signal? && p.op.Send? && p.op.front
  }

  ghost predicate HistoryInv(c: Config, s: State) {
    && |s.contents| <= c.length
    && multiset(s.sent) == multiset(s.received) + multiset(s.contents)
  }

  lemma PerformHistory(c: Config, s: State, op: Op)
    requires Ready(c, s, op) && HistoryInv(c, s)
    ensures HistoryInv(c, Perform(c, s, op))
  {
    if op.Receive? {
      assert s.contents == [s.contents[0]] + s.contents[1..];
    }
  }

  lemma HistoryStep(c: Config, s: State, t: Tid, a: Action)
    requires s.Shape(c) && Enabled(c, s, t, a) && HistoryInv(c, s)
    ensures HistoryInv(c, Step(c, s, t, a))
  {
    if s.pc[t].Test? && Ready(c, s, s.pc[t].op) {
      PerformHistory(c, s, s.pc[t].op);
    }
  }

  /**
   Nothing is lost or duplicated: in every run, whatever the mix of sends and receives, the items accepted are the items
   handed out together with those still queued, and the queue never exceeds its length.
   */
  lemma {:induction false} QueueConservation(c: Config, moves: seq<Move>)
    requires c.Valid() && Exec(c, Init(c), moves).Some?
    ensures HistoryInv(c, Exec(c, Init(c), moves).value)
  {
    if moves == [] {
    } else {
      var before := moves[..|moves| - 1];
      QueueConservation(c, before);
      var m := moves[|moves| - 1];
      HistoryStep(c, Exec(c, Init(c), before).value, m.t, m.a);
    }
  }

  ghost predicate OrderInv(c: Config, s: State)
    requires s.Shape(c)
  {
    && s.sent == s.received + s.contents
    && forall t :: t in c.threads ==> !FrontSend(s.pc[t])
  }

  lemma OrderStep(c: Config, s: State, t: Tid, a: Action)
    requires s.Shape(c) && Enabled(c, s, t, a) && OrderInv(c, s)
    requires a.Call? ==> !(a.op.Send? && a.op.front)
    ensures OrderInv(c, Step(c, s, t, a))
  {
    if s.pc[t].Test? && Ready(c, s, s.pc[t].op) {
      var op := s.pc[t].op;
      if op.Receive? {
        assert s.received + s.contents == (s.received + [s.contents[0]]) + s.contents[1..];
      } else {
        assert !FrontSend(s.pc[t]);
        assert (s.received + s.contents) + [op.item] == s.received + (s.contents + [op.item]);
      }
    }
  }

  /** First in, first out: with sends to the back only, the items sent are the items received, then the contents. */
  lemma {:induction false} QueueHistory(c: Config, moves: seq<Move>)
    requires c.Valid() && BackOnly(moves) && Exec(c, Init(c), moves).Some?
    ensures OrderInv(c, Exec(c, Init(c), moves).value)
    ensures Exec(c, Init(c), moves).value.received <= Exec(c, Init(c), moves).value.sent
  {
    if moves == [] {
    } else {
      var before := moves[..|moves| - 1];
      assert BackOnly(before);
      QueueHistory(c, before);
      var m := moves[|moves| - 1];
      OrderStep(c, Exec(c, Init(c), before).value, m.t, m.a);
    }
  }

  // ---------------------------------------------------------------------------------------------------------------
  // What calls return
  // ---------------------------------------------------------------------------------------------------------------

  /** How many sends, or receives, have returned pdPASS. */
  function Passes(answers: seq<Answer>, send: bool): nat {
    if answers == [] then 0
    else
      var last := answers[|answers| - 1];
      Passes(answers[..|answers| - 1], send) + if last.op.Send? == send && last.ok then 1 else 0
  }

  lemma PassesAppend(answers: seq<Answer>, x: Answer, send: bool)
    ensures Passes(answers + [x], send) == Passes(answers, send) + if x.op.Send? == send && x.ok then 1 else 0
  {
    var longer := answers + [x];
    assert longer[..|longer| - 1] == answers;
  }

  predicate Serves(p: Pc, send: bool) {
    p.Signal? && p.op.Send? == send
  }

  /** The threads that have updated the ring for a send, or a receive, and have still to signal and return. */
  ghost function Returning(c: Config, s: State, send: bool): set<Tid>
    requires s.Shape(c)
  {
    set g | g in c.threads && Serves(s.pc[g], send)
  }

  ghost predicate AnswerInv(c: Config, s: State)
    requires s.Shape(c)
  {
    && |s.sent| == Passes(s.answers, true) + |Returning(c, s, true)|
    && |s.received| == Passes(s.answers, false) + |Returning(c, s, false)|
  }

  lemma ReturningStep(c: Config, s: State, s': State, t: Tid, send: bool)
    requires s.Shape(c) && s'.Shape(c) && t in c.threads
    requires forall u :: u in c.threads && u != t ==> s'.pc[u] == s.pc[u]
    ensures |Returning(c, s', send)| == |Returning(c, s, send)|
      - (if Serves(s.pc[t], send) then 1 else 0) + (if Serves(s'.pc[t], send) then 1 else 0)
  {
    var others := Returning(c, s, send) - {t};
    assert Returning(c, s, send) == if Serves(s.pc[t], send) then others + {t} else others;
    assert Returning(c, s', send) == if Serves(s'.pc[t], send) then others + {t} else others;
  }

  lemma AnswerStep(c: Config, s: State, t: Tid, a: Action)
    requires s.Shape(c) && Enabled(c, s, t, a) && AnswerInv(c, s)
    ensures AnswerInv(c, Step(c, s, t, a))
  {
    var p := s.pc[t];
    ReturningStep(c, s, Step(c, s, t, a), t, true);
    ReturningStep(c, s, Step(c, s, t, a), t, false);
    if !p.Idle? && NextPc(c, s, t, a).Idle? {
      PassesAppend(s.answers, Answer(p.op, p.Signal?), true);
      PassesAppend(s.answers, Answer(p.op, p.Signal?), false);
    }
  }

  /**
   In every run the items accepted are as many as the sends that returned pdPASS or are about to, and likewise for the
   items handed out and the receives.
   */
  lemma {:induction false} QueueAnswers(c: Config, moves: seq<Move>)
    requires c.Valid() && Exec(c, Init(c), moves).Some?
    ensures AnswerInv(c, Exec(c, Init(c), moves).value)
  {
    if moves == [] {
      assert Returning(c, Init(c), true) == {} && Returning(c, Init(c), false) == {};
    } else {
      var before, m := moves[..|moves| - 1], moves[|moves| - 1];
      QueueAnswers(c, before);
      AnswerStep(c, Exec(c, Init(c), before).value, m.t, m.a);
    }
  }

  /**
   A call is turned away only where it cannot be served, and it returns a refusal, with the queue unchanged, only when
   it had no timeout or its wait has failed. A call that returns pdPASS leaves the wake bit set, and one that has been
   woken clears the bit before it looks at the queue again.
   */
  lemma AnswersDeserved(c: Config, s: State, t: Tid, a: Action)
    requires s.Shape(c) && Enabled(c, s, t, a)
    ensures var s' := Step(c, s, t, a);
      && (s.pc[t].Poll? ==> s'.pc[t] == Test(s.pc[t].op, true) && !s'.wakeBit && s'.contents == s.contents)
      && (s'.pc[t].Block? ==> s.pc[t].Test? && s'.pc[t].op == s.pc[t].op && !Ready(c, s, s.pc[t].op))
      && (forall op, ok :: s'.answers == s.answers + [Answer(op, ok)] ==>
            && s'.contents == s.contents && (ok ==> s'.wakeBit)
            && (!ok ==> s.pc[t] == Block(op, false) || (Committed(s.pc[t]) && (a.FailWait? || s.waiter.Some?))))
  {
    var p, s' := s.pc[t], Step(c, s, t, a);
    assert s'.answers != s.answers ==> s'.answers[|s.answers|] == Answer(p.op, p.Signal?);
  }

  // ---------------------------------------------------------------------------------------------------------------
  // Lost wake-ups
  // ---------------------------------------------------------------------------------------------------------------

  /** The thread has found its operation blocked and will wait for the wake bit without looking again. */
  predicate Committed(p: Pc) {
    p.Waiting? || (p.Block? && p.wait)
  }

  ghost predicate SignalPending(c: Config, s: State)
    requires s.Shape(c)
  {
    exists g :: g in c.threads && s.pc[g].Signal?
  }

  /** A waiting thread is awake inside its loop, and its operation would go through now. */
  ghost predicate AwakeWaiter(c: Config, s: State)
    requires s.Shape(c)
  {
    exists u :: u in c.threads && Awake(s.pc[u]) && Ready(c, s, s.pc[u].op)
  }

  predicate Awake(p: Pc) {
    p.Poll? || (p.Test? && p.wait)
  }

  /**
   No thread waits for something that has already happened, unless the news is on its way, or a thread that is awake can
   use the chance and will then signal again.
   */
  ghost predicate NoLostWakeup(c: Config, s: State)
    requires s.Shape(c)
  {
    forall t :: t in c.threads && Committed(s.pc[t]) && Ready(c, s, s.pc[t].op) ==>
      s.wakeBit || SignalPending(c, s) || AwakeWaiter(c, s)
  }

  predicate Waits(p: Pc) {
    Committed(p) || Awake(p)
  }

  ghost predicate WakeInv(c: Config, s: State) {
    && s.Shape(c)
    && (forall t :: t in c.threads && Waits(s.pc[t]) ==> t in c.Blockers(s.pc[t].op))
    && NoLostWakeup(c, s)
  }

  /** One thread may block on a send and another one on a receive. */
  ghost predicate TwoSided(c: Config) {
    exists a, b :: a in c.sendBlockers && b in c.recvBlockers && a != b
  }

  lemma WakeStep(c: Config, s: State, t: Tid, a: Action)
    requires c.Valid() && WakeInv(c, s) && Enabled(c, s, t, a) && !TwoSided(c)
    ensures WakeInv(c, Step(c, s, t, a))
  {
    var s' := Step(c, s, t, a);
    assert s'.pc[t] == NextPc(c, s, t, a);
    forall u | u in c.threads && Committed(s'.pc[u]) && Ready(c, s', s'.pc[u].op)
      ensures s'.wakeBit || SignalPending(c, s') || AwakeWaiter(c, s')
    {
      if s'.contents != s.contents {
        assert s'.pc[t].Signal?;
      } else if u == t {
        assert Committed(s.pc[t]) && s'.pc[t].op == s.pc[t].op;
        KeepNews(c, s, t, a);
      } else {
        SameSide(c, s, t, u);
        KeepNews(c, s, t, a);
      }
    }
  }

  /** Two threads that wait want the same side of the queue. */
  lemma SameSide(c: Config, s: State, t: Tid, u: Tid)
    requires WakeInv(c, s) && !TwoSided(c) && t in c.threads && u in c.threads && t != u
    ensures Waits(s.pc[t]) && Waits(s.pc[u]) ==> s.pc[t].op.Send? == s.pc[u].op.Send?
  {
  }

  /** A thread that takes the wake bit away, or goes on while awake, makes use of what is ready, or is awake for it. */
  lemma KeepNews(c: Config, s: State, t: Tid, a: Action)
    requires s.Shape(c) && Enabled(c, s, t, a) && Step(c, s, t, a).contents == s.contents
    requires s.wakeBit || SignalPending(c, s) || AwakeWaiter(c, s)
    requires Waits(s.pc[t]) ==> Ready(c, s, s.pc[t].op)
    ensures var s' := Step(c, s, t, a); s'.wakeBit || SignalPending(c, s') || AwakeWaiter(c, s')
  {
    var s' := Step(c, s, t, a);
    assert s'.pc[t] == NextPc(c, s, t, a);
    if Awake(s'.pc[t]) && Ready(c, s', s'.pc[t].op) {
      assert AwakeWaiter(c, s');
    } else if !s.pc[t].Signal? && !s.wakeBit {
      if SignalPending(c, s) {
        var g :| g in c.threads && s.pc[g].Signal?;
        assert s'.pc[g].Signal?;
      } else {
        var u :| u in c.threads && Awake(s.pc[u]) && Ready(c, s, s.pc[u].op);
        assert s'.pc[u].Signal? || (Awake(s'.pc[u]) && Ready(c, s', s'.pc[u].op));
      }
    }
  }

  lemma {:induction false} WakeExec(c: Config, moves: seq<Move>)
    requires c.Valid() && !TwoSided(c) && Exec(c, Init(c), moves).Some?
    ensures WakeInv(c, Exec(c, Init(c), moves).value)
  {
    if moves == [] {
    } else {
      var before := moves[..|moves| - 1];
      WakeExec(c, before);
      var m := moves[|moves| - 1];
      WakeStep(c, Exec(c, Init(c), before).value, m.t, m.a);
    }
  }

  /** With one thread that may block, on whichever side, only the bit or a pending signal can be ahead of it. */
  lemma NoLostWakeupSingle(c: Config, s: State, t: Tid)
    requires c.Valid() && c.sendBlockers + c.recvBlockers == {t} && Reachable(c, s)
    requires t in c.threads && Committed(s.pc[t]) && Ready(c, s, s.pc[t].op)
    ensures s.wakeBit || SignalPending(c, s)
  {
    assert t in c.sendBlockers + c.recvBlockers;
    assert forall u :: u in c.sendBlockers || u in c.recvBlockers ==> u in c.sendBlockers + c.recvBlockers;
    var moves :| Exec(c, Init(c), moves) == Some(s);
    WakeExec(c, moves);
  }

  // --- A blocking sender and a blocking receiver ---

  lemma Go(c: Config, s: State, t: Tid, a: Action) returns (s': State)
    requires s.Shape(c) && Reachable(c, s) && Enabled(c, s, t, a)
    ensures s' == Step(c, s, t, a) && s'.Shape(c) && Reachable(c, s')
  {
    s' := Step(c, s, t, a);
    var moves :| Exec(c, Init(c), moves) == Some(s);
    var longer := moves + [Move(t, a)];
    assert longer[..|longer| - 1] == moves;
    assert Exec(c, Init(c), longer) == Some(s');
  }

  /** `a` and `b` are where `pa` and `pb` say, every other thread is idle, and `n` items are queued. */
  ghost predicate Scene(c: Config, s: State, a: Tid, pa: Pc, b: Tid, pb: Pc, n: nat) {
    && s.Shape(c) && Reachable(c, s) && |s.contents| == n
    && forall t :: t in c.threads ==> s.pc[t] == (if t == a then pa else if t == b then pb else Idle)
  }

  lemma FillUp(c: Config, s: State, a: Tid, b: Tid) returns (s': State)
    requires c.Valid() && a in c.threads && Scene(c, s, a, Idle, b, Idle, |s.contents|) && s.waiter.None?
    requires |s.contents| <= c.length
    ensures Scene(c, s', a, Idle, b, Idle, c.length) && s'.waiter.None?
    decreases c.length - |s.contents|
  {
    s' := s;
    if |s.contents| < c.length {
      s' := Go(c, s', a, Call(Send([], false), false));
      s' := Go(c, s', a, Run);
      s' := Go(c, s', a, Run);
      s' := FillUp(c, s', a, b);
    }
  }

  lemma EmptyOut(c: Config, s: State, a: Tid, b: Tid, pb: Pc) returns (s': State)
    requires c.Valid() && a in c.threads && b in c.threads && a != b && s.waiter.None?
    requires Scene(c, s, a, Idle, b, pb, |s.contents|)
    requires |s.contents| > 0 || s.wakeBit
    ensures Scene(c, s', a, Idle, b, pb, 0) && s'.waiter.None? && s'.wakeBit
    decreases |s.contents|
  {
    s' := s;
    if |s.contents| > 0 {
      s' := Go(c, s', a, Call(Receive, false));
      s' := Go(c, s', a, Run);
      s' := Go(c, s', a, Run);
      s' := EmptyOut(c, s', a, b, pb);
    }
  }

  /** A blocking receiver on an empty queue consumes the wake bit its own receives have set, and gives up waiting. */
  lemma EatOwnSignal(c: Config, s: State, a: Tid, b: Tid, pb: Pc) returns (s': State)
    requires c.Valid() && a in c.recvBlockers && b in c.threads && a != b && s.waiter.None?
    requires Scene(c, s, a, Idle, b, pb, 0) && s.wakeBit
    ensures Scene(c, s', a, Idle, b, pb, 0) && !s'.wakeBit && s'.waiter.None?
  {
    s' := Go(c, s, a, Call(Receive, true));
    s' := Go(c, s', a, Run);
    s' := Go(c, s', a, Run);
    s' := Go(c, s', a, Run);
    s' := Go(c, s', a, Run);
    s' := Go(c, s', a, FailWait);
  }

  /** A blocking sender `b` sleeps for ever on a queue that the blocking receiver `a` has emptied. */
  lemma LosesWakeup(c: Config, a: Tid, b: Tid) returns (s: State)
    requires c.Valid() && a in c.recvBlockers && b in c.sendBlockers && a != b
    ensures Scene(c, s, a, Idle, b, Waiting(Send([], false)), 0) && !s.wakeBit
  {
    assert Exec(c, Init(c), []) == Some(Init(c));
    s := FillUp(c, Init(c), a, b);
    s := Go(c, s, b, Call(Send([], false), true));
    s := Go(c, s, b, Run);
    s := EmptyOut(c, s, a, b, Block(Send([], false), true));
    s := EatOwnSignal(c, s, a, b, Block(Send([], false), true));
    s := Go(c, s, b, Run);
  }

  /**
   A queue is free of lost wake-ups in every run exactly when no two different threads block on its two sides: any number
   of threads may block on one side, and one thread may block on both.
   */
  lemma NoLostWakeupIff(c: Config)
    requires c.Valid()
    ensures (forall s :: Reachable(c, s) ==> NoLostWakeup(c, s)) <==> !TwoSided(c)
  {
    if TwoSided(c) {
      var b, a :| b in c.sendBlockers && a in c.recvBlockers && b != a;
      var s := LosesWakeup(c, a, b);
      assert Committed(s.pc[b]) && Ready(c, s, s.pc[b].op) && !SignalPending(c, s) && !AwakeWaiter(c, s);
      assert !NoLostWakeup(c, s);
    } else {
      forall s | Reachable(c, s)
        ensures NoLostWakeup(c, s)
      {
        var moves :| Exec(c, Init(c), moves) == Some(s);
        WakeExec(c, moves);
      }
    }
  }
}
