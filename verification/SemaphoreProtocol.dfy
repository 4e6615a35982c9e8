/**
 Semaphores and mutexes as a lock-free protocol (freertos/src/freertos_semphr.c).

 Any number of threads call `xSemaphoreTake` and `xSemaphoreGive` on one live object. Every atomic load,
 compare-and-swap, owner access, store, notification signal, wait and poll is a step of its own, and the steps of
 different threads interleave freely. The kernel notification is reduced to the one wake bit the object uses and to
 its single waiter slot.
 */
module SemaphoreProtocol {
  import opened Prelude

  type Tid = nat

  datatype Kind = Counting | Mutex

  /** One object, the threads that use it, and those among them that may call take with a non-zero timeout. */
  datatype Config = Config(kind: Kind, maxCount: nat, initial: nat, threads: set<Tid>, blockers: set<Tid>) {
    ghost predicate Valid() {
      && blockers <= threads
      && maxCount < WORD
      && (kind.Mutex? ==> maxCount == 1 && initial == 0)
      && (kind.Counting? ==> 1 <= maxCount && initial <= maxCount)
    }
  }

  /** The next atomic step of a thread. `wait` says that the take was called with a non-zero timeout. */
  datatype Pc =
    | Idle
    | TakeLoad(wait: bool)
    | TakeOwner(wait: bool, cur: nat)
    | TakeCas(wait: bool, cur: nat)
    | TakeSetOwner
    | TakeBlock(wait: bool)
    | TakeWaiting
    | TakePoll
    | GiveOwner
    | GiveClear
    | GiveStore
    | GiveLoad
    | GiveCas(cur: nat)
    | GiveSignal

  /** What a call has returned to its thread. */
  datatype Answer = Answer(t: Tid, give: bool, ok: bool)

  /**
   Shared memory, the notification, and history variables that no step reads: updates made by takes and gives, the threads
   between a mutex acquisition and its release store, who changed `count` or failed a compare-and-swap how often, and
   what every finished call returned.
   */
  datatype State = State(
    count: nat,
    owner: Option<Tid>,
    wakeBit: bool,
    waiter: Option<Tid>,
    pc: map<Tid, Pc>,
    takes: nat,
    gives: nat,
    inside: set<Tid>,
    changes: nat,
    changedBy: map<Tid, nat>,
    failures: map<Tid, nat>,
    answers: seq<Answer>)
  {
    ghost predicate Shape(c: Config) {
      forall t :: t in c.threads ==> t in pc && t in changedBy && t in failures
    }

    /** A successful write of `count` by `t`, recorded in the history. */
    function Write(t: Tid, n: nat): (s': State)
      requires t in changedBy
      ensures forall u :: u in changedBy ==> u in s'.changedBy
    {
      this.(count := n, changes := changes + 1, changedBy := changedBy[t := changedBy[t] + 1])
    }

    function Fail(t: Tid): (s': State)
      requires t in failures
      ensures forall u :: u in failures ==> u in s'.failures
    {
      this.(failures := failures[t := failures[t] + 1])
    }

    /** How often threads other than `t` have changed `count`. */
    function ChangesByOthers(t: Tid): int
      requires t in changedBy
    {
      changes - changedBy[t]
    }
  }

  function Init(c: Config): State {
    State(c.initial, None, false, None,
          map t | t in c.threads :: Idle, 0, 0, {}, 0,
          map t | t in c.threads :: 0, map t | t in c.threads :: 0, [])
  }

  /**
   What a thread does next: call into the object while idle, or `Run` its next step. `Fail` is a wait that ends in an
   error: a timeout, or the refusal of a second waiter.
   */
  datatype Action = CallTake(wait: bool) | CallGive | Run | FailWait

  ghost predicate Enabled(c: Config, s: State, t: Tid, a: Action)
    requires s.Shape(c)
  {
    && t in c.threads
    && match s.pc[t]
       case Idle => (a.CallTake? && (a.wait ==> t in c.blockers)) || a.CallGive?
       case TakeBlock(wait) => a.Run? || (a.FailWait? && wait)
       case TakeWaiting => a.FailWait? || (a.Run? && s.wakeBit)
       case _ => a.Run?
  }

  /** Where the step of `t` leaves `t`: lines 30 to 63 for a take, 73 to 90 for a give. */
  function NextPc(c: Config, s: State, t: Tid, a: Action): Pc
    requires t in s.pc
  {
    match s.pc[t]
    case Idle => if a.CallTake? then TakeLoad(a.wait) else if c.kind.Mutex? then GiveOwner else GiveLoad
    case TakeLoad(wait) =>
      if c.kind.Mutex? then TakeOwner(wait, s.count)
      else if s.count > 0 then TakeCas(wait, s.count)
      else TakeBlock(wait)
    case TakeOwner(wait, cur) =>
      if s.owner == Some(t) then Idle else if cur == 0 then TakeCas(wait, cur) else TakeBlock(wait)
    case TakeCas(wait, cur) =>
      if s.count != cur then TakeLoad(wait) else if c.kind.Mutex? then TakeSetOwner else Idle
    case TakeSetOwner => Idle
    case TakeBlock(wait) =>
      if !wait || a.FailWait? then Idle
      else if s.wakeBit then TakePoll
      else if s.waiter.None? then TakeWaiting
      else Idle
    case TakeWaiting => if a.FailWait? then Idle else TakePoll
    case TakePoll => TakeLoad(true)
    case GiveOwner => if s.owner == Some(t) then GiveClear else Idle
    case GiveClear => GiveStore
    case GiveStore => GiveSignal
    case GiveLoad => if s.count >= c.maxCount then Idle else GiveCas(s.count)
    case GiveCas(cur) => if s.count == cur then GiveSignal else GiveLoad
    case GiveSignal => Idle
  }

  /** What the step of `t` does to the object, the notification and the history. */
  function Effect(c: Config, s: State, t: Tid, a: Action): (s': State)
    requires t in s.pc && t in s.changedBy && t in s.failures
    ensures forall u :: u in s.changedBy ==> u in s'.changedBy
    ensures forall u :: u in s.failures ==> u in s'.failures
  {
    match s.pc[t]
    case TakeCas(wait, cur) =>
      if s.count != cur then s.Fail(t)
      else if c.kind.Mutex? then s.Write(t, 1).(inside := s.inside + {t}, takes := s.takes + 1)
      else s.Write(t, Dec32(cur)).(takes := s.takes + 1)
    case TakeSetOwner => s.(owner := Some(t))
    case TakeBlock(wait) =>
      if !wait || a.FailWait? then s
      else if s.wakeBit then s.(wakeBit := false)
      else if s.waiter.None? then s.(waiter := Some(t))
      else s
    case TakeWaiting => if a.FailWait? then s.(waiter := None) else s.(waiter := None, wakeBit := false)
    case TakePoll => s.(wakeBit := false)
    case GiveClear => s.(owner := None)
    case GiveStore => s.Write(t, 0).(inside := s.inside - {t}, gives := s.gives + 1)
    case GiveCas(cur) => if s.count == cur then s.Write(t, Inc32(cur)).(gives := s.gives + 1) else s.Fail(t)
    case GiveSignal => s.(wakeBit := true)
    case _ => s
  }

  predicate InGive(p: Pc) {
    p.GiveOwner? || p.GiveClear? || p.GiveStore? || p.GiveLoad? || p.GiveCas? || p.GiveSignal?
  }

  /** What the call returns that the next step at `p` ends: lines 34, 40, 48, 53 and 61, and 75, 79, 84 and 90. */
  predicate Verdict(p: Pc) {
    p.TakeOwner? || p.TakeSetOwner? || p.TakeCas? || p.GiveSignal?
  }

  /** The answers after the step of `t`: one more when the step ends its call. */
  function Answered(c: Config, s: State, t: Tid, a: Action): seq<Answer>
    requires t in s.pc
  {
    var p := s.pc[t];
    if !p.Idle? && NextPc(c, s, t, a).Idle? then s.answers + [Answer(t, InGive(p), Verdict(p))] else s.answers
  }

  function Step(c: Config, s: State, t: Tid, a: Action): (s': State)
    requires s.Shape(c) && t in c.threads
    ensures s'.Shape(c)
  {
    Effect(c, s, t, a).(pc := s.pc[t := NextPc(c, s, t, a)], answers := Answered(c, s, t, a))
  }

  /** A run: the moves taken by the threads, in the order in which they happened. */
  datatype Move = Move(t: Tid, a: Action)

  /** The state a run ends in, or None when some move of it was not enabled. */
  ghost function Exec(c: Config, s: State, moves: seq<Move>): (r: Option<State>)
    requires s.Shape(c)
    ensures r.Some? ==> r.value.Shape(c)
  {
    if moves == [] then Some(s)
    else
      var m := moves[|moves| - 1];
      match Exec(c, s, moves[..|moves| - 1])
      case None => None
      case Some(p) => if Enabled(c, p, m.t, m.a) then Some(Step(c, p, m.t, m.a)) else None
  }

  lemma ExecAppend(c: Config, s: State, moves: seq<Move>, m: Move)
    requires s.Shape(c)
    ensures Exec(c, s, moves + [m]) ==
      match Exec(c, s, moves)
      case None => None
      case Some(p) => if Enabled(c, p, m.t, m.a) then Some(Step(c, p, m.t, m.a)) else None
  {
    var longer := moves + [m];
    assert longer[..|longer| - 1] == moves;
  }

  ghost predicate Reachable(c: Config, s: State) {
    exists moves :: Exec(c, Init(c), moves) == Some(s)
  }

  lemma ReachInit(c: Config)
    ensures Reachable(c, Init(c))
  {
    assert Exec(c, Init(c), []) == Some(Init(c));
  }

  lemma ReachStep(c: Config, s: State, t: Tid, a: Action)
    requires s.Shape(c) && Reachable(c, s) && Enabled(c, s, t, a)
    ensures Reachable(c, Step(c, s, t, a))
  {
    var moves :| Exec(c, Init(c), moves) == Some(s);
    ExecAppend(c, Init(c), moves, Move(t, a));
  }

  // ---------------------------------------------------------------------------------------------------------------
  // Exclusion and conservation
  // ---------------------------------------------------------------------------------------------------------------

  ghost predicate ThreadInv(c: Config, s: State, t: Tid)
    requires s.Shape(c) && t in c.threads
  {
    PcInv(c, t, s.pc[t]) && HoldInv(s, t, s.pc[t])
  }

  /** What a program counter alone says about the object and the thread. */
  ghost predicate PcInv(c: Config, t: Tid, p: Pc) {
    && (p.TakeOwner? || p.TakeSetOwner? || p.GiveOwner? || p.GiveClear? || p.GiveStore? ==> c.kind.Mutex?)
    && (p.GiveLoad? || p.GiveCas? ==> c.kind.Counting?)
    && (p.GiveCas? ==> p.cur < c.maxCount)
    && (p.TakeCas? ==> (c.kind.Mutex? <==> p.cur == 0))
    && (Waits(p) ==> t in c.blockers)
  }

  /** How the mutex fields depend on where a thread is. */
  ghost predicate HoldInv(s: State, t: Tid, p: Pc) {
    && (p.TakeSetOwner? || p.GiveStore? ==> t in s.inside && s.owner.None?)
    && (p.GiveClear? ==> s.owner == Some(t))
    && (t in s.inside && !p.TakeSetOwner? && !p.GiveStore? ==> s.owner == Some(t))
    && (p.GiveSignal? ==> t !in s.inside)
  }

  /** The thread is inside a take that was called with a non-zero timeout. */
  predicate Waits(p: Pc) {
    match p
    case TakeLoad(wait) => wait
    case TakeOwner(wait, _) => wait
    case TakeCas(wait, _) => wait
    case TakeBlock(wait) => wait
    case TakeWaiting => true
    case TakePoll => true
    case _ => false
  }

  ghost predicate CountInv(c: Config, s: State) {
    match c.kind
    case Counting => s.inside == {} && s.owner.None? && s.count + s.takes == c.initial + s.gives && s.count <= c.maxCount
    case Mutex =>
      && s.count <= 1 && s.count + s.gives == s.takes
      && (s.count == 0 <==> s.inside == {})
      && (forall t, u :: t in s.inside && u in s.inside ==> t == u)
      && (s.owner.Some? ==> s.owner.value in s.inside)
  }

  ghost predicate Inv(c: Config, s: State) {
    && s.Shape(c)
    && CountInv(c, s)
    && s.inside <= c.threads
    && forall t :: t in c.threads ==> ThreadInv(c, s, t)
  }

  /** The steps that touch nothing the exclusion and conservation invariants speak of. */
  predicate Quiet(p: Pc) {
    !p.TakeCas? && !p.TakeSetOwner? && !p.GiveClear? && !p.GiveStore? && !p.GiveCas?
  }

  lemma QuietStep(c: Config, s: State, t: Tid, a: Action)
    requires s.Shape(c) && Enabled(c, s, t, a) && Quiet(s.pc[t])
    ensures var s' := Step(c, s, t, a);
      && s'.count == s.count && s'.owner == s.owner && s'.inside == s.inside
      && s'.takes == s.takes && s'.gives == s.gives && s'.changes == s.changes
      && s'.changedBy == s.changedBy && s'.failures == s.failures
  {
  }

  lemma PcStep(c: Config, s: State, t: Tid, a: Action)
    requires c.Valid() && s.Shape(c) && Enabled(c, s, t, a) && PcInv(c, t, s.pc[t])
    ensures PcInv(c, t, Step(c, s, t, a).pc[t])
  {
  }

  lemma LoudStep(c: Config, s: State, t: Tid, a: Action)
    requires c.Valid() && s.Shape(c) && Enabled(c, s, t, a) && CountInv(c, s) && ThreadInv(c, s, t)
    requires !Quiet(s.pc[t])
    ensures CountInv(c, Step(c, s, t, a))
  {
  }

  lemma LoudStepOwn(c: Config, s: State, t: Tid, a: Action)
    requires c.Valid() && s.Shape(c) && Enabled(c, s, t, a) && CountInv(c, s) && ThreadInv(c, s, t)
    requires !Quiet(s.pc[t])
    ensures HoldInv(Step(c, s, t, a), t, Step(c, s, t, a).pc[t])
  {
  }

  lemma LoudStepOthers(c: Config, s: State, t: Tid, a: Action, u: Tid)
    requires c.Valid() && s.Shape(c) && Enabled(c, s, t, a) && CountInv(c, s) && ThreadInv(c, s, t)
    requires u in c.threads && u != t && HoldInv(s, u, s.pc[u]) && !Quiet(s.pc[t])
    ensures HoldInv(Step(c, s, t, a), u, s.pc[u])
  {
  }

  lemma InvStep(c: Config, s: State, t: Tid, a: Action)
    requires c.Valid() && Inv(c, s) && Enabled(c, s, t, a)
    ensures Inv(c, Step(c, s, t, a))
  {
    var s' := Step(c, s, t, a);
    assert ThreadInv(c, s, t);
    PcStep(c, s, t, a);
    if Quiet(s.pc[t]) {
      QuietStep(c, s, t, a);
      assert HoldInv(s', t, s'.pc[t]);
    } else {
      LoudStep(c, s, t, a);
      LoudStepOwn(c, s, t, a);
    }
    forall u | u in c.threads && u != t
      ensures ThreadInv(c, s', u)
    {
      assert ThreadInv(c, s, u);
      if !Quiet(s.pc[t]) {
        LoudStepOthers(c, s, t, a, u);
      }
    }
  }

  lemma {:induction false} InvExec(c: Config, moves: seq<Move>)
    requires c.Valid() && Exec(c, Init(c), moves).Some?
    ensures Inv(c, Exec(c, Init(c), moves).value)
  {
    if moves == [] {
    } else {
      InvExec(c, moves[..|moves| - 1]);
      var m := moves[|moves| - 1];
      InvStep(c, Exec(c, Init(c), moves[..|moves| - 1]).value, m.t, m.a);
    }
  }

  lemma ReachableInv(c: Config, s: State)
    requires c.Valid() && Reachable(c, s)
    ensures Inv(c, s)
  {
    var moves :| Exec(c, Init(c), moves) == Some(s);
    InvExec(c, moves);
  }

  /**
   Mutual exclusion: whatever the interleaving, at most one thread is between its winning compare-and-swap and its
   release store, `count` tells whether there is one, and the owner field never names any other thread.
   */
  lemma MutexExclusion(c: Config, s: State)
    requires c.Valid() && c.kind.Mutex? && Reachable(c, s)
    ensures forall t, u :: t in s.inside && u in s.inside ==> t == u
    ensures s.count == 1 <==> s.inside != {}
    ensures s.count == 0 <==> s.inside == {}
    ensures s.owner.Some? ==> s.inside == {s.owner.value}
  {
    ReachableInv(c, s);
  }

  /** A mutex holder keeps the object until its own release: no step of another thread takes it out of `inside`. */
  lemma OnlyHolderReleases(c: Config, s: State, t: Tid, a: Action, holder: Tid)
    requires c.Valid() && c.kind.Mutex? && Reachable(c, s) && s.Shape(c) && Enabled(c, s, t, a)
    requires holder in s.inside && holder !in Step(c, s, t, a).inside
    ensures t == holder && s.pc[t].GiveStore? && s.owner.None?
  {
    ReachableInv(c, s);
    assert ThreadInv(c, s, t);
  }

  /** A counting semaphore never loses or invents a unit, and its count never leaves 0..max (so never wraps). */
  lemma SemaphoreConservation(c: Config, s: State)
    requires c.Valid() && c.kind.Counting? && Reachable(c, s)
    ensures s.count == c.initial + s.gives - s.takes
    ensures 0 <= s.count <= c.maxCount < WORD
  {
    ReachableInv(c, s);
  }

  // ---------------------------------------------------------------------------------------------------------------
  // What calls return
  // ---------------------------------------------------------------------------------------------------------------

  /** How many gives, or takes, have returned true. */
  function Yes(answers: seq<Answer>, give: bool): nat {
    if answers == [] then 0
    else
      var last := answers[|answers| - 1];
      Yes(answers[..|answers| - 1], give) + if last.give == give && last.ok then 1 else 0
  }

  lemma YesAppend(answers: seq<Answer>, x: Answer, give: bool)
    ensures Yes(answers + [x], give) == Yes(answers, give) + if x.give == give && x.ok then 1 else 0
  {
    var longer := answers + [x];
    assert longer[..|longer| - 1] == answers;
  }

  /** The givers that have updated `count` and have still to signal and return. */
  ghost function Returning(c: Config, s: State): set<Tid>
    requires s.Shape(c)
  {
    set g | g in c.threads && s.pc[g].GiveSignal?
  }

  ghost predicate AnswerInv(c: Config, s: State)
    requires s.Shape(c)
  {
    && (c.kind.Counting? ==> s.takes == Yes(s.answers, false))
    && s.gives == Yes(s.answers, true) + |Returning(c, s)|
  }

  lemma ReturningStep(c: Config, s: State, s': State, t: Tid)
    requires s.Shape(c) && s'.Shape(c) && t in c.threads
    requires forall u :: u in c.threads && u != t ==> s'.pc[u] == s.pc[u]
    ensures |Returning(c, s')| == |Returning(c, s)|
      - (if s.pc[t].GiveSignal? then 1 else 0) + (if s'.pc[t].GiveSignal? then 1 else 0)
  {
    var others := Returning(c, s) - {t};
    assert Returning(c, s) == if s.pc[t].GiveSignal? then others + {t} else others;
    assert Returning(c, s') == if s'.pc[t].GiveSignal? then others + {t} else others;
  }

  /** Where updates are counted, ... */
  lemma UpdatesStep(c: Config, s: State, t: Tid, a: Action)
    requires s.Shape(c) && Enabled(c, s, t, a) && PcInv(c, t, s.pc[t])
    ensures var s' := Step(c, s, t, a);
      && s'.gives == s.gives + (if NextPc(c, s, t, a).GiveSignal? then 1 else 0)
      && (c.kind.Counting? ==> s'.takes == s.takes + if s.pc[t].TakeCas? && NextPc(c, s, t, a).Idle? then 1 else 0)
  {
  }

  /** ... and where answers are. */
  lemma YesStep(c: Config, s: State, t: Tid, a: Action)
    requires s.Shape(c) && Enabled(c, s, t, a) && PcInv(c, t, s.pc[t])
    ensures var (before, after) := (s.answers, Answered(c, s, t, a));
      && Yes(after, true) == Yes(before, true) + (if s.pc[t].GiveSignal? then 1 else 0)
      && (c.kind.Counting? ==>
            Yes(after, false) == Yes(before, false) + if s.pc[t].TakeCas? && NextPc(c, s, t, a).Idle? then 1 else 0)
  {
    var p := s.pc[t];
    if !p.Idle? && NextPc(c, s, t, a).Idle? {
      YesAppend(s.answers, Answer(t, InGive(p), Verdict(p)), true);
      YesAppend(s.answers, Answer(t, InGive(p), Verdict(p)), false);
    }
  }

  lemma AnswerStep(c: Config, s: State, t: Tid, a: Action)
    requires s.Shape(c) && Enabled(c, s, t, a) && PcInv(c, t, s.pc[t]) && AnswerInv(c, s)
    ensures AnswerInv(c, Step(c, s, t, a))
  {
    ReturningStep(c, s, Step(c, s, t, a), t);
    UpdatesStep(c, s, t, a);
    YesStep(c, s, t, a);
  }

  lemma {:induction false} AnswerExec(c: Config, moves: seq<Move>)
    requires c.Valid() && Exec(c, Init(c), moves).Some?
    ensures AnswerInv(c, Exec(c, Init(c), moves).value)
  {
    if moves == [] {
      assert Returning(c, Init(c)) == {};
    } else {
      var before, m := moves[..|moves| - 1], moves[|moves| - 1];
      AnswerExec(c, before);
      InvExec(c, before);
      var s := Exec(c, Init(c), before).value;
      assert ThreadInv(c, s, m.t);
      AnswerStep(c, s, m.t, m.a);
    }
  }

  /**
   The count in terms of what calls returned: the initial count, plus the gives that returned true, less the takes that
   returned true; a give that has done its update and has still to return is counted as well.
   */
  lemma CountIsAnswers(c: Config, s: State)
    requires c.Valid() && c.kind.Counting? && Reachable(c, s) && s.Shape(c)
    ensures s.count == c.initial + Yes(s.answers, true) + |Returning(c, s)| - Yes(s.answers, false)
    ensures (forall t :: t in c.threads ==> s.pc[t].Idle?) ==>
      s.count == c.initial + Yes(s.answers, true) - Yes(s.answers, false)
  {
    var moves :| Exec(c, Init(c), moves) == Some(s);
    AnswerExec(c, moves);
    ReachableInv(c, s);
    if forall t :: t in c.threads ==> s.pc[t].Idle? {
      assert Returning(c, s) == {};
    }
  }

  /**
   For a mutex: it is taken exactly when the acquisitions outnumber the gives that returned true or are about to, so no
   give returns true without a release of its own.
   */
  lemma MutexIsAnswers(c: Config, s: State)
    requires c.Valid() && c.kind.Mutex? && Reachable(c, s) && s.Shape(c)
    ensures s.count == s.takes - Yes(s.answers, true) - |Returning(c, s)|
  {
    var moves :| Exec(c, Init(c), moves) == Some(s);
    AnswerExec(c, moves);
    ReachableInv(c, s);
  }

  /** The step of `t` ends a give, or a take, with this answer. */
  predicate Answers(c: Config, s: State, t: Tid, a: Action, give: bool, ok: bool)
    requires s.Shape(c) && t in c.threads
  {
    Step(c, s, t, a).answers == s.answers + [Answer(t, give, ok)]
  }

  /**
   Refusals are deserved, and successes are real. A counting give returns false only on a count at the maximum, with
   nothing changed; a mutex give only to a thread that does not hold the mutex. Every give that returns true leaves the
   wake bit set, and a mutex giver outside. Every take of a mutex that returns true leaves its thread the owner.
   */
  lemma AnswersDeserved(c: Config, s: State, t: Tid, a: Action)
    requires c.Valid() && Reachable(c, s) && s.Shape(c) && Enabled(c, s, t, a)
    ensures var s' := Step(c, s, t, a);
      && (Answers(c, s, t, a, true, false) ==>
            && s'.count == s.count && s'.wakeBit == s.wakeBit && s'.owner == s.owner
            && if c.kind.Mutex? then t !in s.inside else s.count == c.maxCount)
      && (Answers(c, s, t, a, true, true) ==> s'.wakeBit && (c.kind.Mutex? ==> t !in s'.inside))
      && (Answers(c, s, t, a, false, true) && c.kind.Mutex? ==> t in s'.inside && s'.owner == Some(t))
  {
    ReachableInv(c, s);
    assert ThreadInv(c, s, t);
    var p, s' := s.pc[t], Step(c, s, t, a);
    assert s'.answers != s.answers ==> s'.answers[|s.answers|] == Answer(t, InGive(p), Verdict(p));
  }

  /**
   A take turns away only from an object that it has found unavailable, and it returns false only then: it had no
   timeout, or its wait has failed.
   */
  lemma TakeTurnsAway(c: Config, s: State, t: Tid, a: Action)
    requires c.Valid() && Reachable(c, s) && s.Shape(c) && Enabled(c, s, t, a)
    ensures Step(c, s, t, a).pc[t].TakeBlock? ==>
      if c.kind.Mutex? then s.pc[t].TakeOwner? && s.pc[t].cur != 0 && s.owner != Some(t) else s.count == 0
    ensures Answers(c, s, t, a, false, false) ==>
      s.pc[t] == TakeBlock(false) || s.pc[t].TakeWaiting? || (s.pc[t].TakeBlock? && (a.FailWait? || s.waiter.Some?))
  {
    ReachableInv(c, s);
    assert ThreadInv(c, s, t);
    var p, s' := s.pc[t], Step(c, s, t, a);
    assert s'.answers != s.answers ==> s'.answers[|s.answers|] == Answer(t, InGive(p), Verdict(p));
  }

  // ---------------------------------------------------------------------------------------------------------------
  // Lost wake-ups
  // ---------------------------------------------------------------------------------------------------------------

  /** A take would succeed now. */
  predicate Available(c: Config, s: State) {
    if c.kind.Mutex? then s.count == 0 else s.count > 0
  }

  /** The thread has seen the object unavailable and will wait for the wake bit without looking again. */
  predicate Committed(p: Pc) {
    p == TakeBlock(true) || p.TakeWaiting?
  }

  /** Committed, or a mutex taker that will be once it has compared the owner. */
  predicate Stalled(p: Pc) {
    Committed(p) || (p.TakeOwner? && p.wait && p.cur != 0)
  }

  /** A giver has updated `count` and has still to signal. */
  ghost predicate SignalPending(c: Config, s: State)
    requires s.Shape(c)
  {
    exists g :: g in c.threads && s.pc[g].GiveSignal?
  }

  /** A waiting taker is awake inside its loop: it will read `count` again, or has read it as available. */
  predicate Awake(p: Pc) {
    || p.TakePoll?
    || p == TakeLoad(true)
    || p == TakeOwner(true, 0)
    || (p.TakeCas? && p.wait)
  }

  ghost predicate AwakeTaker(c: Config, s: State)
    requires s.Shape(c)
  {
    exists u :: u in c.threads && Awake(s.pc[u])
  }

  /** No taker sleeps through an available object: something is on its way to wake it or to use the object up. */
  ghost predicate NoLostWakeup(c: Config, s: State)
    requires s.Shape(c)
  {
    forall t :: t in c.threads && Committed(s.pc[t]) && Available(c, s) ==>
      s.wakeBit || SignalPending(c, s) || AwakeTaker(c, s)
  }

  /**
   The one way to lose a wake-up: a counting semaphore with room for two units, two threads that may block on it, and
   a third thread.
   */
  ghost predicate Hazard(c: Config) {
    && c.kind.Counting?
    && c.maxCount >= 2
    && exists a, b, g :: a in c.blockers && b in c.blockers && g in c.threads && a != b && a != g && b != g
  }

  /** Strengthening of NoLostWakeup that steps keep when the object has room for one unit only. */
  ghost predicate WakeInv(c: Config, s: State)
    requires s.Shape(c)
  {
    forall t :: t in c.threads && Stalled(s.pc[t]) && Available(c, s) ==>
      s.wakeBit || SignalPending(c, s) || AwakeTaker(c, s)
  }

  /** What a step can do to the two existential witnesses, and to availability. */
  lemma SignalFrame(c: Config, s: State, t: Tid, a: Action)
    requires s.Shape(c) && Enabled(c, s, t, a) && SignalPending(c, s) && !s.pc[t].GiveSignal?
    ensures SignalPending(c, Step(c, s, t, a))
  {
    var g :| g in c.threads && s.pc[g].GiveSignal?;
    assert Step(c, s, t, a).pc[g].GiveSignal?;
  }

  lemma AwakeFrame(c: Config, s: State, t: Tid, a: Action)
    requires s.Shape(c) && Enabled(c, s, t, a) && AwakeTaker(c, s) && !Awake(s.pc[t])
    ensures AwakeTaker(c, Step(c, s, t, a))
  {
    var u :| u in c.threads && Awake(s.pc[u]);
    assert Awake(Step(c, s, t, a).pc[u]);
  }

  /** An object becomes available only through a give, which then owes a signal. */
  lemma AvailableStep(c: Config, s: State, t: Tid, a: Action)
    requires c.Valid() && Inv(c, s) && Enabled(c, s, t, a)
    requires !Available(c, s) && Available(c, Step(c, s, t, a))
    ensures Step(c, s, t, a).pc[t].GiveSignal?
    ensures SignalPending(c, Step(c, s, t, a))
  {
    assert ThreadInv(c, s, t);
    assert Step(c, s, t, a).pc[t] == NextPc(c, s, t, a);
  }

  /** A thread stalls only on a `count` it has just seen unavailable, or on an earlier such sight. */
  lemma StallStep(c: Config, s: State, t: Tid, a: Action)
    requires c.Valid() && Inv(c, s) && Enabled(c, s, t, a)
    requires Stalled(Step(c, s, t, a).pc[t]) && Available(c, Step(c, s, t, a))
    ensures Stalled(s.pc[t]) && Available(c, s) && Step(c, s, t, a).wakeBit == s.wakeBit
  {
    assert ThreadInv(c, s, t);
    assert Step(c, s, t, a).pc[t] == NextPc(c, s, t, a);
  }

  /** Where the wake bit is cleared a taker wakes, and one that finds the object available goes for it. */
  lemma AwakeStep(c: Config, s: State, t: Tid, a: Action)
    requires c.Valid() && Inv(c, s) && Enabled(c, s, t, a)
    requires c.kind.Mutex? || c.maxCount <= 1
    requires Available(c, s) && Available(c, Step(c, s, t, a))
    requires Awake(s.pc[t]) || (s.wakeBit && !Step(c, s, t, a).wakeBit)
    ensures Awake(Step(c, s, t, a).pc[t])
  {
    assert ThreadInv(c, s, t);
    assert Step(c, s, t, a).pc[t] == NextPc(c, s, t, a);
  }

  lemma WakeStepSerial(c: Config, s: State, t: Tid, a: Action)
    requires c.Valid() && Inv(c, s) && Enabled(c, s, t, a)
    requires c.kind.Mutex? || c.maxCount <= 1
    requires WakeInv(c, s)
    ensures WakeInv(c, Step(c, s, t, a))
  {
    var s' := Step(c, s, t, a);
    forall u | u in c.threads && Stalled(s'.pc[u]) && Available(c, s')
      ensures s'.wakeBit || SignalPending(c, s') || AwakeTaker(c, s')
    {
      if !Available(c, s) {
        AvailableStep(c, s, t, a);
      } else {
        if u == t {
          StallStep(c, s, t, a);
        }
        assert Stalled(s.pc[u]);
        if s.pc[t].GiveSignal? {
          assert s'.wakeBit;
        } else if SignalPending(c, s) {
          SignalFrame(c, s, t, a);
        } else if Awake(s.pc[t]) || (s.wakeBit && !s'.wakeBit) {
          AwakeStep(c, s, t, a);
        } else if AwakeTaker(c, s) {
          AwakeFrame(c, s, t, a);
        }
      }
    }
  }

  /** With one blocking thread, or two threads in all, nothing but the bit or a pending signal is ever needed. */
  ghost predicate FewTakers(c: Config) {
    || (forall a, b :: a in c.blockers && b in c.blockers ==> a == b)
    || (c.kind.Counting? && exists a, b :: c.threads == {a, b})
  }

  /** A taker that is about to consume the wake bit. */
  predicate Consuming(p: Pc) {
    Committed(p) || p.TakePoll?
  }

  ghost predicate StrictInv(c: Config, s: State)
    requires s.Shape(c)
  {
    && (forall t :: t in c.threads && Stalled(s.pc[t]) && Available(c, s) ==> s.wakeBit || SignalPending(c, s))
    && PairInv(c, s)
  }

  ghost predicate PairInv(c: Config, s: State)
    requires s.Shape(c)
  {
    forall t, u :: t in c.threads && u in c.threads && t != u && Stalled(s.pc[t]) && Consuming(s.pc[u]) ==> !Available(c, s)
  }

  lemma StrictStep(c: Config, s: State, t: Tid, a: Action)
    requires c.Valid() && Inv(c, s) && Enabled(c, s, t, a) && FewTakers(c) && StrictInv(c, s)
    ensures StrictInv(c, Step(c, s, t, a))
  {
    var s' := Step(c, s, t, a);
    forall u | u in c.threads && Stalled(s'.pc[u]) && Available(c, s')
      ensures s'.wakeBit || SignalPending(c, s')
    {
      StrictSignal(c, s, t, a, u);
    }
    InvStep(c, s, t, a);
    OwnPairStep(c, s, t, a);
    PairStep(c, s, t, s');
  }

  lemma OwnPairStep(c: Config, s: State, t: Tid, a: Action)
    requires c.Valid() && Inv(c, s) && Enabled(c, s, t, a)
    ensures var s' := Step(c, s, t, a);
      (Stalled(s'.pc[t]) && Available(c, s') ==> Stalled(s.pc[t]) && Available(c, s))
      && (c.kind.Counting? && Consuming(s'.pc[t]) && Available(c, s') ==> Consuming(s.pc[t]) && Available(c, s))
  {
    var s' := Step(c, s, t, a);
    if Stalled(s'.pc[t]) && Available(c, s') {
      StallStep(c, s, t, a);
    }
    if c.kind.Counting? && Consuming(s'.pc[t]) && Available(c, s') {
      ConsumingStep(c, s, t, a);
    }
  }

  /** Two takers that have both seen the object unavailable leave nobody to make it available. */
  lemma PairStep(c: Config, s: State, t: Tid, s': State)
    requires c.Valid() && s.Shape(c) && Inv(c, s') && FewTakers(c) && PairInv(c, s) && t in c.threads
    requires forall u :: u in c.threads && u != t ==> s'.pc[u] == s.pc[u]
    requires Stalled(s'.pc[t]) && Available(c, s') ==> Stalled(s.pc[t]) && Available(c, s)
    requires c.kind.Counting? && Consuming(s'.pc[t]) && Available(c, s') ==> Consuming(s.pc[t]) && Available(c, s)
    ensures PairInv(c, s')
  {
    forall u, v | u in c.threads && v in c.threads && u != v && Stalled(s'.pc[u]) && Consuming(s'.pc[v])
      ensures !Available(c, s')
    {
      TwoOnly(c, s', t, u, v);
    }
  }

  lemma StrictSignal(c: Config, s: State, t: Tid, a: Action, u: Tid)
    requires c.Valid() && Inv(c, s) && Enabled(c, s, t, a) && FewTakers(c) && StrictInv(c, s)
    requires u in c.threads && Stalled(Step(c, s, t, a).pc[u]) && Available(c, Step(c, s, t, a))
    ensures Step(c, s, t, a).wakeBit || SignalPending(c, Step(c, s, t, a))
  {
    if !Available(c, s) {
      AvailableStep(c, s, t, a);
    } else {
      if u == t {
        StallStep(c, s, t, a);
      }
      if s.pc[t].GiveSignal? {
        assert Step(c, s, t, a).wakeBit;
      } else if SignalPending(c, s) {
        SignalFrame(c, s, t, a);
      } else {
        assert u != t && Consuming(s.pc[t]) ==> !Available(c, s);
      }
    }
  }

  /** Two threads that are both in a waiting take are all there is to the system. */
  lemma TwoOnly(c: Config, s: State, t: Tid, u: Tid, v: Tid)
    requires c.Valid() && Inv(c, s) && FewTakers(c) && t in c.threads
    requires u in c.threads && v in c.threads && u != v && Waits(s.pc[u]) && Waits(s.pc[v])
    ensures c.kind.Counting? && (t == u || t == v)
  {
    assert ThreadInv(c, s, u) && ThreadInv(c, s, v);
  }

  lemma ConsumingStep(c: Config, s: State, t: Tid, a: Action)
    requires c.Valid() && Inv(c, s) && Enabled(c, s, t, a) && c.kind.Counting?
    requires Consuming(Step(c, s, t, a).pc[t]) && Available(c, Step(c, s, t, a))
    ensures Consuming(s.pc[t]) && Available(c, s)
  {
    assert ThreadInv(c, s, t);
    assert Step(c, s, t, a).pc[t] == NextPc(c, s, t, a);
  }

  lemma {:induction false} WakeExec(c: Config, moves: seq<Move>)
    requires c.Valid() && Exec(c, Init(c), moves).Some?
    ensures c.kind.Mutex? || c.maxCount <= 1 ==> WakeInv(c, Exec(c, Init(c), moves).value)
    ensures FewTakers(c) ==> StrictInv(c, Exec(c, Init(c), moves).value)
  {
    if moves == [] {
    } else {
      var before := moves[..|moves| - 1];
      WakeExec(c, before);
      InvExec(c, before);
      var m := moves[|moves| - 1];
      if c.kind.Mutex? || c.maxCount <= 1 {
        WakeStepSerial(c, Exec(c, Init(c), before).value, m.t, m.a);
      }
      if FewTakers(c) {
        StrictStep(c, Exec(c, Init(c), before).value, m.t, m.a);
      }
    }
  }

  lemma HazardFree(c: Config)
    requires c.Valid() && !Hazard(c)
    ensures c.kind.Mutex? || c.maxCount <= 1 || FewTakers(c)
  {
    if c.kind.Counting? && c.maxCount >= 2 {
      if a, b :| a in c.blockers && b in c.blockers && a != b {
        assert forall g :: g in c.threads ==> g == a || g == b;
        assert c.threads == {a, b};
      }
    }
  }

  lemma WithoutHazard(c: Config, s: State)
    requires c.Valid() && !Hazard(c) && Reachable(c, s) && s.Shape(c)
    ensures NoLostWakeup(c, s)
  {
    var moves :| Exec(c, Init(c), moves) == Some(s);
    HazardFree(c);
    WakeExec(c, moves);
  }

  /** With one blocking taker, the bit is set or a giver is between its update and its signal. */
  lemma NoLostWakeupSingle(c: Config, s: State, t: Tid)
    requires c.Valid() && c.blockers == {t} && Reachable(c, s) && t in c.threads
    requires Committed(s.pc[t]) && Available(c, s)
    ensures s.wakeBit || SignalPending(c, s)
  {
    var moves :| Exec(c, Init(c), moves) == Some(s);
    WakeExec(c, moves);
  }

  // --- The hazard is real ---

  lemma Go(c: Config, s: State, t: Tid, a: Action) returns (s': State)
    requires s.Shape(c) && Reachable(c, s) && Enabled(c, s, t, a)
    ensures s' == Step(c, s, t, a) && s'.Shape(c) && Reachable(c, s')
  {
    s' := Step(c, s, t, a);
    ReachStep(c, s, t, a);
  }

  /** `a` and `b` are where `pa` and `pb` say, and every other thread is idle. */
  ghost predicate Only(c: Config, s: State, a: Tid, pa: Pc, b: Tid, pb: Pc) {
    && s.Shape(c) && Reachable(c, s)
    && forall t :: t in c.threads ==> s.pc[t] == (if t == a then pa else if t == b then pb else Idle)
  }

  /** `t` is at `p` now, and no other thread has moved. */
  ghost predicate MovesTo(c: Config, s: State, s': State, t: Tid, p: Pc)
    requires s.Shape(c) && s'.Shape(c)
  {
    forall u :: u in c.threads ==> s'.pc[u] == if u == t then p else s.pc[u]
  }

  /** `s'` is reachable, thread `t` has moved to `p`, and the object and its notification are as given. */
  ghost predicate Moved(c: Config, s: State, s': State, t: Tid, p: Pc, count: nat, bit: bool, waiter: Option<Tid>)
    requires s.Shape(c)
  {
    && s'.Shape(c) && Reachable(c, s') && MovesTo(c, s, s', t, p) && s'.owner == s.owner
    && s'.count == count && s'.wakeBit == bit && s'.waiter == waiter
  }

  ghost predicate Resting(c: Config, s: State) {
    && s.Shape(c) && Reachable(c, s)
    && !s.wakeBit && s.waiter.None?
    && forall t :: t in c.threads ==> s.pc[t].Idle?
  }

  /** One idle thread can take the count down to zero with zero-wait takes. */
  lemma Drain(c: Config, s: State, g: Tid) returns (s': State)
    requires c.kind.Counting? && g in c.threads && Resting(c, s)
    ensures Resting(c, s') && s'.count == 0
    decreases s.count
  {
    s' := s;
    if s.count > 0 {
      s' := Go(c, s', g, CallTake(false));
      s' := Go(c, s', g, Run);
      s' := Go(c, s', g, Run);
      s' := Drain(c, s', g);
    }
  }

  /** A whole give by an idle thread, below the maximum, with nobody in its way. */
  lemma WholeGive(c: Config, s: State, g: Tid) returns (s': State)
    requires c.Valid() && c.kind.Counting? && g in c.threads && s.Shape(c) && Reachable(c, s)
    requires s.pc[g].Idle? && s.count < c.maxCount
    ensures Moved(c, s, s', g, Idle, s.count + 1, true, s.waiter)
  {
    s' := Go(c, s, g, CallGive);
    s' := Go(c, s', g, Run);
    s' := Go(c, s', g, Run);
    s' := Go(c, s', g, Run);
  }

  /** A waiting take on an empty semaphore, as far as its commitment. */
  lemma Commit(c: Config, s: State, t: Tid) returns (s': State)
    requires c.kind.Counting? && t in c.blockers && t in c.threads && s.Shape(c) && Reachable(c, s)
    requires s.pc[t].Idle? && s.count == 0
    ensures Moved(c, s, s', t, TakeBlock(true), 0, s.wakeBit, s.waiter)
  {
    s' := Go(c, s, t, CallTake(true));
    s' := Go(c, s', t, Run);
  }

  /** Two takers commit on an empty semaphore: `a` sleeps, `b` is about to. */
  lemma TwoCommit(c: Config, s: State, a: Tid, b: Tid) returns (s': State)
    requires c.Valid() && c.kind.Counting? && a in c.blockers && b in c.blockers && a != b
    requires Resting(c, s) && s.count == 0
    ensures Only(c, s', a, TakeWaiting, b, TakeBlock(true)) && s'.count == 0
  {
    s' := Commit(c, s, a);
    s' := Go(c, s', a, Run);
    s' := Commit(c, s', b);
  }

  /** After two gives, `a` eats both wake-ups but only one unit, and `b` goes to sleep. */
  lemma FirstTakerEatsTheBit(c: Config, s: State, a: Tid, b: Tid) returns (s': State)
    requires c.kind.Counting? && a in c.threads && b in c.threads && a != b
    requires Only(c, s, a, TakePoll, b, TakeBlock(true)) && s.count == 2 && s.waiter.None?
    ensures Only(c, s', a, Idle, b, TakeWaiting) && s'.count == 1 && !s'.wakeBit
  {
    s' := Go(c, s, a, Run);
    s' := Go(c, s', a, Run);
    s' := Go(c, s', a, Run);
    s' := Go(c, s', b, Run);
  }

  lemma LosesWakeup(c: Config, a: Tid, b: Tid, g: Tid) returns (s: State)
    requires c.Valid() && c.kind.Counting? && c.maxCount >= 2
    requires a in c.blockers && b in c.blockers && g in c.threads && a != b && a != g && b != g
    ensures Only(c, s, a, Idle, b, TakeWaiting) && s.count == 1 && !s.wakeBit
  {
    ReachInit(c);
    var s0 := Drain(c, Init(c), g);
    var s1 := TwoCommit(c, s0, a, b);
    s := SecondHalf(c, s1, a, b, g);
  }

  lemma SecondHalf(c: Config, s1: State, a: Tid, b: Tid, g: Tid) returns (s: State)
    requires c.Valid() && c.kind.Counting? && c.maxCount >= 2
    requires a in c.threads && b in c.threads && g in c.threads && a != b && a != g && b != g
    requires Only(c, s1, a, TakeWaiting, b, TakeBlock(true)) && s1.count == 0
    ensures Only(c, s, a, Idle, b, TakeWaiting) && s.count == 1 && !s.wakeBit
  {
    s := WholeGive(c, s1, g);
    s := Go(c, s, a, Run);
    s := WholeGive(c, s, g);
    s := FirstTakerEatsTheBit(c, s, a, b);
  }

  /**
   Exactly when no run of any length can lose a wake-up: when the object is a mutex or holds one unit at most, or when
   at most one thread blocks on it, or when just two threads use it.
   */
  lemma NoLostWakeupIff(c: Config)
    requires c.Valid()
    ensures (forall s :: Reachable(c, s) ==> NoLostWakeup(c, s)) <==> !Hazard(c)
  {
    if Hazard(c) {
      var a, b, g :| a in c.blockers && b in c.blockers && g in c.threads && a != b && a != g && b != g;
      var s := LosesWakeup(c, a, b, g);
      assert Committed(s.pc[b]) && Available(c, s) && !SignalPending(c, s) && !AwakeTaker(c, s);
      assert !NoLostWakeup(c, s);
    } else {
      forall s | Reachable(c, s)
        ensures NoLostWakeup(c, s)
      {
        WithoutHazard(c, s);
      }
    }
  }

  // ---------------------------------------------------------------------------------------------------------------
  // Lock-free progress
  // ---------------------------------------------------------------------------------------------------------------

  /** The thread is on its way to a compare-and-swap with a stale `count`. */
  predicate Stale(s: State, t: Tid)
    requires t in s.pc
  {
    var p := s.pc[t];
    (p.TakeCas? || p.GiveCas? || (p.TakeOwner? && p.cur == 0)) && p.cur != s.count
  }

  /** Changes made by others, less the failures of `t` that they have paid for. */
  function Credit(c: Config, s: State, t: Tid): int
    requires s.Shape(c) && t in c.threads
  {
    s.ChangesByOthers(t) - s.failures[t] - if Stale(s, t) then 1 else 0
  }

  lemma CreditStep(c: Config, s: State, t: Tid, a: Action, u: Tid)
    requires s.Shape(c) && Enabled(c, s, t, a) && u in c.threads
    ensures Credit(c, Step(c, s, t, a), u) >= Credit(c, s, u)
  {
    WriteHistory(c, s, t, a, u);
    FailureHistory(c, s, t, a, u);
    if t == u {
      StaleStep(c, s, t, a);
    }
  }

  /** The step of `t` would write `count`. */
  predicate Writes(s: State, t: Tid)
    requires t in s.pc
  {
    s.pc[t].GiveStore? || ((s.pc[t].TakeCas? || s.pc[t].GiveCas?) && s.pc[t].cur == s.count)
  }

  /** The history variables record writes, each for the thread that makes it. */
  lemma WriteHistory(c: Config, s: State, t: Tid, a: Action, u: Tid)
    requires s.Shape(c) && Enabled(c, s, t, a) && u in c.threads
    ensures var s' := Step(c, s, t, a);
      && s'.changes == s.changes + (if Writes(s, t) then 1 else 0)
      && s'.changedBy[u] == s.changedBy[u] + (if Writes(s, t) && t == u then 1 else 0)
      && (!Writes(s, t) ==> s'.count == s.count)
  {
    if Quiet(s.pc[t]) {
      QuietStep(c, s, t, a);
    }
  }

  /** ... and failed compare-and-swaps, each for the thread that made it. */
  lemma FailureHistory(c: Config, s: State, t: Tid, a: Action, u: Tid)
    requires s.Shape(c) && Enabled(c, s, t, a) && u in c.threads
    ensures Step(c, s, t, a).failures[u] == s.failures[u]
      + if (s.pc[t].TakeCas? || s.pc[t].GiveCas?) && Stale(s, t) && t == u then 1 else 0
  {
  }

  /** A thread that does not fail does not become stale by its own step. */
  lemma StaleStep(c: Config, s: State, t: Tid, a: Action)
    requires s.Shape(c) && Enabled(c, s, t, a)
    ensures Stale(Step(c, s, t, a), t) ==> Stale(s, t) && s.pc[t].TakeOwner?
  {
    assert Step(c, s, t, a).pc[t] == NextPc(c, s, t, a);
  }

  /**
   Over any stretch of any run, a thread fails at most once more often than the other threads succeed in changing
   `count`: each failed compare-and-swap is paid for by somebody else's success, and retries stop when interference
   does.
   */
  lemma {:induction false} RetriesArePaidFor(c: Config, s: State, moves: seq<Move>, t: Tid)
    requires s.Shape(c) && t in c.threads && Exec(c, s, moves).Some?
    ensures var s' := Exec(c, s, moves).value;
      && Credit(c, s', t) >= Credit(c, s, t)
      && s'.failures[t] - s.failures[t] <= s'.ChangesByOthers(t) - s.ChangesByOthers(t) + 1
  {
    if moves == [] {
    } else {
      var before := moves[..|moves| - 1];
      var m := moves[|moves| - 1];
      RetriesArePaidFor(c, s, before, t);
      CreditStep(c, Exec(c, s, before).value, m.t, m.a, t);
    }
  }

  /** From the start of a run there is no debt at all. */
  lemma FailuresBounded(c: Config, moves: seq<Move>, t: Tid)
    requires t in c.threads && Exec(c, Init(c), moves).Some?
    ensures var s := Exec(c, Init(c), moves).value; s.failures[t] <= s.ChangesByOthers(t)
  {
    RetriesArePaidFor(c, Init(c), moves, t);
  }

  // ---------------------------------------------------------------------------------------------------------------
  // Undisturbed calls
  // ---------------------------------------------------------------------------------------------------------------

  /** What a call does to an object. */
  datatype Outcome = Outcome(ok: bool, count: nat, owner: Option<Tid>)

  /** A take as one indivisible operation; not `ok` means that it refuses or goes to wait. */
  function TakeSpec(kind: Kind, count: nat, owner: Option<Tid>, t: Tid): Outcome {
    match kind
    case Mutex =>
      if owner == Some(t) then Outcome(true, count, owner)
      else if count == 0 then Outcome(true, 1, Some(t))
      else Outcome(false, count, owner)
    case Counting => if count > 0 then Outcome(true, count - 1, owner) else Outcome(false, count, owner)
  }

  /** A give as one indivisible operation. */
  function GiveSpec(kind: Kind, maxCount: nat, count: nat, owner: Option<Tid>, t: Tid): Outcome {
    match kind
    case Mutex => if owner == Some(t) then Outcome(true, 0, None) else Outcome(false, count, owner)
    case Counting => if count < maxCount then Outcome(true, count + 1, owner) else Outcome(false, count, owner)
  }

  /** The call has returned, or waits: Run would start something new, or block. */
  predicate Done(p: Pc) {
    p.Idle? || p.TakeBlock?
  }

  /** The moves of `t` alone: the call, and `n` steps of it. */
  function SoloMoves(t: Tid, call: Action, n: nat): seq<Move> {
    if n == 0 then [Move(t, call)] else SoloMoves(t, call, n - 1) + [Move(t, Run)]
  }

  /** The state that these moves lead to from `s`. */
  ghost function SoloState(c: Config, s: State, t: Tid, call: Action, n: nat): (r: Option<State>)
    requires s.Shape(c)
    ensures r.Some? ==> r.value.Shape(c) && t in c.threads
  {
    if n == 0 then
      if Enabled(c, s, t, call) then Some(Step(c, s, t, call)) else None
    else
      match SoloState(c, s, t, call, n - 1)
      case None => None
      case Some(p) => if Enabled(c, p, t, Run) then Some(Step(c, p, t, Run)) else None
  }

  lemma {:induction false} SoloIsRun(c: Config, s: State, t: Tid, call: Action, n: nat) returns (moves: seq<Move>)
    requires s.Shape(c)
    ensures moves == SoloMoves(t, call, n) && Exec(c, s, moves) == SoloState(c, s, t, call, n)
  {
    if n == 0 {
      moves := [] + [Move(t, call)];
      ExecAppend(c, s, [], Move(t, call));
    } else {
      var before := SoloIsRun(c, s, t, call, n - 1);
      moves := before + [Move(t, Run)];
      ExecAppend(c, s, before, Move(t, Run));
    }
  }

  ghost predicate Underway(c: Config, s: State, t: Tid, call: Action, n: nat)
    requires s.Shape(c)
  {
    var r := SoloState(c, s, t, call, n);
    r.Some? && !Done(r.value.pc[t])
  }

  /** `t` alone gets from `s` to `s'` in the call and `n` steps, and was not done before. */
  ghost predicate Solo(c: Config, s: State, t: Tid, call: Action, n: nat, s': State)
    requires s.Shape(c)
  {
    && SoloState(c, s, t, call, n) == Some(s')
    && forall k :: 0 <= k < n ==> Underway(c, s, t, call, k)
  }

  /** `moves` is a run of `t` alone from `s`: the call, and then its steps as far as the first place where it is done. */
  ghost predicate Completes(c: Config, s: State, t: Tid, call: Action, moves: seq<Move>, s': State)
    requires s.Shape(c)
  {
    exists n: nat ::
      && moves == SoloMoves(t, call, n) && Exec(c, s, moves) == Some(s')
      && Solo(c, s, t, call, n, s') && Done(s'.pc[t])
  }

  lemma SoloStep(c: Config, s: State, t: Tid, call: Action, n: nat, s1: State) returns (s': State)
    requires s.Shape(c) && Solo(c, s, t, call, n, s1) && !Done(s1.pc[t]) && Enabled(c, s1, t, Run)
    ensures Solo(c, s, t, call, n + 1, s') && s' == Step(c, s1, t, Run)
  {
    s' := Step(c, s1, t, Run);
    assert Underway(c, s, t, call, n);
  }

  /** There is one such run only, since no other thread decides what `t` does. */
  lemma SoloUnique(c: Config, s: State, t: Tid, call: Action, n: nat, s1: State, m: nat, s2: State)
    requires s.Shape(c) && Solo(c, s, t, call, n, s1) && Solo(c, s, t, call, m, s2)
    requires s1.Shape(c) && s2.Shape(c) && t in c.threads && Done(s1.pc[t]) && Done(s2.pc[t])
    ensures s2 == s1
  {
    assert !Underway(c, s, t, call, m) && !Underway(c, s, t, call, n);
  }

  /** Thread `t` alone has moved, to `p`, and the object is as given. */
  ghost predicate Effected(c: Config, s: State, s': State, t: Tid, p: Pc, o: Outcome)
    requires s.Shape(c)
  {
    s'.Shape(c) && MovesTo(c, s, s', t, p) && s'.count == o.count && s'.owner == o.owner
  }

  /** What every completed run of a take by `t` alone amounts to. */
  ghost predicate TakesAtOnce(c: Config, s: State, t: Tid, wait: bool, s': State)
    requires s.Shape(c)
  {
    var o := TakeSpec(c.kind, s.count, s.owner, t);
    && Effected(c, s, s', t, if o.ok then Idle else TakeBlock(wait), o)
    && s'.answers == s.answers + if o.ok then [Answer(t, false, true)] else []
  }

  /** The run of a take that no other thread interrupts, to the point where it returns or goes to wait. */
  lemma TakeRun(c: Config, s: State, t: Tid, wait: bool) returns (n: nat, s': State)
    requires s.Shape(c) && t in c.threads && s.pc[t].Idle? && (wait ==> t in c.blockers)
    ensures Solo(c, s, t, CallTake(wait), n, s') && TakesAtOnce(c, s, t, wait, s')
  {
    var call := CallTake(wait);
    n, s' := 0, Step(c, s, t, call);
    s' := SoloStep(c, s, t, call, n, s');
    n := n + 1;
    if c.kind.Mutex? {
      n, s' := CompareAndTake(c, s, t, call, n, s');
    } else if s.count > 0 {
      s' := SoloStep(c, s, t, call, n, s');
      n := n + 1;
    }
  }

  /** The rest of a mutex take, from the comparison of the owner on. */
  lemma CompareAndTake(c: Config, s: State, t: Tid, call: Action, k: nat, s1: State) returns (n: nat, s': State)
    requires s.Shape(c) && call.CallTake? && Solo(c, s, t, call, k, s1)
    requires s1.Shape(c) && c.kind.Mutex? && MovesTo(c, s, s1, t, TakeOwner(call.wait, s.count))
    requires s1.count == s.count && s1.owner == s.owner && s1.answers == s.answers
    ensures Solo(c, s, t, call, n, s') && TakesAtOnce(c, s, t, call.wait, s')
  {
    s' := SoloStep(c, s, t, call, k, s1);
    n := k + 1;
    if s.owner != Some(t) && s.count == 0 {
      n, s' := WinMutex(c, s, t, call, n, s');
    }
  }

  /** The last steps of a mutex take that finds the mutex free. */
  lemma WinMutex(c: Config, s: State, t: Tid, call: Action, k: nat, s1: State) returns (n: nat, s': State)
    requires s.Shape(c) && call.CallTake? && Solo(c, s, t, call, k, s1) && s1.Shape(c)
    requires t in c.threads && c.kind.Mutex? && MovesTo(c, s, s1, t, TakeCas(call.wait, 0)) && s1.count == 0
    ensures Solo(c, s, t, call, n, s') && s'.Shape(c) && MovesTo(c, s, s', t, Idle)
    ensures s'.count == 1 && s'.owner == Some(t) && s'.answers == s1.answers + [Answer(t, false, true)]
  {
    s' := SoloStep(c, s, t, call, k, s1);
    s' := SoloStep(c, s, t, call, k + 1, s');
    n := k + 2;
  }

  /** Every take that no other thread interrupts completes, and has the effect of the indivisible operation. */
  lemma UndisturbedTake(c: Config, s: State, t: Tid, wait: bool)
    requires s.Shape(c) && t in c.threads && s.pc[t].Idle? && (wait ==> t in c.blockers)
    ensures exists moves, s' :: Completes(c, s, t, CallTake(wait), moves, s')
    ensures forall moves, s' :: Completes(c, s, t, CallTake(wait), moves, s') ==> TakesAtOnce(c, s, t, wait, s')
  {
    var n, s1 := TakeRun(c, s, t, wait);
    var run := SoloIsRun(c, s, t, CallTake(wait), n);
    assert Completes(c, s, t, CallTake(wait), run, s1);
    forall moves, s' | Completes(c, s, t, CallTake(wait), moves, s')
      ensures TakesAtOnce(c, s, t, wait, s')
    {
      var m: nat :| moves == SoloMoves(t, CallTake(wait), m) && Solo(c, s, t, CallTake(wait), m, s') && Done(s'.pc[t]);
      SoloUnique(c, s, t, CallTake(wait), n, s1, m, s');
    }
  }

  /** What every completed run of a give by `t` alone amounts to, its signal included. */
  ghost predicate GivesAtOnce(c: Config, s: State, t: Tid, s': State)
    requires s.Shape(c)
  {
    var o := GiveSpec(c.kind, c.maxCount, s.count, s.owner, t);
    && Effected(c, s, s', t, Idle, o) && s'.wakeBit == (s.wakeBit || o.ok)
    && s'.answers == s.answers + [Answer(t, true, o.ok)]
  }

  lemma GiveRun(c: Config, s: State, t: Tid) returns (n: nat, s': State)
    requires c.Valid() && s.Shape(c) && t in c.threads && s.pc[t].Idle?
    ensures Solo(c, s, t, CallGive, n, s') && Done(s'.pc[t]) && GivesAtOnce(c, s, t, s')
  {
    n, s' := 0, Step(c, s, t, CallGive);
    s' := SoloStep(c, s, t, CallGive, n, s');
    n := n + 1;
    if c.kind.Mutex? && s.owner == Some(t) {
      n, s' := Release(c, s, t, n, s');
    } else if c.kind.Counting? && s.count < c.maxCount {
      n, s' := AddUnit(c, s, t, n, s');
    }
  }

  /** The last step of a give that has updated the object. */
  lemma SignalAndReturn(c: Config, s: State, t: Tid, k: nat, s1: State) returns (n: nat, s': State)
    requires s.Shape(c) && Solo(c, s, t, CallGive, k, s1) && s1.Shape(c)
    requires t in c.threads && MovesTo(c, s, s1, t, GiveSignal)
    ensures Solo(c, s, t, CallGive, n, s') && s'.Shape(c) && Done(s'.pc[t])
    ensures MovesTo(c, s, s', t, Idle) && s'.count == s1.count && s'.owner == s1.owner
    ensures s'.wakeBit && s'.answers == s1.answers + [Answer(t, true, true)]
  {
    s' := SoloStep(c, s, t, CallGive, k, s1);
    n := k + 1;
  }

  /** The rest of a give below the maximum, from the compare-and-swap on. */
  lemma AddUnit(c: Config, s: State, t: Tid, k: nat, s1: State) returns (n: nat, s': State)
    requires c.Valid() && s.Shape(c) && Solo(c, s, t, CallGive, k, s1) && s1.Shape(c)
    requires t in c.threads && c.kind.Counting? && s.count < c.maxCount && MovesTo(c, s, s1, t, GiveCas(s.count))
    requires s1.count == s.count && s1.owner == s.owner && s1.answers == s.answers
    ensures Solo(c, s, t, CallGive, n, s') && Done(s'.pc[t]) && GivesAtOnce(c, s, t, s')
  {
    s' := SoloStep(c, s, t, CallGive, k, s1);
    n, s' := SignalAndReturn(c, s, t, k + 1, s');
  }

  /** The rest of a mutex give by the owner. */
  lemma Release(c: Config, s: State, t: Tid, k: nat, s1: State) returns (n: nat, s': State)
    requires s.Shape(c) && Solo(c, s, t, CallGive, k, s1) && s1.Shape(c)
    requires t in c.threads && c.kind.Mutex? && s.owner == Some(t) && MovesTo(c, s, s1, t, GiveClear)
    requires s1.answers == s.answers
    ensures Solo(c, s, t, CallGive, n, s') && Done(s'.pc[t]) && GivesAtOnce(c, s, t, s')
  {
    s' := SoloStep(c, s, t, CallGive, k, s1);
    s' := SoloStep(c, s, t, CallGive, k + 1, s');
    assert MovesTo(c, s, s', t, GiveSignal) && s'.count == 0 && s'.owner.None? && s'.answers == s.answers;
    n, s' := SignalAndReturn(c, s, t, k + 2, s');
  }

  /** Every give that no other thread interrupts completes, and has the effect of the indivisible operation. */
  lemma UndisturbedGive(c: Config, s: State, t: Tid)
    requires c.Valid() && s.Shape(c) && t in c.threads && s.pc[t].Idle?
    ensures exists moves, s' :: Completes(c, s, t, CallGive, moves, s')
    ensures forall moves, s' :: Completes(c, s, t, CallGive, moves, s') ==> GivesAtOnce(c, s, t, s')
  {
    var n, s1 := GiveRun(c, s, t);
    var run := SoloIsRun(c, s, t, CallGive, n);
    assert Completes(c, s, t, CallGive, run, s1);
    forall moves, s' | Completes(c, s, t, CallGive, moves, s')
      ensures GivesAtOnce(c, s, t, s')
    {
      var m: nat :| moves == SoloMoves(t, CallGive, m) && Solo(c, s, t, CallGive, m, s') && Done(s'.pc[t]);
      SoloUnique(c, s, t, CallGive, n, s1, m, s');
    }
  }
}
