/**
 Two threads in a synchronous rendezvous (ping_pong/src/ping_pong.c).

 `ulmk_ep_call` blocks the caller until its message has been received and replied to. Every loop body is taken apart
 into its calls; the timer sleeps are the states `SleepA`, `SleepB` of ping and `Sleep` of pong.
 */
module PingPong {
  import opened Prelude

  datatype Ping = SleepA | Calling | InCall | Printing | SleepB
  datatype Pong = Top | InRecv | Sleep | Replying

  /** `inbox` holds a call not yet received, `msg` the one pong works on. The last two fields are history. */
  datatype State = State(
    ping: Ping,
    pong: Pong,
    seqNo: nat,
    inbox: Option<nat>,
    msg: nat,
    replies: seq<nat>,
    printed: seq<nat>)

  const INIT := State(SleepA, Top, 0, None, 0, [], [])

  datatype Move = PingMove | PongMove

  /** Whether the thread can take a step: ping not inside its call, pong not inside a receive with nothing sent. */
  predicate Enabled(s: State, m: Move) {
    match m
    case PingMove => !s.ping.InCall?
    case PongMove => s.pong.InRecv? ==> s.inbox.Some?
  }

  function Step(s: State, m: Move): State
    requires Enabled(s, m)
  {
    match m
    case PingMove =>
      (match s.ping
       case SleepA => s.(ping := Calling)
       case Calling => s.(ping := InCall, inbox := Some(s.seqNo), seqNo := Inc32(s.seqNo))
       case InCall => s
       case Printing => s.(ping := SleepB, printed := s.printed + [s.seqNo])
       case SleepB => s.(ping := SleepA))
    case PongMove =>
      (match s.pong
       case Top => s.(pong := InRecv)
       case InRecv => s.(pong := Sleep, msg := s.inbox.value, inbox := None)
       case Sleep => s.(pong := Replying)
       case Replying => s.(pong := Top, ping := Printing, replies := s.replies + [s.msg]))
  }

  ghost function Exec(moves: seq<Move>): Option<State> {
    if moves == [] then Some(INIT)
    else
      match Exec(moves[..|moves| - 1])
      case None => None
      case Some(s) => if Enabled(s, moves[|moves| - 1]) then Some(Step(s, moves[|moves| - 1])) else None
  }

  lemma WrapInc(n: nat)
    ensures Inc32(Wrap(n)) == Wrap(n + 1)
  {
  }

  /** Where the two loops can be at the same time, and what the numbers are there. */
  ghost predicate Inv(s: State) {
    && (s.inbox.Some? ==> s.ping.InCall? && (s.pong.Top? || s.pong.InRecv?))
    && (s.pong.Sleep? || s.pong.Replying? ==> s.ping.InCall? && s.inbox.None? && s.msg == Wrap(|s.replies|))
    && (s.ping.InCall? && (s.pong.Top? || s.pong.InRecv?) ==> s.inbox == Some(Wrap(|s.replies|)))
    && s.seqNo == Wrap(|s.replies| + if s.ping.InCall? then 1 else 0)
    && |s.replies| == |s.printed| + (if s.ping.Printing? then 1 else 0)
    && (forall k :: 0 <= k < |s.replies| ==> s.replies[k] == Wrap(k))
    && (forall k :: 0 <= k < |s.printed| ==> s.printed[k] == Wrap(k + 1))
  }

  lemma InvStep(s: State, m: Move)
    requires Inv(s) && Enabled(s, m)
    ensures Inv(Step(s, m))
  {
    WrapInc(|s.replies|);
  }

  /**
   In every reachable state of the two loops at most one thread is inside a timer sleep, the replies so far carried
   0, 1, 2, ... and the rounds printed so far were 1, 2, 3, ... (both modulo 2^32), at most one reply has not been
   printed, and somebody can take a step.
   */
  lemma {:induction false} ExclusionAndProgress(moves: seq<Move>)
    requires Exec(moves).Some?
    ensures var s := Exec(moves).value;
      && Inv(s)
      && !((s.ping.SleepA? || s.ping.SleepB?) && s.pong.Sleep?)
      && (forall k :: 0 <= k < |s.replies| ==> s.replies[k] == Wrap(k))
      && (forall k :: 0 <= k < |s.printed| ==> s.printed[k] == Wrap(k + 1))
      && |s.printed| <= |s.replies| <= |s.printed| + 1
      && (Enabled(s, PingMove) || Enabled(s, PongMove))
  {
    if moves == [] {
    } else {
      ExclusionAndProgress(moves[..|moves| - 1]);
      InvStep(Exec(moves[..|moves| - 1]).value, moves[|moves| - 1]);
    }
  }

  /**
   The comment at the head of the file says that exactly one thread is runnable at any instant. That holds except
   between a reply (or the start) and pong's next receive, where both are unless ping has already called again.
   */
  lemma BothRunnableIff(moves: seq<Move>)
    requires Exec(moves).Some?
    ensures var s := Exec(moves).value;
      (Enabled(s, PingMove) && Enabled(s, PongMove)) <==> s.pong.Top? && !s.ping.InCall?
  {
    ExclusionAndProgress(moves);
  }
}
