/**
 The echo device server (silicon/silicon_device_manager/src/root_thread.c, lines 78 to 183): a byte register behind
 messages of six 32-bit words, written and read inline or through granted memory.

 ULMK_DEV_INLINE_BYTES comes from a header that is not part of this model; the message has room for five words of
 inline data.
 */
module EchoDevice {
  import opened Prelude

  const ECHO_BUF: nat := 64
  const MSG_WORDS: nat := 6
  const INLINE_BYTES: nat := 4 * (MSG_WORDS - 1)

  /** Words that an inline write of ECHO_BUF bytes reads behind the six of the message. */
  const BEHIND: nat := ECHO_BUF / 4 + 1 - MSG_WORDS

  type Byte = bv8
  type Word = bv32

  /** `(w >> (k * 8)) & 0xFF`, for a byte position `k` of a word. */
  function ByteOf(w: Word, k: nat): Byte
    requires k < 4
  {
    (if k == 0 then w & 0xFF
     else if k == 1 then (w >> 8) & 0xFF
     else if k == 2 then (w >> 16) & 0xFF
     else (w >> 24) & 0xFF) as Byte
  }

  /** `(uint32_t)b << (k * 8)`. */
  function Place(b: Byte, k: nat): Word
    requires k < 4
  {
    if k == 0 then b as Word
    else if k == 1 then (b as Word) << 8
    else if k == 2 then (b as Word) << 16
    else (b as Word) << 24
  }

  /** Data byte `i` of a message, or of the memory that starts with it. */
  function DataByte(words: seq<Word>, i: nat): Byte
    requires 1 + i / 4 < |words|
  {
    ByteOf(words[1 + i / 4], i % 4)
  }

  /** The message with byte `b` ORed into data position `i`: lines 147 to 151. */
  function PutByte(words: seq<Word>, i: nat, b: Byte): (r: seq<Word>)
    requires |words| == MSG_WORDS && i < INLINE_BYTES
    ensures |r| == MSG_WORDS
  {
    words[1 + i / 4 := words[1 + i / 4] | Place(b, i % 4)]
  }

  /** The unpacking loop of an inline write, lines 115 to 121. */
  function Unpack(words: seq<Word>, len: nat): (r: seq<Byte>)
    requires 1 <= |words| && len <= 4 * (|words| - 1)
    ensures |r| == len
  {
    seq(len, i requires 0 <= i < len => DataByte(words, i))
  }

  /** The packing loop of an inline read into words that start at zero, lines 146 to 152. */
  function Pack(first: Word, bytes: seq<Byte>): (r: seq<Word>)
    requires |bytes| <= INLINE_BYTES
    ensures |r| == MSG_WORDS
  {
    if bytes == [] then [first, 0, 0, 0, 0, 0]
    else PutByte(Pack(first, bytes[..|bytes| - 1]), |bytes| - 1, bytes[|bytes| - 1])
  }

  /** Byte `k` of a word has weight 256^k, on both paths. */
  lemma ByteWeights(w: Word, b: Byte)
    ensures w == (ByteOf(w, 0) as Word) + 0x100 * (ByteOf(w, 1) as Word)
      + 0x1_0000 * (ByteOf(w, 2) as Word) + 0x100_0000 * (ByteOf(w, 3) as Word)
    ensures Place(b, 0) == b as Word && Place(b, 1) == 0x100 * (b as Word)
    ensures Place(b, 2) == 0x1_0000 * (b as Word) && Place(b, 3) == 0x100_0000 * (b as Word)
  {
  }

  lemma OrOne(w: Word, b: Byte, k: nat)
    requires k < 4 && ByteOf(w, k) == 0
    ensures ByteOf(w | Place(b, k), k) == b
  {
  }

  lemma OrOther(w: Word, b: Byte, k: nat, m: nat)
    requires k < 4 && m < 4 && k != m
    ensures ByteOf(w | Place(b, k), m) == ByteOf(w, m)
  {
  }

  lemma OrByte(w: Word, b: Byte, k: nat, m: nat)
    requires k < 4 && m < 4 && ByteOf(w, k) == 0
    ensures ByteOf(w | Place(b, k), m) == if k == m then b else ByteOf(w, m)
  {
    if k == m {
      OrOne(w, b, k);
    } else {
      OrOther(w, b, k, m);
    }
  }

  lemma SamePosition(i: nat, j: nat)
    ensures i == j <==> i / 4 == j / 4 && i % 4 == j % 4
  {
  }

  /** ORing a byte into an empty position sets that byte and no other. */
  lemma PutByteAt(words: seq<Word>, i: nat, b: Byte, j: nat)
    requires |words| == MSG_WORDS && i < INLINE_BYTES && j < INLINE_BYTES && DataByte(words, i) == 0
    ensures DataByte(PutByte(words, i, b), j) == if i == j then b else DataByte(words, j)
  {
    var a, k, c, m := i / 4, i % 4, j / 4, j % 4;
    SamePosition(i, j);
    PutWordAt(words, a, k, b, c, m);
    assert PutByte(words, i, b) == words[1 + a := words[1 + a] | Place(b, k)];
  }

  lemma PutWordAt(words: seq<Word>, a: nat, k: nat, b: Byte, c: nat, m: nat)
    requires |words| == MSG_WORDS && 1 + a < MSG_WORDS && 1 + c < MSG_WORDS && k < 4 && m < 4
    requires ByteOf(words[1 + a], k) == 0
    ensures ByteOf(words[1 + a := words[1 + a] | Place(b, k)][1 + c], m)
         == if a == c && k == m then b else ByteOf(words[1 + c], m)
  {
    if a == c {
      OrByte(words[1 + a], b, k, m);
    }
  }

  lemma {:induction false} PackedBytes(first: Word, bytes: seq<Byte>, j: nat)
    requires |bytes| <= INLINE_BYTES && j < INLINE_BYTES
    ensures DataByte(Pack(first, bytes), j) == if j < |bytes| then bytes[j] else 0
  {
    if bytes == [] {
      assert Pack(first, bytes)[1 + j / 4] == 0;
    } else {
      var n := |bytes| - 1;
      PackedBytes(first, bytes[..n], j);
      PackedBytes(first, bytes[..n], n);
      PutByteAt(Pack(first, bytes[..n]), n, bytes[n], j);
    }
  }

  /** The codec round trip: what the read path packs, the write path unpacks to the same bytes. */
  lemma InlineRoundTrip(first: Word, bytes: seq<Byte>)
    requires |bytes| <= INLINE_BYTES
    ensures Unpack(Pack(first, bytes), |bytes|) == bytes
  {
    forall i | 0 <= i < |bytes|
      ensures Unpack(Pack(first, bytes), |bytes|)[i] == bytes[i]
    {
      PackedBytes(first, bytes, i);
    }
  }

  /** Data that fits the message is read from the message alone. */
  lemma UnpackPrefix(words: seq<Word>, behind: seq<Word>, len: nat)
    requires 1 <= |words| && len <= 4 * (|words| - 1)
    ensures Unpack(words + behind, len) == Unpack(words, len)
  {
    forall i | 0 <= i < len
      ensures Unpack(words + behind, len)[i] == Unpack(words, len)[i]
    {
      assert (words + behind)[1 + i / 4] == words[1 + i / 4];
    }
  }

  // ---------------------------------------------------------------------------------------------------------------
  // The register
  // ---------------------------------------------------------------------------------------------------------------

  /**
   A request. Granted memory is the bytes behind the pointer, None for a null pointer. The loop of an inline write trusts
   the length of the message; `behind` is what lies behind the message in the server's memory.
   */
  datatype Request =
    | Open
    | Close
    | WriteInline(words: seq<Word>, behind: seq<Word>)
    | WriteGrant(src: Option<seq<Byte>>, len: nat)
    | ReadInline(first: Word)
    | ReadGrant(dst: Option<seq<Byte>>, len: nat)
    | Info
    | Ping
    | Unsupported

  /** A reply: an error, an acknowledgement, or `count` bytes, in the reply words or in the granted memory. */
  datatype Reply =
    | Invalid
    | NotSupported
    | Done
    | Inline(count: nat, words: seq<Word>)
    | Granted(count: nat, dst: seq<Byte>)
    | Sizes(capacity: nat, len: nat)
    | Magic(code: nat)

  /** The low half of the first word is the length. */
  function LengthOf(w: Word): nat {
    (w & 0xFFFF) as nat
  }

  /** What clients may send: six words, with any length in the first, and memory as long as they say. */
  predicate WellFormed(r: Request) {
    match r
    case WriteInline(words, behind) => |words| == MSG_WORDS && |behind| == BEHIND
    case WriteGrant(src, len) => src.Some? && len <= ECHO_BUF ==> len <= |src.value|
    case ReadGrant(dst, len) => dst.Some? ==> len <= |dst.value|
    case _ => true
  }

  /** The abstract device: a register of at most ECHO_BUF bytes. A write that is refused leaves it alone. */
  function Written(reg: seq<Byte>, r: Request): seq<Byte>
    requires WellFormed(r)
  {
    match r
    case Open => []
    case Close => []
    case WriteInline(words, behind) => Unpack(words + behind, Min(LengthOf(words[0]), ECHO_BUF))
    case WriteGrant(src, len) => if src.None? || len == 0 || len > ECHO_BUF then reg else src.value[..len]
    case _ => reg
  }

  /** What a reply must say, given the register: reads return its first bytes. */
  ghost predicate Answers(reg: seq<Byte>, r: Request, reply: Reply)
    requires WellFormed(r)
  {
    match r
    case Open => reply == Done
    case Close => reply == Done
    case WriteInline(_, _) => reply == Done
    case WriteGrant(src, len) => reply == if src.None? || len == 0 || len > ECHO_BUF then Invalid else Done
    case ReadInline(first) =>
      && reply.Inline? && |reply.words| == MSG_WORDS
      && reply.count == Min(Min(LengthOf(first), |reg|), INLINE_BYTES)
      && Unpack(reply.words, reply.count) == reg[..reply.count]
    case ReadGrant(dst, len) =>
      if dst.None? || len == 0 then reply == Invalid
      else
        var n := Min(len, |reg|);
        reply == Granted(n, reg[..n] + dst.value[n..])
    case Info => reply == Sizes(ECHO_BUF, |reg|)
    case Ping => reply == Magic(0xA5A5)
    case Unsupported => reply == NotSupported
  }

  /** The loop of an inline write stays inside the six words of the message. */
  predicate StaysInside(words: seq<Word>)
    requires |words| == MSG_WORDS
  {
    forall i :: 0 <= i < Min(LengthOf(words[0]), ECHO_BUF) ==> 1 + i / 4 < |words|
  }

  /** What an inline write stores is decided by the message alone. */
  ghost predicate MessageDecides(words: seq<Word>)
    requires |words| == MSG_WORDS
  {
    forall a, b | |a| == BEHIND && |b| == BEHIND :: Written([], WriteInline(words, a)) == Written([], WriteInline(words, b))
  }

  /** An inline write stays inside its message, and stores what it carries, exactly when its length is at most 20. */
  lemma InlineWriteInsideIff(words: seq<Word>)
    requires |words| == MSG_WORDS
    ensures StaysInside(words) <==> LengthOf(words[0]) <= INLINE_BYTES
    ensures MessageDecides(words) <==> LengthOf(words[0]) <= INLINE_BYTES
  {
    var len := Min(LengthOf(words[0]), ECHO_BUF);
    if len <= INLINE_BYTES {
      forall a, b | |a| == BEHIND && |b| == BEHIND
        ensures Written([], WriteInline(words, a)) == Written([], WriteInline(words, b))
      {
        UnpackPrefix(words, a, len);
        UnpackPrefix(words, b, len);
      }
    } else {
      assert 1 + INLINE_BYTES / 4 == MSG_WORDS;
      var a, b := seq(BEHIND, _ => 0 as Word), seq(BEHIND, _ => 1 as Word);
      assert Written([], WriteInline(words, a))[INLINE_BYTES] == DataByte(words + a, INLINE_BYTES) == ByteOf(0, 0);
      assert Written([], WriteInline(words, b))[INLINE_BYTES] == DataByte(words + b, INLINE_BYTES) == ByteOf(1, 0);
    }
  }

  function Register(requests: seq<Request>): seq<Byte>
    requires forall i :: 0 <= i < |requests| ==> WellFormed(requests[i])
  {
    if requests == [] then []
    else Written(Register(requests[..|requests| - 1]), requests[|requests| - 1])
  }

  /** The request replaces or clears the register. */
  predicate Stores(r: Request) {
    r.Open? || r.Close? || r.WriteInline? || (r.WriteGrant? && r.src.Some? && 0 < r.len <= ECHO_BUF)
  }

  /** A well-formed write of `data`, in either mode. */
  ghost predicate Carries(w: Request, data: seq<Byte>) {
    match w
    case WriteGrant(src, len) => src == Some(data) && len == |data| && 0 < len <= ECHO_BUF
    case WriteInline(words, _) =>
      |data| <= INLINE_BYTES && exists first :: words == Pack(first, data) && LengthOf(words[0]) == |data|
    case _ => false
  }

  ghost predicate AllWellFormed(requests: seq<Request>) {
    forall i :: 0 <= i < |requests| ==> WellFormed(requests[i])
  }

  lemma {:induction false} RegisterHolds(before: seq<Request>, w: Request, after: seq<Request>, data: seq<Byte>)
    requires AllWellFormed(before) && WellFormed(w) && Carries(w, data)
    requires AllWellFormed(after) && forall i :: 0 <= i < |after| ==> !Stores(after[i])
    ensures Register(before + [w] + after) == data
    decreases |after|
  {
    var all := before + [w] + after;
    if after == [] {
      assert all[..|all| - 1] == before && all[|all| - 1] == w;
      if w.WriteInline? {
        var first :| w.words == Pack(first, data) && LengthOf(w.words[0]) == |data|;
        InlineRoundTrip(first, data);
        UnpackPrefix(w.words, w.behind, |data|);
      } else {
        assert data[..|data|] == data;
      }
    } else {
      var shorter := after[..|after| - 1];
      assert all[..|all| - 1] == before + [w] + shorter && all[|all| - 1] == after[|after| - 1];
      RegisterHolds(before, w, shorter, data);
    }
  }

  /**
   A register: after a run in which `data` was the last thing stored, by whatever mode, a read by whatever mode returns
   the first bytes of `data`, as many as were asked for, stored, and fit the mode.
   */
  lemma ReadReturnsLastWrite(before: seq<Request>, w: Request, after: seq<Request>, data: seq<Byte>, r: Request, reply: Reply)
    requires AllWellFormed(before) && WellFormed(w) && Carries(w, data)
    requires AllWellFormed(after) && forall i :: 0 <= i < |after| ==> !Stores(after[i])
    requires WellFormed(r) && Answers(Register(before + [w] + after), r, reply)
    ensures r.ReadInline? ==>
      var n := Min(Min(LengthOf(r.first), |data|), INLINE_BYTES);
      reply.Inline? && reply.count == n && |reply.words| == MSG_WORDS && Unpack(reply.words, n) == data[..n]
    ensures r.ReadGrant? && r.dst.Some? && r.len > 0 ==>
      var n := Min(r.len, |data|);
      reply.Granted? && reply.count == n && reply.dst == data[..n] + r.dst.value[n..]
  {
    RegisterHolds(before, w, after, data);
  }

  /** The device holds nothing: the last request that stored anything was an open or a close, or there was none. */
  ghost predicate Emptied(requests: seq<Request>) {
    || NoStores(requests, 0)
    || exists j :: 0 <= j < |requests| && (requests[j].Open? || requests[j].Close?) && NoStores(requests, j + 1)
  }

  ghost predicate NoStores(requests: seq<Request>, from: nat) {
    forall m :: from <= m < |requests| ==> !Stores(requests[m])
  }

  lemma {:induction false} EmptiedRegister(requests: seq<Request>)
    requires AllWellFormed(requests) && Emptied(requests)
    ensures Register(requests) == []
  {
    if requests == [] {
    } else {
      var before, last := requests[..|requests| - 1], requests[|requests| - 1];
      if !last.Open? && !last.Close? {
        if j :| 0 <= j < |requests| && (requests[j].Open? || requests[j].Close?) && NoStores(requests, j + 1) {
          assert before[j] == requests[j] && NoStores(before, j + 1);
        } else {
          assert NoStores(before, 0);
        }
        assert !Stores(requests[|requests| - 1]);
        EmptiedRegister(before);
      }
    }
  }

  /** A read that is not refused outright, and how many bytes its reply says there are. */
  predicate Reads(r: Request) {
    r.ReadInline? || (r.ReadGrant? && r.dst.Some? && r.len > 0)
  }

  function CountOf(reply: Reply): Option<nat> {
    match reply
    case Inline(count, _) => Some(count)
    case Granted(count, _) => Some(count)
    case _ => None
  }

  /** The reply to a read of `data`: its first bytes, as many as were asked for, stored, and fit the mode. */
  predicate Returns(r: Request, reply: Reply, data: seq<Byte>)
    requires WellFormed(r) && Reads(r)
  {
    match r
    case ReadInline(first) =>
      var n := Min(Min(LengthOf(first), |data|), INLINE_BYTES);
      reply.Inline? && reply.count == n && |reply.words| == MSG_WORDS && Unpack(reply.words, n) == data[..n]
    case ReadGrant(dst, len) =>
      var n := Min(len, |data|);
      reply.Granted? && reply.count == n && reply.dst == data[..n] + dst.value[n..]
    case _ => false
  }

  /** The last request that stored anything was a write of `data`. */
  ghost predicate Holding(requests: seq<Request>, data: seq<Byte>) {
    exists j :: 0 <= j < |requests| && Carries(requests[j], data) && NoStores(requests, j + 1)
  }

  /**
   The law of the device, on requests and replies: a read after an open or a close, or before anything is stored, gets
   nothing, whatever was written before; a read after a write gets the first bytes of what was written last.
   */
  ghost predicate DeviceLaw(requests: seq<Request>, replies: seq<Reply>)
    requires AllWellFormed(requests) && |replies| == |requests|
  {
    forall i :: 0 <= i < |requests| && Reads(requests[i]) ==> ReadLaw(requests[..i], requests[i], replies[i])
  }

  ghost predicate ReadLaw(before: seq<Request>, r: Request, reply: Reply)
    requires WellFormed(r) && Reads(r)
  {
    && (Emptied(before) ==> CountOf(reply) == Some(0))
    && forall data :: Holding(before, data) ==> Returns(r, reply, data)
  }

  lemma HeldByRegister(before: seq<Request>, data: seq<Byte>)
    requires AllWellFormed(before) && Holding(before, data)
    ensures Register(before) == data
  {
    var j :| 0 <= j < |before| && Carries(before[j], data) && NoStores(before, j + 1);
    var after := before[j + 1..];
    assert before == before[..j] + [before[j]] + after;
    assert forall m :: 0 <= m < |after| ==> after[m] == before[j + 1 + m];
    RegisterHolds(before[..j], before[j], after, data);
  }

  lemma ReadIsLawful(before: seq<Request>, r: Request, reply: Reply)
    requires AllWellFormed(before) && WellFormed(r) && Reads(r) && Answers(Register(before), r, reply)
    ensures ReadLaw(before, r, reply)
  {
    if Emptied(before) {
      EmptiedRegister(before);
    }
    forall data | Holding(before, data)
      ensures Returns(r, reply, data)
    {
      HeldByRegister(before, data);
    }
  }

  // ---------------------------------------------------------------------------------------------------------------
  // The server
  // ---------------------------------------------------------------------------------------------------------------

  class EchoServer {
    const buf: array<Byte>
    var len: nat

    ghost predicate Valid()
      reads this
    {
      buf.Length == ECHO_BUF && len <= ECHO_BUF
    }

    ghost function Contents(): seq<Byte>
      requires Valid()
      reads this, buf
    {
      buf[..len]
    }

    constructor ()
      ensures Valid() && Contents() == [] && fresh(buf)
    {
      buf := new Byte[ECHO_BUF](_ => 0);
      len := 0;
    }

    /** One turn of the server loop. */
    method Serve(r: Request) returns (reply: Reply)
      requires Valid() && WellFormed(r)
      modifies this, buf
      ensures Valid()
      ensures Contents() == Written(old(Contents()), r)
      ensures Answers(old(Contents()), r, reply)
    {
      match r {
        case Open =>
          len := 0;
          return Done;
        case Close =>
          len := 0;
          return Done;
        case WriteInline(words, behind) =>
          WriteWords(words, behind);
          return Done;
        case WriteGrant(src, n) =>
          if src.None? || n == 0 || n > ECHO_BUF {
            return Invalid;
          }
          CopyFrom(src.value, n);
          return Done;
        case ReadInline(first) =>
          reply := ReadWords(first);
        case ReadGrant(dst, n) =>
          if dst.None? || n == 0 {
            return Invalid;
          }
          reply := CopyTo(dst.value, n);
        case Info => return Sizes(ECHO_BUF, len);
        case Ping => return Magic(0xA5A5);
        case Unsupported => return NotSupported;
      }
    }

    /** A client's session with a new server. */
    method Session(requests: seq<Request>) returns (replies: seq<Reply>)
      requires Valid() && Contents() == [] && AllWellFormed(requests)
      modifies this, buf
      ensures Valid() && |replies| == |requests| && DeviceLaw(requests, replies)
    {
      replies := [];
      for i := 0 to |requests|
        invariant Valid() && |replies| == i
        invariant Contents() == Register(requests[..i])
        invariant forall j :: 0 <= j < i && Reads(requests[j]) ==> ReadLaw(requests[..j], requests[j], replies[j])
      {
        var reply := Serve(requests[i]);
        if Reads(requests[i]) {
          ReadIsLawful(requests[..i], requests[i], reply);
        }
        replies := replies + [reply];
        assert requests[..i + 1][..i] == requests[..i];
      }
    }

    /** The loop of lines 112 to 122. */
    method WriteWords(words: seq<Word>, behind: seq<Word>)
      requires Valid() && WellFormed(WriteInline(words, behind))
      modifies this, buf
      ensures Valid() && Contents() == Unpack(words + behind, Min(LengthOf(words[0]), ECHO_BUF))
    {
      var memory := words + behind;
      var n := LengthOf(words[0]);
      if n > ECHO_BUF {
        n := ECHO_BUF;
      }
      for i := 0 to n
        invariant forall j :: 0 <= j < i ==> buf[j] == DataByte(memory, j)
      {
        buf[i] := ByteOf(memory[1 + i / 4], i % 4);
      }
      len := n;
    }

    method CopyFrom(src: seq<Byte>, n: nat)
      requires Valid() && n <= ECHO_BUF && n <= |src|
      modifies this, buf
      ensures Valid() && Contents() == src[..n]
    {
      for i := 0 to n
        invariant forall j :: 0 <= j < i ==> buf[j] == src[j]
      {
        buf[i] := src[i];
      }
      len := n;
    }

    method ReadWords(first: Word) returns (reply: Reply)
      requires Valid()
      ensures Answers(Contents(), ReadInline(first), reply)
    {
      var n := LengthOf(first);
      if n > len {
        n := len;
      }
      if n > INLINE_BYTES {
        n := INLINE_BYTES;
      }
      var words := PackWords(n);
      ghost var bytes := buf[..n];
      assert Contents()[..n] == bytes;
      assert Unpack(words, n) == bytes by {
        InlineRoundTrip(0, bytes);
      }
      reply := Inline(n, words);
    }

    /** The loop of lines 146 to 152. */
    method PackWords(n: nat) returns (words: seq<Word>)
      requires Valid() && n <= len && n <= INLINE_BYTES
      ensures words == Pack(0, buf[..n])
    {
      words := [0, 0, 0, 0, 0, 0];
      for i := 0 to n
        invariant words == Pack(0, buf[..i])
      {
        words := words[1 + i / 4 := words[1 + i / 4] | Place(buf[i], i % 4)];
        assert buf[..i + 1][..i] == buf[..i];
      }
    }

    method CopyTo(dst: seq<Byte>, asked: nat) returns (reply: Reply)
      requires Valid() && asked <= |dst|
      ensures reply == Granted(Min(asked, len), Contents()[..Min(asked, len)] + dst[Min(asked, len)..])
    {
      var n := asked;
      if n > len {
        n := len;
      }
      var out := new Byte[|dst|](k requires 0 <= k < |dst| => dst[k]);
      for i := 0 to n
        invariant forall j :: 0 <= j < |dst| ==> out[j] == if j < i then buf[j] else dst[j]
      {
        out[i] := buf[i];
      }
      assert out[..] == buf[..n] + dst[n..];
      return Granted(n, out[..]);
    }
  }
}
