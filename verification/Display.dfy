/**
 Display damage tracking: the dirty lists of lvgl_benchmark/src/port_disp.c and the present message of
 ulmk_device_classes/include/ulmk_device_display.h.

 A frame is flushed as a list of areas. The port keeps at most 32 areas of the current and of the previous frame, and
 on the last flush of a frame presents both lists, or the full frame when they do not fit the inline message.
 */
module Display {
  import opened Prelude

  const MAX_DIRTY: nat := 32

  /** An inclusive screen area, with 32-bit coordinates. */
  datatype Area = Area(x1: int, y1: int, x2: int, y2: int)

  /** The wire rectangle, four 16-bit signed words. */
  datatype Rect = Rect(x: int, y: int, w: int, h: int)

  /** A C cast to int16_t. */
  function Int16(v: int): (r: int)
    ensures -0x8000 <= r < 0x8000
    ensures -0x8000 <= v < 0x8000 ==> r == v
  {
    (v + 0x8000) % 0x1_0000 - 0x8000
  }

  function ToRect(a: Area): Rect {
    Rect(Int16(a.x1), Int16(a.y1), Int16(a.x2 - a.x1 + 1), Int16(a.y2 - a.y1 + 1))
  }

  predicate InArea(a: Area, x: int, y: int) {
    a.x1 <= x <= a.x2 && a.y1 <= y <= a.y2
  }

  predicate InRect(r: Rect, x: int, y: int) {
    r.x <= x < r.x + r.w && r.y <= y < r.y + r.h
  }

  /** A non-empty area of a screen whose sides fit a signed 16-bit word. */
  predicate OnScreen(a: Area) {
    0 <= a.x1 <= a.x2 < 0x7FFF && 0 <= a.y1 <= a.y2 < 0x7FFF
  }

  /** The casts to 16 bits keep every pixel. */
  lemma ToRectExact(a: Area, x: int, y: int)
    requires OnScreen(a)
    ensures InRect(ToRect(a), x, y) <==> InArea(a, x, y)
  {
  }

  function Cap(areas: seq<Area>): (r: seq<Area>)
    ensures |r| <= MAX_DIRTY
  {
    if |areas| <= MAX_DIRTY then areas else areas[..MAX_DIRTY]
  }

  function ToRects(areas: seq<Area>): (r: seq<Rect>)
    ensures |r| == |areas|
  {
    seq(|areas|, i requires 0 <= i < |areas| => ToRect(areas[i]))
  }

  /** The two bounded lists of the port. */
  datatype Lists = Lists(cur: seq<Area>, prev: seq<Area>)

  /** Size of a present message with `n` rectangles: an 8-byte header and 8 bytes each. */
  function MessageSize(n: nat): nat {
    8 + n * 8
  }

  /** `ulmk_disp_write_present`: the rectangles that go out; none means the full frame. */
  function Present(inlineBytes: nat, rects: seq<Rect>): seq<Rect> {
    if MessageSize(|rects|) <= inlineBytes then rects else []
  }

  /** A flush of one area, the last of its frame or not; or `port_disp_init` / `port_disp_blank`. */
  datatype Event = Flush(area: Area, isLast: bool) | Reset

  /** A list with one more area, or the same list when it is full. */
  function Recorded(cur: seq<Area>, area: Area): seq<Area> {
    if |cur| < MAX_DIRTY then cur + [area] else cur
  }

  /** Lines 59 to 90: the lists after an event. */
  function NextLists(l: Lists, e: Event): Lists {
    match e
    case Reset => Lists([], [])
    case Flush(area, isLast) =>
      if isLast then Lists([], Recorded(l.cur, area)) else Lists(Recorded(l.cur, area), l.prev)
  }

  /** What the last flush of a frame presents. */
  function Presented(inlineBytes: nat, l: Lists, area: Area): seq<Rect> {
    Present(inlineBytes, ToRects(Recorded(l.cur, area)) + ToRects(l.prev))
  }

  function RunLists(events: seq<Event>): Lists {
    if events == [] then Lists([], []) else NextLists(RunLists(events[..|events| - 1]), events[|events| - 1])
  }

  /** History, without bounds: the areas flushed in the current frame, and in the frame before it, since the reset. */
  function Frame(events: seq<Event>): seq<Area> {
    if events == [] then []
    else
      match events[|events| - 1]
      case Reset => []
      case Flush(area, isLast) => if isLast then [] else Frame(events[..|events| - 1]) + [area]
  }

  function LastFrame(events: seq<Event>): seq<Area> {
    if events == [] then []
    else
      match events[|events| - 1]
      case Reset => []
      case Flush(area, isLast) =>
        var before := events[..|events| - 1];
        if isLast then Frame(before) + [area] else LastFrame(before)
  }

  /** The bounded lists are the first 32 areas of the true history, in every run. */
  lemma {:induction false} ListsAreCapped(events: seq<Event>)
    ensures RunLists(events) == Lists(Cap(Frame(events)), Cap(LastFrame(events)))
  {
    if events == [] {
    } else {
      ListsAreCapped(events[..|events| - 1]);
    }
  }

  ghost predicate AllOnScreen(events: seq<Event>) {
    forall i :: 0 <= i < |events| ==> (events[i].Flush? ==> OnScreen(events[i].area))
  }

  ghost predicate AreasOnScreen(areas: seq<Area>) {
    forall i :: 0 <= i < |areas| ==> OnScreen(areas[i])
  }

  lemma {:induction false} HistoryOnScreen(events: seq<Event>)
    requires AllOnScreen(events)
    ensures AreasOnScreen(Frame(events)) && AreasOnScreen(LastFrame(events))
  {
    if events == [] {
    } else {
      HistoryOnScreen(events[..|events| - 1]);
    }
  }

  /** The message asks for the full frame, or its rectangles contain every pixel of every area. */
  ghost predicate Covers(rects: seq<Rect>, areas: seq<Area>) {
    rects == [] || forall i, x, y :: 0 <= i < |areas| && InArea(areas[i], x, y) ==> Hit(rects, x, y)
  }

  ghost predicate Hit(rects: seq<Rect>, x: int, y: int) {
    exists r :: r in rects && InRect(r, x, y)
  }

  /** What is not cut off is covered. */
  lemma ListedIsCovered(areas: seq<Area>, rects: seq<Rect>)
    requires AreasOnScreen(areas) && forall i :: 0 <= i < |areas| ==> ToRect(areas[i]) in rects
    ensures Covers(rects, areas)
  {
    forall i, x, y | 0 <= i < |areas| && InArea(areas[i], x, y)
      ensures Hit(rects, x, y)
    {
      ToRectExact(areas[i], x, y);
      assert ToRect(areas[i]) in rects;
    }
  }

  /** A flush that ends a frame after the events so far: what it presents, and the damage it must repair. */
  ghost predicate GoodPresent(inlineBytes: nat, events: seq<Event>, area: Area) {
    Covers(Presented(inlineBytes, RunLists(events), area), Frame(events) + [area] + LastFrame(events))
  }

  lemma SmallMessageCovers(inlineBytes: nat, events: seq<Event>, area: Area)
    requires inlineBytes < MessageSize(MAX_DIRTY)
    requires AllOnScreen(events) && OnScreen(area)
    ensures GoodPresent(inlineBytes, events, area)
  {
    ListsAreCapped(events);
    HistoryOnScreen(events);
    var frame := Frame(events) + [area];
    var last := LastFrame(events);
    var rects := ToRects(Cap(frame)) + ToRects(Cap(last));
    assert Presented(inlineBytes, RunLists(events), area) == Present(inlineBytes, rects);
    if MessageSize(|rects|) <= inlineBytes {
      assert Cap(frame) == frame && Cap(last) == last;
      var areas := frame + last;
      forall i | 0 <= i < |areas|
        ensures ToRect(areas[i]) in rects
      {
        assert rects[i] == ToRect(areas[i]);
      }
      ListedIsCovered(areas, rects);
    }
  }

  /** 33 areas in one frame, the last of them alone at pixel (1, 1). */
  lemma BigMessageMisses(inlineBytes: nat) returns (events: seq<Event>, area: Area)
    requires inlineBytes >= MessageSize(MAX_DIRTY)
    ensures AllOnScreen(events) && OnScreen(area) && !GoodPresent(inlineBytes, events, area)
  {
    var origin := Area(0, 0, 0, 0);
    area := Area(1, 1, 1, 1);
    events := seq(MAX_DIRTY, _ => Flush(origin, false));
    ManyOrigins(MAX_DIRTY);
    ListsAreCapped(events);
    var rects := Presented(inlineBytes, RunLists(events), area);
    assert rects == ToRects(Frame(events)) + ToRects([]);
    assert |rects| == MAX_DIRTY;
    var areas := Frame(events) + [area] + LastFrame(events);
    assert areas[MAX_DIRTY] == area && InArea(area, 1, 1);
    assert !Hit(rects, 1, 1);
  }

  lemma {:induction false} ManyOrigins(n: nat)
    ensures var events := seq(n, _ => Flush(Area(0, 0, 0, 0), false));
      Frame(events) == seq(n, _ => Area(0, 0, 0, 0)) && LastFrame(events) == []
  {
    if n == 0 {
    } else {
      ManyOrigins(n - 1);
      var events := seq(n, _ => Flush(Area(0, 0, 0, 0), false));
      assert events[..n - 1] == seq(n - 1, _ => Flush(Area(0, 0, 0, 0), false));
    }
  }

  /**
   Damage coverage over whole runs: every present, in every run of flushes, inits and blanks, repairs this frame and
   the previous one exactly when the inline message is too small for 32 rectangles. The bound of the lists is safe only
   through the full-frame fallback of the other file.
   */
  lemma DamageCoverageIff(inlineBytes: nat)
    ensures (forall events, area :: AllOnScreen(events) && OnScreen(area) ==> GoodPresent(inlineBytes, events, area))
       <==> inlineBytes < MessageSize(MAX_DIRTY)
  {
    if inlineBytes < MessageSize(MAX_DIRTY) {
      forall events, area | AllOnScreen(events) && OnScreen(area)
        ensures GoodPresent(inlineBytes, events, area)
      {
        SmallMessageCovers(inlineBytes, events, area);
      }
    } else {
      var events, area := BigMessageMisses(inlineBytes);
    }
  }

  ghost predicate InSome(areas: seq<Area>, x: int, y: int) {
    exists i :: 0 <= i < |areas| && InArea(areas[i], x, y)
  }

  /**
   Nothing but the damage is presented: a present asks for the full frame exactly when the areas kept do not fit the
   message, its rectangles hit only pixels of this frame's and the last frame's areas, and when neither frame has more
   than 32 areas there is one rectangle for each, in order, with just its pixels.
   */
  lemma PresentIsTight(inlineBytes: nat, events: seq<Event>, area: Area)
    requires AllOnScreen(events) && OnScreen(area)
    ensures var rects := Presented(inlineBytes, RunLists(events), area);
      var frame := Frame(events) + [area];
      var last := LastFrame(events);
      var kept := Min(|frame|, MAX_DIRTY) + Min(|last|, MAX_DIRTY);
      && (rects == [] <==> MessageSize(kept) > inlineBytes)
      && (forall x, y :: Hit(rects, x, y) ==> InSome(frame + last, x, y))
      && (rects != [] && |frame| <= MAX_DIRTY && |last| <= MAX_DIRTY ==>
            && |rects| == |frame + last|
            && forall i, x, y :: 0 <= i < |rects| ==> (InRect(rects[i], x, y) <==> InArea((frame + last)[i], x, y)))
  {
    ListsAreCapped(events);
    HistoryOnScreen(events);
    var frame, last := Frame(events) + [area], LastFrame(events);
    assert Presented(inlineBytes, RunLists(events), area) == Present(inlineBytes, Kept(frame, last));
    KeptHits(frame, last);
    if |frame| <= MAX_DIRTY && |last| <= MAX_DIRTY {
      KeptAll(frame, last);
    }
  }

  /** The rectangles of the areas that the two lists keep. */
  function Kept(frame: seq<Area>, last: seq<Area>): seq<Rect> {
    ToRects(Cap(frame)) + ToRects(Cap(last))
  }

  lemma KeptHits(frame: seq<Area>, last: seq<Area>)
    requires AreasOnScreen(frame) && AreasOnScreen(last)
    ensures forall x, y :: Hit(Kept(frame, last), x, y) ==> InSome(frame + last, x, y)
  {
    var rects := Kept(frame, last);
    forall x, y | Hit(rects, x, y)
      ensures InSome(frame + last, x, y)
    {
      var r :| r in rects && InRect(r, x, y);
      var i :| 0 <= i < |rects| && rects[i] == r;
      var k := KeptAt(frame, last, i);
      ToRectExact((frame + last)[k], x, y);
    }
  }

  /** Each rectangle is that of some area. */
  lemma KeptAt(frame: seq<Area>, last: seq<Area>, i: nat) returns (k: nat)
    requires i < |Kept(frame, last)|
    ensures k < |frame + last| && Kept(frame, last)[i] == ToRect((frame + last)[k])
  {
    k := if i < |Cap(frame)| then i else |frame| + i - |Cap(frame)|;
  }

  lemma KeptAll(frame: seq<Area>, last: seq<Area>)
    requires AreasOnScreen(frame) && AreasOnScreen(last) && |frame| <= MAX_DIRTY && |last| <= MAX_DIRTY
    ensures |Kept(frame, last)| == |frame + last|
    ensures forall i, x, y :: 0 <= i < |frame + last| ==>
      (InRect(Kept(frame, last)[i], x, y) <==> InArea((frame + last)[i], x, y))
  {
    forall i, x, y | 0 <= i < |frame + last|
      ensures InRect(Kept(frame, last)[i], x, y) <==> InArea((frame + last)[i], x, y)
    {
      ToRectExact((frame + last)[i], x, y);
    }
  }

  // ---------------------------------------------------------------------------------------------------------------
  // The message
  // ---------------------------------------------------------------------------------------------------------------

  /** Little-endian bytes of a 32-bit word and of a signed 16-bit word. */
  function Le32(v: nat): seq<byte>
    requires v < WORD
  {
    var v1 := v / 0x100;
    var v2 := v1 / 0x100;
    [v % 0x100, v1 % 0x100, v2 % 0x100, v2 / 0x100]
  }

  function FromLe32(b: seq<byte>): nat
    requires |b| == 4
  {
    (b[0] as nat) + 0x100 * (b[1] as nat) + 0x1_0000 * (b[2] as nat) + 0x100_0000 * (b[3] as nat)
  }

  function Le16(v: int): (b: seq<byte>)
    requires -0x8000 <= v < 0x8000
    ensures |b| == 2
  {
    var u := if v < 0 then v + 0x1_0000 else v;
    [u % 0x100, u / 0x100]
  }

  function FromLe16(b: seq<byte>): int
    requires |b| == 2
  {
    Int16((b[0] as nat) + 0x100 * (b[1] as nat))
  }

  predicate Wire(r: Rect) {
    -0x8000 <= r.x < 0x8000 && -0x8000 <= r.y < 0x8000 && -0x8000 <= r.w < 0x8000 && -0x8000 <= r.h < 0x8000
  }

  predicate AllWire(rects: seq<Rect>) {
    forall i :: 0 <= i < |rects| ==> Wire(rects[i])
  }

  /** Four signed 16-bit words. */
  function OneRect(r: Rect): (b: seq<byte>)
    requires Wire(r)
    ensures |b| == 8
    ensures b[..2] == Le16(r.x) && b[2..4] == Le16(r.y) && b[4..6] == Le16(r.w) && b[6..8] == Le16(r.h)
  {
    Le16(r.x) + Le16(r.y) + Le16(r.w) + Le16(r.h)
  }

  function RectBytes(rects: seq<Rect>): (b: seq<byte>)
    requires AllWire(rects)
    ensures |b| == 8 * |rects|
  {
    if rects == [] then [] else OneRect(rects[0]) + RectBytes(rects[1..])
  }

  /** The payload: frame buffer pointer, number of rectangles, rectangles. */
  function Encode(fb: nat, rects: seq<Rect>): (b: seq<byte>)
    requires fb < WORD && |rects| < WORD && AllWire(rects)
    ensures |b| == MessageSize(|rects|)
  {
    Le32(fb) + Le32(|rects|) + RectBytes(rects)
  }

  function RectsFrom(b: seq<byte>, n: nat): seq<Rect>
    requires |b| == 8 * n
  {
    if n == 0 then []
    else [Rect(FromLe16(b[..2]), FromLe16(b[2..4]), FromLe16(b[4..6]), FromLe16(b[6..8]))] + RectsFrom(b[8..], n - 1)
  }

  /** How the board adapter reads a payload: None if it is malformed. */
  function Decode(b: seq<byte>): Option<(nat, seq<Rect>)> {
    if |b| < 8 then None
    else
      var n := FromLe32(b[4..8]);
      if |b| != MessageSize(n) then None else Some((FromLe32(b[..4]), RectsFrom(b[8..], n)))
  }

  lemma Le32RoundTrip(v: nat)
    requires v < WORD
    ensures FromLe32(Le32(v)) == v
  {
  }

  lemma Le16RoundTrip(v: int)
    requires -0x8000 <= v < 0x8000
    ensures FromLe16(Le16(v)) == v
  {
  }

  lemma {:induction false} RectsRoundTrip(rects: seq<Rect>)
    requires AllWire(rects)
    ensures RectsFrom(RectBytes(rects), |rects|) == rects
  {
    if rects == [] {
    } else {
      var r := rects[0];
      var b := RectBytes(rects);
      assert Wire(r);
      assert b[..8] == OneRect(r) && b[8..] == RectBytes(rects[1..]);
      assert b[..2] == b[..8][..2] && b[2..4] == b[..8][2..4] && b[4..6] == b[..8][4..6] && b[6..8] == b[..8][6..8];
      Le16RoundTrip(r.x);
      Le16RoundTrip(r.y);
      Le16RoundTrip(r.w);
      Le16RoundTrip(r.h);
      RectsRoundTrip(rects[1..]);
    }
  }

  /** The weights of the bytes of a word, and of a half word in two's complement. */
  lemma ByteWeights(v: nat, h: int)
    requires v < WORD && -0x8000 <= h < 0x8000
    ensures var b := Le32(v);
      v == (b[0] as nat) + 0x100 * (b[1] as nat) + 0x1_0000 * (b[2] as nat) + 0x100_0000 * (b[3] as nat)
    ensures (Le16(h)[0] as nat) + 0x100 * (Le16(h)[1] as nat) == if h < 0 then h + 0x1_0000 else h
  {
  }

  /** Where things are in a payload: pointer and count, ... */
  lemma HeaderLayout(fb: nat, rects: seq<Rect>)
    requires fb < WORD && |rects| < WORD && AllWire(rects)
    ensures Encode(fb, rects)[..4] == Le32(fb) && Encode(fb, rects)[4..8] == Le32(|rects|)
    ensures Encode(fb, rects)[8..] == RectBytes(rects)
  {
  }

  /** ... and then x, y, w and h of each rectangle. */
  lemma RectLayout(rects: seq<Rect>, i: nat)
    requires AllWire(rects) && i < |rects|
    ensures var b := RectBytes(rects)[8 * i..8 * i + 8];
      b[..2] == Le16(rects[i].x) && b[2..4] == Le16(rects[i].y) && b[4..6] == Le16(rects[i].w) && b[6..8] == Le16(rects[i].h)
  {
    RectAt(rects, i);
  }

  lemma {:induction false} RectAt(rects: seq<Rect>, i: nat)
    requires AllWire(rects) && i < |rects|
    ensures Wire(rects[i]) && RectBytes(rects)[8 * i..8 * i + 8] == OneRect(rects[i])
  {
    var b := RectBytes(rects);
    if i == 0 {
      assert b[..8] == OneRect(rects[0]);
    } else {
      RectAt(rects[1..], i - 1);
      assert b[8..][8 * (i - 1)..8 * i] == b[8 * i..8 * i + 8];
    }
  }

  /** The adapter reads back exactly the frame buffer and the rectangles that were presented. */
  lemma PresentRoundTrip(fb: nat, rects: seq<Rect>)
    requires fb < WORD && |rects| < WORD && AllWire(rects)
    ensures Decode(Encode(fb, rects)) == Some((fb, rects))
  {
    var b := Encode(fb, rects);
    assert b[..4] == Le32(fb) && b[4..8] == Le32(|rects|) && b[8..] == RectBytes(rects);
    Le32RoundTrip(fb);
    Le32RoundTrip(|rects|);
    RectsRoundTrip(rects);
  }

  /** `ulmk_disp_write_present`: the bytes handed to `ulmk_write`, or None for a null frame buffer. */
  method WritePresent(inlineBytes: nat, fb: nat, rects: seq<Rect>) returns (payload: Option<seq<byte>>)
    requires fb < WORD && AllWire(rects) && MessageSize(|rects|) < WORD
    ensures payload == if fb == 0 then None else Some(Encode(fb, Present(inlineBytes, rects)))
  {
    if fb == 0 {
      return None;
    }
    var src := RectBytes(rects);
    var rectBytes := |rects| * 8;
    var need := 8 + rectBytes;
    if need <= inlineBytes {
      var stack := new byte[inlineBytes](_ => 0);
      var header := Le32(fb) + Le32(|rects|);
      forall k | 0 <= k < 8 {
        stack[k] := header[k];
      }
      for i := 0 to rectBytes
        invariant stack[..8] == header
        invariant stack[8..8 + i] == src[..i]
      {
        stack[8 + i] := src[i];
        assert stack[8..8 + i + 1] == stack[8..8 + i] + [src[i]];
      }
      assert src[..rectBytes] == src;
      assert stack[..need] == header + src;
      return Some(stack[..need]);
    }
    assert Encode(fb, []) == Le32(fb) + Le32(0);
    return Some(Le32(fb) + Le32(0));
  }

  // ---------------------------------------------------------------------------------------------------------------
  // The port
  // ---------------------------------------------------------------------------------------------------------------

  /** The statics of port_disp.c that track damage. */
  class DisplayPort {
    const inlineBytes: nat
    const curDirty: array<Area>
    const prevDirty: array<Area>
    const presentRects: array<Rect>
    var curN: nat
    var prevN: nat

    ghost predicate Valid()
      reads this
    {
      && curDirty.Length == prevDirty.Length == MAX_DIRTY && presentRects.Length == 2 * MAX_DIRTY
      && curDirty != prevDirty
      && curN <= MAX_DIRTY && prevN <= MAX_DIRTY
    }

    ghost function State(): Lists
      requires Valid()
      reads this, curDirty, prevDirty
    {
      Lists(curDirty[..curN], prevDirty[..prevN])
    }

    constructor (inlineBytes: nat)
      ensures Valid() && State() == Lists([], []) && this.inlineBytes == inlineBytes
      ensures fresh(curDirty) && fresh(prevDirty) && fresh(presentRects)
    {
      this.inlineBytes := inlineBytes;
      curDirty := new Area[MAX_DIRTY](_ => Area(0, 0, 0, 0));
      prevDirty := new Area[MAX_DIRTY](_ => Area(0, 0, 0, 0));
      presentRects := new Rect[2 * MAX_DIRTY](_ => Rect(0, 0, 0, 0));
      curN, prevN := 0, 0;
    }

    /** One of the two loops of lines 68 to 81: rectangles for the first `count` areas of `dirty`, from entry `n0` on. */
    method AppendRects(dirty: array<Area>, count: nat, n0: nat) returns (n: nat)
      requires count <= dirty.Length && n0 + count <= presentRects.Length
      modifies presentRects
      ensures n == n0 + count
      ensures presentRects[..n] == old(presentRects[..n0]) + ToRects(dirty[..count])
    {
      n := n0;
      var i := 0;
      while i < count && n < presentRects.Length
        invariant i <= count && n == n0 + i
        invariant presentRects[..n] == old(presentRects[..n0]) + ToRects(dirty[..i])
      {
        presentRects[n] := ToRect(dirty[i]);
        assert dirty[..i + 1] == dirty[..i] + [dirty[i]];
        assert ToRects(dirty[..i + 1]) == ToRects(dirty[..i]) + [ToRect(dirty[i])];
        n, i := n + 1, i + 1;
      }
    }

    /** Lines 59 and 60: keep the area if there is room. */
    method Record(area: Area)
      requires Valid()
      modifies `curN, curDirty
      ensures Valid()
      ensures curDirty[..curN] == Recorded(old(curDirty[..curN]), area)
    {
      if curN < MAX_DIRTY {
        curDirty[curN] := area;
        curN := curN + 1;
      }
    }

    /** Lines 87 to 90: the current list becomes the previous one. */
    method ShiftLists()
      requires Valid()
      modifies `curN, `prevN, prevDirty
      ensures Valid()
      ensures State() == Lists([], old(curDirty[..curN]))
    {
      prevN := curN;
      for i := 0 to prevN
        invariant prevN == curN == old(curN)
        invariant curDirty[..curN] == old(curDirty[..curN])
        invariant prevDirty[..i] == curDirty[..i]
      {
        prevDirty[i] := curDirty[i];
      }
      curN := 0;
    }

    /** `flush_cb`: the payload presented on the last flush of a frame, if any. */
    method FlushCb(area: Area, isLast: bool, fb: nat) returns (payload: Option<seq<byte>>)
      requires Valid() && 0 < fb < WORD
      modifies this, curDirty, prevDirty, presentRects
      ensures Valid()
      ensures State() == NextLists(old(State()), Flush(area, isLast))
      ensures payload.Some? <==> isLast
      ensures isLast ==> Decode(payload.value) == Some((fb, Presented(inlineBytes, old(State()), area)))
    {
      ghost var before := State();
      Record(area);
      if !isLast {
        return None;
      }
      var n := AppendRects(curDirty, curN, 0);
      n := AppendRects(prevDirty, prevN, n);
      assert presentRects[..n] == ToRects(Recorded(before.cur, area)) + ToRects(before.prev);
      payload := WritePresent(inlineBytes, fb, presentRects[..n]);
      PresentRoundTrip(fb, Present(inlineBytes, presentRects[..n]));
      ShiftLists();
    }

    /** The damage part of `port_disp_init` and `port_disp_blank`: empty lists, and a present of the full frame. */
    method Reset(fb: nat) returns (payload: Option<seq<byte>>)
      requires Valid() && 0 < fb < WORD
      modifies this
      ensures Valid() && State() == NextLists(old(State()), Event.Reset)
      ensures payload.Some? && Decode(payload.value) == Some((fb, []))
    {
      prevN, curN := 0, 0;
      payload := WritePresent(inlineBytes, fb, []);
      PresentRoundTrip(fb, []);
    }
  }
}
