/** Datatypes shared by every module of the model. */
module Prelude {

  /** A pointer or handle that may be absent (NULL, an invalid handle). */
  datatype Option<+T> = None | Some(value: T)

  /** One more than the largest value of a 32-bit unsigned word. */
  const WORD: nat := 0x1_0000_0000

  /** Half of the 32-bit range: the first value whose signed reading is negative. */
  const HALF: nat := 0x8000_0000

  /** C's unsigned 32-bit `x + 1`, for a word `x`. */
  function Inc32(x: nat): nat {
    if x == WORD - 1 then 0 else x + 1
  }

  /** C's unsigned 32-bit `x - 1`, for a word `x`. */
  function Dec32(x: nat): nat {
    if x == 0 then WORD - 1 else x - 1
  }

  /** The 32-bit word that a counter shows whose true value is `x`. */
  function Wrap(x: nat): (r: nat)
    ensures r < WORD
  {
    x % WORD
  }

  type byte = b: nat | b < 256

  /** The bytes of one queue item. */
  type Item = seq<byte>

  /** A double-ended queue: the contents after a send to the back or to the front. */
  function Push(contents: seq<Item>, item: Item, front: bool): seq<Item> {
    if front then [item] + contents else contents + [item]
  }

  /** The first slot of a table that is not in use, or the number of slots when there is none. */
  function FreeSlot(used: seq<bool>): (r: nat)
    ensures r <= |used|
    ensures r < |used| ==> !used[r]
    ensures forall j :: 0 <= j < r ==> used[j]
  {
    if used == [] || !used[0] then 0 else 1 + FreeSlot(used[1..])
  }

  /** C's unsigned 32-bit multiplication and addition; size_t has 32 bits on these targets. */
  function Mul32(a: nat, b: nat): (r: nat)
    ensures a * b < WORD ==> r == a * b
    ensures r < WORD
  {
    (a * b) % WORD
  }

  function Add32(a: nat, b: nat): (r: nat)
    ensures a + b < WORD ==> r == a + b
    ensures r < WORD
  {
    (a + b) % WORD
  }

  function Min(a: nat, b: nat): nat {
    if a <= b then a else b
  }

  lemma MulMonotone(n: nat, a: nat, b: nat)
    ensures a <= b ==> n * a <= n * b
  {
  }
}
