/** 32-bit words as the sets of their one bits, with the arithmetic that the code does on notification values. */
module Words {
  import opened Prelude

  const WIDTH: nat := 32

  type Word = w: set<nat> | forall b :: b in w ==> b < WIDTH

  /** `w + 1`: the carry clears a run of ones and sets the zero above it, or falls off the end. */
  function Inc(w: Word): Word {
    Carry(w, 0)
  }

  function Carry(w: Word, k: nat): (r: Word)
    requires k <= WIDTH
    ensures forall b :: b < k ==> (b in r <==> b in w)
    decreases WIDTH - k
  {
    if k == WIDTH then w else if k in w then Carry(w - {k}, k + 1) else w + {k}
  }

  /** `w - 1`: the borrow sets a run of zeros and clears the one above it. */
  function Dec(w: Word): Word {
    Borrow(w, 0)
  }

  function Borrow(w: Word, k: nat): (r: Word)
    requires k <= WIDTH
    ensures forall b :: b < k ==> (b in r <==> b in w)
    decreases WIDTH - k
  {
    if k == WIDTH then w else if k in w then w - {k} else Borrow(w + {k}, k + 1)
  }

  /** The number that the bits of `w` from `k` on stand for, bit `k` counting one. */
  function ToNat(w: Word, k: nat): nat
    requires k <= WIDTH
    decreases WIDTH - k
  {
    if k == WIDTH then 0 else (if k in w then 1 else 0) + 2 * ToNat(w, k + 1)
  }

  function Number(w: Word): nat {
    ToNat(w, 0)
  }

  function Pow2(n: nat): nat {
    if n == 0 then 1 else 2 * Pow2(n - 1)
  }

  lemma {:induction false} LowBitsIgnored(w: Word, v: Word, k: nat)
    requires k <= WIDTH && forall b :: b >= k ==> (b in w <==> b in v)
    ensures ToNat(w, k) == ToNat(v, k)
    decreases WIDTH - k
  {
    if k == WIDTH {
    } else {
      LowBitsIgnored(w, v, k + 1);
    }
  }

  lemma {:induction false} CarryAdds(w: Word, k: nat)
    requires k <= WIDTH
    ensures ToNat(w, k) < Pow2(WIDTH - k)
    ensures ToNat(Carry(w, k), k) == if ToNat(w, k) + 1 == Pow2(WIDTH - k) then 0 else ToNat(w, k) + 1
    decreases WIDTH - k
  {
    if k == WIDTH {
    } else {
      CarryAdds(w - {k}, k + 1);
      LowBitsIgnored(w, w - {k}, k + 1);
      if k !in w {
        LowBitsIgnored(w, w + {k}, k + 1);
      }
    }
  }

  lemma {:induction false} BorrowSubtracts(w: Word, k: nat)
    requires k <= WIDTH
    ensures ToNat(Borrow(w, k), k) == if ToNat(w, k) == 0 then Pow2(WIDTH - k) - 1 else ToNat(w, k) - 1
    decreases WIDTH - k
  {
    if k == WIDTH {
    } else {
      BorrowSubtracts(w + {k}, k + 1);
      LowBitsIgnored(w, w + {k}, k + 1);
      LowBitsIgnored(w, w - {k}, k + 1);
    }
  }

  lemma {:induction false} ZeroHasNoBits(w: Word, k: nat)
    requires k <= WIDTH
    ensures ToNat(w, k) == 0 <==> forall b :: k <= b ==> b !in w
    decreases WIDTH - k
  {
    if k == WIDTH {
    } else {
      ZeroHasNoBits(w, k + 1);
    }
  }

  /** The bit operations are the arithmetic of 32-bit words, and the empty set is zero. */
  lemma WordArithmetic(w: Word)
    ensures Number(w) < WORD
    ensures Number(Inc(w)) == Inc32(Number(w))
    ensures Number(Dec(w)) == Dec32(Number(w))
    ensures Number(w) == 0 <==> w == {}
  {
    assert Pow2(8) == 0x100;
    assert Pow2(16) == 0x1_0000;
    assert Pow2(24) == 0x100_0000;
    assert Pow2(32) == WORD;
    CarryAdds(w, 0);
    BorrowSubtracts(w, 0);
    ZeroHasNoBits(w, 0);
  }
}
