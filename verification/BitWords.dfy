/** The little of 64-bit word arithmetic that the packed conversation key needs. */
module BitWords {
  const TWO_TO_THE_32: nat := 0x1_0000_0000
  const TWO_TO_THE_64: nat := 0x1_0000_0000_0000_0000

  function BitOr(x: nat, y: nat): nat {
    if x == 0 && y == 0 then 0
    else 2 * BitOr(x / 2, y / 2) + if x % 2 == 1 || y % 2 == 1 then 1 else 0
  }

  /** `(low << 32) | high` on 64-bit words: the upper half of `low` is shifted out. */
  function Pack(low: nat, high: nat): nat {
    BitOr(low * TWO_TO_THE_32 % TWO_TO_THE_64, high)
  }

  function Pow2(k: nat): nat {
    if k == 0 then 1 else 2 * Pow2(k - 1)
  }

  lemma {:induction false} OrZero(x: nat)
    ensures BitOr(x, 0) == x && BitOr(0, x) == x
  {
    if x > 0 {
      OrZero(x / 2);
    }
  }

  lemma {:induction false} OrSelf(x: nat)
    ensures BitOr(x, x) == x
  {
    if x > 0 {
      OrSelf(x / 2);
    }
  }

  lemma {:induction false} OrOfShifted(low: nat, high: nat, k: nat)
    requires high < Pow2(k)
    ensures BitOr(low * Pow2(k), high) == low * Pow2(k) + high
    decreases k
  {
    if k == 0 {
      OrZero(low);
    } else {
      var half := low * Pow2(k - 1);
      assert low * Pow2(k) == 2 * half;
      OrOfShifted(low, high / 2, k - 1);
    }
  }

  lemma TimesSixteen(k: nat)
    ensures Pow2(k + 4) == 16 * Pow2(k)
  {
    assert Pow2(k + 2) == 4 * Pow2(k);
  }

  lemma Pow2Of32()
    ensures Pow2(32) == TWO_TO_THE_32
  {
    TimesSixteen(0);
    TimesSixteen(4);
    TimesSixteen(8);
    TimesSixteen(12);
    TimesSixteen(16);
    TimesSixteen(20);
    TimesSixteen(24);
    TimesSixteen(28);
  }

  lemma PackSmall(low: nat, high: nat)
    requires low < TWO_TO_THE_32 && high < TWO_TO_THE_32
    ensures Pack(low, high) == low * TWO_TO_THE_32 + high
  {
    Pow2Of32();
    OrOfShifted(low, high, 32);
  }

  /** 2^32 in both halves: the upper one is shifted out. */
  lemma PackShiftedOut()
    ensures Pack(TWO_TO_THE_32, TWO_TO_THE_32) == TWO_TO_THE_32
  {
    hide BitOr;
    assert TWO_TO_THE_32 * TWO_TO_THE_32 % TWO_TO_THE_64 == 0;
    OrZero(TWO_TO_THE_32);
  }

  /** 1 in the upper half is bit 32, which the lower half has set already. */
  lemma PackOverlaps()
    ensures Pack(1, TWO_TO_THE_32) == TWO_TO_THE_32
  {
    hide BitOr;
    assert 1 * TWO_TO_THE_32 % TWO_TO_THE_64 == TWO_TO_THE_32;
    OrSelf(TWO_TO_THE_32);
  }
}
