/** Machine words as natural numbers, with the bit operations the runtime uses on
    its hop masks: a bit test, `|= 1<<i`, `^= 1<<i`, `& (2^n - 1)`, `>> n` and `ffs`.
    Every operation is defined by recursion on the bit position and characterised
    by its effect on `Bit`, so that masks can be reasoned about bit by bit. */
module Bits {

  function Bit(m: nat, i: nat): bool {
    if i == 0 then m % 2 == 1 else Bit(m / 2, i - 1)
  }

  /** `m | 1<<i` */
  function SetBit(m: nat, i: nat): nat {
    if i == 0 then m / 2 * 2 + 1 else SetBit(m / 2, i - 1) * 2 + m % 2
  }

  /** `m ^ 1<<i` */
  function FlipBit(m: nat, i: nat): nat {
    if i == 0 then m / 2 * 2 + 1 - m % 2 else FlipBit(m / 2, i - 1) * 2 + m % 2
  }

  /** `m & (1<<n) - 1` */
  function LowBits(m: nat, n: nat): nat {
    if n == 0 then 0 else LowBits(m / 2, n - 1) * 2 + m % 2
  }

  /** Index of the lowest set bit (`ffs(m) - 1`). */
  function LowestBit(m: nat): nat
    requires m != 0
  {
    if m % 2 == 1 then 0 else LowestBit(m / 2) + 1
  }

  lemma {:induction false} ZeroBits(i: nat)
    ensures !Bit(0, i)
  {
    if i != 0 { ZeroBits(i - 1); }
  }

  lemma {:induction false} SetBitAt(m: nat, i: nat, j: nat)
    ensures Bit(SetBit(m, i), j) == (j == i || Bit(m, j))
  {
    if i != 0 && j != 0 { SetBitAt(m / 2, i - 1, j - 1); }
  }

  lemma {:induction false} FlipBitAt(m: nat, i: nat, j: nat)
    ensures Bit(FlipBit(m, i), j) == if j == i then !Bit(m, j) else Bit(m, j)
  {
    if i != 0 && j != 0 { FlipBitAt(m / 2, i - 1, j - 1); }
  }

  lemma {:induction false} LowBitsAt(m: nat, n: nat, j: nat)
    ensures Bit(LowBits(m, n), j) == (j < n && Bit(m, j))
  {
    if n == 0 {
      ZeroBits(j);
    } else if j != 0 {
      LowBitsAt(m / 2, n - 1, j - 1);
    }
  }

  /** A nonzero mask has a set bit, and `ffs` finds the lowest one. */
  lemma {:induction false} LowestBitIsLowest(m: nat)
    requires m != 0
    ensures Bit(m, LowestBit(m))
    ensures forall j :: 0 <= j < LowestBit(m) ==> !Bit(m, j)
  {
    if m % 2 == 0 {
      LowestBitIsLowest(m / 2);
      forall j | 0 <= j < LowestBit(m) ensures !Bit(m, j) {
        if j != 0 { assert !Bit(m / 2, j - 1); }
      }
    }
  }

  /** Shifting right by one moves every bit down by one. */
  lemma ShiftOne(m: nat, j: nat)
    ensures Bit(m / 2, j) == Bit(m, j + 1)
  {
  }

  /** `m >> 4` moves every bit down by four, and `m & 0xf` is zero exactly when the four are clear. */
  lemma ShiftFour(m: nat, j: nat)
    ensures Bit(m / 16, j) == Bit(m, j + 4)
    ensures m % 16 == 0 <==> !Bit(m, 0) && !Bit(m, 1) && !Bit(m, 2) && !Bit(m, 3)
  {
    ShiftOne(m, j + 3);
    ShiftOne(m / 2, j + 2);
    ShiftOne(m / 4, j + 1);
    ShiftOne(m / 8, j);
    assert m / 2 / 2 / 2 / 2 == m / 16;
    ShiftOne(m, 0);
    ShiftOne(m, 1);
    ShiftOne(m / 2, 0);
    ShiftOne(m, 2);
    ShiftOne(m / 2, 1);
    ShiftOne(m / 4, 0);
    assert m / 2 / 2 == m / 4 && m / 4 / 2 == m / 8;
    assert m % 16 == m % 2 + m / 2 % 2 * 2 + m / 4 % 2 * 4 + m / 8 % 2 * 8;
  }

  /** `m >> 8` moves every bit down by eight, and `m & 0xff` is zero exactly when the eight are clear. */
  lemma ShiftEight(m: nat, j: nat)
    ensures Bit(m / 256, j) == Bit(m, j + 8)
    ensures m % 256 == 0 <==> forall k :: 0 <= k < 8 ==> !Bit(m, k)
  {
    ShiftFour(m, j + 4);
    ShiftFour(m / 16, j);
    assert m / 16 / 16 == m / 256;
    assert m % 256 == (m / 16) % 16 * 16 + m % 16;
    ShiftFour(m, 0); ShiftFour(m, 1); ShiftFour(m, 2); ShiftFour(m, 3);
    if m % 256 != 0 {
      assert m % 16 != 0 || (m / 16) % 16 != 0;
    }
  }

  function Pow2(n: nat): nat { if n == 0 then 1 else 2 * Pow2(n - 1) }

  /** A mask whose set bits all lie below `n` fits in `n` bits. */
  lemma {:induction false} FitsInBits(m: nat, n: nat)
    requires forall j: nat :: Bit(m, j) ==> j < n
    ensures m < Pow2(n)
  {
    if n == 0 {
      if m != 0 { LowestBitIsLowest(m); }
    } else {
      forall j: nat | Bit(m / 2, j) ensures j < n - 1 { ShiftOne(m, j); }
      FitsInBits(m / 2, n - 1);
    }
  }
}
