/** Single-bit operations on the 32-bit words that hold the run-queue bitmap, the CPU affinity
    masks and the page-frame bitmap.  A word is modelled by its unsigned value, and bit b of it is
    reached by halving b times; `SetClear`, `SetValue` and `InRange` show that this is `|= 1 << b`,
    `&= ~(1 << b)` and `& (1 << b)` on 32-bit words. */
module Bits {
  const WORD_LIMIT: int := 0x1_0000_0000

  /** A uint8_t. */
  type Byte = b: int | 0 <= b < 256

  /** A uint32_t. */
  type Word = w: int | 0 <= w < WORD_LIMIT

  function Pow2(b: nat): (p: nat)
    ensures p > 0
  {
    if b == 0 then 1 else 2 * Pow2(b - 1)
  }

  /** `(w & (1 << b)) != 0` */
  predicate Test(w: nat, b: nat) {
    if b == 0 then w % 2 == 1 else Test(w / 2, b - 1)
  }

  /** `w | (1 << b)` */
  function Set(w: nat, b: nat): nat {
    if b == 0 then w / 2 * 2 + 1 else 2 * Set(w / 2, b - 1) + w % 2
  }

  /** `w & ~(1 << b)` */
  function Clear(w: nat, b: nat): nat {
    if b == 0 then w / 2 * 2 else 2 * Clear(w / 2, b - 1) + w % 2
  }

  /** Setting or clearing one bit changes the answer for that bit and for no other. */
  lemma {:induction false} SetClear(w: nat, b: nat, c: nat)
    ensures Test(Set(w, b), c) <==> b == c || Test(w, c)
    ensures Test(Clear(w, b), c) <==> b != c && Test(w, c)
  {
    if b > 0 {
      Halves(Set(w / 2, b - 1), w % 2);
      Halves(Clear(w / 2, b - 1), w % 2);
      if c > 0 {
        SetClear(w / 2, b - 1, c - 1);
      }
    }
  }

  lemma Halves(half: nat, bit: nat)
    requires bit < 2
    ensures (2 * half + bit) / 2 == half && (2 * half + bit) % 2 == bit
  {}

  /** The lowest bits of a word, written out. */
  lemma LowestBits(w: nat)
    ensures (Test(w, 0) <==> w % 2 == 1) && (Test(w, 1) <==> w / 2 % 2 == 1) && (Test(w, 2) <==> w / 4 % 2 == 1)
    ensures Test(w, 3) <==> w / 8 % 2 == 1
  {
    assert Test(w, 1) == Test(w / 2, 0);
    assert Test(w, 2) == Test(w / 2, 1) == Test(w / 2 / 2, 0);
    assert Test(w, 3) == Test(w / 2, 2) == Test(w / 2 / 2, 1) == Test(w / 2 / 2 / 2, 0);
    assert w / 2 / 2 == w / 4 && w / 2 / 2 / 2 == w / 8;
  }

  /** The next four. */
  lemma NextBits(w: nat)
    ensures (Test(w, 4) <==> w / 16 % 2 == 1) && (Test(w, 5) <==> w / 32 % 2 == 1)
    ensures (Test(w, 6) <==> w / 64 % 2 == 1) && (Test(w, 7) <==> w / 128 % 2 == 1)
  {
    var h := w / 2 / 2 / 2 / 2;
    LowestBits(h);
    assert forall b: nat :: Test(w, b + 1) == Test(w / 2, b);
    assert Test(w, 4) == Test(w / 2, 3) == Test(w / 2 / 2, 2) == Test(w / 2 / 2 / 2, 1) == Test(h, 0);
    assert Test(w, 5) == Test(w / 2, 4) == Test(w / 2 / 2, 3) == Test(w / 2 / 2 / 2, 2) == Test(h, 1);
    assert Test(w, 6) == Test(w / 2, 5) == Test(w / 2 / 2, 4) == Test(w / 2 / 2 / 2, 3) == Test(h, 2);
    assert Test(w, 7) == Test(w / 2, 6) == Test(w / 2 / 2, 5) == Test(w / 2 / 2 / 2, 4) == Test(h, 3);
    assert h == w / 16 && h / 2 == w / 32 && h / 4 == w / 64 && h / 8 == w / 128;
  }

  /** The value of a word with bit b set is 2^b more, unless the bit was set already; and
      clearing takes 2^b away exactly when it was set. */
  lemma {:induction false} SetValue(w: nat, b: nat)
    ensures Set(w, b) == if Test(w, b) then w else w + Pow2(b)
    ensures Clear(w, b) == if Test(w, b) then w - Pow2(b) else w
  {
    if b > 0 {
      SetValue(w / 2, b - 1);
    }
  }

  /** The operations stay inside a word of n bits. */
  lemma {:induction false} InRange(w: nat, b: nat, n: nat)
    requires b < n && w < Pow2(n)
    ensures Set(w, b) < Pow2(n) && Clear(w, b) < Pow2(n)
  {
    var half := w / 2;
    assert w == 2 * half + w % 2 && half < Pow2(n - 1);
    if b > 0 {
      InRange(half, b - 1, n - 1);
    }
  }

  /** `(1 << n) - 1` has exactly the bits below n. */
  lemma {:induction false} LowBits(n: nat, c: nat)
    ensures Test(Pow2(n) - 1, c) <==> c < n
  {
    if n > 0 {
      assert (Pow2(n) - 1) / 2 == Pow2(n - 1) - 1;
      if c > 0 {
        LowBits(n - 1, c - 1);
      }
    } else {
      ZeroWord(c);
    }
  }

  lemma {:induction false} ZeroWord(c: nat)
    ensures !Test(0, c)
  {
    if c > 0 {
      ZeroWord(c - 1);
    }
  }

  lemma WordPower()
    ensures Pow2(32) == WORD_LIMIT
  {
    assert Pow2(8) == 0x100;
    assert Pow2(16) == 0x1_0000;
    assert Pow2(24) == 0x100_0000;
  }

  /** Setting or clearing a bit of a 32-bit word gives a 32-bit word. */
  lemma WordStays(w: Word, b: nat)
    requires b < 32
    ensures Set(w, b) < WORD_LIMIT && Clear(w, b) < WORD_LIMIT
  {
    WordPower();
    InRange(w, b, 32);
  }

  /** 0xFFFFFFFF has every bit of a word set. */
  lemma FullWord(c: nat)
    requires c < 32
    ensures Test(0xFFFF_FFFF, c)
  {
    WordPower();
    LowBits(32, c);
  }
}
