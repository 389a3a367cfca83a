/** 64-bit words as integers, with the bitwise operators defined bit by bit. */
module Words {
  import opened Bytes
  import opened Division
  import opened Ntohl

  // Named, like the powers in Ntohl, so that the solver does not compute with them.
  const BITS_32: nat := 32
  const BITS_64: nat := 64

  predicate Bit(w: nat, n: nat) {
    if n == 0 then w % 2 == 1 else Bit(w / 2, n - 1)
  }

  function AndBits(a: nat, b: nat, k: nat): nat {
    if k == 0 then 0 else 2 * AndBits(a / 2, b / 2, k - 1) + (if a % 2 == 1 && b % 2 == 1 then 1 else 0)
  }

  function OrBits(a: nat, b: nat, k: nat): nat {
    if k == 0 then 0 else 2 * OrBits(a / 2, b / 2, k - 1) + (if a % 2 == 1 || b % 2 == 1 then 1 else 0)
  }

  lemma {:induction false} BitsBound(a: nat, b: nat, k: nat)
    ensures AndBits(a, b, k) < Pow2(k) && OrBits(a, b, k) < Pow2(k) && XorBits(a, b, k) < Pow2(k)
  {
    if k > 0 {
      BitsBound(a / 2, b / 2, k - 1);
      XorBitsBound(a, b, k);
    }
  }

  lemma {:induction false} PowersOfTwo()
    ensures Pow2(32) == TWO_32 && Pow2(64) == TWO_64
  {
    assert Pow2(4) == 16;
    assert Pow2(8) == 0x100;
    assert Pow2(12) == 0x1000;
    assert Pow2(16) == 0x1_0000;
    assert Pow2(20) == 0x10_0000;
    assert Pow2(24) == 0x100_0000;
    assert Pow2(28) == 0x1000_0000;
    assert Pow2(32) == 0x1_0000_0000;
    assert Pow2(36) == 0x10_0000_0000;
    assert Pow2(40) == 0x100_0000_0000;
    assert Pow2(44) == 0x1000_0000_0000;
    assert Pow2(48) == 0x1_0000_0000_0000;
    assert Pow2(52) == 0x10_0000_0000_0000;
    assert Pow2(56) == 0x100_0000_0000_0000;
    assert Pow2(60) == 0x1000_0000_0000_0000;
  }

  function And(a: Long, b: Long): Long {
    BitsBound(a, b, BITS_64);
    PowersOfTwo();
    AndBits(a, b, BITS_64)
  }

  function Or(a: Long, b: Long): Long {
    BitsBound(a, b, BITS_64);
    PowersOfTwo();
    OrBits(a, b, BITS_64)
  }

  function Xor64(a: Long, b: Long): Long {
    BitsBound(a, b, BITS_64);
    PowersOfTwo();
    XorBits(a, b, BITS_64)
  }

  lemma {:induction false} AndBit(a: nat, b: nat, k: nat, n: nat)
    requires n < k
    ensures Bit(AndBits(a, b, k), n) == (Bit(a, n) && Bit(b, n))
  {
    Halves(AndBits(a, b, k), if a % 2 == 1 && b % 2 == 1 then 1 else 0, AndBits(a / 2, b / 2, k - 1));
    if n > 0 { AndBit(a / 2, b / 2, k - 1, n - 1); }
  }

  lemma {:induction false} OrBit(a: nat, b: nat, k: nat, n: nat)
    requires n < k
    ensures Bit(OrBits(a, b, k), n) == (Bit(a, n) || Bit(b, n))
  {
    Halves(OrBits(a, b, k), if a % 2 == 1 || b % 2 == 1 then 1 else 0, OrBits(a / 2, b / 2, k - 1));
    if n > 0 { OrBit(a / 2, b / 2, k - 1, n - 1); }
  }

  lemma {:induction false} XorBit(a: nat, b: nat, k: nat, n: nat)
    requires n < k
    ensures Bit(XorBits(a, b, k), n) == (Bit(a, n) != Bit(b, n))
  {
    Halves(XorBits(a, b, k), (a % 2 + b % 2) % 2, XorBits(a / 2, b / 2, k - 1));
    if n > 0 { XorBit(a / 2, b / 2, k - 1, n - 1); }
  }

  /** A power of two has one bit. */
  lemma {:induction false} OnlyBit(n: nat, k: nat)
    ensures Bit(Pow2(n), k) == (n == k)
  {
    if n == 0 {
      if k > 0 { NoBit(k - 1); }
    } else if k > 0 {
      OnlyBit(n - 1, k - 1);
    }
  }

  lemma {:induction false} NoBit(k: nat)
    ensures !Bit(0, k)
  {
    if k > 0 { NoBit(k - 1); }
  }

  lemma {:induction false} AllOnes(k: nat, n: nat)
    requires n < k
    ensures Pow2(k) > 0 && Bit(Pow2(k) - 1, n)
  {
    PowPositive(k - 1);
    if n > 0 {
      AllOnes(k - 1, n - 1);
      assert (Pow2(k) - 1) / 2 == Pow2(k - 1) - 1;
    }
  }

  lemma {:induction false} PowPositive(k: nat)
    ensures Pow2(k) > 0
  {
    if k > 0 { PowPositive(k - 1); }
  }

  lemma {:induction false} AndNothing(a: nat, k: nat)
    ensures AndBits(a, 0, k) == 0 && AndBits(0, a, k) == 0
  {
    if k > 0 { AndNothing(a / 2, k - 1); }
  }

  /** Masking with a power of two tests one bit. */
  lemma {:induction false} TestBit(w: nat, n: nat, k: nat)
    requires n < k
    ensures AndBits(w, Pow2(n), k) != 0 <==> Bit(w, n)
    ensures AndBits(Pow2(n), w, k) != 0 <==> Bit(w, n)
  {
    if n == 0 {
      AndNothing(w / 2, k - 1);
    } else {
      TestBit(w / 2, n - 1, k - 1);
    }
  }

  function Halved(w: nat, i: nat): nat {
    if i == 0 then w else Halved(w / 2, i - 1)
  }

  lemma {:induction false} BitsMoveDown(w: nat, i: nat, j: nat)
    ensures Bit(Halved(w, i), j) == Bit(w, i + j)
  {
    if i > 0 { BitsMoveDown(w / 2, i - 1, j); }
  }

  lemma {:induction false} HalvedByFour(w: nat, i: nat)
    requires i >= 4
    ensures Halved(w, i) == Halved(w / 0x10, i - 4)
  {
    assert Halved(w, i) == Halved(w / 2, i - 1) == Halved(w / 2 / 2, i - 2);
    assert Halved(w / 2 / 2, i - 2) == Halved(w / 2 / 2 / 2, i - 3);
  }

  lemma {:induction false} HalvedBySixteen(w: nat, i: nat)
    requires i >= 16
    ensures Halved(w, i) == Halved(w / 0x1_0000, i - 16)
  {
    HalvedByFour(w, i);
    HalvedByFour(w / 0x10, i - 4);
    HalvedByFour(w / 0x10 / 0x10, i - 8);
    HalvedByFour(w / 0x10 / 0x10 / 0x10, i - 12);
  }

  /** Dividing by 2 to the 32nd moves the upper half down. */
  lemma {:induction false} UpperHalf(w: nat, j: nat)
    ensures Bit(w / TWO_32, j) == Bit(w, 32 + j)
  {
    HalvedBySixteen(w, 32);
    HalvedBySixteen(w / 0x1_0000, 16);
    assert w / 0x1_0000 / 0x1_0000 == w / TWO_32;
    BitsMoveDown(w, 32, j);
  }

  lemma {:induction false} PowUpper(i: nat)
    ensures Pow2(i + 32) == Pow2(i) * TWO_32
  {
    if i == 0 { PowersOfTwo(); } else { PowUpper(i - 1); }
  }

  // ---------------------------------------------------------------- 32-bit words

  function And32(a: Word, b: Word): Word {
    BitsBound(a, b, BITS_32);
    PowersOfTwo();
    AndBits(a, b, BITS_32)
  }

  function Or32(a: Word, b: Word): Word {
    BitsBound(a, b, BITS_32);
    PowersOfTwo();
    OrBits(a, b, BITS_32)
  }

  function Xor32(a: Word, b: Word): Word {
    BitsBound(a, b, BITS_32);
    PowersOfTwo();
    XorBits(a, b, BITS_32)
  }

  function Not32(a: Word): Word {
    TWO_32 - 1 - a as int
  }

  function Add32(a: Word, b: Word): Word {
    (a as int + b as int) % TWO_32
  }

  lemma {:induction false} HalvedAtMost(w: nat, n: nat)
    ensures Halved(w, n) <= w
  {
    if n > 0 { HalvedAtMost(w / 2, n - 1); }
  }

  /** w << n on 32 bits, as n doublings. */
  function ShiftLeft(n: nat, w: Word): Word {
    if n == 0 then w else ShiftLeft(n - 1, 2 * w as int % TWO_32)
  }

  /** w >> n, as n halvings. */
  function ShiftRight(n: nat, w: Word): Word {
    HalvedAtMost(w, n);
    Halved(w, n)
  }

  /** The circular shift: the word shifted left by n bits, or-ed with the n bits shifted out. */
  function RotateLeft(n: nat, w: Word): Word
    requires n <= 32
  {
    Or32(ShiftLeft(n, w), ShiftRight(32 - n, w))
  }

  // ---------------------------------------------------------------- what each bit of a result is

  lemma {:induction false} HalvedQuotient(x: nat, p: nat)
    requires p > 0
    ensures x / 2 / p == x / (2 * p)
  {
    var q, r := x / 2 / p, x / 2 % p;
    assert x / 2 == q * p + r;
    assert q * (2 * p) == 2 * (q * p);
    DivModUnique(x, 2 * p, q, 2 * r + x % 2);
  }

  lemma {:induction false} HalvedRemainder(x: nat, p: nat)
    requires p > 0
    ensures x % (2 * p) / 2 == x / 2 % p && x % (2 * p) % 2 == x % 2
  {
    var q, r := x / 2 / p, x / 2 % p;
    assert x / 2 == q * p + r;
    assert q * (2 * p) == 2 * (q * p);
    DivModUnique(x, 2 * p, q, 2 * r + x % 2);
  }

  /** Bit n of a number is the parity of its n-fold half. */
  lemma {:induction false} BitIs(w: nat, n: nat)
    ensures Pow2(n) > 0 && (Bit(w, n) <==> w / Pow2(n) % 2 == 1)
  {
    PowPositive(n);
    if n > 0 {
      BitIs(w / 2, n - 1);
      HalvedQuotient(w, Pow2(n - 1));
    }
  }

  /** The low bits survive a remainder by a power of two. */
  lemma {:induction false} LowBits(x: nat, m: nat, k: nat)
    requires k < m
    ensures Pow2(m) > 0 && Bit(x % Pow2(m), k) == Bit(x, k)
  {
    PowPositive(m);
    PowPositive(m - 1);
    HalvedRemainder(x, Pow2(m - 1));
    if k > 0 { LowBits(x / 2, m - 1, k - 1); }
  }

  /** A number below a power of two has no bits from there on. */
  lemma {:induction false} NoHighBits(x: nat, m: nat, k: nat)
    requires x < Pow2(m) && k >= m
    ensures !Bit(x, k)
  {
    if m == 0 { NoBit(k); } else { NoHighBits(x / 2, m - 1, k - 1); }
  }

  lemma {:induction false} ComplementBit(a: nat, m: nat, k: nat)
    requires a < Pow2(m) && k < m
    ensures Bit(Pow2(m) - 1 - a, k) == !Bit(a, k)
  {
    var p := Pow2(m - 1);
    assert (2 * p - 1 - a) / 2 == p - 1 - a / 2 && (2 * p - 1 - a) % 2 == 1 - a % 2;
    if k > 0 { ComplementBit(a / 2, m - 1, k - 1); }
  }

  /** A number is its bits. */
  lemma {:induction false} SameBits(a: nat, b: nat, m: nat)
    requires a < Pow2(m) && b < Pow2(m) && forall k :: 0 <= k < m ==> Bit(a, k) == Bit(b, k)
    ensures a == b
  {
    if m > 0 {
      forall k | 0 <= k < m - 1 ensures Bit(a / 2, k) == Bit(b / 2, k) {
        assert Bit(a, k + 1) == Bit(b, k + 1);
      }
      SameBits(a / 2, b / 2, m - 1);
      assert Bit(a, 0) == Bit(b, 0);
    }
  }

  lemma {:induction false} And32Bit(a: Word, b: Word, k: nat)
    requires k < 32
    ensures Bit(And32(a, b), k) <==> Bit(a, k) && Bit(b, k)
  {
    AndBit(a, b, 32, k);
  }

  lemma {:induction false} Or32Bit(a: Word, b: Word, k: nat)
    requires k < 32
    ensures Bit(Or32(a, b), k) <==> Bit(a, k) || Bit(b, k)
  {
    OrBit(a, b, 32, k);
  }

  lemma {:induction false} Xor32Bit(a: Word, b: Word, k: nat)
    requires k < 32
    ensures Bit(Xor32(a, b), k) <==> Bit(a, k) != Bit(b, k)
  {
    XorBit(a, b, 32, k);
  }

  lemma {:induction false} Not32Bit(a: Word, k: nat)
    requires k < 32
    ensures Bit(Not32(a), k) <==> !Bit(a, k)
  {
    PowersOfTwo();
    ComplementBit(a, 32, k);
  }

  lemma {:induction false} DoubledBit(w: Word, k: nat)
    requires k < 32
    ensures Bit(2 * w as int % TWO_32, k) <==> k > 0 && Bit(w, k - 1)
  {
    PowersOfTwo();
    LowBits(2 * w as int, 32, k);
  }

  lemma {:induction false} ShiftLeftBit(n: nat, w: Word, k: nat)
    requires k < 32
    ensures Bit(ShiftLeft(n, w), k) <==> k >= n && Bit(w, k - n)
  {
    if n > 0 {
      ShiftLeftBit(n - 1, 2 * w as int % TWO_32, k);
      if k >= n { DoubledBit(w, k - n + 1); } else if k == n - 1 { DoubledBit(w, 0); }
    }
  }

  lemma {:induction false} ShiftRightBit(n: nat, w: Word, k: nat)
    ensures Bit(ShiftRight(n, w), k) <==> Bit(w, k + n)
  {
    BitsMoveDown(w, n, k);
  }

  /** A rotation moves every bit n places up, those that leave at the top to the bottom. */
  lemma {:induction false} RotateLeftBit(n: nat, w: Word, k: nat)
    requires 0 < n < 32 && k < 32
    ensures Bit(RotateLeft(n, w), k) <==> Bit(w, (k + 32 - n) % 32)
  {
    hide Or32, ShiftLeft, ShiftRight;
    Or32Bit(ShiftLeft(n, w), ShiftRight(32 - n, w), k);
    ShiftLeftBit(n, w, k);
    ShiftRightBit(32 - n, w, k);
    PowersOfTwo();
    if k >= n {
      NoHighBits(w, 32, k + (32 - n));
      assert (k + 32 - n) % 32 == k - n;
    } else {
      assert (k + 32 - n) % 32 == k + (32 - n);
    }
  }

  /** Masking is bit by bit as well. */
  lemma {:induction false} MaskedBit(a: Byte, b: Byte, k: nat)
    requires k < 8
    ensures Bit(Xor(a, b), k) <==> Bit(a, k) != Bit(b, k)
  {
    XorBit(a, b, 8, k);
  }
}
