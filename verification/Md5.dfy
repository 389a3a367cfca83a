/** MD5 as in RFC 1321, and the streaming state that computes it. */
module Md5 {
  import opened Bytes
  import opened Ntohl
  import opened Seqs
  import opened Words
  import opened BlockHash

  // ---------------------------------------------------------------- the standard

  datatype Regs = Regs(a: Word, b: Word, c: Word, d: Word)

  const INITIAL: Regs := Regs(0x67452301, 0xEFCDAB89, 0x98BADCFE, 0x10325476)

  /** Section 3.4: the auxiliary functions. */
  function F(x: Word, y: Word, z: Word): Word {
    Or32(And32(x, y), And32(Not32(x), z))
  }

  function G(x: Word, y: Word, z: Word): Word {
    Or32(And32(x, z), And32(y, Not32(z)))
  }

  function H(x: Word, y: Word, z: Word): Word {
    Xor32(Xor32(x, y), z)
  }

  function I(x: Word, y: Word, z: Word): Word {
    Xor32(y, Or32(x, Not32(z)))
  }

  /** Bit by bit: F chooses by x, G by z, H is the parity, and I compares y with "x or not z". */
  lemma {:induction false} AuxiliaryBits(x: Word, y: Word, z: Word, k: nat)
    requires k < 32
    ensures Bit(F(x, y, z), k) <==> if Bit(x, k) then Bit(y, k) else Bit(z, k)
    ensures Bit(G(x, y, z), k) <==> if Bit(z, k) then Bit(x, k) else Bit(y, k)
    ensures Bit(H(x, y, z), k) <==> Bit(x, k) != (Bit(y, k) != Bit(z, k))
    ensures Bit(I(x, y, z), k) <==> Bit(y, k) != (Bit(x, k) || !Bit(z, k))
  {
    hide And32, Or32, Xor32, Not32, Bit;
    Not32Bit(x, k);
    Not32Bit(z, k);
    And32Bit(x, y, k);
    And32Bit(Not32(x), z, k);
    Or32Bit(And32(x, y), And32(Not32(x), z), k);
    And32Bit(x, z, k);
    And32Bit(y, Not32(z), k);
    Or32Bit(And32(x, z), And32(y, Not32(z)), k);
    Xor32Bit(x, y, k);
    Xor32Bit(Xor32(x, y), z, k);
    Or32Bit(x, Not32(z), k);
    Xor32Bit(y, Or32(x, Not32(z)), k);
  }

  // The 64-element table T, 16 elements for each round.
  const TABLE_1: seq<Word> := [
    0xD76AA478, 0xE8C7B756, 0x242070DB, 0xC1BDCEEE,
    0xF57C0FAF, 0x4787C62A, 0xA8304613, 0xFD469501,
    0x698098D8, 0x8B44F7AF, 0xFFFF5BB1, 0x895CD7BE,
    0x6B901122, 0xFD987193, 0xA679438E, 0x49B40821]
  const TABLE_2: seq<Word> := [
    0xF61E2562, 0xC040B340, 0x265E5A51, 0xE9B6C7AA,
    0xD62F105D, 0x02441453, 0xD8A1E681, 0xE7D3FBC8,
    0x21E1CDE6, 0xC33707D6, 0xF4D50D87, 0x455A14ED,
    0xA9E3E905, 0xFCEFA3F8, 0x676F02D9, 0x8D2A4C8A]
  const TABLE_3: seq<Word> := [
    0xFFFA3942, 0x8771F681, 0x6D9D6122, 0xFDE5380C,
    0xA4BEEA44, 0x4BDECFA9, 0xF6BB4B60, 0xBEBFBC70,
    0x289B7EC6, 0xEAA127FA, 0xD4EF3085, 0x04881D05,
    0xD9D4D039, 0xE6DB99E5, 0x1FA27CF8, 0xC4AC5665]
  const TABLE_4: seq<Word> := [
    0xF4292244, 0x432AFF97, 0xAB9423A7, 0xFC93A039,
    0x655B59C3, 0x8F0CCC92, 0xFFEFF47D, 0x85845DD1,
    0x6FA87E4F, 0xFE2CE6E0, 0xA3014314, 0x4E0811A1,
    0xF7537E82, 0xBD3AF235, 0x2AD7D2BB, 0xEB86D391]

  /** Element i of the table, for i from 1. */
  function T(i: nat): Word {
    if i == 0 || i > 64 then 0
    else if i <= 16 then TABLE_1[i - 1]
    else if i <= 32 then TABLE_2[i - 17]
    else if i <= 48 then TABLE_3[i - 33]
    else TABLE_4[i - 49]
  }

  /** One operation [abcd k s i]: the new value of a. */
  function Set(f: Word, a: Word, b: Word, xk: Word, s: nat, ti: Word): Word
    requires s <= 32
  {
    Add32(RotateLeft(s, Add32(Add32(Add32(a, f), xk), ti)), b)
  }

  /** The auxiliary function, the block word and the rotation of operation i, for i from 0. */
  function Auxiliary(i: nat, x: Word, y: Word, z: Word): Word {
    if i < 16 then F(x, y, z) else if i < 32 then G(x, y, z) else if i < 48 then H(x, y, z) else I(x, y, z)
  }

  function WordOf(i: nat): (k: nat)
    ensures k < 16
  {
    if i < 16 then i else if i < 32 then (1 + 5 * i) % 16 else if i < 48 then (5 + 3 * i) % 16 else 7 * i % 16
  }

  function RotationOf(i: nat): (s: nat)
    ensures s <= 32
  {
    var j := i % 4;
    if i < 16 then (if j == 0 then 7 else if j == 1 then 12 else if j == 2 then 17 else 22)
    else if i < 32 then (if j == 0 then 5 else if j == 1 then 9 else if j == 2 then 14 else 20)
    else if i < 48 then (if j == 0 then 4 else if j == 1 then 11 else if j == 2 then 16 else 23)
    else if j == 0 then 6 else if j == 1 then 10 else if j == 2 then 15 else 21
  }

  /** Each round takes every word of the block once. */
  lemma {:induction false} EachWordOnce(i: nat, j: nat)
    requires i < 64 && j < 64 && i / 16 == j / 16 && WordOf(i) == WordOf(j)
    ensures i == j
  {
    TurnOfWord(i);
    TurnOfWord(j);
  }

  /** The place in its round at which word k is taken. */
  function TurnOf(round: nat, k: nat): nat {
    if round == 0 then k else if round == 1 then 13 * (k + 15) % 16 else if round == 2 then 11 * (k + 11) % 16 else 7 * k % 16
  }

  /** Steps of 5, 3 and 7 through 16 places are undone by steps of 13, 11 and 7. */
  lemma {:induction false} StepsUndone(i: nat)
    ensures 13 * ((1 + 5 * i) % 16 + 15) % 16 == i % 16
    ensures 11 * ((5 + 3 * i) % 16 + 11) % 16 == i % 16
    ensures 7 * (7 * i % 16) % 16 == i % 16
  {
    var p, q, r := (1 + 5 * i) / 16, (5 + 3 * i) / 16, 7 * i / 16;
    Same16(i, 13 * ((1 + 5 * i) % 16 + 15), 4 * i - 13 * p + 13);
    Same16(i, 11 * ((5 + 3 * i) % 16 + 11), 2 * i - 11 * q + 11);
    Same16(i, 7 * (7 * i % 16), 3 * i - 7 * r);
  }

  lemma Same16(x: int, y: int, q: int)
    requires y == x + 16 * q
    ensures y % 16 == x % 16
  {
  }

  lemma {:induction false} TurnOfWord(i: nat)
    requires i < 64
    ensures TurnOf(i / 16, WordOf(i)) == i % 16
  {
    StepsUndone(i);
  }

  /** Operation i; the registers then change places, so that the next operation is written alike. */
  function Operation(r: Regs, x: seq<Word>, i: nat): Regs
    requires |x| == 16
  {
    Regs(r.d, Set(Auxiliary(i, r.b, r.c, r.d), r.a, r.b, x[WordOf(i)], RotationOf(i), T(i + 1)), r.b, r.c)
  }

  function Run(h: Regs, x: seq<Word>, n: nat): Regs
    requires |x| == 16
  {
    if n == 0 then h else Operation(Run(h, x, n - 1), x, n - 1)
  }

  /** The words of a block, each with its low-order octet first. */
  function WordsOf(block: Block): (x: seq<Word>)
    ensures |x| == 16
  {
    seq(16, t requires 0 <= t < 16 => FromOctets(block[4 * t], block[4 * t + 1], block[4 * t + 2], block[4 * t + 3]))
  }

  /** One block: four rounds of 16 operations, added to the registers. */
  function Compress(h: Regs, block: Block): Regs {
    var r := Run(h, WordsOf(block), 64);
    Regs(Add32(h.a, r.a), Add32(h.b, r.b), Add32(h.c, r.c), Add32(h.d, r.d))
  }

  /** A word with its low-order octet first. */
  function LowFirst(w: Word): (s: seq<Byte>)
    ensures |s| == 4
  {
    Octets(w)
  }

  /** The value of four octets, the lowest first. */
  function LowValue(a: int, b: int, c: int, d: int): int {
    a + b * 0x100 + c * 0x1_0000 + d * 0x100_0000
  }

  /** Section 3.3: the registers start as the octets 01 23 ... ef and fe dc ... 10 in turn, the lowest first. */
  lemma {:induction false} InitialOctets()
    ensures INITIAL.a as int == LowValue(0x01, 0x23, 0x45, 0x67) && INITIAL.b as int == LowValue(0x89, 0xAB, 0xCD, 0xEF)
    ensures INITIAL.c as int == LowValue(0xFE, 0xDC, 0xBA, 0x98) && INITIAL.d as int == LowValue(0x76, 0x54, 0x32, 0x10)
  {
  }

  /** The words of a block and the octets of a word, in plain terms. */
  lemma {:induction false} WordsAreLowFirst(block: Block, t: nat, w: Word)
    requires t < 16
    ensures WordsOf(block)[t] as int == LowValue(block[4 * t], block[4 * t + 1], block[4 * t + 2], block[4 * t + 3])
    ensures var s := LowFirst(w); w as int == LowValue(s[0], s[1], s[2], s[3])
  {
    FromOctetsOf(w);
  }

  /** Section 3.2: the bit length modulo 2 to the 64th, its low-order word first. */
  function BitLength(n: nat): (s: seq<Byte>)
    ensures |s| == 8
  {
    LowFirst(8 * n % TWO_64 % TWO_32) + LowFirst(8 * n % TWO_64 / TWO_32)
  }

  /** Sections 3.1 and 3.2. */
  function Pad(s: seq<Byte>): (p: seq<Byte>)
    ensures |p| == |s| + 1 + ZerosFor(|s|) + 8
  {
    s + [0x80] + Zeros(ZerosFor(|s|)) + BitLength(|s|)
  }

  lemma {:induction false} BitLengthIs(n: nat)
    ensures var s := BitLength(n);
      8 * n % TWO_64 == LowValue(s[0], s[1], s[2], s[3]) + LowValue(s[4], s[5], s[6], s[7]) * 0x1_0000_0000
  {
    hide LowFirst, LowValue;
    var low, high := 8 * n % TWO_64 % TWO_32, 8 * n % TWO_64 / TWO_32;
    WordsAreLowFirst(seq(64, i => 0), 0, low);
    WordsAreLowFirst(seq(64, i => 0), 0, high);
  }

  /** A padded message in plain terms; behind the zeros stands the number of bits modulo 2 to the 64th. */
  lemma {:induction false} PadPlainly(s: seq<Byte>)
    ensures var p := Pad(s); var n := |p|;
      && n % 64 == 0 && n < |s| + 73 && p[..|s|] == s && p[|s|] == 0x80
      && (forall k :: |s| < k < n - 8 ==> p[k] == 0) && p[n - 8..] == BitLength(|s|)
  {
    hide BitLength;
  }

  /** Sections 3.3 to 3.5. */
  function Digest(s: seq<Byte>): (d: seq<Byte>)
    ensures |d| == 16
  {
    var r := Blocks(Compress, INITIAL, Pad(s), |Pad(s)| / 64);
    LowFirst(r.a) + LowFirst(r.b) + LowFirst(r.c) + LowFirst(r.d)
  }

  // ---------------------------------------------------------------- one block

  method Round1(ghost h: Regs, x: seq<Word>, r0: Regs) returns (r: Regs)
    requires |x| == 16 && r0 == Run(h, x, 0)
    ensures r == Run(h, x, 16)
  {
    hide Set, F, G, H, I, T;
    var a, b, c, d := r0.a, r0.b, r0.c, r0.d;
    a := Set(F(b, c, d), a, b, x[0], 7, T(1));
    assert Regs(d, a, b, c) == Run(h, x, 1);
    d := Set(F(a, b, c), d, a, x[1], 12, T(2));
    assert Regs(c, d, a, b) == Run(h, x, 2);
    c := Set(F(d, a, b), c, d, x[2], 17, T(3));
    assert Regs(b, c, d, a) == Run(h, x, 3);
    b := Set(F(c, d, a), b, c, x[3], 22, T(4));
    assert Regs(a, b, c, d) == Run(h, x, 4);
    a := Set(F(b, c, d), a, b, x[4], 7, T(5));
    assert Regs(d, a, b, c) == Run(h, x, 5);
    d := Set(F(a, b, c), d, a, x[5], 12, T(6));
    assert Regs(c, d, a, b) == Run(h, x, 6);
    c := Set(F(d, a, b), c, d, x[6], 17, T(7));
    assert Regs(b, c, d, a) == Run(h, x, 7);
    b := Set(F(c, d, a), b, c, x[7], 22, T(8));
    assert Regs(a, b, c, d) == Run(h, x, 8);
    a := Set(F(b, c, d), a, b, x[8], 7, T(9));
    assert Regs(d, a, b, c) == Run(h, x, 9);
    d := Set(F(a, b, c), d, a, x[9], 12, T(10));
    assert Regs(c, d, a, b) == Run(h, x, 10);
    c := Set(F(d, a, b), c, d, x[10], 17, T(11));
    assert Regs(b, c, d, a) == Run(h, x, 11);
    b := Set(F(c, d, a), b, c, x[11], 22, T(12));
    assert Regs(a, b, c, d) == Run(h, x, 12);
    a := Set(F(b, c, d), a, b, x[12], 7, T(13));
    assert Regs(d, a, b, c) == Run(h, x, 13);
    d := Set(F(a, b, c), d, a, x[13], 12, T(14));
    assert Regs(c, d, a, b) == Run(h, x, 14);
    c := Set(F(d, a, b), c, d, x[14], 17, T(15));
    assert Regs(b, c, d, a) == Run(h, x, 15);
    b := Set(F(c, d, a), b, c, x[15], 22, T(16));
    assert Regs(a, b, c, d) == Run(h, x, 16);
    r := Regs(a, b, c, d);
  }

  method Round2(ghost h: Regs, x: seq<Word>, r0: Regs) returns (r: Regs)
    requires |x| == 16 && r0 == Run(h, x, 16)
    ensures r == Run(h, x, 32)
  {
    hide Set, F, G, H, I, T;
    var a, b, c, d := r0.a, r0.b, r0.c, r0.d;
    a := Set(G(b, c, d), a, b, x[1], 5, T(17));
    assert Regs(d, a, b, c) == Run(h, x, 17);
    d := Set(G(a, b, c), d, a, x[6], 9, T(18));
    assert Regs(c, d, a, b) == Run(h, x, 18);
    c := Set(G(d, a, b), c, d, x[11], 14, T(19));
    assert Regs(b, c, d, a) == Run(h, x, 19);
    b := Set(G(c, d, a), b, c, x[0], 20, T(20));
    assert Regs(a, b, c, d) == Run(h, x, 20);
    a := Set(G(b, c, d), a, b, x[5], 5, T(21));
    assert Regs(d, a, b, c) == Run(h, x, 21);
    d := Set(G(a, b, c), d, a, x[10], 9, T(22));
    assert Regs(c, d, a, b) == Run(h, x, 22);
    c := Set(G(d, a, b), c, d, x[15], 14, T(23));
    assert Regs(b, c, d, a) == Run(h, x, 23);
    b := Set(G(c, d, a), b, c, x[4], 20, T(24));
    assert Regs(a, b, c, d) == Run(h, x, 24);
    a := Set(G(b, c, d), a, b, x[9], 5, T(25));
    assert Regs(d, a, b, c) == Run(h, x, 25);
    d := Set(G(a, b, c), d, a, x[14], 9, T(26));
    assert Regs(c, d, a, b) == Run(h, x, 26);
    c := Set(G(d, a, b), c, d, x[3], 14, T(27));
    assert Regs(b, c, d, a) == Run(h, x, 27);
    b := Set(G(c, d, a), b, c, x[8], 20, T(28));
    assert Regs(a, b, c, d) == Run(h, x, 28);
    a := Set(G(b, c, d), a, b, x[13], 5, T(29));
    assert Regs(d, a, b, c) == Run(h, x, 29);
    d := Set(G(a, b, c), d, a, x[2], 9, T(30));
    assert Regs(c, d, a, b) == Run(h, x, 30);
    c := Set(G(d, a, b), c, d, x[7], 14, T(31));
    assert Regs(b, c, d, a) == Run(h, x, 31);
    b := Set(G(c, d, a), b, c, x[12], 20, T(32));
    assert Regs(a, b, c, d) == Run(h, x, 32);
    r := Regs(a, b, c, d);
  }

  method Round3(ghost h: Regs, x: seq<Word>, r0: Regs) returns (r: Regs)
    requires |x| == 16 && r0 == Run(h, x, 32)
    ensures r == Run(h, x, 48)
  {
    hide Set, F, G, H, I, T;
    var a, b, c, d := r0.a, r0.b, r0.c, r0.d;
    a := Set(H(b, c, d), a, b, x[5], 4, T(33));
    assert Regs(d, a, b, c) == Run(h, x, 33);
    d := Set(H(a, b, c), d, a, x[8], 11, T(34));
    assert Regs(c, d, a, b) == Run(h, x, 34);
    c := Set(H(d, a, b), c, d, x[11], 16, T(35));
    assert Regs(b, c, d, a) == Run(h, x, 35);
    b := Set(H(c, d, a), b, c, x[14], 23, T(36));
    assert Regs(a, b, c, d) == Run(h, x, 36);
    a := Set(H(b, c, d), a, b, x[1], 4, T(37));
    assert Regs(d, a, b, c) == Run(h, x, 37);
    d := Set(H(a, b, c), d, a, x[4], 11, T(38));
    assert Regs(c, d, a, b) == Run(h, x, 38);
    c := Set(H(d, a, b), c, d, x[7], 16, T(39));
    assert Regs(b, c, d, a) == Run(h, x, 39);
    b := Set(H(c, d, a), b, c, x[10], 23, T(40));
    assert Regs(a, b, c, d) == Run(h, x, 40);
    a := Set(H(b, c, d), a, b, x[13], 4, T(41));
    assert Regs(d, a, b, c) == Run(h, x, 41);
    d := Set(H(a, b, c), d, a, x[0], 11, T(42));
    assert Regs(c, d, a, b) == Run(h, x, 42);
    c := Set(H(d, a, b), c, d, x[3], 16, T(43));
    assert Regs(b, c, d, a) == Run(h, x, 43);
    b := Set(H(c, d, a), b, c, x[6], 23, T(44));
    assert Regs(a, b, c, d) == Run(h, x, 44);
    a := Set(H(b, c, d), a, b, x[9], 4, T(45));
    assert Regs(d, a, b, c) == Run(h, x, 45);
    d := Set(H(a, b, c), d, a, x[12], 11, T(46));
    assert Regs(c, d, a, b) == Run(h, x, 46);
    c := Set(H(d, a, b), c, d, x[15], 16, T(47));
    assert Regs(b, c, d, a) == Run(h, x, 47);
    b := Set(H(c, d, a), b, c, x[2], 23, T(48));
    assert Regs(a, b, c, d) == Run(h, x, 48);
    r := Regs(a, b, c, d);
  }

  method Round4(ghost h: Regs, x: seq<Word>, r0: Regs) returns (r: Regs)
    requires |x| == 16 && r0 == Run(h, x, 48)
    ensures r == Run(h, x, 64)
  {
    hide Set, F, G, H, I, T;
    var a, b, c, d := r0.a, r0.b, r0.c, r0.d;
    a := Set(I(b, c, d), a, b, x[0], 6, T(49));
    assert Regs(d, a, b, c) == Run(h, x, 49);
    d := Set(I(a, b, c), d, a, x[7], 10, T(50));
    assert Regs(c, d, a, b) == Run(h, x, 50);
    c := Set(I(d, a, b), c, d, x[14], 15, T(51));
    assert Regs(b, c, d, a) == Run(h, x, 51);
    b := Set(I(c, d, a), b, c, x[5], 21, T(52));
    assert Regs(a, b, c, d) == Run(h, x, 52);
    a := Set(I(b, c, d), a, b, x[12], 6, T(53));
    assert Regs(d, a, b, c) == Run(h, x, 53);
    d := Set(I(a, b, c), d, a, x[3], 10, T(54));
    assert Regs(c, d, a, b) == Run(h, x, 54);
    c := Set(I(d, a, b), c, d, x[10], 15, T(55));
    assert Regs(b, c, d, a) == Run(h, x, 55);
    b := Set(I(c, d, a), b, c, x[1], 21, T(56));
    assert Regs(a, b, c, d) == Run(h, x, 56);
    a := Set(I(b, c, d), a, b, x[8], 6, T(57));
    assert Regs(d, a, b, c) == Run(h, x, 57);
    d := Set(I(a, b, c), d, a, x[15], 10, T(58));
    assert Regs(c, d, a, b) == Run(h, x, 58);
    c := Set(I(d, a, b), c, d, x[6], 15, T(59));
    assert Regs(b, c, d, a) == Run(h, x, 59);
    b := Set(I(c, d, a), b, c, x[13], 21, T(60));
    assert Regs(a, b, c, d) == Run(h, x, 60);
    a := Set(I(b, c, d), a, b, x[4], 6, T(61));
    assert Regs(d, a, b, c) == Run(h, x, 61);
    d := Set(I(a, b, c), d, a, x[11], 10, T(62));
    assert Regs(c, d, a, b) == Run(h, x, 62);
    c := Set(I(d, a, b), c, d, x[2], 15, T(63));
    assert Regs(b, c, d, a) == Run(h, x, 63);
    b := Set(I(c, d, a), b, c, x[9], 21, T(64));
    assert Regs(a, b, c, d) == Run(h, x, 64);
    r := Regs(a, b, c, d);
  }

  /** md5_process: the registers after one block. */
  method Process(h: Regs, block: Block) returns (r: Regs)
    ensures r == Compress(h, block)
  {
    hide Run, Operation, Add32;
    var x := LoadWords(block);
    RunStart(h, x);
    r := Round1(h, x, h);
    r := Round2(h, x, r);
    r := Round3(h, x, r);
    r := Round4(h, x, r);
    r := Regs(Add32(h.a, r.a), Add32(h.b, r.b), Add32(h.c, r.c), Add32(h.d, r.d));
  }

  lemma RunStart(h: Regs, x: seq<Word>)
    requires |x| == 16
    ensures Run(h, x, 0) == h
  {
  }

  method LoadWords(block: Block) returns (x: seq<Word>)
    ensures x == WordsOf(block)
  {
    hide FromOctets;
    x := [];
    for i := 0 to 16
      invariant |x| == i && forall t :: 0 <= t < i ==> x[t] == WordsOf(block)[t]
    {
      x := x + [FromOctets(block[4 * i], block[4 * i + 1], block[4 * i + 2], block[4 * i + 3])];
    }
  }

  // ---------------------------------------------------------------- counting

  /** The two count words are the bit total modulo 2 to the 64th. */
  predicate Counts(high: Word, low: Word, length: nat) {
    high as int * TWO_32 + low as int == 8 * length % TWO_64
  }

  lemma Multiples(m: nat, y: nat)
    ensures (64 * m + y) % 64 == y % 64
  {
  }

  lemma ZerosByMask(length: nat, x: int)
    requires x % 64 == length % 64
    ensures (55 - x) % 64 == ZerosFor(length)
  {
  }

  /** The position in the block is read off the low count word. */
  lemma {:induction false} OffsetOfCount(high: Word, low: Word, length: nat)
    requires Counts(high, low, length)
    ensures low as int / 8 % 64 == length % 64
    ensures (55 - low as int / 8) % 64 == ZerosFor(length)
  {
    var q, y := 8 * length / TWO_64, low as int / 8;
    assert 8 * length == q * 0x1_0000_0000_0000_0000 + high as int * 0x1_0000_0000 + low as int;
    assert length == 64 * (q * 0x80_0000_0000_0000 + high as int * 0x80_0000) + y;
    Multiples(q * 0x80_0000_0000_0000 + high as int * 0x80_0000, y);
    ZerosByMask(length, y);
  }

  /** The carry from the low into the high count word. */
  lemma {:induction false} CountMore(high: Word, low: Word, length: nat, n: nat)
    requires Counts(high, low, length) && n < 0x8000_0000
    ensures var nbits := 8 * n % TWO_32;
      var l := Add32(low, nbits);
      var h := Add32(high, n / 0x2000_0000);
      Counts(if l < nbits then Add32(h, 1) else h, l, length + n)
  {
    var nbits, hi := 8 * n % TWO_32, n / 0x2000_0000;
    assert 8 * n == hi * 0x1_0000_0000 + nbits;
    var total := high as int * 0x1_0000_0000 + low + 8 * n;
    var q := 8 * length / TWO_64;
    assert 8 * (length + n) == q * 0x1_0000_0000_0000_0000 + total;
    SameRemainder(total, q);
    CarryOnce(high, low, hi, nbits);
  }

  lemma SameRemainder(x: nat, q: nat)
    ensures (q * 0x1_0000_0000_0000_0000 + x) % TWO_64 == x % TWO_64
  {
  }

  lemma {:induction false} CarryOnce(high: Word, low: Word, hi: Word, lo: Word)
    ensures var l := Add32(low, lo); var h := Add32(high, hi);
      (if l < lo then Add32(h, 1) else h) as int * TWO_32 + l as int
        == ((high as int + hi as int) * 0x1_0000_0000 + low as int + lo as int) % TWO_64
  {
    var l, h := Add32(low, lo), Add32(high, hi);
    var carry := if low as int + lo as int >= 0x1_0000_0000 then 1 else 0;
    assert l < lo <==> carry == 1;
    assert l as int == low as int + lo as int - carry * 0x1_0000_0000;
    var sum := high as int + hi as int + carry;
    var wrap := sum / 0x1_0000_0000;
    assert (if l < lo then Add32(h, 1) else h) as int == sum - wrap * 0x1_0000_0000;
    assert (high as int + hi as int) * 0x1_0000_0000 + low as int + lo as int
      == wrap * 0x1_0000_0000_0000_0000 + (sum - wrap * 0x1_0000_0000) * 0x1_0000_0000 + l as int;
  }

  // ---------------------------------------------------------------- the streaming state

  /** The message so far, as the state holds it. */
  ghost predicate Holds(s: seq<Byte>, n: nat, abcd: Regs, buf: seq<Byte>, index: nat) {
    Holding(Compress, INITIAL, s, n, abcd, buf, index)
  }

  class State {
    var count0: Word
    var count1: Word
    var abcd: Regs
    const buf: array<Byte>
    /** The octets appended since the last Init. */
    ghost var fed: seq<Byte>

    /** Count, registers and the live part of the buffer depend on nothing but the octets appended. */
    ghost predicate Valid()
      reads this, buf
    {
      && buf.Length == 64 && Counts(count1, count0, |fed|)
      && Holds(fed, |fed| / 64, abcd, buf[..], |fed| % 64)
    }

    constructor ()
      ensures Valid() && fresh(buf) && fed == []
    {
      count0, count1, abcd, fed := 0, 0, INITIAL, [];
      buf := new Byte[64](_ => 0);
    }

    /** md5_init. */
    method Init()
      requires buf.Length == 64
      modifies this
      ensures Valid() && fed == []
    {
      count0, count1 := 0, 0;
      abcd := Regs(0x67452301, 0xEFCDAB89, 0x98BADCFE, 0x10325476);
      fed := [];
    }

    /** memcpy(buf + offset, data + pos, copy). */
    method CopyIn(offset: nat, data: seq<Byte>, pos: nat, copy: nat, ghost s: seq<Byte>, ghost n: nat)
      requires buf.Length == 64 && offset + copy <= 64 && pos + copy <= |data| && Holds(s, n, abcd, buf[..], offset)
      modifies buf
      ensures Holds(s + Sub(data, pos, pos + copy), n, abcd, buf[..], offset + copy)
    {
      hide Compress;
      ghost var before := buf[..];
      var i := 0;
      while i < copy
        invariant 0 <= i <= copy
        invariant forall j :: offset <= j < offset + i ==> buf[j] == data[pos + (j - offset)]
        invariant forall k :: 0 <= k < offset ==> buf[k] == before[k]
      {
        buf[offset + i] := data[pos + i];
        i := i + 1;
      }
      ghost var more, after := Sub(data, pos, pos + copy), buf[..];
      forall k | 0 <= k < |more| ensures after[offset + k] == more[k] {
        assert after[offset + k] == data[pos + ((offset + k) - offset)];
      }
      HoldingMore(Compress, INITIAL, s, n, abcd, before, offset, more, after);
    }

    /** The three phases of md5_append: an initial partial block, full blocks, a final partial block. */
    method Feed(data: seq<Byte>, offset: nat)
      requires buf.Length == 64 && data != [] && offset == |fed| % 64
      requires Holds(fed, |fed| / 64, abcd, buf[..], offset)
      modifies buf, this`abcd, this`fed
      ensures fed == old(fed) + data && Holds(fed, |fed| / 64, abcd, buf[..], |fed| % 64)
    {
      hide Holds, Compress;
      ghost var start, n: nat, s := fed, |fed| / 64, fed;
      fed := fed + data;
      var pos, left := 0, |data|;
      SubAll(data);
      if offset != 0 {
        var copy := if offset + left > 64 then 64 - offset else left;
        CopyIn(offset, data, 0, copy, s, n);
        s := s + Sub(data, 0, copy);
        if offset + copy < 64 {
          Settled(fed, n, abcd, buf[..], offset + copy);
          return;
        }
        pos, left := copy, left - copy;
        FullBuffer(s, n, abcd, buf[..]);
        abcd := Process(abcd, buf[..]);
        n := n + 1;
      } else {
        assert s + Sub(data, 0, 0) == s;
      }
      while left >= 64
        invariant 0 <= pos && 0 <= left && pos + left == |data| && s == start + Sub(data, 0, pos) && Holds(s, n, abcd, buf[..], 0)
        invariant fed == start + data
        decreases left
      {
        var block: Block := Sub(data, pos, pos + 64);
        FullBlock(s, n, abcd, buf[..], block);
        Advance(start, data, pos, pos + 64);
        abcd := Process(abcd, block);
        s, n := s + block, n + 1;
        pos, left := pos + 64, left - 64;
      }
      Advance(start, data, pos, |data|);
      CopyIn(0, data, pos, left, s, n);
      Settled(fed, n, abcd, buf[..], left);
    }

    /** md5_append. The original counts octets in an int. */
    method Append(data: seq<Byte>)
      requires Valid() && |data| + 63 < 0x8000_0000
      modifies this, buf
      ensures Valid() && fed == old(fed) + data
    {
      hide Holds, Counts, Add32;
      var nbytes := |data|;
      OffsetOfCount(count1, count0, |fed|);
      CountMore(count1, count0, |fed|, nbytes);
      var offset := count0 as int / 8 % 64;
      var nbits := 8 * nbytes % TWO_32;
      if nbytes <= 0 {
        assert fed + data == fed;
        return;
      }
      count1 := Add32(count1, nbytes / 0x2000_0000);
      count0 := Add32(count0, nbits);
      if count0 < nbits { count1 := Add32(count1, 1); }
      Feed(data, offset);
    }

    /** md5_finish: the digest of everything appended. */
    method Finish() returns (digest: seq<Byte>)
      requires Valid()
      modifies this, buf
      ensures digest == Digest(old(fed))
    {
      hide Holds, Zeros, LowFirst, Blocks, Compress;
      ghost var message := fed;
      var data := LowFirst(count0) + LowFirst(count1);
      LengthOctets(count1, count0, |fed|);
      OffsetOfCount(count1, count0, |fed|);
      var zeros := (55 - count0 as int / 8) % 64;
      Append([0x80] + Zeros(zeros));
      Append(data);
      assert fed == Pad(message) by { PaddedIs(message, zeros, data); }
      Whole(fed, abcd, buf[..]);
      digest := LowFirst(abcd.a) + LowFirst(abcd.b) + LowFirst(abcd.c) + LowFirst(abcd.d);
    }
  }

  lemma {:induction false} Settled(s: seq<Byte>, n: nat, abcd: Regs, buf: seq<Byte>, index: nat)
    requires index < 64 && Holds(s, n, abcd, buf, index)
    ensures Holds(s, |s| / 64, abcd, buf, |s| % 64)
  {
    LengthWhenHolding(Compress, INITIAL, s, n, abcd, buf, index);
  }

  lemma {:induction false} FullBuffer(s: seq<Byte>, n: nat, abcd: Regs, buf: seq<Byte>)
    requires Holds(s, n, abcd, buf, 64)
    ensures |buf| == 64 && Holds(s, n + 1, Compress(abcd, buf), buf, 0)
  {
    HoldingFull(Compress, INITIAL, s, n, abcd, buf);
  }

  lemma {:induction false} FullBlock(s: seq<Byte>, n: nat, abcd: Regs, buf: seq<Byte>, block: Block)
    requires Holds(s, n, abcd, buf, 0)
    ensures Holds(s + block, n + 1, Compress(abcd, block), buf, 0)
  {
    HoldingBlock(Compress, INITIAL, s, n, abcd, buf, block);
  }

  lemma {:induction false} Advance(start: seq<Byte>, data: seq<Byte>, pos: nat, to: nat)
    requires pos <= to <= |data|
    ensures start + Sub(data, 0, pos) + Sub(data, pos, to) == start + Sub(data, 0, to)
    ensures to == |data| ==> start + Sub(data, 0, to) == start + data
  {
  }

  lemma {:induction false} LengthOctets(high: Word, low: Word, length: nat)
    requires Counts(high, low, length)
    ensures LowFirst(low) + LowFirst(high) == BitLength(length)
  {
    hide LowFirst;
    QuotRem(TWO_32, high, low);
  }

  lemma {:induction false} PaddedIs(message: seq<Byte>, zeros: nat, data: seq<Byte>)
    requires zeros == ZerosFor(|message|) && data == BitLength(|message|)
    ensures message + ([0x80] + Zeros(zeros)) + data == Pad(message)
  {
  }

  lemma {:induction false} Whole(s: seq<Byte>, abcd: Regs, buf: seq<Byte>)
    requires |s| % 64 == 0 && Holds(s, |s| / 64, abcd, buf, |s| % 64)
    ensures abcd == Blocks(Compress, INITIAL, s, |s| / 64)
  {
    HoldingWhole(Compress, INITIAL, s, |s| / 64, abcd, buf);
  }

  /**
   Any split gives the same state: whatever the calls that appended the octets, equal octets leave equal counts,
   equal registers and equal octets in the live part of the buffer.
   */
  lemma {:induction false} StateIsDetermined(p: State, q: State)
    requires p.Valid() && q.Valid() && p.fed == q.fed
    ensures p.count0 == q.count0 && p.count1 == q.count1 && p.abcd == q.abcd
    ensures p.buf[..|p.fed| % 64] == q.buf[..|p.fed| % 64]
  {
    hide Blocks;
    QuotRem(TWO_32, p.count1, p.count0);
    QuotRem(TWO_32, q.count1, q.count0);
    var n := |p.fed| % 64;
    forall k | 0 <= k < n ensures p.buf[..n][k] == q.buf[..n][k] {
      assert p.buf[..][k] == q.buf[..][k];
    }
  }
}
