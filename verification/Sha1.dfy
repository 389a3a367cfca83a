/** SHA-1 as in FIPS PUB 180-1, and the streaming context that computes it. */
module Sha1 {
  import opened Bytes
  import opened Ntohl
  import opened Seqs
  import opened Words
  import opened BlockHash

  // ---------------------------------------------------------------- the standard

  datatype Hash = Hash(a: Word, b: Word, c: Word, d: Word, e: Word)

  const INITIAL: Hash := Hash(0x67452301, 0xEFCDAB89, 0x98BADCFE, 0x10325476, 0xC3D2E1F0)

  /** Section 5: the functions f(t; B, C, D). */
  function F(t: nat, b: Word, c: Word, d: Word): Word {
    if t < 20 then Or32(And32(b, c), And32(Not32(b), d))
    else if 40 <= t < 60 then Or32(Or32(And32(b, c), And32(b, d)), And32(c, d))
    else Xor32(Xor32(b, c), d)
  }

  /** Section 6: the constants K(t). */
  function K(t: nat): Word {
    if t < 20 then 0x5A827999 else if t < 40 then 0x6ED9EBA1 else if t < 60 then 0x8F1BBCDC else 0xCA62C1D6
  }

  /** Bit by bit: a choice by b, the majority of the three, or their parity. */
  lemma {:induction false} FBit(t: nat, b: Word, c: Word, d: Word, k: nat)
    requires k < 32
    ensures Bit(F(t, b, c, d), k) <==>
      if t < 20 then (if Bit(b, k) then Bit(c, k) else Bit(d, k))
      else if 40 <= t < 60 then (if Bit(b, k) == Bit(c, k) then Bit(b, k) else Bit(d, k))
      else Bit(b, k) != (Bit(c, k) != Bit(d, k))
  {
    hide And32, Or32, Xor32, Not32, Bit;
    if t < 20 {
      And32Bit(b, c, k);
      Not32Bit(b, k);
      And32Bit(Not32(b), d, k);
      Or32Bit(And32(b, c), And32(Not32(b), d), k);
    } else if 40 <= t < 60 {
      And32Bit(b, c, k);
      And32Bit(b, d, k);
      And32Bit(c, d, k);
      Or32Bit(And32(b, c), And32(b, d), k);
      Or32Bit(Or32(And32(b, c), And32(b, d)), And32(c, d), k);
    } else {
      Xor32Bit(b, c, k);
      Xor32Bit(Xor32(b, c), d, k);
    }
  }

  /** The constants are the first 32 bits of the square roots of 2, 3, 5 and 10, as 30 binary digits behind the point. */
  lemma KIsSquareRoot(t: nat)
    requires t < 80
    ensures var k, n := K(t) as int, if t < 20 then 2 else if t < 40 then 3 else if t < 60 then 5 else 10;
      k * k <= n * 0x1000_0000_0000_0000 < (k + 1) * (k + 1)
  {
  }

  /** The initial registers are the octets 01 23 ... ef and fe dc ... 10 in turn, and f0 e1 d2 c3, the lowest first. */
  lemma {:induction false} InitialOctets()
    ensures INITIAL.a == FromOctets(0x01, 0x23, 0x45, 0x67) && INITIAL.b == FromOctets(0x89, 0xAB, 0xCD, 0xEF)
    ensures INITIAL.c == FromOctets(0xFE, 0xDC, 0xBA, 0x98) && INITIAL.d == FromOctets(0x76, 0x54, 0x32, 0x10)
    ensures INITIAL.e == FromOctets(0xF0, 0xE1, 0xD2, 0xC3)
  {
  }

  /** Section 7, steps a and b: the words W(t) of a block. */
  function W(block: Block, t: nat): Word
    requires t < 80
  {
    if t < 16 then FromOctets(block[4 * t + 3], block[4 * t + 2], block[4 * t + 1], block[4 * t])
    else RotateLeft(1, Xor32(Xor32(Xor32(W(block, t - 3), W(block, t - 8)), W(block, t - 14)), W(block, t - 16)))
  }

  /** The words of a block are its octets in network order. */
  lemma {:induction false} WordsAreNetworkOrder(block: Block, t: nat)
    requires t < 16
    ensures W(block, t) == BeValue(Sub(block, 4 * t, 4 * t + 4))
  {
    BeFour(Sub(block, 4 * t, 4 * t + 4));
  }

  /** A later word is the parity of four earlier ones, one place up. */
  lemma {:induction false} WBit(block: Block, t: nat, k: nat)
    requires 16 <= t < 80 && k < 32
    ensures var j := (k + 31) % 32;
      Bit(W(block, t), k) <==>
        ((Bit(W(block, t - 3), j) != Bit(W(block, t - 8), j)) != (Bit(W(block, t - 14), j) != Bit(W(block, t - 16), j)))
  {
    hide Xor32, RotateLeft, Bit;
    var j := (k + 31) % 32;
    var x, y := Xor32(W(block, t - 3), W(block, t - 8)), Xor32(Xor32(W(block, t - 3), W(block, t - 8)), W(block, t - 14));
    Xor32Bit(W(block, t - 3), W(block, t - 8), j);
    Xor32Bit(x, W(block, t - 14), j);
    Xor32Bit(y, W(block, t - 16), j);
    RotateLeftBit(1, Xor32(y, W(block, t - 16)), k);
  }

  /** Step d. */
  function Round(h: Hash, t: nat, w: Word): Hash {
    Hash(Add32(Add32(Add32(Add32(RotateLeft(5, h.a), F(t, h.b, h.c, h.d)), h.e), w), K(t)),
         h.a, RotateLeft(30, h.b), h.c, h.d)
  }

  function Rounds(h: Hash, block: Block, t: nat): Hash
    requires t <= 80
  {
    if t == 0 then h else Round(Rounds(h, block, t - 1), t - 1, W(block, t - 1))
  }

  /** Steps c to e: one block. */
  function Compress(h: Hash, block: Block): Hash {
    var r := Rounds(h, block, 80);
    Hash(Add32(h.a, r.a), Add32(h.b, r.b), Add32(h.c, r.c), Add32(h.d, r.d), Add32(h.e, r.e))
  }

  // ---------------------------------------------------------------- the alternate method

  /** Section 8, step a: sixteen words, of which step t replaces one when t is at least 16. */
  function Ring(block: Block, t: nat): (w: seq<Word>)
    requires t <= 80
    ensures |w| == 16
  {
    if t == 0 then
      seq(16, j requires 0 <= j < 16 => FromOctets(block[4 * j + 3], block[4 * j + 2], block[4 * j + 1], block[4 * j]))
    else
      var w, s := Ring(block, t - 1), (t - 1) % 16;
      if t - 1 < 16 then w
      else w[s := RotateLeft(1, Xor32(Xor32(Xor32(w[(s + 13) % 16], w[(s + 8) % 16]), w[(s + 2) % 16]), w[s]))]
  }

  /** Steps b to d: the five registers after t steps. */
  function Alternate(a: Word, b: Word, c: Word, d: Word, e: Word, block: Block, t: nat): (Word, Word, Word, Word, Word)
    requires t <= 80
  {
    if t == 0 then (a, b, c, d, e)
    else
      var (a1, b1, c1, d1, e1) := Alternate(a, b, c, d, e, block, t - 1);
      var temp := Add32(Add32(Add32(Add32(RotateLeft(5, a1), F(t - 1, b1, c1, d1)), e1), Ring(block, t)[(t - 1) % 16]), K(t - 1));
      (temp, a1, RotateLeft(30, b1), c1, d1)
  }

  lemma {:induction false} PlacesBack(t: nat)
    requires 16 <= t < 80
    ensures var s := t % 16;
      && (s + 13) % 16 == (t - 3) % 16 && (s + 8) % 16 == (t - 8) % 16 && (s + 2) % 16 == (t - 14) % 16
      && s == (t - 16) % 16
  {
    var q, s := t / 16, t % 16;
    assert t - 3 == 16 * (q - 1) + (s + 13) && t - 8 == 16 * (q - 1) + (s + 8) && t - 14 == 16 * (q - 1) + (s + 2);
    SameRemainder16(q - 1, s + 13);
    SameRemainder16(q - 1, s + 8);
    SameRemainder16(q - 1, s + 2);
    SameRemainder16(q - 1, s);
  }

  lemma SameRemainder16(q: nat, r: nat)
    ensures (16 * q + r) % 16 == r % 16
  {
  }

  /** What one step does to the ring, and how a later word is made. */
  lemma {:induction false} RingOn(block: Block, t: nat, j: nat)
    requires 16 <= t < 80 && j < 16
    ensures var w, s := Ring(block, t), t % 16;
      Ring(block, t + 1)[j] == if j != s then w[j]
        else RotateLeft(1, Xor32(Xor32(Xor32(w[(s + 13) % 16], w[(s + 8) % 16]), w[(s + 2) % 16]), w[s]))
  {
    hide RotateLeft, Xor32, FromOctets;
  }

  lemma {:induction false} WordOn(block: Block, t: nat)
    requires 16 <= t < 80
    ensures W(block, t)
      == RotateLeft(1, Xor32(Xor32(Xor32(W(block, t - 3), W(block, t - 8)), W(block, t - 14)), W(block, t - 16)))
  {
    hide RotateLeft, Xor32;
  }

  lemma {:induction false} RingStarts(block: Block, t: nat, j: nat)
    requires t <= 16 && j < 16
    ensures Ring(block, t)[j] == W(block, j)
    decreases t
  {
    hide RotateLeft, Xor32, FromOctets;
    if t > 0 { RingStarts(block, t - 1, j); }
  }

  /** The ring holds the last sixteen words. */
  lemma {:induction false} RingIs(block: Block, t: nat, i: nat)
    requires 16 <= t <= 80 && t - 16 <= i < t
    ensures Ring(block, t)[i % 16] == W(block, i)
    decreases t
  {
    hide RotateLeft, Xor32, Ring, W;
    if t == 16 {
      RingStarts(block, 16, i);
    } else {
      var n := t - 1;
      if i < n {
        RingOn(block, n, i % 16);
        Distinct16(i, n);
        RingIs(block, n, i);
      } else {
        RingIs(block, n, n - 3);
        RingIs(block, n, n - 8);
        RingIs(block, n, n - 14);
        RingIs(block, n, n - 16);
        NewInRing(block, n);
      }
    }
  }

  lemma {:induction false} NewInRing(block: Block, t: nat)
    requires 16 <= t < 80 && Ring(block, t)[(t - 3) % 16] == W(block, t - 3) && Ring(block, t)[(t - 8) % 16] == W(block, t - 8)
    requires Ring(block, t)[(t - 14) % 16] == W(block, t - 14) && Ring(block, t)[(t - 16) % 16] == W(block, t - 16)
    ensures Ring(block, t + 1)[t % 16] == W(block, t)
  {
    hide RotateLeft, Xor32, Ring, W;
    PlacesBack(t);
    RingOn(block, t, t % 16);
    WordOn(block, t);
  }

  lemma Distinct16(i: nat, n: nat)
    requires n - 15 <= i < n
    ensures i % 16 != n % 16
  {
  }

  /** Both methods of the standard compute the same, one with 80 words and one with 16. */
  lemma {:induction false} AlternateIsSame(h: Hash, block: Block, t: nat)
    requires t <= 80
    ensures var r := Rounds(h, block, t); Alternate(h.a, h.b, h.c, h.d, h.e, block, t) == (r.a, r.b, r.c, r.d, r.e)
  {
    hide RotateLeft, Add32, F, K, Ring, W;
    if t > 0 {
      AlternateIsSame(h, block, t - 1);
      if t < 16 { RingStarts(block, t, t - 1); } else { RingIs(block, t, t - 1); }
    }
  }

  /** Step e: one block by the alternate method. */
  lemma {:induction false} CompressIsAlternate(h: Hash, block: Block)
    ensures var (a, b, c, d, e) := Alternate(h.a, h.b, h.c, h.d, h.e, block, 80);
      Compress(h, block) == Hash(Add32(h.a, a), Add32(h.b, b), Add32(h.c, c), Add32(h.d, d), Add32(h.e, e))
  {
    hide Add32, Alternate, Rounds;
    AlternateIsSame(h, block, 80);
  }

  function BitLength(n: nat): (s: seq<Byte>)
    ensures |s| == 8
  {
    BeBytes(8 * n, 8)
  }

  /** Section 4: a one bit, zeros, and the length in bits as 64 bits. */
  function Pad(s: seq<Byte>): (p: seq<Byte>)
    ensures |p| == |s| + 1 + ZerosFor(|s|) + 8
  {
    s + [0x80] + Zeros(ZerosFor(|s|)) + BitLength(|s|)
  }

  /** A padded message in plain terms: whole blocks, the message, a one bit, zeros, and the number of its bits. */
  lemma {:induction false} PadPlainly(s: seq<Byte>)
    requires 8 * |s| < TWO_64
    ensures var p := Pad(s); var n := |p|;
      && n % 64 == 0 && n < |s| + 73 && p[..|s|] == s && p[|s|] == 0x80
      && (forall k :: |s| < k < n - 8 ==> p[k] == 0) && BeValue(p[n - 8..]) == 8 * |s|
  {
    hide BeBytes, BeValue;
    var p := Pad(s);
    assert p[|p| - 8..] == BitLength(|s|);
    assert Pow256(4) == 0x1_0000_0000;
    assert Pow256(8) == TWO_64;
    BeRoundTrip(8 * |s|, 8);
  }

  /** Section 7. */
  function Digest(s: seq<Byte>): Hash {
    Blocks(Compress, INITIAL, Pad(s), |Pad(s)| / 64)
  }

  // ---------------------------------------------------------------- the streaming context

  /** The message so far, as the context holds it. */
  ghost predicate Holds(s: seq<Byte>, n: nat, digest: Hash, block: seq<Byte>, index: nat) {
    Holding(Compress, INITIAL, s, n, digest, block, index)
  }

  class Context {
    var digest: Hash
    var lengthLow: Word
    var lengthHigh: Word
    const block: array<Byte>
    var index: nat
    var computed: bool
    var corrupted: bool
    /** The octets given to Input since the last Reset. */
    ghost var fed: seq<Byte>

    /** The two length words are always 8 times the octets fed. */
    ghost predicate Valid()
      reads this, block
    {
      && block.Length == 64
      && (!corrupted ==> lengthHigh as int * TWO_32 + lengthLow as int == 8 * |fed|)
      && (!corrupted && computed ==> digest == Digest(fed))
      && (!corrupted && !computed ==> index < 64 && Holds(fed, |fed| / 64, digest, block[..], index))
    }

    constructor ()
      ensures Valid() && fresh(block) && fed == [] && !computed && !corrupted
    {
      hide Digest, Compress;
      digest, lengthLow, lengthHigh, index, computed, corrupted, fed := INITIAL, 0, 0, 0, false, false, [];
      block := new Byte[64](_ => 0);
    }

    /** SHA1Reset. */
    method Reset()
      requires block.Length == 64
      modifies this
      ensures Valid() && fed == [] && !computed && !corrupted
    {
      lengthLow, lengthHigh, index := 0, 0, 0;
      digest := Hash(0x67452301, 0xEFCDAB89, 0x98BADCFE, 0x10325476, 0xC3D2E1F0);
      computed, corrupted, fed := false, false, [];
    }

    /** SHA1ProcessMessageBlock. */
    method ProcessBlock()
      requires block.Length == 64
      modifies this`digest, this`index
      ensures digest == Compress(old(digest), block[..]) && index == 0
    {
      hide F, K, Round, RotateLeft, Add32;
      var words := Schedule(block[..]);
      var h, t := digest, 0;
      while t < 80
        invariant 0 <= t <= 80 && h == Rounds(digest, block[..], t) && digest == old(digest)
      {
        h := OneRound(h, t, words[t]);
        t := t + 1;
      }
      digest := Hash(Add32(digest.a, h.a), Add32(digest.b, h.b), Add32(digest.c, h.c), Add32(digest.d, h.d), Add32(digest.e, h.e));
      index := 0;
    }

    /** Puts one octet behind those in the block buffer; `s` is what has been put so far. */
    method PutOctet(x: Byte, ghost s: seq<Byte>, ghost n: nat)
      requires block.Length == 64 && index < 64 && Holds(s, n, digest, block[..], index)
      modifies block, this`index
      ensures index == old(index) + 1 && Holds(s + [x], n, digest, block[..], index)
    {
      ghost var before := block[..];
      block[index] := x;
      HoldingMore(Compress, INITIAL, s, n, digest, before, index, [x], block[..]);
      index := index + 1;
    }

    /** Zeros up to position `end` of the block. */
    method PutZeros(end: nat, ghost s: seq<Byte>, ghost n: nat)
      requires block.Length == 64 && index <= end <= 64 && Holds(s, n, digest, block[..], index)
      modifies block, this`index
      ensures index == end && Holds(s + Zeros(end - old(index)), n, digest, block[..], index)
    {
      ghost var k := 0;
      assert s + Zeros(0) == s;
      hide Holds;
      while index < end
        invariant index == old(index) + k <= end && Holds(s + Zeros(k), n, digest, block[..], index)
      {
        PutOctet(0, s + Zeros(k), n);
        ZerosAdd(s, k, 1);
        k := k + 1;
      }
    }

    method ProcessFull(ghost s: seq<Byte>, ghost n: nat)
      requires block.Length == 64 && Holds(s, n, digest, block[..], 64)
      modifies this`digest, this`index
      ensures index == 0 && Holds(s, n + 1, digest, block[..], 0)
    {
      hide Compress;
      HoldingFull(Compress, INITIAL, s, n, digest, block[..]);
      ProcessBlock();
    }

    /** The first part of SHA1PadMessage: the one bit and zeros up to position 56, through a further block if needed. */
    method PadBits(ghost n: nat) returns (ghost blocks: nat)
      requires block.Length == 64 && index < 64 && Holds(fed, n, digest, block[..], index)
      modifies block, this`digest, this`index
      ensures index == 56 && Holds(fed + [0x80] + Zeros(ZerosFor(|fed|)), blocks, digest, block[..], index)
    {
      hide Holding, Blocks, ZerosFor, Zeros;
      ghost var s := fed + [0x80];
      var used := index;
      LengthWhenHolding(Compress, INITIAL, fed, n, digest, block[..], index);
      IndexIsRemainder(|fed|, n, used);
      blocks := n;
      PutOctet(0x80, fed, n);
      if used > 55 {
        PutZeros(64, s, n);
        ProcessFull(s + Zeros(63 - used), n);
        blocks := n + 1;
        PutZeros(56, s + Zeros(63 - used), blocks);
        ZerosAdd(s, 63 - used, 56);
      } else {
        PutZeros(56, s, n);
      }
    }

    /** SHA1PadMessage. */
    method PadMessage()
      requires Valid() && !computed && !corrupted
      modifies block, this`digest, this`index
      ensures digest == Digest(fed)
    {
      hide Holding, Blocks, ZerosFor;
      ghost var blocks := PadBits(|fed| / 64);
      ghost var s := fed + [0x80] + Zeros(ZerosFor(|fed|));
      PutLength(s, blocks);
      LengthOctets(lengthHigh, lengthLow, |fed|);
      Regroup(s, HighFirst(lengthHigh), HighFirst(lengthLow));
      PaddedIs(fed, s);
      ProcessFull(Pad(fed), blocks);
      HoldingWhole(Compress, INITIAL, Pad(fed), blocks + 1, digest, block[..]);
    }

    /** The length as the last 8 octets. */
    method PutLength(ghost s: seq<Byte>, ghost n: nat)
      requires block.Length == 64 && index == 56 && Holds(s, n, digest, block[..], index)
      modifies block, this`index
      ensures index == 64
      ensures Holds(s + HighFirst(lengthHigh) + HighFirst(lengthLow), n, digest, block[..], index)
    {
      var h, l := HighFirst(lengthHigh), HighFirst(lengthLow);
      ghost var all := s;
      hide Holding, HighFirst;
      var i := 0;
      while i < 4
        invariant 0 <= i <= 4 && index == 56 + i && all == s + h[..i] && Holds(all, n, digest, block[..], index)
      {
        PutOctet(h[i], all, n);
        all, i := all + [h[i]], i + 1;
      }
      assert h[..4] == h;
      i := 0;
      while i < 4
        invariant 0 <= i <= 4 && index == 60 + i && all == s + h + l[..i] && Holds(all, n, digest, block[..], index)
      {
        PutOctet(l[i], all, n);
        all, i := all + [l[i]], i + 1;
      }
      assert l[..4] == l;
    }

    /** Eight more bits, with the carry into the upper word; a message of 2 to the 64th bits is too long. */
    method CountOctet(ghost length: nat)
      requires length > 0 && !corrupted && lengthHigh as int * TWO_32 + lengthLow as int == 8 * (length - 1)
      modifies this`lengthLow, this`lengthHigh, this`corrupted
      ensures corrupted <==> 8 * length >= TWO_64
      ensures !corrupted ==> lengthHigh as int * TWO_32 + lengthLow as int == 8 * length
    {
      CountBits(lengthHigh, lengthLow, length);
      lengthLow := (lengthLow as int + 8) % TWO_32;
      if lengthLow == 0 {
        lengthHigh := (lengthHigh as int + 1) % TWO_32;
        if lengthHigh == 0 { corrupted := true; }
      }
    }

    /** One turn of the loop of SHA1Input. */
    method InputOctet(x: Byte)
      requires Valid() && !computed && !corrupted
      modifies this, block
      ensures Valid() && !computed && fed == old(fed) + [x]
      ensures corrupted <==> 8 * |fed| >= TWO_64
    {
      hide Digest, Blocks, Holding;
      ghost var n := |fed| / 64;
      LengthWhenHolding(Compress, INITIAL, fed, n, digest, block[..], index);
      PutOctet(x, fed, n);
      fed := fed + [x];
      CountOctet(|fed|);
      if index == 64 {
        ProcessFull(fed, n);
        LengthWhenHolding(Compress, INITIAL, fed, n + 1, digest, block[..], 0);
      } else {
        LengthWhenHolding(Compress, INITIAL, fed, n, digest, block[..], index);
      }
    }

    /** SHA1Input: further octets, unless the digest was taken or the message is too long. */
    method Input(s: seq<Byte>)
      requires Valid()
      modifies this, block
      ensures Valid() && computed == old(computed)
      ensures s == [] ==> fed == old(fed) && corrupted == old(corrupted) && digest == old(digest)
      ensures s != [] && !old(computed) && !old(corrupted) && 8 * (|old(fed)| + |s|) < TWO_64
        ==> !corrupted && fed == old(fed) + s
      ensures s != [] && (old(computed) || old(corrupted) || 8 * (|old(fed)| + |s|) >= TWO_64) ==> corrupted
    {
      if |s| == 0 { return; }
      if computed || corrupted {
        corrupted := true;
        return;
      }
      hide Digest, Blocks, Holding;
      var i := 0;
      while i < |s| && !corrupted
        invariant 0 <= i <= |s| && Valid() && !computed
        invariant fed == old(fed) + s[..i] && (corrupted <==> 8 * |fed| >= TWO_64)
        decreases |s| - i
      {
        InputOctet(s[i]);
        i := i + 1;
      }
      assert s[..|s|] == s;
    }

    /** SHA1Result: the digest of everything fed; asking again changes nothing. */
    method Result() returns (ok: bool)
      requires Valid()
      modifies this, block
      ensures Valid() && fed == old(fed) && ok == !old(corrupted) && corrupted == old(corrupted)
      ensures ok ==> computed && digest == Digest(fed)
      ensures old(computed) ==> digest == old(digest) && computed
    {
      if corrupted { return false; }
      if !computed {
        PadMessage();
        computed := true;
      }
      return true;
    }
  }

  /** The octets of a word, the highest first, as shifts and masks give them. */
  function HighFirst(w: Word): (s: seq<Byte>)
    ensures |s| == 4
  {
    var s := Octets(w);
    [s[3], s[2], s[1], s[0]]
  }

  lemma IndexIsRemainder(length: nat, n: nat, used: nat)
    requires used < 64 && length == 64 * n + used
    ensures ZerosFor(length) == if used > 55 then 63 - used + 56 else 55 - used
  {
  }

  /** The two length words hold the bit length in network order. */
  lemma {:induction false} LengthOctets(high: Word, low: Word, length: nat)
    requires 8 * length == high as int * TWO_32 + low
    ensures HighFirst(high) + HighFirst(low) == BitLength(length)
  {
    var s := HighFirst(high) + HighFirst(low);
    FromOctetsOf(high);
    FromOctetsOf(low);
    BeEight(s);
    BeBytesOfValue(s);
  }

  lemma PaddedIs(message: seq<Byte>, s: seq<Byte>)
    requires s == message + [0x80] + Zeros(ZerosFor(|message|))
    ensures s + BitLength(|message|) == Pad(message)
  {
  }

  /** Counting one more octet carries into the upper word, and wraps to zero only at 2 to the 64th bits. */
  lemma {:induction false} CountBits(high: Word, low: Word, length: nat)
    requires length > 0 && high as int * TWO_32 + low as int == 8 * (length - 1)
    ensures var l := (low as int + 8) % TWO_32; var h := if l == 0 then (high as int + 1) % TWO_32 else high;
      && (l == 0 && h == 0 <==> 8 * length >= TWO_64)
      && (8 * length < TWO_64 ==> h * TWO_32 + l == 8 * length)
  {
  }

  /** The first two loops over the word sequence. */
  method Schedule(block: seq<Byte>) returns (words: seq<Word>)
    requires |block| == 64
    ensures |words| == 80 && forall t :: 0 <= t < 80 ==> words[t] == W(block, t)
  {
    hide RotateLeft, Xor32, FromOctets;
    words := [];
    for t := 0 to 16
      invariant |words| == t && forall i :: 0 <= i < t ==> words[i] == W(block, i)
    {
      words := words + [FromOctets(block[4 * t + 3], block[4 * t + 2], block[4 * t + 1], block[4 * t])];
    }
    for t := 16 to 80
      invariant |words| == t && forall i :: 0 <= i < t ==> words[i] == W(block, i)
    {
      words := words + [RotateLeft(1, Xor32(Xor32(Xor32(words[t - 3], words[t - 8]), words[t - 14]), words[t - 16]))];
    }
  }

  /** The body that the four round loops share, each with its own function and constant. */
  method OneRound(h: Hash, t: nat, w: Word) returns (r: Hash)
    requires t < 80
    ensures r == Round(h, t, w)
  {
    hide RotateLeft, Add32, And32, Or32, Xor32, Not32;
    var f, k;
    if t < 20 {
      f, k := Or32(And32(h.b, h.c), And32(Not32(h.b), h.d)), 0x5A827999;
    } else if t < 40 {
      f, k := Xor32(Xor32(h.b, h.c), h.d), 0x6ED9EBA1;
    } else if t < 60 {
      f, k := Or32(Or32(And32(h.b, h.c), And32(h.b, h.d)), And32(h.c, h.d)), 0x8F1BBCDC;
    } else {
      f, k := Xor32(Xor32(h.b, h.c), h.d), 0xCA62C1D6;
    }
    var temp := Add32(Add32(Add32(Add32(RotateLeft(5, h.a), f), h.e), w), k);
    r := Hash(temp, h.a, RotateLeft(30, h.b), h.c, h.d);
  }

  // ---------------------------------------------------------------- any split gives the digest

  lemma {:induction false} FlattenOn(chunks: seq<seq<Byte>>, i: nat)
    requires i < |chunks|
    ensures Flatten(chunks[..i + 1]) == Flatten(chunks[..i]) + chunks[i]
  {
    assert chunks[..i + 1] == chunks[..i] + [chunks[i]];
    FlattenAppend(chunks[..i], [chunks[i]]);
    assert Flatten([chunks[i]]) == chunks[i] + Flatten([chunks[i]][1..]);
  }

  /** However a message below 2 to the 61st octets is fed, the digest is that of the standard. */
  method HashAll(context: Context, chunks: seq<seq<Byte>>) returns (ok: bool)
    requires context.block.Length == 64
    modifies context, context.block
    ensures context.Valid() && ok == (8 * |Flatten(chunks)| < TWO_64)
    ensures ok ==> context.digest == Digest(Flatten(chunks))
  {
    hide Digest, Holding;
    context.Reset();
    var i := 0;
    while i < |chunks|
      invariant 0 <= i <= |chunks| && context.Valid() && !context.computed
      invariant context.corrupted <==> 8 * |Flatten(chunks[..i])| >= TWO_64
      invariant !context.corrupted ==> context.fed == Flatten(chunks[..i])
    {
      FlattenOn(chunks, i);
      assert chunks[i] == [] ==> Flatten(chunks[..i]) + chunks[i] == Flatten(chunks[..i]);
      context.Input(chunks[i]);
      i := i + 1;
    }
    assert chunks[..i] == chunks;
    ok := context.Result();
  }
}
