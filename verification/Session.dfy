/** The connected clients as bits in an array of 64-bit words. */
module Session {
  import opened Bytes
  import opened Ntohl
  import opened Words
  import opened BitSets

  const SESSION_SIZE: nat := 2048
  const UINT64_MAX: Long := 0xFFFF_FFFF_FFFF_FFFF

  predicate BitOf(word: Long, n: nat) {
    Bit(word, n)
  }

  /** The set of clients that the words stand for. */
  function Connected(words: seq<Long>): set<nat> {
    Members(words, BitOf)
  }

  // ---------------------------------------------------------------- masks

  /** 1 << n on 32 bits. */
  function OneBit(n: nat): (m: Long)
    requires n < 32
    ensures m == Pow2(n)
  {
    PowBelow(n, 32);
    PowersOfTwo();
    Pow2(n)
  }

  lemma {:induction false} PowBelow(n: nat, k: nat)
    requires n < k
    ensures 2 * Pow2(n) <= Pow2(k)
    decreases k
  {
    PowPositive(k - 1);
    if n < k - 1 { PowBelow(n, k - 1); }
  }

  /** Finds the word and the mask of a client; the mask is a 32-bit shift, moved up for the upper half. */
  method FindBit(fd: nat) returns (i: nat, mask: Long)
    ensures i == fd / WORD_BITS && mask == Pow2(fd % WORD_BITS)
  {
    var n := fd % WORD_BITS;
    i := fd / WORD_BITS;
    mask := OneBit(n % 32);
    if n >= 32 {
      PowUpper(n - 32);
      PowBelow(n, 64);
      PowersOfTwo();
      assert n % 32 == n - 32;
      mask := mask as int * TWO_32;
    }
  }

  lemma {:induction false} AllBits(k: nat)
    requires k < 64
    ensures Bit(UINT64_MAX, k)
  {
    AllOnes(64, k);
    PowersOfTwo();
  }

  /** The two assignments set and clear bit n and leave the other bits alone. */
  lemma {:induction false} MaskChangesOneBit(w: Long, mask: Long, n: nat, k: nat)
    requires n < 64 && k < 64 && mask == Pow2(n)
    ensures BitOf(Or(w, mask), k) == (n == k || BitOf(w, k))
    ensures BitOf(And(w, Xor64(mask, UINT64_MAX)), k) == (n != k && BitOf(w, k))
  {
    OnlyBit(n, k);
    AllBits(k);
    OrBit(w, mask, 64, k);
    XorBit(mask, UINT64_MAX, 64, k);
    AndBit(w, Xor64(mask, UINT64_MAX), 64, k);
  }

  // ---------------------------------------------------------------- operations

  class Sessions {
    const words: array<Long>

    ghost predicate Valid() reads words {
      words.Length == SESSION_SIZE
    }

    /** stomp_session_init. */
    constructor ()
      ensures Valid() && fresh(words) && Connected(words[..]) == {}
    {
      words := new Long[SESSION_SIZE](_ => 0);
      new;
      forall k: nat ensures !BitOf(0, k) { NoBit(k); }
    }

    method IsConnected(fd: nat) returns (connected: bool)
      requires Valid() && fd < 131072
      ensures connected <==> fd in Connected(words[..])
    {
      var i, mask := FindBit(fd);
      TestBit(words[i], fd % WORD_BITS, 64);
      connected := And(words[i], mask) != 0;
    }

    method SetConnected(fd: nat, connected: bool)
      requires Valid() && fd < 131072
      modifies words
      ensures Valid() && Connected(words[..]) == Marked(old(Connected(words[..])), fd, connected)
    {
      var i, mask := FindBit(fd);
      ghost var before, n := words[..], fd % WORD_BITS;
      forall k: nat | k < 64
        ensures BitOf(Or(before[i], mask), k) == (n == k || BitOf(before[i], k))
        ensures BitOf(And(before[i], Xor64(mask, UINT64_MAX)), k) == (n != k && BitOf(before[i], k))
      {
        MaskChangesOneBit(before[i], mask, n, k);
      }
      if !connected {
        mask := Xor64(mask, UINT64_MAX);
        words[i] := And(words[i], mask);
      } else {
        words[i] := Or(words[i], mask);
      }
      WordWritten(before, BitOf, fd, connected, words[i]);
      assert words[..] == before[i := words[i]];
    }

    /** stomp_session_connected_size: counts the bits of both halves of each word. */
    method ConnectedSize() returns (n: nat)
      requires Valid()
      ensures n == |Connected(words[..])|
    {
      n := 0;
      SeenBounds(words[..], BitOf, SESSION_SIZE);
      for i := 0 to SESSION_SIZE
        invariant n == |Seen(words[..], BitOf, i, 0)|
      {
        var b, bu := words[i], words[i] / TWO_32;
        for j := 0 to 32
          invariant n == |Seen(words[..], BitOf, i, j)|
        {
          var mask := OneBit(j);
          SeenStep(words[..], BitOf, i, j);
          TestBit(b, j, 64);
          TestBit(bu, j, 64);
          UpperHalf(b, j);
          if And(mask, b) != 0 { n := n + 1; }
          if And(mask, bu) != 0 { n := n + 1; }
        }
        SeenBounds(words[..], BitOf, i);
      }
    }
  }
}
