/** Messages that are digested in blocks of 64 octets, and the buffer that collects a block. */
module BlockHash {
  import opened Bytes
  import opened Seqs

  type Block = s: seq<Byte> | |s| == 64 witness seq(64, i => 0)

  /** The state after the first n blocks of a message. */
  function Blocks<H>(compress: (H, Block) -> H, initial: H, s: seq<Byte>, n: nat): H
    requires 64 * n <= |s|
  {
    if n == 0 then initial else compress(Blocks(compress, initial, s, n - 1), Sub(s, 64 * (n - 1), 64 * n))
  }

  function Zeros(n: nat): (z: seq<Byte>)
    ensures |z| == n
  {
    seq(n, i => 0)
  }

  /** How many zero octets, after the octet with the leading one, make a message and its 8 length octets whole blocks. */
  function ZerosFor(n: nat): (z: nat)
    ensures z < 64 && (n + 1 + z + 8) % 64 == 0
  {
    if n % 64 < 56 then 55 - n % 64 else 119 - n % 64
  }

  /** Later octets do not change what the blocks before them give. */
  lemma {:induction false} BlocksOfPrefix<H>(compress: (H, Block) -> H, initial: H, s: seq<Byte>, t: seq<Byte>, n: nat)
    requires 64 * n <= |s|
    ensures Blocks(compress, initial, s + t, n) == Blocks(compress, initial, s, n)
  {
    if n > 0 {
      BlocksOfPrefix(compress, initial, s, t, n - 1);
      SubOfPrefix(s, t, 64 * (n - 1), 64 * n);
    }
  }

  /** The message so far is n whole blocks, already digested, and `index` octets that wait in the buffer. */
  ghost predicate Holding<H>(compress: (H, Block) -> H, initial: H, s: seq<Byte>, n: nat, digest: H,
                             buffer: seq<Byte>, index: nat)
  {
    && |buffer| == 64 && index <= 64 && |s| == 64 * n + index
    && digest == Blocks(compress, initial, s, n)
    && forall k :: 0 <= k < index ==> buffer[k] == s[64 * n + k]
  }

  lemma LengthWhenHolding<H>(compress: (H, Block) -> H, initial: H, s: seq<Byte>, n: nat, digest: H,
                                                buffer: seq<Byte>, index: nat)
    requires Holding(compress, initial, s, n, digest, buffer, index)
    ensures |buffer| == 64 && |s| == 64 * n + index
    ensures index < 64 ==> |s| / 64 == n && |s| % 64 == index
  {
  }

  /** Further octets in the buffer, which must not overflow. */
  lemma {:induction false} HoldingMore<H>(compress: (H, Block) -> H, initial: H, s: seq<Byte>, n: nat, digest: H,
                                          buffer: seq<Byte>, index: nat, more: seq<Byte>, after: seq<Byte>)
    requires Holding(compress, initial, s, n, digest, buffer, index) && index + |more| <= 64
    requires |after| == 64 && (forall k :: 0 <= k < index ==> after[k] == buffer[k])
    requires forall k :: 0 <= k < |more| ==> after[index + k] == more[k]
    ensures Holding(compress, initial, s + more, n, digest, after, index + |more|)
  {
    hide Blocks;
    BlocksOfPrefix(compress, initial, s, more, n);
    forall k | 0 <= k < index + |more| ensures after[k] == (s + more)[64 * n + k] {
      if k >= index { assert after[index + (k - index)] == more[k - index]; }
    }
  }

  /** When the buffer is full it is the next block of the message. */
  lemma {:induction false} HoldingFull<H>(compress: (H, Block) -> H, initial: H, s: seq<Byte>, n: nat, digest: H,
                                          buffer: seq<Byte>)
    requires Holding(compress, initial, s, n, digest, buffer, 64)
    ensures |buffer| == 64 && Holding(compress, initial, s, n + 1, compress(digest, buffer), buffer, 0)
  {
    assert Sub(s, 64 * n, 64 * (n + 1)) == buffer;
  }

  /** A block that is digested straight from the message, past an empty buffer. */
  lemma {:induction false} HoldingBlock<H>(compress: (H, Block) -> H, initial: H, s: seq<Byte>, n: nat, digest: H,
                                           buffer: seq<Byte>, block: Block)
    requires Holding(compress, initial, s, n, digest, buffer, 0)
    ensures Holding(compress, initial, s + block, n + 1, compress(digest, block), buffer, 0)
  {
    BlocksOfPrefix(compress, initial, s, block, n);
    assert Sub(s + block, 64 * n, 64 * (n + 1)) == block;
  }

  lemma {:induction false} HoldingWhole<H>(compress: (H, Block) -> H, initial: H, s: seq<Byte>, n: nat, digest: H,
                                           buffer: seq<Byte>)
    requires Holding(compress, initial, s, n, digest, buffer, 0)
    ensures |s| == 64 * n && |s| / 64 == n && digest == Blocks(compress, initial, s, n)
  {
  }

  lemma ZerosAdd(s: seq<Byte>, a: nat, b: nat)
    ensures s + Zeros(a) + Zeros(b) == s + Zeros(a + b)
    ensures s + Zeros(a) + [0] == s + Zeros(a + 1)
  {
  }
}
