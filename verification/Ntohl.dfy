/** ntohl64 on a little-endian host: the 64-bit conversion between host and network order. */
module Ntohl {
  import opened Bytes

  // The powers of two are named: with the names the solver leaves divisions by them alone until a
  // lemma needs their values.
  const TWO_8: int := 0x100
  const TWO_16: int := 0x1_0000
  const TWO_24: int := 0x100_0000
  const TWO_32: int := 0x1_0000_0000
  const TWO_64: int := 0x1_0000_0000_0000_0000

  type Word = x: int | 0 <= x < TWO_32
  type Long = x: int | 0 <= x < TWO_64

  /** The four octets of a word, least significant first. */
  function Octets(x: Word): (s: seq<Byte>)
    ensures |s| == 4
  {
    [x % TWO_8, x / TWO_8 % TWO_8, x / TWO_16 % TWO_8, x / TWO_24]
  }

  function FromOctets(a: Byte, b: Byte, c: Byte, d: Byte): Word {
    a + b * TWO_8 + c * TWO_16 + d * TWO_24
  }

  /** htonl: the word with its octets in the opposite order. */
  function Swap(x: Word): Word {
    var s := Octets(x);
    FromOctets(s[3], s[2], s[1], s[0])
  }

  function Ntohl64(v: Long): Long {
    Swap(v % TWO_32) * TWO_32 + Swap(v / TWO_32)
  }

  /** memcpy between a 64-bit integer and memory. */
  function Store(v: Long): (s: seq<Byte>)
    ensures |s| == 8
  {
    Octets(v % TWO_32) + Octets(v / TWO_32)
  }

  function Load(s: seq<Byte>): Long
    requires |s| == 8
  {
    FromOctets(s[0], s[1], s[2], s[3]) + FromOctets(s[4], s[5], s[6], s[7]) * TWO_32
  }

  lemma {:induction false} QuotRem(d: int, q: int, r: int)
    requires d == TWO_8 || d == TWO_16 || d == TWO_24 || d == TWO_32
    requires 0 <= r < d
    ensures (d * q + r) / d == q && (d * q + r) % d == r
  {
  }

  lemma {:induction false} OctetsOf(a: Byte, b: Byte, c: Byte, d: Byte)
    ensures Octets(FromOctets(a, b, c, d)) == [a, b, c, d]
  {
    var x := FromOctets(a, b, c, d);
    var high: int, low: int := c + d * TWO_8, a + b * TWO_8;
    assert x == TWO_8 * (b + TWO_8 * high) + a && x == TWO_16 * high + low && x == TWO_24 * d + (low + c * TWO_16);
    QuotRem(TWO_8, b + TWO_8 * high, a);
    QuotRem(TWO_8, high, b);
    QuotRem(TWO_16, high, low);
    QuotRem(TWO_8, d, c);
    QuotRem(TWO_24, d, low + c * TWO_16);
  }

  lemma FromOctetsOf(x: Word)
    ensures var s := Octets(x); FromOctets(s[0], s[1], s[2], s[3]) == x
  {
  }

  lemma {:induction false} SwapTwice(x: Word)
    ensures Swap(Swap(x)) == x
  {
    var s := Octets(x);
    OctetsOf(s[3], s[2], s[1], s[0]);
    FromOctetsOf(x);
  }

  /** Reading eight octets from memory and converting gives their value in network order. */
  lemma {:induction false} LoadIsNetworkOrder(s: seq<Byte>)
    requires |s| == 8
    ensures Ntohl64(Load(s)) == BeValue(s)
  {
    var low, high := FromOctets(s[0], s[1], s[2], s[3]), FromOctets(s[4], s[5], s[6], s[7]);
    assert Load(s) % TWO_32 == low && Load(s) / TWO_32 == high;
    OctetsOf(s[0], s[1], s[2], s[3]);
    OctetsOf(s[4], s[5], s[6], s[7]);
    BeEight(s);
  }

  lemma {:induction false} StoreReversed(v: Long)
    ensures var lo, hi := Octets(v % TWO_32), Octets(v / TWO_32);
      Store(Ntohl64(v)) == [hi[3], hi[2], hi[1], hi[0], lo[3], lo[2], lo[1], lo[0]]
  {
    var lo, hi := Octets(v % TWO_32), Octets(v / TWO_32);
    QuotRem(TWO_32, Swap(v % TWO_32), Swap(v / TWO_32));
    OctetsOf(hi[3], hi[2], hi[1], hi[0]);
    OctetsOf(lo[3], lo[2], lo[1], lo[0]);
  }

  lemma {:induction false} StoredValue(v: Long)
    ensures BeValue(Store(Ntohl64(v))) == v
  {
    StoreReversed(v);
    FromOctetsOf(v % TWO_32);
    FromOctetsOf(v / TWO_32);
    BeEight(Store(Ntohl64(v)));
    assert v == v / TWO_32 * TWO_32 + v % TWO_32;
  }

  /** Converting and storing writes the octets in network order. */
  lemma {:induction false} StoreIsNetworkOrder(v: Long)
    ensures Store(Ntohl64(v)) == BeBytes(v, 8)
  {
    StoredValue(v);
    BeBytesOfValue(Store(Ntohl64(v)));
  }

  lemma {:induction false} BeBytesOfValue(s: seq<Byte>)
    ensures BeBytes(BeValue(s), |s|) == s
  {
    if s != [] {
      BeBytesOfValue(s[..|s| - 1]);
      assert BeValue(s) / 256 == BeValue(s[..|s| - 1]) && BeValue(s) % 256 == s[|s| - 1];
    }
  }

  lemma {:induction false} BeFour(s: seq<Byte>)
    requires |s| == 4
    ensures BeValue(s) == FromOctets(s[3], s[2], s[1], s[0])
  {
    var a: int, b: int, c: int := s[0], s[1], s[2];
    assert s[..3][..2] == s[..2] && s[..2][..1] == s[..1] && s[..1][..0] == [];
    assert BeValue(s[..1]) == a;
    assert BeValue(s[..2]) == a * 256 + b;
    assert BeValue(s[..3]) == (a * 256 + b) * 256 + c;
  }

  lemma ScaleUp(x: int, p: int, y: int)
    ensures (x * p + y) * 256 == x * (256 * p) + y * 256
  {
  }

  lemma {:induction false} BeAppend(a: seq<Byte>, b: seq<Byte>)
    ensures BeValue(a + b) == BeValue(a) * Pow256(|b|) + BeValue(b)
  {
    if b == [] {
      assert a + b == a;
    } else {
      var init := b[..|b| - 1];
      assert (a + b)[..|a + b| - 1] == a + init;
      BeAppend(a, init);
      ScaleUp(BeValue(a), Pow256(|init|), BeValue(init));
    }
  }

  lemma {:induction false} BeEight(s: seq<Byte>)
    requires |s| == 8
    ensures BeValue(s) == FromOctets(s[3], s[2], s[1], s[0]) * TWO_32 + FromOctets(s[7], s[6], s[5], s[4])
  {
    assert s == s[..4] + s[4..];
    BeAppend(s[..4], s[4..]);
    BeFour(s[..4]);
    BeFour(s[4..]);
    assert Pow256(2) == TWO_16 && Pow256(4) == TWO_32;
  }
}
