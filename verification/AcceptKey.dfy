/** The accept key of the WebSocket handshake, section 4.2.2 of RFC 6455. */
module AcceptKey {
  import opened Bytes
  import opened Ntohl
  import opened Seqs
  import opened Output
  import opened Base64
  import opened Sha1

  const MAGIC_KEY: string := "258EAFA5-E914-47DA-95CA-C5AB0DC85B11"

  /** The digest as octets in network order. */
  function DigestOctets(h: Hash): (s: seq<Byte>)
    ensures |s| == 20
  {
    BeBytes(h.a, 4) + BeBytes(h.b, 4) + BeBytes(h.c, 4) + BeBytes(h.d, 4) + BeBytes(h.e, 4)
  }

  function Magic(): (s: seq<Byte>)
    ensures |s| == 36
  {
    Octetize(MAGIC_KEY)
  }

  function Accept(clientKey: seq<Byte>): (key: seq<char>)
    ensures |key| == 28
  {
    Encode(DigestOctets(Digest(clientKey + Magic())))
  }

  /** In plain terms: the Base64 of the SHA-1 digest, in network order, of the key and the GUID of the standard. */
  lemma {:induction false} AcceptPlainly(clientKey: seq<Byte>, guid: seq<Byte>)
    requires guid == Octetize("258EAFA5-E914-47DA-95CA-C5AB0DC85B11")
    ensures var h := Digest(clientKey + guid);
      var octets := BeBytes(h.a, 4) + BeBytes(h.b, 4) + BeBytes(h.c, 4) + BeBytes(h.d, 4) + BeBytes(h.e, 4);
      Accept(clientKey) == Encode(octets)
  {
    hide Digest, Encode, Octetize, BeBytes;
  }

  /** ntohl and memcpy of a word on a little-endian host. */
  method StoreWord(w: Word) returns (s: seq<Byte>)
    ensures s == BeBytes(w, 4)
  {
    s := Octets(Swap(w));
    StoredWord(w);
  }

  lemma {:induction false} StoredWord(w: Word)
    ensures Octets(Swap(w)) == BeBytes(w, 4)
  {
    var s := Octets(w);
    var r := [s[3], s[2], s[1], s[0]];
    OctetsOf(s[3], s[2], s[1], s[0]);
    FromOctetsOf(w);
    BeFour(r);
    BeBytesOfValue(r);
  }

  /** What follows the encoding in its buffer is a NUL, and there is none before it. */
  lemma {:induction false} EncodeHasNoNul(s: seq<Byte>)
    ensures '\0' !in Encode(s)
  {
  }

  method StoreDigest(h: Hash) returns (s: seq<Byte>)
    ensures s == DigestOctets(h)
  {
    var a := StoreWord(h.a);
    var b := StoreWord(h.b);
    var c := StoreWord(h.c);
    var d := StoreWord(h.d);
    var e := StoreWord(h.e);
    s := a + b + c + d + e;
  }

  /** base64_encode_alloc, when the length computation does not overflow. */
  method EncodeAlloc(input: seq<Byte>) returns (text: seq<char>)
    ensures text == Encode(input)
  {
    hide Encode;
    var n := EncodedLength(|input|);
    var out := new char[n + 1];
    EncodeInto(input, out, n + 1);
    text := out[..n];
  }

  /** create_accept_key; None where the original returns no key. */
  method CreateAcceptKey(clientKey: seq<Byte>) returns (accept: Option<seq<char>>)
    ensures accept == if 8 * (|clientKey| + 36) < TWO_64 then Some(Accept(clientKey)) else None
    ensures accept.Some? ==> |accept.value| == 28 && '\0' !in accept.value && IsEncoding(accept.value)
  {
    hide Digest, Encode, IsEncoding, Magic, DigestOctets;
    var key := clientKey + Magic();
    var sha := new Context();
    sha.Input(key);
    var ok := sha.Result();
    if !ok { return None; }
    assert [] + key == key;
    var sha1Key := StoreDigest(sha.digest);
    var text := EncodeAlloc(sha1Key);
    EncodeIsEncoding(sha1Key);
    EncodeHasNoNul(sha1Key);
    return Some(text);
  }
}
