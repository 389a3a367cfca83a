/**
 Frames as section 5 of RFC 6455 writes them, against the broker's decoder and encoder.
 */
module FrameCodec {
  import opened Bytes
  import opened Ntohl
  import opened Seqs
  import opened Frames

  const FIN_TEXT: Byte := 0x81

  function FieldSize(n: nat): nat {
    if n < 126 then 1 else if n < 65536 then 3 else 9
  }

  /** The minimal payload length field; `flag` is 128 when the payload is masked. */
  function LengthField(n: nat, flag: nat): (s: seq<Byte>)
    requires flag == 0 || flag == 128
    ensures |s| == FieldSize(n)
  {
    if n < 126 then [flag + n]
    else if n < 65536 then [flag + 126] + BeBytes(n, 2)
    else [flag + 127] + BeBytes(n, 8)
  }

  // ---------------------------------------------------------------- client frames

  predicate Supported(payload: seq<Byte>) {
    |payload| <= 1000000
  }

  /** A masked, unfragmented text frame as a client sends it. */
  function ClientFrame(payload: seq<Byte>, mask: seq<Byte>): (s: seq<Byte>)
    requires |mask| == 4
    ensures |s| == Skip(|payload|) + |payload|
  {
    [FIN_TEXT] + LengthField(|payload|, 128) + mask + Unmask(payload, mask)
  }

  lemma {:induction false} UnmaskTwice(data: seq<Byte>, mask: seq<Byte>)
    requires |mask| == 4
    ensures Unmask(Unmask(data, mask), mask) == data
  {
    forall i | 0 <= i < |data| ensures Xor(Xor(data[i], mask[i % 4]), mask[i % 4]) == data[i] {
      XorTwice(data[i], mask[i % 4]);
    }
  }

  /** Where the parts of a client frame are. */
  lemma {:induction false} ClientLayout(payload: seq<Byte>, mask: seq<Byte>, tail: seq<Byte>)
    requires |mask| == 4
    ensures var s, n := ClientFrame(payload, mask) + tail, |payload|;
      var field := LengthField(n, 128);
      && s[0] == FIN_TEXT && Sub(s, 1, Skip(n) - 4) == field && Sub(s, Skip(n) - 4, Skip(n)) == mask
      && Sub(s, Skip(n), Skip(n) + n) == Unmask(payload, mask)
  {
  }

  lemma {:induction false} TwoOctets(n: nat)
    requires n < 65536
    ensures BeBytes(n, 2) == [n / 256, n % 256] && BeValue(BeBytes(n, 2)) == n
  {
    assert BeBytes(n / 256, 1) == [n / 256];
    assert Pow256(2) == 65536;
    BeRoundTrip(n, 2);
  }

  lemma {:induction false} EightOctets(n: nat)
    requires n < TWO_64
    ensures BeValue(BeBytes(n, 8)) == n
  {
    assert Pow256(4) == 0x1_0000_0000;
    assert Pow256(8) == TWO_64;
    BeRoundTrip(n, 8);
  }

  lemma {:induction false} ShortHeader(s: seq<Byte>, n: nat, mask: seq<Byte>)
    requires |s| >= 14 && s[0] == FIN_TEXT && n < 126 && s[1] == 128 + n && Sub(s, 2, 6) == mask
    ensures ReadHeader(s) == Accepted(n, 6, mask)
  {
    hide BeValue;
  }

  lemma {:induction false} MediumHeader(s: seq<Byte>, n: nat, mask: seq<Byte>)
    requires |s| >= 14 && s[0] == FIN_TEXT && 126 <= n < 65536 && s[1] == 254
    requires Sub(s, 2, 4) == BeBytes(n, 2) && Sub(s, 4, 8) == mask
    ensures ReadHeader(s) == Accepted(n, 8, mask)
  {
    TwoOctets(n);
    hide BeValue, BeBytes;
  }

  lemma {:induction false} LongHeader(s: seq<Byte>, n: nat, mask: seq<Byte>)
    requires |s| >= 14 && s[0] == FIN_TEXT && 65536 <= n <= DATA_FRAME_MAX_LENGTH && s[1] == 255
    requires Sub(s, 2, 10) == BeBytes(n, 8) && Sub(s, 10, 14) == mask
    ensures ReadHeader(s) == Accepted(n, 14, mask)
  {
    EightOctets(n);
    hide BeValue, BeBytes;
  }

  /** The decoder reads back what the length field and the mask say. */
  lemma {:induction false} ClientHeader(payload: seq<Byte>, mask: seq<Byte>, tail: seq<Byte>)
    requires |mask| == 4 && Supported(payload)
    requires |ClientFrame(payload, mask) + tail| >= 14
    ensures ReadHeader(ClientFrame(payload, mask) + tail) == Accepted(|payload|, Skip(|payload|), mask)
  {
    hide ReadHeader, BeValue, BeBytes;
    var s, n := ClientFrame(payload, mask) + tail, |payload|;
    ClientLayout(payload, mask, tail);
    assert s[1] == Sub(s, 1, Skip(n) - 4)[0];
    if n < 126 {
      ShortHeader(s, n, mask);
    } else if n < 65536 {
      SubOfSub(s, BeBytes(n, 2));
      MediumHeader(s, n, mask);
    } else {
      SubOfSub(s, BeBytes(n, 8));
      LongHeader(s, n, mask);
    }
  }

  lemma {:induction false} SubOfSub(s: seq<Byte>, octets: seq<Byte>)
    requires |s| >= 2 + |octets| && Sub(s, 1, 2 + |octets|) == [s[1]] + octets
    ensures Sub(s, 2, 2 + |octets|) == octets
  {
    var x, y := Sub(s, 2, 2 + |octets|), Sub(s, 1, 2 + |octets|);
    assert y[1..] == octets;
    assert forall k :: 0 <= k < |octets| ==> x[k] == s[2 + k] == y[1..][k];
  }

  /** The codec inverse: decoding a client frame gives its payload and leaves what follows in place. */
  lemma {:induction false} DecodeInvertsClientFrame(payload: seq<Byte>, mask: seq<Byte>, tail: seq<Byte>)
    requires |mask| == 4 && Supported(payload)
    requires |ClientFrame(payload, mask) + tail| >= 14
    ensures var s := ClientFrame(payload, mask) + tail; var h := ReadHeader(s);
      && h.Accepted? && h.payload == |payload| && h.headerLen + h.payload == |ClientFrame(payload, mask)|
      && Decoded(s, h) == payload && Remaining(s, h) == tail
  {
    var s, n := ClientFrame(payload, mask) + tail, |payload|;
    ClientHeader(payload, mask, tail);
    ClientLayout(payload, mask, tail);
    UnmaskTwice(payload, mask);
    assert Sub(s, Skip(n) + n, |s|) == tail;
  }

  /** A length field is minimal when no shorter form could hold the length. */
  predicate Minimal(s: seq<Byte>)
    requires |s| >= 14 && ReadHeader(s).Accepted?
  {
    var len, n := s[1] % 128, ReadHeader(s).payload;
    (len == 126 ==> n >= 126) && (len == 127 ==> n >= 65536)
  }

  /** Exactly for minimal length fields, the decoder takes off the frame that the header announced. */
  lemma ConsumesFrameIffMinimal(s: seq<Byte>)
    requires TurnOn(s).Decodes?
    ensures |Remaining(s, TurnOn(s).header)| == |s| - (TurnOn(s).header.headerLen + TurnOn(s).header.payload)
       <==> Minimal(s)
  {
  }

  // ---------------------------------------------------------------- streams of client frames

  /** A payload, which may be empty, and a mask. */
  type Frame = f: (seq<Byte>, seq<Byte>) | Supported(f.0) && |f.1| == 4 witness ([], [0, 0, 0, 0])

  function Stream(fs: seq<Frame>): seq<Byte> {
    if fs == [] then [] else ClientFrame(fs[0].0, fs[0].1) + Stream(fs[1..])
  }

  function Payloads(fs: seq<Frame>): (ps: seq<seq<Byte>>)
    ensures |ps| == |fs|
  {
    if fs == [] then [] else [fs[0].0] + Payloads(fs[1..])
  }

  /** Bytes that do not yet hold a whole frame make the loop wait. */
  lemma {:induction false} UnfinishedWaits(f: Frame, s: seq<Byte>, missing: seq<Byte>)
    requires missing != [] && s + missing == ClientFrame(f.0, f.1)
    ensures TurnOn(s) == Ends(Waits)
  {
    if |s| > MIN_DATA_FRAME_SIZE {
      assert ClientFrame(f.0, f.1) + [] == s + missing;
      ClientHeader(f.0, f.1, []);
      HeaderAppend(s, missing);
    }
  }

  /** How many whole frames the loop takes off before at most 16 bytes are left or an empty frame comes to the front. */
  function Taken(fs: seq<Frame>, tail: seq<Byte>): (k: nat)
    ensures k <= |fs|
  {
    if fs == [] || |Stream(fs) + tail| <= MIN_DATA_FRAME_SIZE || fs[0].0 == [] then 0 else 1 + Taken(fs[1..], tail)
  }

  /** How the loop ends in front of the frames and the unfinished frame that are left. */
  function EndingAt(left: seq<Frame>, tail: seq<Byte>): Ending {
    if left != [] && |Stream(left) + tail| > MIN_DATA_FRAME_SIZE then Spins else Waits
  }

  /** With more than 16 bytes left, the whole frame in front is taken off unless it is empty. */
  lemma {:induction false} WholeFrameInFront(p: seq<Byte>, m: seq<Byte>, rest: seq<Byte>)
    requires |m| == 4 && Supported(p) && |ClientFrame(p, m) + rest| > MIN_DATA_FRAME_SIZE
    ensures var s := ClientFrame(p, m) + rest;
      if p == [] then TurnOn(s) == Ends(Spins)
      else TurnOn(s).Decodes? && Decoded(s, TurnOn(s).header) == p && Remaining(s, TurnOn(s).header) == rest
  {
    hide ReadHeader, Decoded, Remaining;
    ClientHeader(p, m, rest);
    DecodeInvertsClientFrame(p, m, rest);
  }

  /**
   Draining whole frames followed by an unfinished one gives the payloads in order up to the first empty frame or the
   last 16 bytes; what is left stays, and the loop ends as EndingAt says.
   */
  lemma {:induction false} StreamDecodes(fs: seq<Frame>, tail: seq<Byte>)
    requires TurnOn(tail) == Ends(Waits)
    ensures var k := Taken(fs, tail);
      Drain(Stream(fs) + tail) == Drained(Payloads(fs[..k]), Stream(fs[k..]) + tail, EndingAt(fs[k..], tail))
    decreases |fs|
  {
    hide Drain, TurnOn, ClientFrame;
    var s, k := Stream(fs) + tail, Taken(fs, tail);
    DrainTurn(s);
    if fs == [] {
      assert s == tail;
    } else {
      var (p, m) := fs[0];
      var rest := Stream(fs[1..]) + tail;
      Regroup(ClientFrame(p, m), Stream(fs[1..]), tail);
      assert fs[0..] == fs && fs[..0] == [];
      if |s| <= MIN_DATA_FRAME_SIZE {
        ShortWaits(s);
      } else {
        WholeFrameInFront(p, m, rest);
        if p != [] {
          StreamDecodes(fs[1..], tail);
          assert fs[1..][k - 1..] == fs[k..] && fs[..k][1..] == fs[1..][..k - 1] && fs[..k][0] == fs[0];
        }
      }
    }
  }

  lemma ShortWaits(s: seq<Byte>)
    requires |s| <= MIN_DATA_FRAME_SIZE
    ensures TurnOn(s) == Ends(Waits)
  {
  }

  /** However a stream of frames is cut into reads, the same payloads come out and the same bytes stay. */
  lemma {:induction false} AnyCuttingDecodes(fs: seq<Frame>, tail: seq<Byte>, chunks: seq<seq<Byte>>)
    requires TurnOn(tail) == Ends(Waits)
    requires Flatten(chunks) == Stream(fs) + tail
    ensures var k := Taken(fs, tail);
      FeedAll([], chunks) == Drained(Payloads(fs[..k]), Stream(fs[k..]) + tail, EndingAt(fs[k..], tail))
  {
    StreamDecodes(fs, tail);
    FeedIsDrain([], chunks);
    assert [] + Flatten(chunks) == Flatten(chunks);
  }

  /** Whole frames followed by a frame that is refused: all payloads come out, then the loop ends with its status. */
  lemma {:induction false} StreamThenRefused(fs: seq<Frame>, bad: seq<Byte>)
    requires |bad| > 16 && ReadHeader(bad).Refused? && FirstEmpty(fs) == |fs|
    ensures Drain(Stream(fs) + bad) == Drained(Payloads(fs), bad, Fails(ReadHeader(bad).status))
    decreases |fs|
  {
    hide Drain, ClientFrame, ReadHeader;
    var s := Stream(fs) + bad;
    DrainTurn(s);
    if fs == [] {
      assert s == bad;
      hide Stream;
      RefusedTurn(bad);
    } else {
      var (p, m) := fs[0];
      var rest := Stream(fs[1..]) + bad;
      Regroup(ClientFrame(p, m), Stream(fs[1..]), bad);
      WholeFrameInFront(p, m, rest);
      StreamThenRefused(fs[1..], bad);
    }
  }

  lemma RefusedTurn(s: seq<Byte>)
    requires |s| > 16 && ReadHeader(s).Refused?
    ensures TurnOn(s) == Ends(Fails(ReadHeader(s).status))
  {
  }

  // ---------------------------------------------------------------- frames with an empty payload

  /** The first frame with an empty payload, if there is one. */
  function FirstEmpty(fs: seq<Frame>): (j: nat)
    ensures j <= |fs| && (j < |fs| ==> fs[j].0 == []) && forall i :: 0 <= i < j ==> fs[i].0 != []
  {
    if fs == [] || fs[0].0 == [] then 0 else 1 + FirstEmpty(fs[1..])
  }

  lemma {:induction false} StreamShrinks(fs: seq<Frame>, j: nat)
    requires j <= |fs|
    ensures |Stream(fs[j..])| <= |Stream(fs)|
    decreases j
  {
    if j == 0 {
      assert fs[0..] == fs;
    } else {
      assert fs[1..][j - 1..] == fs[j..];
      StreamShrinks(fs[1..], j - 1);
    }
  }

  /** The loop never ends exactly when an empty frame comes to the front with more than 16 bytes left. */
  lemma {:induction false} SpinsIff(fs: seq<Frame>, tail: seq<Byte>)
    requires TurnOn(tail) == Ends(Waits)
    ensures var j := FirstEmpty(fs);
      Drain(Stream(fs) + tail).ending == Spins <==> j < |fs| && |Stream(fs[j..]) + tail| > 16
  {
    hide Drain, TurnOn;
    StreamDecodes(fs, tail);
    TakenIsFirstEmpty(fs, tail);
  }

  lemma {:induction false} TakenIsFirstEmpty(fs: seq<Frame>, tail: seq<Byte>)
    ensures var k, j := Taken(fs, tail), FirstEmpty(fs);
      && k <= j && (k < |fs| && |Stream(fs[k..]) + tail| > 16 ==> k == j)
      && (j < |fs| && |Stream(fs[j..]) + tail| > 16 ==> k == j)
    decreases |fs|
  {
    hide Stream;
    if fs != [] {
      StreamShrinks(fs, FirstEmpty(fs));
      assert fs[0..] == fs;
      if |Stream(fs) + tail| > MIN_DATA_FRAME_SIZE && fs[0].0 != [] {
        var k, j := Taken(fs, tail), FirstEmpty(fs);
        TakenIsFirstEmpty(fs[1..], tail);
        assert fs[1..][k - 1..] == fs[k..] && fs[1..][j - 1..] == fs[j..];
      }
    }
  }

  /** An empty frame and 11 bytes of any kind behind it are enough. */
  lemma {:induction false} EmptyFrameSpins(mask: seq<Byte>, more: seq<Byte>)
    requires |mask| == 4 && |more| >= 11
    ensures var s := ClientFrame([], mask) + more; Drain(s) == Drained([], s, Spins)
  {
    WholeFrameInFront([], mask, more);
  }

  // ---------------------------------------------------------------- server frames

  /** encode_websocket_frame: the content and its terminating NUL in one unmasked text frame. */
  function EncodeFrame(content: seq<Byte>): (s: seq<Byte>)
    requires |content| + 1 < TWO_64
  {
    var n := |content| + 1;
    [FIN_TEXT] + LengthField(n, 0) + content + [0]
  }

  /** A frame as a receiver that follows section 5.2 reads it. */
  datatype Received = Received(fin: bool, opcode: nat, masked: bool, minimal: bool, payload: seq<Byte>, rest: seq<Byte>)

  datatype Length = Length(value: nat, size: nat)

  function ReadLength(s: seq<Byte>): (l: Length)
    requires |s| >= 10
    ensures l.size <= 10
  {
    var len := s[1] % 128;
    if len < 126 then Length(len, 2)
    else if len == 126 then Length(BeValue(Sub(s, 2, 4)), 4)
    else Length(BeValue(Sub(s, 2, 10)), 10)
  }

  function Receive(s: seq<Byte>): Received
    requires |s| >= 10 && s[1] < 128 && ReadLength(s).size + ReadLength(s).value <= |s|
  {
    var len, l := s[1] % 128, ReadLength(s);
    Received(s[0] >= 128, s[0] % 16, s[1] >= 128,
             (len == 126 ==> l.value >= 126) && (len == 127 ==> l.value >= 65536),
             Sub(s, l.size, l.size + l.value), Sub(s, l.size + l.value, |s|))
  }

  lemma {:induction false} EncodedLayout(content: seq<Byte>, more: seq<Byte>)
    requires |content| + 1 < TWO_64
    ensures var s, n := EncodeFrame(content) + more, |content| + 1; var size := 1 + FieldSize(n);
      && s[0] == FIN_TEXT && Sub(s, 1, size) == LengthField(n, 0)
      && Sub(s, size, size + n) == content + [0] && Sub(s, size + n, |s|) == more
  {
  }

  /** The encoder's length field, whichever form it takes, holds the payload length. */
  lemma {:induction false} EncodedLength(content: seq<Byte>, more: seq<Byte>)
    requires |content| + 1 < TWO_64 && |EncodeFrame(content) + more| >= 10
    ensures var s, n := EncodeFrame(content) + more, |content| + 1;
      s[1] < 128 && ReadLength(s) == Length(n, 1 + FieldSize(n))
  {
    EncodedLayout(content, more);
    FieldIsRead(EncodeFrame(content) + more, |content| + 1);
  }

  lemma {:induction false} FieldIsRead(s: seq<Byte>, n: nat)
    requires n < TWO_64 && |s| >= 10 && Sub(s, 1, 1 + FieldSize(n)) == LengthField(n, 0)
    ensures s[1] < 128 && ReadLength(s) == Length(n, 1 + FieldSize(n))
  {
    assert s[1] == Sub(s, 1, 1 + FieldSize(n))[0];
    if 126 <= n < 65536 {
      TwoOctets(n);
      SubOfSub(s, BeBytes(n, 2));
    } else if n >= 65536 {
      EightOctets(n);
      SubOfSub(s, BeBytes(n, 8));
    }
  }

  /** Every encoded frame is read back as content plus NUL, in one final text frame of minimal length form. */
  lemma {:induction false} EncodedFrameIsReceived(content: seq<Byte>, more: seq<Byte>)
    requires |content| + 1 < TWO_64 && |EncodeFrame(content) + more| >= 10
    ensures var s := EncodeFrame(content) + more;
      && s[1] < 128 && ReadLength(s).size + ReadLength(s).value <= |s|
      && Receive(s) == Received(true, 1, false, true, content + [0], more)
  {
    EncodedLength(content, more);
    EncodedLayout(content, more);
  }
}
