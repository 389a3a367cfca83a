/**
 The WebSocket frame codec (sections 5.2 and 5.3 of RFC 6455 as far as the broker supports them):
 what the header fields of a received frame are, how frames are taken off a byte stream, and how
 frames are written.
 */
module Frames {
  import opened Bytes
  import opened Seqs

  const MIN_DATA_FRAME_SIZE: int := 16
  const DATA_FRAME_MAX_LENGTH: int := 1000000

  const TOO_LARGE_DATAFRAME: int := -1
  const OPCODE_CLIENT_DISCONNECT: int := -4
  const OPCODE_UNHANDLED: int := -5

  datatype Header = Refused(status: int) | Accepted(payload: nat, headerLen: nat, mask: seq<Byte>)

  /** ws_dataframe_read_headers: the extended lengths are in network order. */
  function ReadHeader(s: seq<Byte>): (h: Header)
    requires |s| >= 14
    ensures h.Accepted? ==>
      |h.mask| == 4 && h.payload <= DATA_FRAME_MAX_LENGTH && Skip(h.payload) <= h.headerLen <= 14
  {
    var opcode := s[0] % 16;
    if opcode == 8 then Refused(OPCODE_CLIENT_DISCONNECT)
    else if opcode != 1 then Refused(OPCODE_UNHANDLED)
    else
      var len := s[1] % 128;
      if len < 126 then Accepted(len, 6, Sub(s, 2, 6))
      else if len == 126 then BeLimit(Sub(s, 2, 4)); Accepted(BeValue(Sub(s, 2, 4)), 8, Sub(s, 4, 8))
      else
        var payload := BeValue(Sub(s, 2, 10));
        if payload > DATA_FRAME_MAX_LENGTH then Refused(TOO_LARGE_DATAFRAME)
        else Accepted(payload, 14, Sub(s, 10, 14))
  }

  /** Which frames are refused, in plain terms: close frames, other frames that are no text, and text that is too long. */
  lemma {:induction false} RefusedPlainly(s: seq<Byte>)
    requires |s| >= 14
    ensures var h := ReadHeader(s);
      if s[0] % 16 == 8 then h == Refused(-4)
      else if s[0] % 16 != 1 then h == Refused(-5)
      else if s[1] % 128 == 127 && BeValue(Sub(s, 2, 10)) > 1000000 then h == Refused(-1)
      else h.Accepted?
  {
  }

  /** The header length that ws_dataframe_decode assumes, from the payload length alone. */
  function Skip(payload: nat): nat {
    if payload < 126 then 6 else if payload < 65536 then 8 else 14
  }

  function Unmask(data: seq<Byte>, mask: seq<Byte>): (r: seq<Byte>)
    requires |mask| == 4
    ensures |r| == |data| && forall i :: 0 <= i < |r| ==> r[i] == Xor(data[i], mask[i % 4])
  {
    seq(|data|, i requires 0 <= i < |data| => Xor(data[i], mask[i % 4]))
  }

  /** The unmasked payload of the first frame of s. */
  function Decoded(s: seq<Byte>, h: Header): seq<Byte>
    requires h.Accepted? && |h.mask| == 4 && Skip(h.payload) + h.payload <= |s|
  {
    Unmask(Sub(s, Skip(h.payload), Skip(h.payload) + h.payload), h.mask)
  }

  /** What is left of s after its first frame. */
  function Remaining(s: seq<Byte>, h: Header): seq<Byte>
    requires h.Accepted? && Skip(h.payload) + h.payload <= |s|
  {
    Sub(s, Skip(h.payload) + h.payload, |s|)
  }

  // ---------------------------------------------------------------- the decode loop

  /** Why the decode loop ended; Spins: it does not, because a frame with an empty payload stays in front. */
  datatype Ending = Waits | Fails(status: int) | Spins

  datatype Drained = Drained(frames: seq<seq<Byte>>, rest: seq<Byte>, ending: Ending)

  /** One test and turn of the loop: the header of the complete frame in front, or the ending. */
  datatype Turn = Ends(ending: Ending) | Decodes(header: Header)

  function TurnOn(s: seq<Byte>): (t: Turn)
    ensures t.Decodes? ==>
      && t.header.Accepted? && |t.header.mask| == 4 && t.header.payload > 0
      && Skip(t.header.payload) + t.header.payload <= |s|
  {
    if |s| <= MIN_DATA_FRAME_SIZE then Ends(Waits)
    else
      match ReadHeader(s)
      case Refused(status) => Ends(Fails(status))
      case Accepted(payload, headerLen, mask) =>
        if |s| < payload + headerLen then Ends(Waits)
        else if payload == 0 then Ends(Spins)
        else Decodes(ReadHeader(s))
  }

  /** All complete frames at the front of s, unmasked, and what is left. */
  function Drain(s: seq<Byte>): (d: Drained)
    decreases |s|
  {
    match TurnOn(s)
    case Ends(ending) => Drained([], s, ending)
    case Decodes(h) =>
      var d := Drain(Remaining(s, h));
      Drained([Decoded(s, h)] + d.frames, d.rest, d.ending)
  }

  /** The loop, one turn at a time. */
  lemma DrainTurn(s: seq<Byte>)
    ensures TurnOn(s).Ends? ==> Drain(s) == Drained([], s, TurnOn(s).ending)
    ensures TurnOn(s).Decodes? ==>
      var h := TurnOn(s).header;
      var d := Drain(Remaining(s, h));
      Drain(s) == Drained([Decoded(s, h)] + d.frames, d.rest, d.ending)
  {
  }

  /** A turn that decodes a frame decodes the same frame when more bytes follow. */
  lemma {:induction false} TurnAppend(s: seq<Byte>, b: seq<Byte>)
    requires TurnOn(s).Decodes?
    ensures TurnOn(s + b) == TurnOn(s)
    ensures var h := TurnOn(s).header; Decoded(s + b, h) == Decoded(s, h) && Remaining(s + b, h) == Remaining(s, h) + b
  {
    HeaderAppend(s, b);
    var h := TurnOn(s).header;
    SubOfPrefix(s, b, Skip(h.payload), Skip(h.payload) + h.payload);
    SubToEnd(s, b, Skip(h.payload) + h.payload);
  }

  lemma {:induction false} HeaderAppend(s: seq<Byte>, b: seq<Byte>)
    requires |s| >= 14
    ensures ReadHeader(s + b) == ReadHeader(s)
  {
    SubOfPrefix(s, b, 2, 4);
    SubOfPrefix(s, b, 2, 6);
    SubOfPrefix(s, b, 4, 8);
    SubOfPrefix(s, b, 2, 10);
    SubOfPrefix(s, b, 10, 14);
  }

  /** Draining a longer stream is draining its first part and then what was left followed by the second. */
  lemma {:induction false} DrainAppend(s: seq<Byte>, b: seq<Byte>)
    ensures var first := Drain(s); var second := Drain(first.rest + b);
      Drain(s + b) == Drained(first.frames + second.frames, second.rest, second.ending)
    decreases |s|
  {
    var first := Drain(s);
    if TurnOn(s).Decodes? {
      var h := TurnOn(s).header;
      TurnAppend(s, b);
      DrainAppend(Remaining(s, h), b);
      Regroup([Decoded(s, h)], Drain(Remaining(s, h)).frames, Drain(first.rest + b).frames);
    } else {
      assert [] + Drain(s + b).frames == Drain(s + b).frames;
    }
  }

  /** What stays behind is a tail of at most 16 bytes, or it starts with the frame that ended the loop. */
  lemma {:induction false} DrainRest(s: seq<Byte>)
    ensures TurnOn(Drain(s).rest) == Ends(Drain(s).ending) && |Drain(s).rest| <= |s|
    decreases |s|
  {
    if TurnOn(s).Decodes? { DrainRest(Remaining(s, TurnOn(s).header)); }
  }

  // ---------------------------------------------------------------- any cutting gives the same frames

  /** The reads of one connection, in order: all frames decoded, what is left, and how the last loop ended. */
  function FeedAll(content: seq<Byte>, chunks: seq<seq<Byte>>): Drained
    decreases |chunks|
  {
    if chunks == [] then Drained([], content, Drain(content).ending)
    else
      var d := Drain(content + chunks[0]);
      var more := FeedAll(d.rest, chunks[1..]);
      Drained(d.frames + more.frames, more.rest, more.ending)
  }

  /** One more read. */
  lemma {:induction false} FeedOn(content: seq<Byte>, chunks: seq<seq<Byte>>, chunk: seq<Byte>)
    ensures var d := FeedAll(content, chunks); var e := Drain(d.rest + chunk); var f := FeedAll(content, chunks + [chunk]);
      f.frames == d.frames + e.frames && f.rest == e.rest
    decreases |chunks|
  {
    hide Drain;
    if chunks == [] {
      assert ([] + [chunk])[1..] == [] && [] + Drain(content + chunk).frames == Drain(content + chunk).frames;
    } else {
      var first := Drain(content + chunks[0]);
      var d := FeedAll(first.rest, chunks[1..]);
      assert (chunks + [chunk])[1..] == chunks[1..] + [chunk];
      FeedOn(first.rest, chunks[1..], chunk);
      Regroup(first.frames, d.frames, Drain(d.rest + chunk).frames);
    }
  }

  lemma {:induction false} FeedIsDrain(content: seq<Byte>, chunks: seq<seq<Byte>>)
    requires TurnOn(content).Ends?
    ensures FeedAll(content, chunks) == Drain(content + Flatten(chunks))
    decreases |chunks|
  {
    if chunks == [] {
      assert content + [] == content;
    } else {
      var d := Drain(content + chunks[0]);
      DrainRest(content + chunks[0]);
      FeedIsDrain(d.rest, chunks[1..]);
      DrainAppend(content + chunks[0], Flatten(chunks[1..]));
      Regroup(content, chunks[0], Flatten(chunks[1..]));
    }
  }

  /** Split-independence: any two cuttings of one stream decode the same frames and leave the same bytes. */
  lemma {:induction false} SplitIndependence(a: seq<seq<Byte>>, b: seq<seq<Byte>>)
    requires Flatten(a) == Flatten(b)
    ensures FeedAll([], a) == FeedAll([], b)
  {
    FeedIsDrain([], a);
    FeedIsDrain([], b);
  }

  /** The loop fails to end exactly if what it has come to starts with an accepted frame of no payload. */
  lemma {:induction false} SpinsAtEmptyPayload(s: seq<Byte>)
    ensures var rest := Drain(s).rest;
      Drain(s).ending == Spins
      <==> |rest| > 16 && ReadHeader(rest).Accepted? && ReadHeader(rest).payload == 0
  {
    hide Drain, ReadHeader;
    DrainRest(s);
  }
}
