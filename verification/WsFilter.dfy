/** The WebSocket input filter: reads of one connection go in, unmasked payload bytes come out. */
module WsFilter {
  import opened Bytes
  import opened Ntohl
  import opened Seqs
  import opened Frames
  import opened WsBuffer

  const NOT_A_DATAFRAME: int := 0
  const COMPLETE_DATAFRAME: int := 1
  const INCOMPLETE_DATAFRAME: int := 2
  const BUFFER_EXCEEDED_MAX: int := -2
  const BUFFER_OUT_OF_SLOTS: int := -6

  /** The original returns no status here: its decode loop does not end. */
  const NEVER_RETURNS: int := 99

  /** ws_dataframe_read_headers on a little-endian host. */
  method ReadHeaders(s: seq<Byte>) returns (h: Header)
    requires |s| >= 14
    ensures h == ReadHeader(s)
  {
    var opcode := s[0] % 16;
    if opcode == 8 { return Refused(OPCODE_CLIENT_DISCONNECT); }
    if opcode != 1 { return Refused(OPCODE_UNHANDLED); }
    var len := s[1] % 128;
    var payloadLen, headerLen, mask := len, 6, Sub(s, 2, 6);
    if len == 126 {
      BeLimit(Sub(s, 2, 4));
      payloadLen, headerLen, mask := (s[2] as int) * 256 + s[3], 8, Sub(s, 4, 8);
    } else if len == 127 {
      LoadIsNetworkOrder(Sub(s, 2, 10));
      payloadLen, headerLen, mask := Ntohl64(Load(Sub(s, 2, 10))), 14, Sub(s, 10, 14);
    }
    if payloadLen > DATA_FRAME_MAX_LENGTH { return Refused(TOO_LARGE_DATAFRAME); }
    return Accepted(payloadLen, headerLen, mask);
  }

  /** The first loop of ws_dataframe_decode. */
  method UnmaskFront(received: seq<Byte>, skip: nat, len: nat, mask: seq<Byte>) returns (decoded: seq<Byte>)
    requires |mask| == 4 && skip + len <= |received|
    ensures decoded == Unmask(Sub(received, skip, skip + len), mask)
  {
    hide Xor;
    var out := new Byte[len](_ => 0);
    var i := 0;
    while i < len
      invariant 0 <= i <= len
      invariant forall k :: 0 <= k < i ==> out[k] == Xor(received[k + skip], mask[k % 4])
    {
      out[i] := Xor(received[i + skip], mask[i % 4]);
      i := i + 1;
    }
    decoded := out[..];
  }

  /** The second loop: what follows the frame moves to the front of the buffer. */
  method MoveUp(received: seq<Byte>, from: nat) returns (rest: seq<Byte>)
    requires from <= |received|
    ensures rest == Sub(received, from, |received|)
  {
    var newLen := |received| - from;
    var buf := new Byte[|received|](k requires 0 <= k < |received| => received[k]);
    var i := 0;
    while i < newLen
      invariant 0 <= i <= newLen
      invariant forall k :: 0 <= k < i ==> buf[k] == received[from + k]
      invariant forall k :: i <= k < |received| ==> buf[k] == received[k]
    {
      buf[i] := buf[from + i];
      i := i + 1;
    }
    rest := buf[..newLen];
  }

  /** ws_dataframe_decode: unmasks the first frame and moves what follows it to the front of the buffer. */
  method Decode(received: seq<Byte>, h: Header) returns (decoded: seq<Byte>, rest: seq<Byte>)
    requires h.Accepted? && |h.mask| == 4 && Skip(h.payload) + h.payload <= |received|
    ensures decoded == Decoded(received, h) && rest == Remaining(received, h)
    ensures var skip := if h.payload < 126 then 6 else if h.payload < 65536 then 8 else 14;
      && |decoded| == h.payload && |received| == skip + h.payload + |rest|
      && (forall i :: 0 <= i < h.payload ==> decoded[i] == Xor(received[skip + i], h.mask[i % 4]))
      && forall i :: 0 <= i < |rest| ==> rest[i] == received[skip + h.payload + i]
  {
    hide Xor;
    var len, skip := h.payload, Skip(h.payload);
    decoded := UnmaskFront(received, skip, len, h.mask);
    rest := MoveUp(received, skip + len);
  }

  function Content(s: Slot): seq<Byte> {
    if s.received.Some? then s.received.value else []
  }

  /** A slot that keeps the given bytes, a null pointer standing for none. */
  function Keeping(s: Slot, bytes: seq<Byte>, frameLen: nat): (r: Slot)
    ensures Content(r) == bytes && r.fd == s.fd && r.mask == s.mask
  {
    Slot(s.fd, s.mask, |bytes|, frameLen, if bytes == [] then None else Some(bytes))
  }

  /** The decode loop on the way: what has come out, and what the slot still holds. */
  ghost predicate Draining(goal: Drained, frames: seq<seq<Byte>>, bytes: seq<Byte>) {
    var d := Drain(bytes);
    goal == Drained(frames + d.frames, d.rest, d.ending)
  }

  lemma {:induction false} DrainingOn(goal: Drained, frames: seq<seq<Byte>>, bytes: seq<Byte>)
    requires Draining(goal, frames, bytes)
    ensures TurnOn(bytes).Ends? ==> goal == Drained(frames, bytes, TurnOn(bytes).ending)
    ensures TurnOn(bytes).Decodes? ==>
      var h := TurnOn(bytes).header; Draining(goal, frames + [Decoded(bytes, h)], Remaining(bytes, h))
  {
    hide Drain, TurnOn;
    DrainTurn(bytes);
    if TurnOn(bytes).Decodes? {
      var h := TurnOn(bytes).header;
      Regroup(frames, [Decoded(bytes, h)], Drain(Remaining(bytes, h)).frames);
    } else {
      assert frames + [] == frames;
    }
  }

  lemma DrainingStart(bytes: seq<Byte>)
    ensures Draining(Drain(bytes), [], bytes)
  {
    hide Drain;
    assert [] + Drain(bytes).frames == Drain(bytes).frames;
  }

  /** The loop's test and the frame in front, if one is to be decoded. */
  method Test(bytes: seq<Byte>) returns (t: Turn)
    ensures t == TurnOn(bytes)
  {
    if |bytes| <= MIN_DATA_FRAME_SIZE { return Ends(Waits); }
    var h := ReadHeaders(bytes);
    if h.Refused? { return Ends(Fails(h.status)); }
    if |bytes| < h.payload + h.headerLen { return Ends(Waits); }
    if h.payload == 0 { return Ends(Spins); }
    return Decodes(h);
  }

  /** One read's decode loop on the slot's bytes. */
  method DrainSlot(pool: Pool, i: nat) returns (frames: seq<seq<Byte>>, ending: Ending)
    requires pool.Valid() && i < pool.slots.Length && pool.slots[i].fd > 0
    modifies pool`allocatedSize, pool.slots
    ensures pool.Valid()
    ensures var d := Drain(Content(old(pool.slots[i])));
      && frames == d.frames && ending == d.ending && Content(pool.slots[i]) == d.rest
    ensures pool.slots[i].fd == old(pool.slots[i].fd)
    ensures pool.slots[..] == old(pool.slots[..])[i := pool.slots[i]]
  {
    hide Drain, TurnOn, ReadHeader, Draining;
    frames := [];
    ghost var was, goal := pool.slots[..], Drain(Content(pool.slots[i]));
    DrainingStart(Content(pool.slots[i]));
    while true
      invariant pool.Valid() && pool.slots[..] == was[i := pool.slots[i]] && pool.slots[i].fd == was[i].fd
      invariant Draining(goal, frames, Content(pool.slots[i]))
      decreases |Content(pool.slots[i])|
    {
      var slot := pool.slots[i];
      assert SlotOk(slot);
      var bytes := Content(slot);
      var turn := Test(bytes);
      DrainingOn(goal, frames, bytes);
      if turn.Ends? { ending := turn.ending; break; }
      var decoded, rest := Decode(bytes, turn.header);
      TotalAtLeast(pool.slots[..], i);
      pool.Write(i, Keeping(slot, rest, 0).(mask := turn.header.mask));
      frames := frames + [decoded];
    }
  }

  function StatusOf(d: Drained): int {
    match d.ending
    case Fails(status) => status
    case Spins => NEVER_RETURNS
    case Waits => if d.frames != [] then COMPLETE_DATAFRAME else INCOMPLETE_DATAFRAME
  }

  /** The statuses of the decode loop differ from those of the limits. */
  lemma {:induction false} StatusesApart(s: seq<Byte>)
    ensures var status := StatusOf(Drain(s));
      && status != BUFFER_EXCEEDED_MAX && status != BUFFER_OUT_OF_SLOTS
      && (status == NEVER_RETURNS <==> Drain(s).ending == Spins)
  {
    hide Drain;
    DrainRest(s);
  }

  /** The part of the filter for a connection that has, or now gets, the slot i. */
  method Continue(pool: Pool, i: nat) returns (frames: seq<seq<Byte>>, status: int)
    requires pool.Valid() && i < pool.slots.Length && pool.slots[i].fd > 0
    modifies pool`allocatedSize, pool.slots
    ensures pool.Valid()
    ensures var fd, d := old(pool.slots[i].fd), Drain(Content(old(pool.slots[i])));
      && frames == d.frames && status == StatusOf(d) && Kept(pool.slots[..], fd) == d.rest
    ensures forall g :: g > 0 && g != old(pool.slots[i].fd) ==> Kept(pool.slots[..], g) == Kept(old(pool.slots[..]), g)
  {
    ghost var was, fd := pool.slots[..], pool.slots[i].fd;
    var ending;
    frames, ending := DrainSlot(pool, i);
    status := StatusOf(Drained(frames, [], ending));
    SlotOfIs(pool.slots[..], fd, 0, i);
    if pool.slots[i].received.None? {
      pool.Free(i);
      assert forall j :: 0 <= j < |was| ==> pool.slots[..][j].fd != fd;
    }
    forall g | g > 0 && g != fd ensures Kept(pool.slots[..], g) == Kept(was, g) {
      assert pool.slots[..] == was[i := pool.slots[i]];
      KeptFrame(was, i, pool.slots[i], g);
    }
  }

  /** Whether a read would be refused, and why; 0 if not. */
  function Refusal(slots: seq<Slot>, total: int, fd: int, readLen: nat): int {
    if MAX_BUFFER_SIZE - (total + readLen) < 0 then BUFFER_EXCEEDED_MAX
    else if SlotOf(slots, fd, 0) < 0 && SlotOf(slots, 0, 0) < 0 then BUFFER_OUT_OF_SLOTS
    else 0
  }

  /** The limits in plain terms: ten million bytes in all, and a slot that is the connection's or free. */
  lemma {:induction false} RefusalPlainly(slots: seq<Slot>, total: int, fd: int, readLen: nat)
    ensures var refusal := Refusal(slots, total, fd, readLen);
      if total + readLen > 10000000 then refusal == -2
      else if forall j :: 0 <= j < |slots| ==> slots[j].fd != fd && slots[j].fd != 0 then refusal == -6
      else refusal == 0
  {
  }

  /** The statuses in plain terms: of a refused frame its own, else 1 if a frame has come out and 2 if none has. */
  lemma {:induction false} StatusPlainly(s: seq<Byte>)
    ensures var d := Drain(s); var status := StatusOf(d);
      && (d.ending == Waits ==> status == if d.frames != [] then 1 else 2)
      && (d.ending.Fails? ==> status == d.ending.status && status in {-1, -4, -5})
  {
    hide Drain;
    DrainRest(s);
    if Drain(s).ending.Fails? { RefusedPlainly(Drain(s).rest); }
  }

  /**
   ws_input_filter_dataframe. `encoded` is what the session storage says about the connection before
   the read, `nowEncoded` what it says after it. The read is refused, or its bytes join the ones kept
   for the connection and every complete frame is taken off; no other connection is affected.
   */
  method InputFilter(pool: Pool, fd: int, encoded: bool, buffer: seq<Byte>, readLen: nat)
      returns (status: int, out: seq<Byte>, decodedLen: nat, nowEncoded: bool, ghost frames: seq<seq<Byte>>)
    requires pool.Valid() && fd > 0 && 1 <= readLen <= |buffer| && |buffer| >= 2
    modifies pool`allocatedSize, pool.slots
    ensures pool.Valid()
    ensures nowEncoded == (encoded || buffer[1] >= 128)
    ensures !nowEncoded ==> status == NOT_A_DATAFRAME && out == [] && pool.slots[..] == old(pool.slots[..])
    ensures nowEncoded ==>
      var refusal := Refusal(old(pool.slots[..]), old(pool.allocatedSize), fd, readLen);
      var d := Drain(Kept(old(pool.slots[..]), fd) + buffer[..readLen]);
      if refusal == 0 then
        status == StatusOf(d) && frames == d.frames && Kept(pool.slots[..], fd) == d.rest
      else
        status == refusal && frames == [] && Kept(pool.slots[..], fd) == []
    ensures out == Flatten(frames)
    ensures decodedLen == if out == [] then 0 else |out| - 1
    ensures forall g :: g > 0 && g != fd ==> Kept(pool.slots[..], g) == Kept(old(pool.slots[..]), g)
  {
    out, decodedLen, frames := [], 0, [];
    nowEncoded := buffer[1] >= 128 || encoded;
    if !nowEncoded { return NOT_A_DATAFRAME, out, decodedLen, nowEncoded, frames; }
    ghost var was := pool.slots[..];
    var i := pool.Find(fd);
    if MAX_BUFFER_SIZE - (pool.allocatedSize + readLen) < 0 {
      pool.Free(i);
      FreedKeepsNothing(was, fd);
      return BUFFER_EXCEEDED_MAX, out, decodedLen, nowEncoded, frames;
    }
    var data := buffer[..readLen];
    if i >= 0 {
      var slot := pool.slots[i];
      assert SlotOk(slot);
      pool.Write(i, Keeping(slot, Content(slot) + data, 0));
    } else {
      i := pool.Add(fd, data);
      if i < 0 { return BUFFER_OUT_OF_SLOTS, out, decodedLen, nowEncoded, frames; }
    }
    assert Content(pool.slots[i]) == Kept(was, fd) + data;
    forall g | g > 0 && g != fd ensures Kept(pool.slots[..], g) == Kept(was, g) {
      KeptFrame(was, i, pool.slots[i], g);
    }
    var decoded;
    decoded, status := Continue(pool, i);
    out, frames := Flatten(decoded), decoded;
    if out != [] { decodedLen := |out| - 1; }
  }

  lemma {:induction false} FreedKeepsNothing(slots: seq<Slot>, fd: int)
    requires SlotsOk(slots) && fd > 0
    ensures var i := SlotOf(slots, fd, 0);
      var now := if i >= 0 then slots[i := FREE] else slots;
      && Kept(now, fd) == []
      && forall g :: g > 0 && g != fd ==> Kept(now, g) == Kept(slots, g)
  {
    var i := SlotOf(slots, fd, 0);
    if i >= 0 {
      var now := slots[i := FREE];
      assert forall j :: 0 <= j < |slots| ==> now[j].fd != fd;
      forall g | g > 0 && g != fd ensures Kept(slots[i := FREE], g) == Kept(slots, g) {
        KeptFrame(slots, i, FREE, g);
      }
    }
  }

  // ---------------------------------------------------------------- many connections

  /** What one call of recv leaves: the buffer, of which the first bytes are new, and the time. */
  datatype Read = Read(fd: int, buffer: seq<Byte>, len: nat, ts: int)

  predicate IsRead(r: Read) {
    r.fd > 0 && 1 <= r.len <= |r.buffer| && |r.buffer| >= 2
  }

  predicate AreReads(events: seq<Read>) {
    forall i :: 0 <= i < |events| ==> IsRead(events[i])
  }

  /** The frames that came out of a read. */
  datatype Yield = Yield(fd: int, frames: seq<seq<Byte>>)

  /** The bytes read from one connection, read by read. */
  function Own(events: seq<Read>, fd: int): seq<seq<Byte>>
    requires AreReads(events)
  {
    if events == [] then []
    else
      var last := events[|events| - 1];
      Own(events[..|events| - 1], fd) + (if last.fd == fd then [last.buffer[..last.len]] else [])
  }

  /** The frames that came out for one connection. */
  function FramesOf(ys: seq<Yield>, fd: int): seq<seq<Byte>> {
    if ys == [] then []
    else
      var last := ys[|ys| - 1];
      FramesOf(ys[..|ys| - 1], fd) + (if last.fd == fd then last.frames else [])
  }

  /** A connection has the frames of its own bytes, as if there were no other, and the pool keeps what is left of them. */
  ghost predicate Alone(was: seq<Slot>, now: seq<Slot>, events: seq<Read>, ys: seq<Yield>, fd: int)
    requires AreReads(events)
  {
    var d := FeedAll(Kept(was, fd), Own(events, fd));
    FramesOf(ys, fd) == d.frames && Kept(now, fd) == d.rest
  }

  lemma {:induction false} AloneStart(slots: seq<Slot>, fd: int)
    ensures Alone(slots, slots, [], [], fd)
  {
  }

  lemma {:induction false} AloneOn(was: seq<Slot>, mid: seq<Slot>, now: seq<Slot>, events: seq<Read>, ys: seq<Yield>, r: Read,
                                   y: Yield, fd: int)
    requires AreReads(events) && IsRead(r) && Alone(was, mid, events, ys, fd) && y.fd == r.fd
    requires r.fd != fd ==> Kept(now, fd) == Kept(mid, fd)
    requires r.fd == fd ==>
      var d := Drain(Kept(mid, fd) + r.buffer[..r.len]); y.frames == d.frames && Kept(now, fd) == d.rest
    ensures AreReads(events + [r]) && Alone(was, now, events + [r], ys + [y], fd)
  {
    hide Kept, Drain, FeedAll;
    var all, out := events + [r], ys + [y];
    assert all[..|events|] == events && out[..|ys|] == ys;
    if r.fd == fd {
      FeedOn(Kept(was, fd), Own(events, fd), r.buffer[..r.len]);
    } else {
      assert Own(events, fd) + [] == Own(events, fd) && FramesOf(ys, fd) + [] == FramesOf(ys, fd);
    }
  }

  /** Every connection so far. */
  ghost predicate AllAlone(was: seq<Slot>, now: seq<Slot>, events: seq<Read>, ys: seq<Yield>)
    requires AreReads(events)
  {
    forall fd :: fd > 0 ==> Alone(was, now, events, ys, fd)
  }

  lemma {:induction false} AllAloneOn(was: seq<Slot>, mid: seq<Slot>, now: seq<Slot>, events: seq<Read>, ys: seq<Yield>,
                                      r: Read, y: Yield)
    requires AreReads(events) && IsRead(r) && AllAlone(was, mid, events, ys) && y.fd == r.fd
    requires forall g :: g > 0 && g != r.fd ==> Kept(now, g) == Kept(mid, g)
    requires var d := Drain(Kept(mid, r.fd) + r.buffer[..r.len]); y.frames == d.frames && Kept(now, r.fd) == d.rest
    ensures AreReads(events + [r]) && AllAlone(was, now, events + [r], ys + [y])
  {
    hide Kept, Drain, Alone;
    forall fd | fd > 0 ensures Alone(was, now, events + [r], ys + [y], fd) {
      AloneOn(was, mid, now, events, ys, r, y, fd);
    }
  }

  /** Whether a read of an encoded connection ends the service: a limit refuses it, or the decode loop does not end. */
  predicate Stops(slots: seq<Slot>, total: int, r: Read)
    requires IsRead(r)
  {
    Refusal(slots, total, r.fd, r.len) != 0 || Drain(Kept(slots, r.fd) + r.buffer[..r.len]).ending == Spins
  }

  /**
   The filter over the reads of many encoded connections, interleaved in any way, on one pool: until a read stops,
   every connection decodes what it would decode alone, and keeps what it would keep alone. `outs` are the decoded
   bytes, read by read; `slots` and `total` are the pool at the read that stops, or at the end.
   */
  method FilterAll(pool: Pool, events: seq<Read>)
    returns (outs: seq<seq<Byte>>, ghost ys: seq<Yield>, ghost slots: seq<Slot>, ghost total: int)
    requires pool.Valid() && AreReads(events)
    modifies pool`allocatedSize, pool.slots
    ensures pool.Valid() && |ys| == |outs| <= |events| && AreReads(events[..|outs|])
    ensures forall i :: 0 <= i < |outs| ==> outs[i] == Flatten(ys[i].frames) && ys[i].fd == events[i].fd
    ensures AllAlone(old(pool.slots[..]), slots, events[..|outs|], ys)
    ensures |outs| == |events| ==> slots == pool.slots[..]
    ensures |outs| < |events| ==> Stops(slots, total, events[|outs|])
  {
    hide AllAlone, Drain, Kept;
    outs, ys, slots, total := [], [], pool.slots[..], pool.allocatedSize;
    ghost var was := pool.slots[..];
    NothingRead(was);
    assert events[..0] == [];
    while |outs| < |events|
      invariant pool.Valid() && |ys| == |outs| <= |events| && slots == pool.slots[..] && total == pool.allocatedSize
      invariant forall i :: 0 <= i < |outs| ==> outs[i] == Flatten(ys[i].frames) && ys[i].fd == events[i].fd
      invariant AllAlone(was, slots, events[..|outs|], ys)
    {
      var r := events[|outs|];
      var status, out, _, _, frames := InputFilter(pool, r.fd, true, r.buffer, r.len);
      StatusesApart(Kept(slots, r.fd) + r.buffer[..r.len]);
      if status == BUFFER_EXCEEDED_MAX || status == BUFFER_OUT_OF_SLOTS || status == NEVER_RETURNS { return; }
      AllAloneOn(was, slots, pool.slots[..], events[..|outs|], ys, r, Yield(r.fd, frames));
      assert events[..|outs| + 1] == events[..|outs|] + [r];
      outs, ys, slots, total := outs + [out], ys + [Yield(r.fd, frames)], pool.slots[..], pool.allocatedSize;
    }
    assert events[..|outs|] == events;
  }

  lemma {:induction false} NothingRead(slots: seq<Slot>)
    ensures AllAlone(slots, slots, [], [])
  {
    forall fd | fd > 0 ensures Alone(slots, slots, [], [], fd) { AloneStart(slots, fd); }
  }
}
