/** From the reads of all connections to the input queue. */
module Intake {
  import opened Bytes
  import opened Seqs
  import opened SessionFlags
  import opened Queue
  import opened Frames
  import opened FrameCodec
  import opened WsBuffer
  import opened WsFilter
  import opened Splitting

  predicate IsConnection(fd: int) {
    1 <= fd <= MAX_CONNECTIONS
  }

  predicate OfConnections(events: seq<Read>) {
    forall i :: 0 <= i < |events| ==> IsRead(events[i]) && IsConnection(events[i].fd)
  }

  // ---------------------------------------------------------------- the limit of the queue

  lemma {:induction false} FilledGrows<T>(q: seq<T>, more: seq<T>, limit: nat)
    ensures |q| <= |Filled(q, more, limit)|
    decreases |more|
  {
    if more != [] { FilledGrows(if |q| < limit then q + [more[0]] else q, more[1..], limit); }
  }

  /** If the limit is not reached in the end, nothing has been dropped. */
  lemma {:induction false} FilledUnderLimit<T>(q: seq<T>, more: seq<T>, limit: nat)
    requires |Filled(q, more, limit)| < limit
    ensures Filled(q, more, limit) == q + more
    decreases |more|
  {
    FilledGrows(q, more, limit);
    if more == [] {
      assert q + more == q;
    } else {
      FilledUnderLimit(q + [more[0]], more[1..], limit);
      assert q + [more[0]] + more[1..] == q + more;
    }
  }

  // ---------------------------------------------------------------- one read

  /** What a read brings when nothing is dropped. */
  function Arriving(fd: nat, frames: seq<seq<Byte>>, ts: int): seq<InMessage> {
    Wrap(SetEncoded(fd), Queued(Flatten(frames)), ts)
  }

  /** The part of do_use_fd for a WebSocket connection, up to the switch over the status. */
  method UseConnection(pool: Pool, q: Queue<InMessage>, r: Read, limit: nat)
    returns (status: int, ghost frames: seq<seq<Byte>>)
    requires pool.Valid() && q.Valid() && IsRead(r)
    modifies pool`allocatedSize, pool.slots, q, q.Repr`next
    ensures pool.Valid() && q.Valid() && fresh(q.Repr - old(q.Repr))
    ensures var refusal := Refusal(old(pool.slots[..]), old(pool.allocatedSize), r.fd, r.len);
      var d := Drain(Kept(old(pool.slots[..]), r.fd) + r.buffer[..r.len]);
      if refusal == 0 then
        status == StatusOf(d) && frames == d.frames && Kept(pool.slots[..], r.fd) == d.rest
      else
        status == refusal && frames == []
    ensures q.contents == Filled(old(q.contents), Arriving(r.fd, frames, r.ts), limit)
    ensures forall g :: g > 0 && g != r.fd ==> Kept(pool.slots[..], g) == Kept(old(pool.slots[..]), g)
  {
    hide Drain, Kept, Filled;
    var out, len, encoded;
    status, out, len, encoded, frames := InputFilter(pool, r.fd, true, r.buffer, r.len);
    if out != [] {
      var decoded := new Byte[|out|](i requires 0 <= i < |out| => out[i]);
      assert decoded[..len] == out[..|out| - 1];
      PutMessagesOnQueue(SetEncoded(r.fd), decoded, q, len, r.ts, limit);
    } else {
      NothingArrives(q.contents, r.fd, frames, r.ts, limit);
    }
  }

  lemma NothingArrives(q: seq<InMessage>, fd: nat, frames: seq<seq<Byte>>, ts: int, limit: nat)
    requires Flatten(frames) == []
    ensures Filled(q, Arriving(fd, frames, ts), limit) == q
  {
  }

  // ---------------------------------------------------------------- many reads

  /** What all reads bring, in order. */
  function Arrivals(events: seq<Read>, ys: seq<Yield>): seq<InMessage>
    requires |events| == |ys| && AreReads(events)
  {
    if ys == [] then []
    else
      var n := |ys| - 1;
      Arrivals(events[..n], ys[..n]) + Arriving(events[n].fd, ys[n].frames, events[n].ts)
  }

  lemma {:induction false} ArrivalsOn(events: seq<Read>, ys: seq<Yield>, r: Read, y: Yield)
    requires |events| == |ys| && AreReads(events) && IsRead(r)
    ensures AreReads(events + [r])
    ensures Arrivals(events + [r], ys + [y]) == Arrivals(events, ys) + Arriving(r.fd, y.frames, r.ts)
  {
    assert (events + [r])[..|events|] == events && (ys + [y])[..|ys|] == ys;
  }

  /** Whether a read is refused by a limit, or does not leave the decode loop waiting for more. */
  predicate Ended(slots: seq<Slot>, total: int, r: Read)
    requires IsRead(r)
  {
    Refusal(slots, total, r.fd, r.len) != 0 || Drain(Kept(slots, r.fd) + r.buffer[..r.len]).ending != Waits
  }

  lemma {:induction false} EndedIff(slots: seq<Slot>, total: int, r: Read, status: int)
    requires IsRead(r)
    requires var refusal := Refusal(slots, total, r.fd, r.len);
      status == if refusal == 0 then StatusOf(Drain(Kept(slots, r.fd) + r.buffer[..r.len])) else refusal
    ensures Ended(slots, total, r) <==> status != COMPLETE_DATAFRAME && status != INCOMPLETE_DATAFRAME
  {
    hide Drain, Kept;
    DrainRest(Kept(slots, r.fd) + r.buffer[..r.len]);
  }

  /** The queue, unless its limit has been reached, has grown by the arrivals. */
  ghost predicate Grown(was: seq<InMessage>, now: seq<InMessage>, events: seq<Read>, ys: seq<Yield>, limit: nat)
    requires |events| == |ys| && AreReads(events)
  {
    |was| <= |now| && (|now| < limit ==> now == was + Arrivals(events, ys))
  }

  lemma {:induction false} GrownOn(was: seq<InMessage>, mid: seq<InMessage>, now: seq<InMessage>, events: seq<Read>,
                                   ys: seq<Yield>, limit: nat, r: Read, y: Yield)
    requires |events| == |ys| && AreReads(events) && IsRead(r) && Grown(was, mid, events, ys, limit)
    requires now == Filled(mid, Arriving(r.fd, y.frames, r.ts), limit)
    ensures AreReads(events + [r]) && Grown(was, now, events + [r], ys + [y], limit)
  {
    hide Arrivals, Arriving, Filled;
    FilledGrows(mid, Arriving(r.fd, y.frames, r.ts), limit);
    ArrivalsOn(events, ys, r, y);
    if |now| < limit {
      FilledUnderLimit(mid, Arriving(r.fd, y.frames, r.ts), limit);
      Regroup(was, Arrivals(events, ys), Arriving(r.fd, y.frames, r.ts));
    }
  }

  /**
   The reads of many WebSocket connections, interleaved in any way, through one pool into one queue: until a read ends
   its connection, each connection decodes what it would decode alone, and unless the limit of the queue is reached
   exactly the arriving texts are queued. `slots`, `total` and `queued` are the pool and the queue at the read that
   ends, or at last.
   */
  method UseAll(pool: Pool, q: Queue<InMessage>, events: seq<Read>, limit: nat)
    returns (done: nat, ghost ys: seq<Yield>, ghost slots: seq<Slot>, ghost total: int, ghost queued: seq<InMessage>)
    requires pool.Valid() && q.Valid() && AreReads(events)
    modifies pool`allocatedSize, pool.slots, q, q.Repr`next
    ensures pool.Valid() && q.Valid() && fresh(q.Repr - old(q.Repr))
    ensures |ys| == done <= |events| && AreReads(events[..done])
    ensures forall i :: 0 <= i < done ==> ys[i].fd == events[i].fd
    ensures AllAlone(old(pool.slots[..]), slots, events[..done], ys)
    ensures Grown(old(q.contents), queued, events[..done], ys, limit)
    ensures done == |events| ==> slots == pool.slots[..] && queued == q.contents
    ensures done < |events| ==> Ended(slots, total, events[done])
  {
    hide AllAlone, Grown, Ended, Drain, Kept, Arriving, Filled;
    done, ys, slots, total, queued := 0, [], pool.slots[..], pool.allocatedSize, q.contents;
    ghost var was, first := pool.slots[..], q.contents;
    NothingRead(was);
    NothingGrown(first, limit);
    assert events[..0] == [];
    while done < |events|
      invariant pool.Valid() && q.Valid() && fresh(q.Repr - old(q.Repr))
      invariant |ys| == done <= |events| && forall i :: 0 <= i < done ==> ys[i].fd == events[i].fd
      invariant slots == pool.slots[..] && total == pool.allocatedSize && queued == q.contents
      invariant AllAlone(was, slots, events[..done], ys) && Grown(first, queued, events[..done], ys, limit)
    {
      var r := events[done];
      var status, frames := UseConnection(pool, q, r, limit);
      EndedIff(slots, total, r, status);
      if status != COMPLETE_DATAFRAME && status != INCOMPLETE_DATAFRAME { return; }
      RefusalsApart(slots, total, r);
      AllAloneOn(was, slots, pool.slots[..], events[..done], ys, r, Yield(r.fd, frames));
      GrownOn(first, queued, q.contents, events[..done], ys, limit, r, Yield(r.fd, frames));
      assert events[..done + 1] == events[..done] + [r];
      done, ys, slots, total, queued := done + 1, ys + [Yield(r.fd, frames)], pool.slots[..], pool.allocatedSize, q.contents;
    }
    assert events[..done] == events;
  }

  lemma RefusalsApart(slots: seq<Slot>, total: int, r: Read)
    requires IsRead(r)
    ensures var refusal := Refusal(slots, total, r.fd, r.len);
      refusal != COMPLETE_DATAFRAME && refusal != INCOMPLETE_DATAFRAME
  {
  }

  lemma NothingGrown(q: seq<InMessage>, limit: nat)
    ensures Grown(q, q, [], [], limit)
  {
    assert q + [] == q;
  }

  // ---------------------------------------------------------------- what each connection finds in the queue

  /** The texts of one sender, in order. */
  function TextsOf(ms: seq<InMessage>, fd: int): seq<seq<Byte>> {
    if ms == [] then []
    else
      var last := ms[|ms| - 1];
      TextsOf(ms[..|ms| - 1], fd) + (if last.fd == fd then [last.content] else [])
  }

  lemma {:induction false} TextsAppend(a: seq<InMessage>, b: seq<InMessage>, fd: int)
    ensures TextsOf(a + b, fd) == TextsOf(a, fd) + TextsOf(b, fd)
    decreases |b|
  {
    if b == [] {
      assert a + b == a;
    } else {
      var n := |b| - 1;
      assert (a + b)[..|a + b| - 1] == a + b[..n];
      TextsAppend(a, b[..n], fd);
      Regroup(TextsOf(a, fd), TextsOf(b[..n], fd), if b[n].fd == fd then [b[n].content] else []);
    }
  }

  lemma {:induction false} TextsOfWrap(from: int, texts: seq<seq<Byte>>, ts: int, fd: int)
    ensures TextsOf(Wrap(from, texts, ts), fd) == if from == fd then texts else []
    decreases |texts|
  {
    hide Wrap;
    if texts != [] {
      var n, ms := |texts| - 1, Wrap(from, texts, ts);
      TextsOfWrap(from, texts[..n], ts, fd);
      assert ms[..n] == Wrap(from, texts[..n], ts) && ms[|ms| - 1] == InMessage(from, texts[n], ts);
      assert texts == texts[..n] + [texts[n]];
    }
  }

  /** The flag keeps connections apart. */
  lemma NamesApart(c: nat, d: nat)
    requires IsConnection(c) && IsConnection(d)
    ensures SetEncoded(c) == SetEncoded(d) <==> c == d
  {
  }

  lemma {:induction false} TextsSplit(a: seq<seq<Byte>>, b: seq<seq<Byte>>)
    requires AllAreTexts(a + b)
    ensures AllAreTexts(a) && AllAreTexts(b)
  {
    forall i | 0 <= i < |a| ensures IsTexts(a[i]) { assert a[i] == (a + b)[i]; }
    forall i | 0 <= i < |b| ensures IsTexts(b[i]) { assert b[i] == (a + b)[|a| + i]; }
  }

  /** Under its flagged number, a connection's messages in the queue are the texts of its frames, in order. */
  lemma {:induction false} ArrivalsAreTexts(events: seq<Read>, ys: seq<Yield>, c: nat)
    requires |events| == |ys| && OfConnections(events) && AreReads(events) && IsConnection(c)
    requires forall i :: 0 <= i < |ys| ==> ys[i].fd == events[i].fd
    requires AllAreTexts(FramesOf(ys, c))
    ensures TextsOf(Arrivals(events, ys), SetEncoded(c)) == AllTexts(FramesOf(ys, c))
    decreases |ys|
  {
    hide AllAreTexts, AllTexts, Queued;
    NoTexts();
    if ys != [] {
      var n := |ys| - 1;
      var front, last := FramesOf(ys[..n], c), if ys[n].fd == c then ys[n].frames else [];
      TextsSplit(front, last);
      AllTextsAppend(front, last);
      ArrivalsAreTexts(events[..n], ys[..n], c);
      TextsAppend(Arrivals(events[..n], ys[..n]), Arriving(events[n].fd, ys[n].frames, events[n].ts), SetEncoded(c));
      TextsOfWrap(SetEncoded(events[n].fd), Queued(Flatten(ys[n].frames)), events[n].ts, SetEncoded(c));
      NamesApart(events[n].fd, c);
      if ys[n].fd == c { QueuedIsAllTexts(last); }
    }
  }

  lemma NoTexts()
    ensures AllTexts([]) == []
  {
  }

  /**
   End to end: a client whose frames carry whole texts, however its stream is cut into reads and whatever other
   connections send in between, has its texts queued in order under its flagged number.
   */
  lemma {:induction false} StreamIsQueued(was: seq<Slot>, now: seq<Slot>, events: seq<Read>, ys: seq<Yield>, c: nat,
                                          fs: seq<Frame>, tail: seq<Byte>)
    requires |events| == |ys| && OfConnections(events) && AreReads(events) && IsConnection(c)
    requires forall i :: 0 <= i < |ys| ==> ys[i].fd == events[i].fd
    requires AllAlone(was, now, events, ys) && Kept(was, c) == []
    requires Flatten(Own(events, c)) == Stream(fs) + tail && TurnOn(tail) == Ends(Waits)
    requires AllAreTexts(Payloads(fs[..Taken(fs, tail)]))
    ensures TextsOf(Arrivals(events, ys), SetEncoded(c)) == AllTexts(Payloads(fs[..Taken(fs, tail)]))
    ensures Kept(now, c) == Stream(fs[Taken(fs, tail)..]) + tail
  {
    hide Stream, TurnOn, AllAreTexts, Arrivals, Kept;
    assert Alone(was, now, events, ys, c);
    AnyCuttingDecodes(fs, tail, Own(events, c));
    ArrivalsAreTexts(events, ys, c);
  }

  /** The same in terms of the texts that the client has closed with NULs and put into its frames. */
  lemma {:induction false} TextsAreQueued(was: seq<Slot>, now: seq<Slot>, events: seq<Read>, ys: seq<Yield>, c: nat,
                                          fs: seq<Frame>, texts: seq<seq<seq<Byte>>>, tail: seq<Byte>)
    requires |events| == |ys| && OfConnections(events) && AreReads(events) && IsConnection(c)
    requires forall i :: 0 <= i < |ys| ==> ys[i].fd == events[i].fd
    requires AllAlone(was, now, events, ys) && Kept(was, c) == []
    requires Flatten(Own(events, c)) == Stream(fs) + tail && TurnOn(tail) == Ends(Waits)
    requires |texts| == |fs| && forall j :: 0 <= j < |fs| ==> AreWords(texts[j]) && fs[j].0 == Closed(texts[j])
    ensures TextsOf(Arrivals(events, ys), SetEncoded(c)) == Flatten(texts[..Taken(fs, tail)])
  {
    hide Stream, TurnOn, AllAreTexts, Arrivals, Kept, AreWords, Closed, AllTexts, Taken;
    var k := Taken(fs, tail);
    PayloadsAt(fs[..k]);
    TextsOfClosed(Payloads(fs[..k]), texts[..k]);
    StreamIsQueued(was, now, events, ys, c, fs, tail);
  }

  lemma {:induction false} PayloadsAt(fs: seq<Frame>)
    ensures forall j :: 0 <= j < |fs| ==> Payloads(fs)[j] == fs[j].0
  {
    if fs != [] { PayloadsAt(fs[1..]); }
  }
}
