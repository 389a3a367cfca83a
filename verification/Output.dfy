/** From queued messages to the bytes written to a connection. */
module Output {
  import opened Bytes
  import opened Ntohl
  import opened Seqs
  import opened SessionFlags
  import opened FrameCodec
  import opened Batch

  function Octetize(s: string): (r: seq<Byte>)
    ensures |r| == |s|
  {
    seq(|s|, i requires 0 <= i < |s| => s[i] as int % 256)
  }

  predicate SameLetter(c: char, upper: char)
    requires 'A' <= upper <= 'Z'
  {
    c == upper || c as int == upper as int + 32
  }

  /** strncasecmp(content, "HTTP", 4) == 0. */
  predicate IsHttp(content: string) {
    |content| >= 4 && SameLetter(content[0], 'H') && SameLetter(content[1], 'T')
    && SameLetter(content[2], 'T') && SameLetter(content[3], 'P')
  }

  // ---------------------------------------------------------------- the frame length

  /** message_create_with_frame_len: what the writers are told about the length. */
  method MessageWithFrameLen(fd: int, content: string) returns (m: OutMessage)
    ensures m == OutMessage(fd, content, FrameLen(fd, |content|))
  {
    var len := |content|;
    if fd > 0 {
      if IsEncoded(fd) {
        var headerLen := 0;
        if len < 126 { headerLen := 2; } else if len < 65536 { headerLen := 4; } else { headerLen := 10; }
        len := len + headerLen;
      }
      len := len + 1;
    }
    return OutMessage(fd, content, len);
  }

  /** The announced length: 1 more than the content for its NUL, and the header that the content alone would need. */
  function FrameLen(fd: int, n: nat): nat {
    if fd <= 0 then n else n + 1 + (if IsEncoded(fd) then 1 + FieldSize(n) else 0)
  }

  /** encode_websocket_frame on a little-endian host. */
  method EncodeWebsocketFrame(content: seq<Byte>) returns (out: seq<Byte>)
    requires |content| + 1 < TWO_64
    ensures out == EncodeFrame(content)
  {
    var origLen := |content| + 1;
    if origLen < 126 {
      out := [0x81, origLen] + (content + [0]);
    } else if origLen < 65536 {
      TwoOctets(origLen);
      var htons := origLen % 256 * 256 + origLen / 256;
      out := [0x81, 126] + [htons % 256, htons / 256] + (content + [0]);
      SwappedTwice(origLen);
    } else {
      StoreIsNetworkOrder(origLen);
      out := [0x81, 127] + Store(Ntohl64(origLen)) + (content + [0]);
    }
  }

  lemma SwappedTwice(n: nat)
    requires n < 65536
    ensures var h := n % 256 * 256 + n / 256; h % 256 == n / 256 && h / 256 == n % 256
  {
  }

  /** ws_output_filter: the bytes that are written for a message. */
  function Emitted(m: OutMessage): (s: seq<Byte>)
    requires m.fd >= 0 && |m.content| + 1 < TWO_64
  {
    var bytes := Octetize(m.content);
    if IsEncoded(m.fd) then EncodeFrame(bytes)
    else if IsHttp(m.content) then bytes
    else bytes + [0]
  }

  method OutputFilter(m: OutMessage) returns (bytes: seq<Byte>)
    requires m.fd >= 0 && |m.content| + 1 < TWO_64
    ensures bytes == Emitted(m)
  {
    bytes := Octetize(m.content);
    if IsEncoded(m.fd) {
      bytes := EncodeWebsocketFrame(bytes);
    } else if !IsHttp(m.content) {
      bytes := bytes + [0];
    }
  }

  /**
   The announced length is the written one, except where the NUL moves an encoded frame to the next header
   form, and for the answer of a handshake, which gets no NUL.
   */
  lemma AnnouncedLengthIsExactIff(fd: nat, content: string)
    requires fd > 0 && |content| + 1 < TWO_64
    ensures var m := OutMessage(fd, content, FrameLen(fd, |content|));
      |Emitted(m)| == m.frameLen
      <==> if IsEncoded(fd) then |content| != 125 && |content| != 65535 else !IsHttp(content)
  {
  }

  /** At the two exceptional lengths the announcement is short by 2 and by 6. */
  lemma AnnouncedLengthIsShort(fd: nat, content: string)
    requires fd > 0 && IsEncoded(fd) && (|content| == 125 || |content| == 65535)
    ensures |Emitted(OutMessage(fd, content, 0))| == FrameLen(fd, |content|) + (if |content| == 125 then 2 else 6)
  {
  }

  // ---------------------------------------------------------------- writing a batch

  predicate Sendable(batch: Messages) {
    forall i :: 0 <= i < |batch| ==> batch[i].fd != PILL ==> batch[i].fd >= 0 && |batch[i].content| + 1 < TWO_64
  }

  predicate NoPill(batch: Messages) {
    forall i :: 0 <= i < |batch| ==> batch[i].fd != PILL
  }

  /** The first n messages as bytes, without those whose client has gone. */
  function Buffered(batch: Messages, alive: seq<bool>, n: nat): seq<Byte>
    requires n <= |batch| == |alive| && Sendable(batch) && NoPill(batch[..n])
  {
    if n == 0 then []
    else
      assert batch[..n][n - 1] == batch[n - 1] && forall i :: 0 <= i < n - 1 ==> batch[..n - 1][i] == batch[..n][i];
      Buffered(batch, alive, n - 1) + if alive[n - 1] then Emitted(batch[n - 1]) else []
  }

  // What is in the buffer, told by its octets.

  /** The octets of a text and the NUL behind it. */
  predicate IsText(content: string, octets: seq<Byte>) {
    && |octets| == |content| + 1 && octets[|content|] == 0
    && forall k :: 0 <= k < |content| ==> octets[k] == content[k] as int % 256
  }

  /** The answer of a handshake starts with the protocol, in any letters, and is written without a NUL. */
  predicate IsAnswer(content: string) {
    && |content| >= 4 && content[0] in {'H', 'h'} && content[1] in {'T', 't'} && content[2] in {'T', 't'}
    && content[3] in {'P', 'p'}
  }

  /** What a receiver that follows section 5.2 of RFC 6455 takes from these octets when `more` comes behind them. */
  predicate IsTakenAs(content: string, octets: seq<Byte>, more: seq<Byte>) {
    var s := octets + more;
    |s| >= 10 ==>
      && s[1] < 128 && ReadLength(s).size + ReadLength(s).value <= |s|
      && var r := Receive(s);
        r.fin && r.opcode == 1 && !r.masked && r.minimal && IsText(content, r.payload) && r.rest == more
  }

  ghost predicate IsFrameOf(content: string, octets: seq<Byte>) {
    forall more :: IsTakenAs(content, octets, more)
  }

  /** The octets that stand for a message on its connection. */
  ghost predicate StandsFor(m: OutMessage, octets: seq<Byte>) {
    if m.fd < 0 then false
    else if IsEncoded(m.fd) then IsFrameOf(m.content, octets)
    else if IsAnswer(m.content) then
      |octets| == |m.content| && forall k :: 0 <= k < |octets| ==> octets[k] == m.content[k] as int % 256
    else IsText(m.content, octets)
  }

  lemma {:induction false} EmittedStandsFor(m: OutMessage)
    requires m.fd >= 0 && |m.content| + 1 < TWO_64
    ensures StandsFor(m, Emitted(m))
  {
    hide EncodeFrame, ReadLength, Receive;
    var bytes := Octetize(m.content);
    if IsEncoded(m.fd) {
      assert IsText(m.content, bytes + [0]);
      forall more ensures IsTakenAs(m.content, EncodeFrame(bytes), more) {
        if |EncodeFrame(bytes) + more| >= 10 { EncodedFrameIsReceived(bytes, more); }
      }
    }
  }

  /** Message i has the octets from at[i] to at[i + 1], none if its client has gone. */
  ghost predicate IsPlaced(batch: Messages, alive: seq<bool>, buffer: seq<Byte>, at: seq<nat>, i: nat)
    requires i < |batch| == |alive| && i + 1 < |at|
  {
    && at[i] <= at[i + 1] <= |buffer|
    && if alive[i] then StandsFor(batch[i], Sub(buffer, at[i], at[i + 1])) else at[i + 1] == at[i]
  }

  /**
   The first n messages in the buffer: at[i] is the sum of the lengths of the live ones before message i. Each live one
   stands there, one after the other without a gap, and nothing else is in the buffer.
   */
  ghost predicate InOrder(batch: Messages, alive: seq<bool>, n: nat, buffer: seq<Byte>, at: seq<nat>)
    requires n <= |batch| == |alive|
  {
    |at| == n + 1 && at[0] == 0 && at[n] == |buffer| && forall i :: 0 <= i < n ==> IsPlaced(batch, alive, buffer, at, i)
  }

  lemma {:induction false} InOrderOn(batch: Messages, alive: seq<bool>, n: nat, buffer: seq<Byte>, at: seq<nat>,
                                     bytes: seq<Byte>)
    requires n < |batch| == |alive| && InOrder(batch, alive, n, buffer, at)
    requires if alive[n] then StandsFor(batch[n], bytes) else bytes == []
    ensures InOrder(batch, alive, n + 1, buffer + bytes, at + [|buffer + bytes|])
  {
    hide StandsFor;
    var now, ends := buffer + bytes, at + [|buffer + bytes|];
    forall i | 0 <= i < n + 1 ensures IsPlaced(batch, alive, now, ends, i) {
      if i < n {
        assert IsPlaced(batch, alive, buffer, at, i);
        SubOfPrefix(buffer, bytes, at[i], at[i + 1]);
      } else {
        assert Sub(now, |buffer|, |now|) == bytes;
      }
    }
  }

  /** The first loop of a writer over its batch; a pill ends the thread. */
  method FillBuffer(batch: Messages, alive: seq<bool>) returns (exits: bool, buffer: seq<Byte>, ghost at: seq<nat>)
    requires |batch| == |alive| && Sendable(batch)
    ensures exits <==> !NoPill(batch)
    ensures !exits ==> batch[..|batch|] == batch && buffer == Buffered(batch, alive, |batch|)
    ensures !exits ==> InOrder(batch, alive, |batch|, buffer, at)
  {
    hide StandsFor, Emitted, InOrder;
    buffer, at := [], [0];
    NothingInOrder(batch, alive);
    for i := 0 to |batch|
      invariant NoPill(batch[..i]) && buffer == Buffered(batch, alive, i) && InOrder(batch, alive, i, buffer, at)
    {
      var msg := batch[i];
      if msg.fd == PILL { return true, [], at; }
      assert batch[..i + 1] == batch[..i] + [msg];
      if !alive[i] {
        InOrderOn(batch, alive, i, buffer, at, []);
        assert buffer + [] == buffer;
        at := at + [|buffer|];
        continue;
      }
      var bytes := OutputFilter(msg);
      EmittedStandsFor(msg);
      InOrderOn(batch, alive, i, buffer, at, bytes);
      buffer := buffer + bytes;
      at := at + [|buffer|];
    }
    assert batch[..|batch|] == batch;
    exits := false;
  }

  lemma NothingInOrder(batch: Messages, alive: seq<bool>)
    requires |batch| == |alive|
    ensures InOrder(batch, alive, 0, [], [0])
  {
  }

  // ---------------------------------------------------------------- what is lost with a pill

  /** One turn of the scan at a message that is not a pill, when the connection is known. */
  lemma ScanTurn(m: OutMessage, q: Messages, count: nat, fd: int, budget: int)
    requires m.fd != PILL && fd != 0 && count < BATCH_SIZE && budget > 0
    ensures var r := Pick([m] + q, count, fd, budget);
      if m.fd != fd then r == (Pick(q, count, fd, budget).0, [m] + Pick(q, count, fd, budget).1)
      else if m.frameLen > budget then r.0 == []
      else var (taken, left) := Pick(q, count + 1, fd, budget - m.frameLen); r == ([m] + taken, left)
  {
    assert ([m] + q)[1..] == q;
  }

  lemma ScanEnds(q: Messages, count: nat, fd: int, budget: int)
    requires count >= BATCH_SIZE || budget <= 0
    ensures Pick(q, count, fd, budget) == ([], q)
  {
  }

  /** A scan that has a connection, over plain messages and the pill behind them. */
  lemma {:induction false} ScanToPill(a: Messages, pill: OutMessage, rest: Messages, count: nat, fd: int, budget: int)
    requires Plain(a) && fd != 0 && fd != PILL && pill.fd == PILL
    ensures var own, (taken, left) := Own(a, fd), Pick(a + [pill] + rest, count, fd, budget);
      if count + |own| < BATCH_SIZE && Sum(own) < budget
      then taken == own + [pill] && left == Dropped(a, fd, |own|) + rest
      else NoPill(taken)
    decreases |a|
  {
    hide Plain, Pick, Own, Dropped, Sum;
    var q := a + [pill] + rest;
    if count >= BATCH_SIZE || budget <= 0 {
      ScanEnds(q, count, fd, budget);
    } else if a == [] {
      assert q == [pill] + rest && [] + [pill] == [pill] && [] + rest == rest;
      PillTurn(pill, rest, count, fd, budget);
      NothingOwn(fd);
    } else {
      var m, own := a[0], Own(a[1..], fd);
      var more := a[1..] + [pill] + rest;
      assert q == [m] + more;
      PlainTail(a);
      HeadOwn(a, fd);
      ScanTurn(m, more, count, fd, budget);
      if m.fd != fd {
        ScanToPill(a[1..], pill, rest, count, fd, budget);
        Regroup([m], Dropped(a[1..], fd, |own|), rest);
      } else if m.frameLen <= budget {
        ScanToPill(a[1..], pill, rest, count + 1, fd, budget - m.frameLen);
        Regroup([m], own, [pill]);
      }
    }
  }

  lemma NothingOwn(fd: int)
    ensures Own([], fd) == [] && Sum([]) == 0 && Dropped([], fd, 0) == []
  {
  }

  /** What the head of a queue is to its connection. */
  lemma {:induction false} HeadOwn(a: Messages, fd: int)
    requires a != []
    ensures var m, own := a[0], Own(a[1..], fd);
      if m.fd == fd then
        && Own(a, fd) == [m] + own && Sum(Own(a, fd)) == m.frameLen + Sum(own)
        && Dropped(a, fd, 1 + |own|) == Dropped(a[1..], fd, |own|)
      else
        Own(a, fd) == own && Dropped(a, fd, |own|) == [m] + Dropped(a[1..], fd, |own|)
  {
    var m, own := a[0], Own(a[1..], fd);
    assert ([m] + own)[1..] == own && [] + own == own;
    DroppedNone(a, fd);
    DroppedNone(a[1..], fd);
    assert [m] + a[1..] == a;
  }

  lemma PillTurn(pill: OutMessage, rest: Messages, count: nat, fd: int, budget: int)
    requires pill.fd == PILL && count < BATCH_SIZE && budget > 0
    ensures Pick([pill] + rest, count, fd, budget) == ([pill], rest)
  {
    assert ([pill] + rest)[1..] == rest;
  }

  lemma PlainTail(q: Messages)
    requires Plain(q) && q != []
    ensures Plain(q[1..]) && q[0].fd != PILL && q[0].fd != 0 && q[0].frameLen > 0
  {
  }

  lemma DroppedNone(q: Messages, fd: int)
    ensures Dropped(q, fd, 0) == q
  {
  }

  /**
   When a writer gets a pill: of the plain messages before the first pill, all of the head's connection must fit the
   batch with one place and one byte to spare. These messages are then taken and, as FillBuffer says, never written;
   all others stay in order.
   */
  lemma {:induction false} PillDropsItsBatch(q: Messages, p: nat, budget: int)
    requires q != [] && p <= |q| && Plain(q[..p]) && (p < |q| ==> q[p].fd == PILL) && budget > 0
    ensures var own, (batch, left) := Own(q[..p], q[0].fd), Pick(q, 0, 0, budget);
      && (!NoPill(batch) <==> p < |q| && |own| < BATCH_SIZE && Sum(own) < budget)
      && (!NoPill(batch) ==> batch == own + [q[p]] && left == Dropped(q[..p], q[0].fd, |own|) + q[p + 1..])
  {
    if p == 0 {
      NothingOwn(q[0].fd);
      assert q[..0] == [] && [] + q[1..] == q[1..] && [] + [q[0]] == [q[0]];
      assert Pick(q, 0, 0, budget) == ([q[0]], q[1..]) && [q[0]][0].fd == PILL;
    } else if p == |q| {
      assert q[..p] == q;
      NoPillWithout(q, budget);
    } else {
      PillBehindHead(q, p, budget);
    }
  }

  lemma {:induction false} NoPillWithout(q: Messages, budget: int)
    requires q != [] && Plain(q) && budget > 0
    ensures NoPill(Pick(q, 0, 0, budget).0)
  {
    hide Pick, Own;
    BatchIsLongestPrefix(q, budget);
    OwnIsPlain(q, q[0].fd);
    var batch, own := Pick(q, 0, 0, budget).0, Own(q, q[0].fd);
    forall i | 0 <= i < |batch| ensures batch[i].fd != PILL { assert batch[i] == own[i]; }
  }

  lemma {:induction false} PillBehindHead(q: Messages, p: nat, budget: int)
    requires 0 < p < |q| && Plain(q[..p]) && q[p].fd == PILL && budget > 0
    ensures var own, (batch, left) := Own(q[..p], q[0].fd), Pick(q, 0, 0, budget);
      if |own| < BATCH_SIZE && Sum(own) < budget
      then batch == own + [q[p]] && !NoPill(batch) && left == Dropped(q[..p], q[0].fd, |own|) + q[p + 1..]
      else NoPill(batch)
  {
    hide Plain, Own, Dropped, Sum;
    var m, a, rest := q[0], q[1..p], q[p + 1..];
    assert q[..p] == [m] + a && q[1..] == a + [q[p]] + rest;
    assert ([m] + a)[1..] == a;
    PlainTail(q[..p]);
    HeadOwn(q[..p], m.fd);
    ScanToPill(a, q[p], rest, 1, m.fd, budget - m.frameLen);
    var own, taken := Own(a, m.fd), Pick(q[1..], 1, m.fd, budget - m.frameLen).0;
    assert Pick(q, 0, 0, budget).0 == [m] + taken;
    if 1 + |own| < BATCH_SIZE && Sum(own) < budget - m.frameLen {
      Regroup([m], own, [q[p]]);
      assert ([m] + taken)[1 + |own|] == q[p];
    }
  }

  const RETRIES: nat := 200

  datatype Sending = Sent | Blocked | Pending

  /** The room that the first k writes found together; a write that would block found none. */
  function Offered(room: seq<int>, k: nat): nat
    requires k <= |room|
  {
    if k == 0 then 0 else Offered(room, k - 1) + (if room[k - 1] < 0 then 0 else room[k - 1])
  }

  /** How much of n octets is written with the room of the first k writes. */
  function Accepted(room: seq<int>, k: nat, n: nat): (r: nat)
    requires k <= |room|
    ensures r <= n
  {
    if Offered(room, k) < n then Offered(room, k) else n
  }

  /** Writes from-k up to k were all refused. */
  predicate Refused(room: seq<int>, from: nat, k: nat) {
    from <= k <= |room| && forall i :: from <= i < k ==> room[i] < 0
  }

  /**
   The write loop of a writer. `room` is what the socket would take at each attempt, negative when it would
   block. The bytes written are a prefix of the buffer: all of it, or what was accepted before 200 refusals in a
   row closed the connection, or before the attempts recorded in `room` end.
   */
  method SendBuffer(buffer: seq<Byte>, room: seq<int>) returns (written: seq<Byte>, end: Sending, ghost used: nat)
    ensures used <= |room| && written == buffer[..Accepted(room, used, |buffer|)]
    ensures end == Sent ==> written == buffer
    ensures end == Blocked ==> used >= 200 && Refused(room, used - 200, used) && written != buffer
    ensures end == Pending ==> used == |room| && written != buffer
  {
    var offset, left, next := 0, |buffer|, 0;
    written, used := [], 0;
    while left > 0
      invariant offset + left == |buffer| && next <= |room| && offset == Accepted(room, next, |buffer|)
      invariant written == buffer[..offset] && used == next
      decreases |room| - next
    {
      var retryCount, res := RETRIES, -1;
      ghost var first := next;
      while res < 0 && retryCount > 0
        invariant first <= next <= |room| && 0 <= retryCount <= RETRIES && used == next
        invariant res < 0 ==> Refused(room, first, next) && next - first == RETRIES - retryCount
        invariant res < 0 ==> Accepted(room, next, |buffer|) == offset
        invariant res >= 0 ==> next > first && res <= left && Accepted(room, next, |buffer|) == offset + res
        decreases retryCount, res < 0
      {
        if next == |room| { return written, Pending, used; }
        res := if room[next] > left then left else room[next];
        next, used := next + 1, next + 1;
        if res < 0 { retryCount := retryCount - 1; }
      }
      if res < 0 { return written, Blocked, used; }
      written := written + buffer[offset..offset + res];
      offset, left := offset + res, left - res;
    }
    end := Sent;
  }

  // ---------------------------------------------------------------- the batch fits the buffer

  /** A message as the broker makes it: its length is the announced one. */
  predicate Announced(m: OutMessage) {
    m.fd > 0 && |m.content| + 1 < TWO_64 && m.frameLen == FrameLen(m.fd, |m.content|)
  }

  /** By how much a message is longer than announced. */
  function Excess(m: OutMessage): int
    requires m.fd >= 0
  {
    if !IsEncoded(m.fd) then (if IsHttp(m.content) then -1 else 0)
    else if |m.content| == 125 then 2
    else if |m.content| == 65535 then 6
    else 0
  }

  lemma EmittedLength(m: OutMessage)
    requires Announced(m)
    ensures |Emitted(m)| == m.frameLen + Excess(m)
  {
  }

  /** The announced lengths and the excess of the messages whose client is still there. */
  function LiveSum(batch: Messages, alive: seq<bool>, n: nat): int
    requires n <= |batch| == |alive|
  {
    if n == 0 then 0 else LiveSum(batch, alive, n - 1) + (if alive[n - 1] then batch[n - 1].frameLen else 0)
  }

  function LiveExcess(batch: Messages, alive: seq<bool>, n: nat): int
    requires n <= |batch| == |alive| && forall i :: 0 <= i < n ==> batch[i].fd >= 0
  {
    if n == 0 then 0 else LiveExcess(batch, alive, n - 1) + (if alive[n - 1] then Excess(batch[n - 1]) else 0)
  }

  lemma {:induction false} SumAppend(a: Messages, b: Messages)
    ensures Sum(a + b) == Sum(a) + Sum(b)
  {
    if a == [] {
      assert a + b == b;
    } else {
      assert (a + b)[1..] == a[1..] + b;
      SumAppend(a[1..], b);
    }
  }

  predicate AllAnnounced(q: Messages) {
    forall i :: 0 <= i < |q| ==> Announced(q[i])
  }

  /** What is buffered is what was announced for it, plus its excess. */
  lemma {:induction false} BufferedLength(batch: Messages, alive: seq<bool>, n: nat)
    requires n <= |batch| == |alive| && AllAnnounced(batch)
    ensures Sendable(batch) && NoPill(batch[..n])
    ensures |Buffered(batch, alive, n)| == LiveSum(batch, alive, n) + LiveExcess(batch, alive, n)
    ensures LiveSum(batch, alive, n) <= Sum(batch[..n])
  {
    if n > 0 {
      assert batch[..n] == batch[..n - 1] + [batch[n - 1]];
      SumAppend(batch[..n - 1], [batch[n - 1]]);
      BufferedLength(batch, alive, n - 1);
      var m := batch[n - 1];
      assert Sum([m]) == m.frameLen + Sum([]);
      EmittedLength(m);
    }
  }

  lemma {:induction false} PickedAreAnnounced(q: Messages, bufferSize: int)
    requires q != [] && bufferSize > 0 && AllAnnounced(q)
    ensures var batch := Pick(q, 0, 0, bufferSize).0;
      AllAnnounced(batch) && 0 < |batch| && batch[0] == q[0] && (Sum(batch) <= bufferSize || batch == [q[0]])
  {
    var batch, own := Pick(q, 0, 0, bufferSize).0, Own(q, q[0].fd);
    BatchIsLongestPrefix(q, bufferSize);
    OwnIsPart(q, q[0].fd);
    forall i | 0 <= i < |batch| ensures Announced(batch[i]) {
      assert batch[i] == own[i];
      assert batch[i] in own;
    }
    assert own[0] == q[0];
  }

  /**
   What a batch leaves in the write buffer exceeds the buffer by at most the excess of its messages, unless the batch is
   one oversized head; this is what the byte budget of the picker is for.
   */
  lemma {:induction false} BatchFitsBuffer(q: Messages, bufferSize: int, alive: seq<bool>)
    requires q != [] && bufferSize > 0 && AllAnnounced(q) && |alive| == |Pick(q, 0, 0, bufferSize).0|
    ensures var batch := Pick(q, 0, 0, bufferSize).0;
      && AllAnnounced(batch) && Sendable(batch) && NoPill(batch) && batch[..|batch|] == batch
      && (|Buffered(batch, alive, |batch|)| <= bufferSize + LiveExcess(batch, alive, |batch|)
          || (batch == [q[0]] && q[0].frameLen > bufferSize))
  {
    hide AllAnnounced, Buffered;
    var batch := Pick(q, 0, 0, bufferSize).0;
    PickedAreAnnounced(q, bufferSize);
    assert batch[..|batch|] == batch;
    BufferedLength(batch, alive, |batch|);
    if batch == [q[0]] { assert Sum([q[0]]) == q[0].frameLen + Sum([]); }
  }

  /** No encoded content of 125 or 65535 bytes. */
  predicate NoExcess(q: Messages) {
    forall i :: 0 <= i < |q| && q[i].fd >= 0 ==> Excess(q[i]) <= 0
  }

  lemma {:induction false} LiveExcessOfNone(batch: Messages, alive: seq<bool>, n: nat)
    requires n <= |batch| == |alive| && NoExcess(batch) && forall i :: 0 <= i < n ==> batch[i].fd >= 0
    ensures LiveExcess(batch, alive, n) <= 0
  {
    if n > 0 { LiveExcessOfNone(batch, alive, n - 1); }
  }

  /** Without such contents the write buffer overflows exactly for a single head that is itself too long. */
  lemma {:induction false} OverflowIff(q: Messages, bufferSize: int, alive: seq<bool>)
    requires q != [] && bufferSize > 0 && AllAnnounced(q) && |alive| == |Pick(q, 0, 0, bufferSize).0|
    requires NoExcess(Pick(q, 0, 0, bufferSize).0)
    ensures var batch := Pick(q, 0, 0, bufferSize).0;
      && Sendable(batch) && NoPill(batch[..|batch|])
      && (|Buffered(batch, alive, |batch|)| > bufferSize
          <==> batch == [q[0]] && alive[0] && |Emitted(q[0])| > bufferSize)
  {
    hide NoExcess, Pick;
    var batch := Pick(q, 0, 0, bufferSize).0;
    PickedAreAnnounced(q, bufferSize);
    assert batch[..|batch|] == batch;
    BufferedLength(batch, alive, |batch|);
    LiveExcessOfNone(batch, alive, |batch|);
    if batch == [q[0]] { OneBuffered(batch, alive); }
  }

  lemma OneBuffered(batch: Messages, alive: seq<bool>)
    requires |batch| == |alive| == 1 && Sendable(batch) && NoPill(batch[..1])
    ensures Buffered(batch, alive, 1) == if alive[0] then Emitted(batch[0]) else []
  {
    hide Emitted;
    assert NoPill(batch[..0]) && Buffered(batch, alive, 0) == [];
  }

  /** A content of an exceptional length that fills the buffer exactly by its announced length overflows it. */
  lemma {:induction false} ExceptionalOverflows(m: OutMessage)
    requires Announced(m) && Excess(m) > 0
    ensures var batch := Pick([m], 0, 0, m.frameLen).0;
      batch == [m] && Sendable(batch) && NoPill(batch[..1]) && |Buffered(batch, [true], 1)| == m.frameLen + Excess(m)
  {
    assert [m][1..] == [] && Pick([m][1..], 1, m.fd, 0) == ([], []) && [m] + [] == [m];
    EmittedLength(m);
    OneBuffered([m], [true]);
  }

  lemma {:induction false} OwnIsPart(q: Messages, fd: int)
    ensures forall m :: m in Own(q, fd) ==> m in q && m.fd == fd
  {
    if q != [] { OwnIsPart(q[1..], fd); }
  }
}
