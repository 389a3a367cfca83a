/** What clients see of a step: the frames of its replies, read back, and what it leaves of the subscriptions. */
module Replies {
  import opened Seqs
  import opened AssocTree
  import opened Parser
  import opened Messages
  import opened SessionFlags
  import opened PubSub
  import opened Batch
  import opened Delivery
  import opened Diagnostics
  import opened Stale
  import opened Distribution
  import opened Broker

  // ---------------------------------------------------------------- the frames

  /** A frame of this kind that is read as these headers in order, and then this body, if any. */
  predicate IsFrame(text: string, kind: string, ps: Pairs, body: Option<string>) {
    && |kind| < |text| && text[..|kind| + 1] == kind + "\n"
    && var (hs, b) := ParseHeaders([], text, |kind| + 1, |text|);
      hs == ps && if body.None? then b == -1 else b >= 0 && text[b..] == body.value
  }

  /** Printed headers, a blank line and a body. */
  lemma {:induction false} PrintedFrame(kind: string, text: string, ps: Pairs, body: string)
    requires text == kind + "\n" + (Lines(ps) + ("\n" + body)) && CleanPairs(ps)
    ensures IsFrame(text, kind, ps, Some(body))
  {
    hide Lines, ParseHeaders;
    PrintedIsLines(ps, body);
    PrintedIsRead(kind + "\n", text, ps, body);
    assert text[|text| - |body|..] == body;
  }

  /** Printed headers with nothing behind them. */
  lemma {:induction false} LinesFrame(kind: string, text: string, ps: Pairs)
    requires text == kind + "\n" + Lines(ps) && CleanPairs(ps)
    ensures IsFrame(text, kind, ps, None)
  {
    hide Lines, ParseLine;
    assert text == (kind + "\n") + (Lines(ps) + "");
    ParseLines([], text, kind + "\n", ps, "");
    assert [] + ps == ps && kind + "\n" + Lines(ps) == text;
    UnfinishedLine(text, |text|);
  }

  lemma LinesOf(p: (string, string), ps: Pairs)
    ensures Lines([p] + ps) == LineOf(p.0, p.1) + Lines(ps) && Lines([]) == ""
  {
    assert ([p] + ps)[1..] == ps;
  }

  function ConnectedHeaders(session: string): Pairs {
    [("version", "1.2")] + ([("server", "kisp-stomp/0.0.1")] + ([("content-type", "text/plain")]
    + ([("session", session)] + ([("heart-beat", "0,0")] + []))))
  }

  lemma ConnectedKeysAreClean()
    ensures CleanKey("version") && CleanText("1.2") && CleanKey("server") && CleanText("kisp-stomp/0.0.1")
  {
  }

  lemma MoreConnectedKeysAreClean()
    ensures CleanKey("content-type") && CleanText("text/plain") && CleanKey("session") && CleanKey("heart-beat")
    ensures CleanText("0,0")
  {
  }

  lemma {:induction false} ConnectedIsClean(session: string)
    requires CleanText(session)
    ensures CleanPairs(ConnectedHeaders(session))
  {
    hide CleanKey, CleanText;
    ConnectedKeysAreClean();
    MoreConnectedKeysAreClean();
  }

  lemma {:induction false} ConnectedLines(session: string)
    ensures Lines(ConnectedHeaders(session)) == LineOf("version", "1.2") + (LineOf("server", "kisp-stomp/0.0.1")
      + (LineOf("content-type", "text/plain") + (LineOf("session", session) + (LineOf("heart-beat", "0,0") + ""))))
  {
    hide Lines, LineOf;
    var last: Pairs := [];
    LinesOf(("heart-beat", "0,0"), last);
    var two := [("heart-beat", "0,0")] + last;
    LinesOf(("session", session), two);
    var three := [("session", session)] + two;
    LinesOf(("content-type", "text/plain"), three);
    var four := [("content-type", "text/plain")] + three;
    LinesOf(("server", "kisp-stomp/0.0.1"), four);
    LinesOf(("version", "1.2"), [("server", "kisp-stomp/0.0.1")] + four);
  }

  lemma FixedLines()
    ensures LineOf("version", "1.2") == "version:1.2\n" && LineOf("heart-beat", "0,0") == "heart-beat:0,0\n"
    ensures LineOf("content-type", "text/plain") == "content-type:text/plain\n"
    ensures LineOf("server", "kisp-stomp/0.0.1") == "server:kisp-stomp/0.0.1\n"
  {
  }

  lemma SessionLine(session: string)
    ensures LineOf("session", session) == "session:" + session + "\n"
  {
  }

  lemma Joins(a: string, b: string, c: string, d: string, e: string, f: string, g: string)
    ensures a + (b + c + d + e + f + "\n" + g) == a + (b + (c + (d + ((e + f + "\n") + g))))
  {
  }

  lemma HeartBeat()
    ensures "heart-beat:0,0\n\n" == "heart-beat:0,0\n" + ("" + ("\n" + ""))
  {
  }

  /** A CONNECTED frame is read as its five headers; its body is empty. */
  lemma {:induction false} ConnectedIsRead(session: int)
    ensures IsFrame(ConnectedText(session), "CONNECTED", ConnectedHeaders(Itoa(session)), Some(""))
  {
    hide Itoa, Lines, LineOf, IsFrame, ConnectedHeaders;
    var n := Itoa(session);
    DigitsAreClean(session);
    ConnectedIsClean(n);
    ConnectedLines(n);
    FixedLines();
    SessionLine(n);
    Joins("CONNECTED\n", "version:1.2\n", "server:kisp-stomp/0.0.1\n", "content-type:text/plain\n", "session:", n, "heart-beat:0,0\n\n");
    HeartBeat();
    PrintedFrame("CONNECTED", ConnectedText(session), ConnectedHeaders(n), "");
  }

  function ReceiptHeaders(id: string): Pairs {
    [("content-type", "text/plain")] + ([("receipt-id", id)] + [])
  }

  lemma ReceiptLine(id: string)
    ensures LineOf("receipt-id", id) == "receipt-id:" + id + "\n" && CleanKey("receipt-id")
  {
  }

  lemma {:induction false} ReceiptIsClean(id: string)
    requires CleanText(id)
    ensures CleanPairs(ReceiptHeaders(id))
  {
    hide CleanKey, CleanText;
    MoreConnectedKeysAreClean();
    ReceiptLine(id);
  }

  /** A RECEIPT frame is read as its type and the id. */
  lemma {:induction false} ReceiptIsRead(id: string)
    requires CleanText(id)
    ensures IsFrame(ReceiptText(id), "RECEIPT", ReceiptHeaders(id), None)
  {
    hide Lines, LineOf, IsFrame;
    FixedLines();
    ReceiptLine(id);
    ReceiptIsClean(id);
    var last: Pairs := [];
    LinesOf(("receipt-id", id), last);
    LinesOf(("content-type", "text/plain"), [("receipt-id", id)] + last);
    assert ReceiptText(id) == "RECEIPT\n" + (("content-type:text/plain\n") + (("receipt-id:" + id + "\n") + ""));
    LinesFrame("RECEIPT", ReceiptText(id), ReceiptHeaders(id));
  }

  function ErrorHeaders(length: string): Pairs {
    [("content-type", "text/plain"), ("content-length", length)]
  }

  lemma {:induction false} ErrorTail(reason: string)
    ensures var text, last := ErrorText(reason), |reason + "\n"|; last <= |text| && text[|text| - last..] == reason + "\n"
  {
    hide Itoa;
    var front := "ERROR\n" + "content-type:text/plain\n" + "content-length:" + Itoa(|reason|) + "\n\n";
    assert ErrorText(reason) == front + (reason + "\n");
  }

  /** An ERROR frame is read as its type, the length of the reason, and the reason followed by a line break. */
  lemma {:induction false} ErrorIsFrame(reason: string)
    ensures IsFrame(ErrorText(reason), "ERROR", ErrorHeaders(Itoa(|reason|)), Some(reason + "\n"))
  {
    hide ErrorText, ParseHeaders, Itoa;
    ErrorIsRead(reason);
    ErrorKind(reason);
    ErrorTail(reason);
  }

  // ---------------------------------------------------------------- what is sent to whom

  /** One CONNECTED frame, with the session in decimal. */
  ghost predicate IsConnected(m: OutMessage, fd: nat, session: nat) {
    m.fd == fd && exists d :: IsDecimal(d, session) && IsFrame(m.content, "CONNECTED", ConnectedHeaders(d), Some(""))
  }

  ghost predicate IsError(m: OutMessage, fd: nat, reason: string) {
    m.fd == fd && exists d :: IsDecimal(d, |reason|) && IsFrame(m.content, "ERROR", ErrorHeaders(d), Some(reason + "\n"))
  }

  predicate IsReceipt(m: OutMessage, fd: nat, id: string) {
    m.fd == fd && IsFrame(m.content, "RECEIPT", ReceiptHeaders(id), None)
  }

  lemma {:induction false} ErrorIsError(fd: nat, reason: string)
    ensures IsError(Message(fd, ErrorText(reason)), fd, reason)
  {
    hide IsFrame, ErrorText, IsDecimal;
    ErrorIsFrame(reason);
    ItoaIsDecimal(|reason|);
  }

  lemma {:induction false} ConnectedIsConnected(fd: nat, session: nat)
    ensures IsConnected(Message(fd, ConnectedText(session)), fd, session)
  {
    hide IsFrame, ConnectedText, IsDecimal;
    ConnectedIsRead(session);
    ItoaIsDecimal(session);
  }

  /** A client that is not connected and asks to be gets one CONNECTED frame with its session, and is connected then. */
  lemma {:induction false} ConnectIsAnswered(s: State, i: Input)
    requires !IsPurge(i.fd) && ParseMessage(i.content, i.ts).command == 1 && WithoutFlags(i.fd) !in s.connected
    ensures var r := Step(s, i);
      && !r.crashed && |r.out| == 1 && IsConnected(r.out[0], i.fd, WithoutFlags(i.fd))
      && r.state == s.(connected := s.connected + {WithoutFlags(i.fd)})
  {
    hide ParseMessage, IsConnected, ConnectedText;
    ConnectedIsConnected(i.fd, WithoutFlags(i.fd));
  }

  // ---------------------------------------------------------------- refusals

  /** Why a command is refused, from what the frame says and whether its sender is connected. */
  function ReasonFor(pm: ParsedMessage, here: bool): Option<string> {
    if pm.command == 1 then
      if here then Some("Can not connect, client is already connected!") else None
    else if pm.command == 2 then
      if here then None else Some("Can not disconnect, client is not connected yet!")
    else if pm.command == 3 || pm.command == 4 then
      if pm.id == None then Some("No id defined!")
      else if pm.topic == None then Some("No destination defined!")
      else if here then None
      else Some("Not connected!")
    else if pm.command == 5 then
      if pm.topic == None then Some("No topic defined!")
      else if !here then Some("Not connected!")
      else if '*' in pm.topic.value then Some("Can not have wildcard in message destination!\n")
      else None
    else if pm.command == 6 then
      if pm.body == None then Some("Empty message_body!") else None
    else Some("Invalid message!")
  }

  lemma {:induction false} RefusedFor(s: State, fd: nat, pm: ParsedMessage, i: Input)
    requires HeightsExact(pm.headers) && ReasonFor(pm, WithoutFlags(fd) in s.connected).Some?
    ensures EffectOf(s, fd, pm, i) == Refuse(s, fd, ReasonFor(pm, WithoutFlags(fd) in s.connected).value)
  {
    hide Distributed, AllDelivered, ErrorText, DiagnosticReply;
    if pm.topic.Some? { MaskIsBeforeStar(pm.topic.value); }
  }

  /** Each refusal is one ERROR frame to the sender with the reason of that case, and changes nothing. */
  lemma {:induction false} RefusalIsAnswered(s: State, i: Input)
    requires !IsPurge(i.fd)
    ensures var reason := ReasonFor(ParseMessage(i.content, i.ts), WithoutFlags(i.fd) in s.connected);
      reason.Some? ==>
        var r := Step(s, i); !r.crashed && r.state == s && |r.out| == 1 && IsError(r.out[0], i.fd, reason.value)
  {
    hide ParseMessage, EffectOf, ReasonFor, ErrorText, IsError;
    var pm, here := ParseMessage(i.content, i.ts), WithoutFlags(i.fd) in s.connected;
    if ReasonFor(pm, here).Some? {
      RefusedFor(s, i.fd, pm, i);
      ErrorIsError(i.fd, ReasonFor(pm, here).value);
    }
  }

  // ---------------------------------------------------------------- everything else

  /** Commands that are carried out without a reply of their own. */
  predicate IsQuiet(pm: ParsedMessage, here: bool) {
    pm.command in {2, 3, 4, 5} && ReasonFor(pm, here) == None
  }

  lemma {:induction false} QuietEffect(s: State, fd: nat, pm: ParsedMessage, i: Input)
    requires HeightsExact(pm.headers) && IsQuiet(pm, WithoutFlags(fd) in s.connected)
    ensures var e := EffectOf(s, fd, pm, i); e.Effect? ==> e.reply == None
  {
    hide Distributed, AllDelivered, ErrorText;
    if pm.topic.Some? { MaskIsBeforeStar(pm.topic.value); }
  }

  /**
   A command that is carried out and does not crash the broker sends MESSAGEs only, followed by the receipt with
   exactly the id that was asked for, if one was.
   */
  lemma {:induction false} ReceiptIsGiven(s: State, i: Input)
    requires !IsPurge(i.fd) && NulFree(i.content) && !Step(s, i).crashed
    requires IsQuiet(ParseMessage(i.content, i.ts), WithoutFlags(i.fd) in s.connected)
    ensures var pm, out := ParseMessage(i.content, i.ts), Step(s, i).out;
      var n := if pm.receipt.Some? then |out| - 1 else |out|;
      && n >= 0 && (forall j :: 0 <= j < n ==> IsKind(out[j], "MESSAGE"))
      && (pm.receipt.Some? ==> IsReceipt(out[n], i.fd, pm.receipt.value))
  {
    hide ParseMessage, EffectOf, IsQuiet, ReceiptText, IsKind, IsFrame;
    var pm := ParseMessage(i.content, i.ts);
    var e := EffectOf(s, i.fd, pm, i);
    QuietEffect(s, i.fd, pm, i);
    SentAreMessages(s, i.fd, pm, i);
    if pm.receipt.Some? {
      ReceiptIsCleanText(i.content, i.ts);
      ReceiptIsRead(pm.receipt.value);
    }
  }

  lemma {:induction false} ReceiptIsCleanText(content: string, ts: int)
    requires NulFree(content)
    ensures var pm := ParseMessage(content, ts); pm.receipt.Some? ==> CleanText(pm.receipt.value)
  {
    var nr := NextRow(content, 0, |content|);
    var ps := if ParseCommand(content) > 0 && nr >= 0 then ParseHeaders([], content, nr, |content|).0 else [];
    if nr >= 0 { ParsedHeadersAreClean([], content, nr, |content|); }
    LatestIsClean(ps, "receipt");
  }

  // ---------------------------------------------------------------- diagnostics

  predicate IsDiagnosis(m: OutMessage, fd: nat, query: string, value: string) {
    m.fd == fd && IsFrame(m.content, "DIAG", [("content-type", "text/plain"), (query, value)], None)
  }

  lemma {:induction false} ReplyIsDiagnosis(fd: nat, body: string, st: Stats, subs: Subscriptions)
    requires CleanKey(body) && CleanPatterns(subs)
    ensures var m := Message(fd, DiagnosticReply(body, st, subs));
      if QueryOf(body) == NoQuery then IsError(m, fd, "Invalid message!")
      else IsDiagnosis(m, fd, body, ValueOf(QueryOf(body), st, subs))
  {
    hide QueryOf, ValueOf, IsError, ErrorText;
    ErrorIsError(fd, "Invalid message!");
    if QueryOf(body) != NoQuery {
      QueryIsAnswered(body, st, subs);
      DiagnosticKind(body, st, subs);
    }
  }

  /** A DIAG frame with a query in its body gets one frame back, a header named after the query, or an ERROR. */
  lemma {:induction false} DiagnosisIsAnswered(s: State, i: Input)
    requires !IsPurge(i.fd) && ParseMessage(i.content, i.ts).command == 6 && ParseMessage(i.content, i.ts).body.Some?
    requires CleanKey(ParseMessage(i.content, i.ts).body.value) && CleanPatterns(s.subs)
    ensures var body, r := ParseMessage(i.content, i.ts).body.value, Step(s, i);
      && !r.crashed && r.state == s && |r.out| == 1
      && if QueryOf(body) == NoQuery then IsError(r.out[0], i.fd, "Invalid message!")
         else IsDiagnosis(r.out[0], i.fd, body, ValueOf(QueryOf(body), StatsOf(s, i.env), s.subs))
  {
    hide ParseMessage, DiagnosticReply, QueryOf, ValueOf, IsError, IsDiagnosis, StatsOf;
    ReplyIsDiagnosis(i.fd, ParseMessage(i.content, i.ts).body.value, StatsOf(s, i.env), s.subs);
  }

  /** The two sizes that are the broker's own are answered from its state. */
  lemma {:induction false} OwnSizesAreAnswered(s: State, i: Input)
    requires !IsPurge(i.fd) && ParseMessage(i.content, i.ts).command == 6 && ParseMessage(i.content, i.ts).body.Some?
    requires CleanKey(ParseMessage(i.content, i.ts).body.value) && CleanPatterns(s.subs)
    ensures var body, out := ParseMessage(i.content, i.ts).body.value, Step(s, i).out;
      && |out| == 1
      && ("session-connected-size" <= body ==> exists d :: IsDecimal(d, |s.connected|) && IsDiagnosis(out[0], i.fd, body, d))
      && ("pubsub-size" <= body ==> exists d :: IsDecimal(d, |s.subs|) && IsDiagnosis(out[0], i.fd, body, d))
  {
    hide ParseMessage, Step, QueryOf, ValueOf, IsError, IsDiagnosis, Itoa, IsDecimal;
    var body, st := ParseMessage(i.content, i.ts).body.value, StatsOf(s, i.env);
    DiagnosisIsAnswered(s, i);
    ValuesPlainly(body, st, s.subs);
    QueriesPlainly(body);
    ConnectedIsNoOther(body);
    ItoaIsDecimal(|s.connected|);
    ItoaIsDecimal(|s.subs|);
  }

  lemma ConnectedIsNoOther(body: string)
    ensures "session-connected-size" <= body ==> !("session-size" <= body) && !("session-encoded-size" <= body)
    ensures "pubsub-size" <= body ==> !("session" <= body) && !("session-size" <= body) && !("session-encoded-size" <= body)
    ensures "pubsub-size" <= body ==> !("session-connected-size" <= body)
  {
    SessionLetters(body);
    OtherLetters(body);
  }

  // ---------------------------------------------------------------- what a step leaves

  /** Whoever disconnects or is purged is gone; just the subscriptions under the name of this client go. */
  lemma {:induction false} LeavingTakesOwn(s: State, i: Input)
    requires IsPurge(i.fd) || (ParseMessage(i.content, i.ts).command == 2 && WithoutFlags(i.fd) in s.connected)
    ensures var r := Step(s, i);
      var client := if IsPurge(i.fd) then WithoutCmdPurge(i.fd) else i.fd;
      && !r.crashed && r.state == s.(connected := s.connected - {WithoutFlags(i.fd)}, subs := r.state.subs)
      && AreThose(r.state.subs, s.subs, (x: Subscription) => x.sessionId != client)
  {
    hide ParseMessage, ReceiptText, AreThose;
    var client := if IsPurge(i.fd) then WithoutCmdPurge(i.fd) else i.fd;
    KeepIsThose(s.subs, OfClient(client), (x: Subscription) => x.sessionId != client);
  }

  /** Unsubscribing takes the subscriptions of this client with this topic and id, and no other, its own included. */
  lemma {:induction false} UnsubscribingTakesOne(s: State, i: Input)
    requires !IsPurge(i.fd) && ParseMessage(i.content, i.ts).command == 4 && WithoutFlags(i.fd) in s.connected
    requires ParseMessage(i.content, i.ts).topic.Some? && ParseMessage(i.content, i.ts).id.Some?
    ensures var r := Step(s, i);
      var topic, id := ParseMessage(i.content, i.ts).topic.value, ParseMessage(i.content, i.ts).id.value;
      && !r.crashed && r.state == s.(subs := r.state.subs)
      && AreThose(r.state.subs, s.subs,
                  (x: Subscription) => !(x.sessionId == i.fd && x.pattern == topic && x.id == id))
  {
    hide ParseMessage, ReceiptText, AreThose;
    var topic, id := ParseMessage(i.content, i.ts).topic.value, ParseMessage(i.content, i.ts).id.value;
    KeepIsThose(s.subs, OfTopic(topic, i.fd, id),
                (x: Subscription) => !(x.sessionId == i.fd && x.pattern == topic && x.id == id));
  }

  /** The first of the messages sent, as the drain of the waiting messages gives them. */
  ghost predicate AreDelivered(out: seq<OutMessage>, taken: seq<Stored>, a: Asker, messageId: nat) {
    |taken| <= |out| && forall k :: 0 <= k < |taken| ==>
      var base, body := Typed(ToMap(taken[k].headers), taken[k].body.value), taken[k].body.value;
      && out[k].fd == a.client
      && Reads(out[k].content, DeliveredMap(base, (messageId + k) % 0x1_0000_0000, a.pattern, a.id), body)
  }

  predicate AllClean(q: seq<Stored>) {
    forall k :: 0 <= k < |q| ==> CleanMessage(q[k])
  }

  function Receipts(pm: ParsedMessage): nat {
    if pm.receipt.Some? then 1 else 0
  }

  /** What a drain for this asker makes of the waiting messages, the ids and the output. */
  ghost predicate HasDrained(s: State, r: Result, a: Asker, receipts: nat) {
    && AreThose(r.state.stale, s.stale, Stays(a)) && r.state.counters.next == s.counters.next
    && exists taken :: HasTaken(s, r, a, receipts, taken)
  }

  ghost predicate HasTaken(s: State, r: Result, a: Asker, receipts: nat, taken: seq<Stored>) {
    && |r.out| == |taken| + receipts
    && AreThose(taken, s.stale, Goes(a)) && AreDelivered(r.out, taken, a, s.counters.messageId)
    && r.state.counters.messageId == (s.counters.messageId + |taken|) % 0x1_0000_0000
  }

  /**
   Subscribing appends the subscription. Of the waiting messages those that are not too old and that the new pattern
   covers are delivered to the subscriber in order, those too old are dropped, and the rest waits on in order; nothing
   else is sent but the receipt.
   */
  lemma {:induction false} SubscribingDrains(s: State, i: Input)
    requires !IsPurge(i.fd) && ParseMessage(i.content, i.ts).command == 3 && WithoutFlags(i.fd) in s.connected
    requires ParseMessage(i.content, i.ts).topic.Some? && ParseMessage(i.content, i.ts).id.Some?
    requires NulFree(i.content) && AllClean(s.stale)
    ensures var r, pm := Step(s, i), ParseMessage(i.content, i.ts);
      && !r.crashed && r.state.connected == s.connected
      && r.state.subs == s.subs + [Subscription(i.fd, pm.topic.value, pm.id.value)]
      && HasDrained(s, r, Asker(pm.topic.value, i.fd, pm.id.value, i.now, i.ttl), Receipts(pm))
  {
    hide Step, ParseMessage, AreThose, Fated, AllDelivered, AreDelivered, CleanMessage, CleanText, AllClean;
    var pm := ParseMessage(i.content, i.ts);
    var a := Asker(pm.topic.value, i.fd, pm.id.value, i.now, i.ttl);
    DrainedAreThose(s.stale, a);
    ParsedIsClean(i.content, i.ts);
    ParsedTexts(pm);
    TakenAreDelivered(s.stale, a, s.counters.messageId);
    EffectOfSubscribe(s, i);
    var taken := Fated(s.stale, Matched, a);
    MoreDelivered(AllDelivered(taken, a, s.counters.messageId), Step(s, i).out, taken, a, s.counters.messageId);
    assert HasTaken(s, Step(s, i), a, Receipts(pm), taken);
  }

  lemma ParsedTexts(pm: ParsedMessage)
    requires CleanMessage(pm)
    ensures (pm.topic.Some? ==> CleanText(pm.topic.value)) && (pm.id.Some? ==> CleanText(pm.id.value))
  {
  }

  lemma {:induction false} EffectOfSubscribe(s: State, i: Input)
    requires !IsPurge(i.fd) && ParseMessage(i.content, i.ts).command == 3 && WithoutFlags(i.fd) in s.connected
    requires ParseMessage(i.content, i.ts).topic.Some? && ParseMessage(i.content, i.ts).id.Some?
    ensures var r, pm := Step(s, i), ParseMessage(i.content, i.ts);
      var a := Asker(pm.topic.value, i.fd, pm.id.value, i.now, i.ttl);
      var out := AllDelivered(Fated(s.stale, Matched, a), a, s.counters.messageId);
      && !r.crashed && out <= r.out && |r.out| == |out| + Receipts(pm)
      && r.state == State(s.connected, s.subs + [Subscription(i.fd, pm.topic.value, pm.id.value)], Fated(s.stale, Waiting, a),
                          Counters((s.counters.messageId + |out|) % 0x1_0000_0000, s.counters.next))
  {
    hide ParseMessage, Fated, Delivered, ReceiptText;
  }

  lemma {:induction false} TakenAreDelivered(q: seq<Stored>, a: Asker, messageId: nat)
    requires AllClean(q) && CleanText(a.pattern) && CleanText(a.id)
    ensures var taken := Fated(q, Matched, a); AreDelivered(AllDelivered(taken, a, messageId), taken, a, messageId)
  {
    hide Delivered, CleanMessage, CleanText, Reads, DeliveredMap;
    var taken := Fated(q, Matched, a);
    var out := AllDelivered(taken, a, messageId);
    forall k | 0 <= k < |taken|
      ensures var base, body := Typed(ToMap(taken[k].headers), taken[k].body.value), taken[k].body.value;
        && out[k].fd == a.client
        && Reads(out[k].content, DeliveredMap(base, (messageId + k) % 0x1_0000_0000, a.pattern, a.id), body)
    {
      KeepIsFilter(q, NotFated(Matched, a), taken[k]);
      var j :| 0 <= j < |q| && q[j] == taken[k];
      DeliveredIsRead(taken[k], a, IdAt(messageId, k));
    }
  }

  lemma MoreDelivered(out: seq<OutMessage>, more: seq<OutMessage>, taken: seq<Stored>, a: Asker, messageId: nat)
    requires AreDelivered(out, taken, a, messageId) && out <= more
    ensures AreDelivered(more, taken, a, messageId)
  {
    hide Reads, DeliveredMap;
  }

  /** What a SEND that is not too old sends, and how it counts. */
  ghost predicate HasSent(s: State, r: Result, topic: string, receipts: nat) {
    && receipts <= |r.out| && AreReceivers(r.out[..|r.out| - receipts], s.subs, topic, s.counters.next)
    && r.state.counters.messageId == (s.counters.messageId + (|r.out| - receipts)) % 0x1_0000_0000
    && r.state.counters.next
       == if topic != [] && topic[0] == '#' && |r.out| > receipts then (s.counters.next + 1) % 0x1_0000_0000
          else s.counters.next
  }

  /**
   Sending to a topic without wildcard reaches everybody whose subscription covers it, or one of them in turn for a '#'
   topic, unless the message is too old, and changes nothing but the counters.
   */
  lemma {:induction false} SendingReaches(s: State, i: Input)
    requires !IsPurge(i.fd) && ParseMessage(i.content, i.ts).command == 5 && WithoutFlags(i.fd) in s.connected
    requires var pm := ParseMessage(i.content, i.ts); pm.topic.Some? && pm.body.Some? && '*' !in pm.topic.value
    requires InRange(s.counters)
    ensures var r, pm := Step(s, i), ParseMessage(i.content, i.ts);
      && !r.crashed && r.state == s.(counters := r.state.counters)
      && if i.ts != 0 && i.ttl != 0 && i.now - i.ts > i.ttl then r.state == s && |r.out| == Receipts(pm)
         else HasSent(s, r, pm.topic.value, Receipts(pm))
  {
    hide Step, ParseMessage, Distributed, AreReceivers;
    var pm := ParseMessage(i.content, i.ts);
    MaskIsBeforeStar(pm.topic.value);
    SentExactlyTo(pm, s.subs, i.now, i.ttl, s.counters, StatsOf(s, i.env));
    EffectOfSend(s, i);
    TimeStampIs(i.content, i.ts);
  }

  lemma TimeStampIs(content: string, ts: int)
    ensures ParseMessage(content, ts).ts == ts
  {
  }

  lemma {:induction false} EffectOfSend(s: State, i: Input)
    requires !IsPurge(i.fd) && ParseMessage(i.content, i.ts).command == 5 && WithoutFlags(i.fd) in s.connected
    requires var pm := ParseMessage(i.content, i.ts); pm.topic.Some? && !HasStar(pm.topic.value)
    ensures var r, pm := Step(s, i), ParseMessage(i.content, i.ts);
      var d := Distributed(pm, s.subs, i.now, i.ttl, s.counters, StatsOf(s, i.env));
      d.Outcome? ==>
        && !r.crashed && r.state == s.(counters := d.counters)
        && |r.out| == |d.out| + Receipts(pm) && r.out[..|d.out|] == d.out
  {
    hide ParseMessage, Distributed, ReceiptText, StatsOf;
  }

  // ---------------------------------------------------------------- announced lengths

  /** The length that a message of the broker is announced with. */
  predicate IsAnnounced(m: OutMessage) {
    m.fd > 0 ==>
      var header := if !IsEncoded(m.fd) then 0 else if |m.content| < 126 then 2 else if |m.content| < 65536 then 4 else 10;
      m.frameLen == |m.content| + 1 + header
  }

  lemma TextIsAnnounced(fd: nat, text: string)
    ensures IsAnnounced(Message(fd, text))
  {
    MessageIsAnnounced(fd, text);
  }

  lemma {:induction false} DeliveriesAreAnnounced(t: Tree, subs: Subscriptions, topic: string, messageId: nat, body: string)
    requires HeightsExact(t)
    ensures forall m :: m in Deliveries(t, subs, topic, messageId, body) ==> IsAnnounced(m)
    decreases |subs|
  {
    hide Addressed, MessageText;
    if subs != [] {
      DeliveriesAreAnnounced(Addressed(t, messageId, topic, subs[0].id), subs[1..], topic, NextUnsigned(messageId), body);
    }
  }

  lemma {:induction false} DrainedAreAnnounced(ms: seq<Stored>, a: Asker, messageId: nat)
    ensures forall m :: m in AllDelivered(ms, a, messageId) ==> IsAnnounced(m)
  {
    hide Addressed, MessageText, OutTable;
  }

  lemma {:induction false} EffectIsAnnounced(s: State, fd: nat, pm: ParsedMessage, i: Input)
    requires HeightsExact(pm.headers) && EffectOf(s, fd, pm, i).Effect?
    ensures var e := EffectOf(s, fd, pm, i);
      (forall m :: m in e.sent ==> IsAnnounced(m)) && (e.reply.Some? ==> IsAnnounced(e.reply.value))
  {
    hide Deliveries, AllDelivered, TableOf, ErrorText, ConnectedText, DiagnosticReply, StatsOf, IsAnnounced, Message, Chosen;
    forall text: string ensures IsAnnounced(Message(fd, text)) { TextIsAnnounced(fd, text); }
    if pm.command == SUBSCRIBE && pm.topic.Some? && pm.id.Some? {
      var a := Asker(pm.topic.value, fd, pm.id.value, i.now, i.ttl);
      DrainedAreAnnounced(Fated(s.stale, Matched, a), a, s.counters.messageId);
    } else if pm.command == SEND && pm.topic.Some? && pm.body.Some? {
      var topic := pm.topic.value;
      DeliveriesAreAnnounced(TableOf(pm, StatsOf(s, i.env)), Chosen(Matching(s.subs, topic), topic, s.counters.next), topic,
                             s.counters.messageId, pm.body.value);
    }
  }

  /** Every message that the broker sends carries the length that the writers reckon with. */
  lemma {:induction false} OutIsAnnounced(s: State, i: Input)
    ensures forall m :: m in Step(s, i).out ==> IsAnnounced(m)
  {
    hide ParseMessage, EffectOf, ReceiptText, IsAnnounced;
    if !IsPurge(i.fd) && !Step(s, i).crashed {
      var pm := ParseMessage(i.content, i.ts);
      EffectIsAnnounced(s, i.fd, pm, i);
      if pm.receipt.Some? { TextIsAnnounced(i.fd, ReceiptText(pm.receipt.value)); }
    }
  }
}
