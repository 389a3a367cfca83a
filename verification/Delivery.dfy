/** The frames that the broker sends, and what a subscriber reads in a MESSAGE frame. */
module Delivery {
  import opened CString
  import opened AssocTree
  import opened Ntohl
  import opened Parser
  import opened Messages
  import opened SessionFlags
  import opened Batch
  import opened Output
  import opened PubSub

  // ---------------------------------------------------------------- numbers

  function Digits(n: nat): (s: string)
    ensures |s| > 0 && forall i :: 0 <= i < |s| ==> '0' <= s[i] <= '9'
  {
    if n < 10 then [(n + '0' as int) as char] else Digits(n / 10) + [(n % 10 + '0' as int) as char]
  }

  function DecValue(s: string): int {
    if s == [] then 0 else 10 * DecValue(s[..|s| - 1]) + (s[|s| - 1] as int - '0' as int)
  }

  lemma {:induction false} DigitsValue(n: nat)
    ensures DecValue(Digits(n)) == n
  {
    var s := Digits(n);
    assert s[..|s| - 1] == if n < 10 then [] else Digits(n / 10);
    if n >= 10 { DigitsValue(n / 10); }
  }

  /** snprintf with "%d". */
  function Itoa(n: int): string {
    if n < 0 then "-" + Digits(-n) else Digits(n)
  }

  /** An unsigned int passed as an int. */
  function AsInt(u: nat): int {
    if u < 0x8000_0000 then u else u - TWO_32
  }

  function NextUnsigned(u: nat): nat {
    (u + 1) % TWO_32
  }

  /** Decimal digits without a leading zero, with the value n. */
  predicate IsDecimal(s: string, n: nat) {
    && s != [] && (forall i :: 0 <= i < |s| ==> '0' <= s[i] <= '9') && (|s| > 1 ==> s[0] != '0') && DecValue(s) == n
  }

  lemma {:induction false} DigitsAreDecimal(n: nat)
    ensures IsDecimal(Digits(n), n) && (n > 0 ==> Digits(n)[0] != '0')
  {
    DigitsValue(n);
    if n >= 10 { DigitsAreDecimal(n / 10); }
  }

  /** A number is printed in decimal, with a sign if it is negative. */
  lemma {:induction false} ItoaIsDecimal(n: int)
    ensures var s := Itoa(n);
      if n >= 0 then IsDecimal(s, n) else s[0] == '-' && IsDecimal(s[1..], -n)
  {
    DigitsAreDecimal(if n < 0 then -n else n);
  }

  /** Message ids are unsigned but printed as signed: from 2 to the 31st on they come out negative. */
  lemma {:induction false} IdText(u: nat)
    requires u < 0x1_0000_0000
    ensures var s := Itoa(AsInt(u));
      if u < 0x8000_0000 then IsDecimal(s, u) else s[0] == '-' && IsDecimal(s[1..], 0x1_0000_0000 - u)
  {
    hide IsDecimal;
    ItoaIsDecimal(AsInt(u));
  }

  /** len_of_int: the digits of a number that an int holds, so that a frame's buffer has the right size. */
  method LenOfInt(len: nat) returns (digits: nat)
    requires len < 0x8000_0000
    ensures digits == |Digits(len)|
  {
    if len == 0 { return 1; }
    digits := 0;
    var counter := len;
    while counter > 0
      invariant digits + (if counter > 0 then |Digits(counter)| else 0) == |Digits(len)|
    {
      counter := counter / 10;
      digits := digits + 1;
    }
  }

  // ---------------------------------------------------------------- replies

  function Message(fd: int, text: string): OutMessage {
    OutMessage(fd, text, FrameLen(fd, |text|))
  }

  /** Every message is announced with its length, the NUL, and for an encoded connection the header of its content. */
  lemma MessageIsAnnounced(fd: nat, text: string)
    ensures var m := Message(fd, text);
      var header := if !IsEncoded(fd) then 0 else if |text| < 126 then 2 else if |text| < 65536 then 4 else 10;
      && m.fd == fd && m.content == text
      && (fd > 0 ==> m.frameLen == |text| + 1 + header)
      && (fd > 0 && |text| + 1 < TWO_64 ==> Announced(m))
  {
  }

  const CONTENT_TYPE: string := "content-type"
  const TEXT_PLAIN: string := "text/plain"
  const CONTENT_LENGTH: string := "content-length"
  const MESSAGE_ID: string := "message-id"
  const DESTINATION: string := "destination"
  const SUBSCRIPTION: string := "subscription"

  function ErrorText(reason: string): string {
    "ERROR\n" + "content-type:text/plain\n" + "content-length:" + Itoa(|reason|) + "\n\n" + reason + "\n"
  }

  function ConnectedText(session: int): string {
    "CONNECTED\n" + ("version:1.2\n" + "server:kisp-stomp/0.0.1\n" + "content-type:text/plain\n"
    + "session:" + Itoa(session) + "\n" + "heart-beat:0,0\n\n")
  }

  function ReceiptText(id: string): string {
    "RECEIPT\n" + "content-type:text/plain\n" + "receipt-id:" + id + "\n"
  }

  lemma TypeLine()
    ensures LineOf(CONTENT_TYPE, TEXT_PLAIN) == "content-type:text/plain\n"
    ensures CleanKey(CONTENT_TYPE) && CleanText(TEXT_PLAIN)
  {
  }

  lemma {:induction false} LengthLine(value: string)
    ensures LineOf(CONTENT_LENGTH, value) == "content-length:" + value + "\n"
    ensures CleanKey(CONTENT_LENGTH)
  {
  }

  lemma {:induction false} TwoLines(a: (string, string), b: (string, string), body: string)
    ensures Printed([a, b], body) == LineOf(a.0, a.1) + (LineOf(b.0, b.1) + ("\n" + body))
  {
    assert [a, b][1..] == [b] && [b][1..] == [];
    assert Printed([b], body) == LineOf(b.0, b.1) + Printed([], body);
  }

  lemma {:induction false} Nested(a: string, b: string, c: string, d: string, e: string)
    ensures a + b + c + d + "\n\n" + e + "\n" == a + (b + ((c + d + "\n") + ("\n" + (e + "\n"))))
  {
  }

  /** An ERROR frame is read back as its two headers and the reason, followed by a line break. */
  lemma {:induction false} ErrorIsRead(reason: string)
    ensures var s, headers := ErrorText(reason), [(CONTENT_TYPE, TEXT_PLAIN), (CONTENT_LENGTH, Itoa(|reason|))];
      ParseHeaders([], s, |"ERROR\n"|, |s|) == (headers, |s| - |reason + "\n"|)
  {
    var n := Itoa(|reason|);
    TypeLine();
    LengthLine(n);
    DigitsAreClean(|reason|);
    TwoLines((CONTENT_TYPE, TEXT_PLAIN), (CONTENT_LENGTH, n), reason + "\n");
    Nested("ERROR\n", "content-type:text/plain\n", "content-length:", n, reason);
    PrintedIsRead("ERROR\n", ErrorText(reason), [(CONTENT_TYPE, TEXT_PLAIN), (CONTENT_LENGTH, n)], reason + "\n");
  }

  lemma {:induction false} PrintedIsRead(pre: string, s: string, ps: Pairs, body: string)
    requires s == pre + Printed(ps, body) && CleanPairs(ps)
    ensures ParseHeaders([], s, |pre|, |s|) == (ps, |s| - |body|)
  {
    ParsePrinted([], s, pre, ps, body);
    assert [] + ps == ps;
  }

  lemma DigitsAreClean(n: int)
    ensures CleanText(Itoa(n))
  {
  }

  // ---------------------------------------------------------------- parsed headers can be printed

  predicate NulFree(s: string) {
    forall i :: 0 <= i < |s| ==> s[i] != '\0'
  }

  lemma {:induction false} ParsedLineIsClean(s: string, at: nat, n: nat)
    requires at <= n <= |s| && NulFree(s) && ParseLine(s, at, n).Header?
    ensures CleanKey(ParseLine(s, at, n).key) && CleanText(ParseLine(s, at, n).value)
  {
    var nr := NextRow(s, at, n);
    MemChrFirst(s, '\n', at, n);
    MemChrFirst(s, '\r', at, n);
    MemChrFirst(s, ':', at, if nr >= 0 then nr else n);
  }

  lemma {:induction false} ParsedHeadersAreClean(ps: Pairs, s: string, at: nat, n: nat)
    requires at <= n <= |s| && NulFree(s) && CleanPairs(ps)
    ensures CleanPairs(ParseHeaders(ps, s, at, n).0)
    decreases n - at
  {
    match ParseLine(s, at, n)
    case Stop(nr) =>
    case Header(nr, key, value) =>
      ParsedLineIsClean(s, at, n);
      if nr >= 0 { ParsedHeadersAreClean(ps + [(key, value)], s, nr, n); }
  }

  lemma {:induction false} AssignedIsClean(m: map<string, string>, ps: Pairs)
    requires CleanMap(m) && CleanPairs(ps)
    ensures CleanMap(AssignAll(m, ps))
    decreases |ps|
  {
    if ps != [] { AssignedIsClean(m[ps[0].0 := ps[0].1], ps[1..]); }
  }

  lemma {:induction false} LatestIsClean(ps: Pairs, prefix: string)
    requires CleanPairs(ps)
    ensures Latest(ps, prefix).Some? ==> CleanText(Latest(ps, prefix).value)
  {
    if ps != [] { LatestIsClean(ps[..|ps| - 1], prefix); }
  }

  /** A message whose headers, topic and subscription id can be printed without harm. */
  predicate CleanMessage(pm: ParsedMessage) {
    && WellFormed(pm.headers) && CleanMap(ToMap(pm.headers))
    && (pm.topic.Some? ==> CleanText(pm.topic.value)) && (pm.id.Some? ==> CleanText(pm.id.value))
  }

  /** Whatever was received, what the parser made of it is clean. */
  lemma {:induction false} ParsedIsClean(content: string, ts: int)
    requires NulFree(content)
    ensures CleanMessage(ParseMessage(content, ts))
  {
    var n := |content|;
    var nr := NextRow(content, 0, n);
    var ps := if ParseCommand(content) > 0 && nr >= 0 then ParseHeaders([], content, nr, n).0 else [];
    if nr >= 0 { ParsedHeadersAreClean([], content, nr, n); }
    PutAllCorrect(Leaf, ps);
    AssignedIsClean(map[], ps);
    LatestIsClean(ps, "destination");
    LatestIsClean(ps, "id");
  }

  // ---------------------------------------------------------------- the table of an outgoing message

  /** The sender's headers with the content type and length put over them, and then the answer to a query. */
  function OutTable(headers: Tree, body: string, answer: Pairs): (t: Tree)
    ensures HeightsExact(t)
  {
    PutAll(PutAll(Merge(Leaf, headers), [(CONTENT_TYPE, TEXT_PLAIN), (CONTENT_LENGTH, Itoa(|body|))]), answer)
  }

  /** The same table addressed to one subscription. */
  function Addressed(t: Tree, messageId: nat, topic: string, id: string): (r: Tree)
    requires HeightsExact(t)
    ensures HeightsExact(r)
  {
    PutAll(t, [(MESSAGE_ID, Itoa(AsInt(messageId))), (DESTINATION, topic), (SUBSCRIPTION, id)])
  }

  function Typed(headers: map<string, string>, body: string): map<string, string> {
    headers[CONTENT_TYPE := TEXT_PLAIN][CONTENT_LENGTH := Itoa(|body|)]
  }

  /** The headers of an outgoing message before it is addressed. */
  function Unaddressed(headers: map<string, string>, body: string, answer: Pairs): map<string, string> {
    AssignAll(Typed(headers, body), answer)
  }

  /** The headers that a subscriber is to get. */
  function DeliveredMap(base: map<string, string>, messageId: nat, topic: string, id: string): map<string, string> {
    base[MESSAGE_ID := Itoa(AsInt(messageId))][DESTINATION := topic][SUBSCRIPTION := id]
  }

  /** The headers of a delivered message in plain terms, when no query is answered in it. */
  lemma {:induction false} DeliveredPlainly(headers: map<string, string>, body: string, messageId: nat, topic: string, id: string)
    requires messageId < TWO_32
    ensures var m := DeliveredMap(Typed(headers, body), messageId, topic, id);
      && m.Keys == headers.Keys + {"content-type", "content-length", "message-id", "destination", "subscription"}
      && m["content-type"] == "text/plain" && IsDecimal(m["content-length"], |body|)
      && m["message-id"] == Itoa(AsInt(messageId)) && m["destination"] == topic && m["subscription"] == id
      && forall k :: k in headers && k !in {"content-type", "content-length", "message-id", "destination", "subscription"}
                     ==> m[k] == headers[k]
  {
    hide IsDecimal, Itoa, AsInt;
    ItoaIsDecimal(|body|);
    NamesApart();
  }

  lemma NamesApart()
    ensures "content-type" != "content-length" && "content-type" != "message-id" && "content-type" != "destination"
    ensures "content-type" != "subscription" && "content-length" != "message-id" && "content-length" != "destination"
    ensures "content-length" != "subscription" && "message-id" != "destination" && "message-id" != "subscription"
    ensures "destination" != "subscription"
  {
    assert |"content-type"| == 12 && |"content-length"| == 14 && |"message-id"| == 10 && |"destination"| == 11;
    assert |"subscription"| == 12 && "subscription"[0] == 's' && "content-type"[0] == 'c';
  }

  const ADDRESS: set<string> := {MESSAGE_ID, DESTINATION, SUBSCRIPTION}

  /** A table that is right except for an address left over from the previous subscriber. */
  predicate Prepared(t: Tree, base: map<string, string>) {
    WellFormed(t) && ToMap(t) - ADDRESS == base - ADDRESS
  }

  lemma {:induction false} AssignTwo(m: map<string, string>, p: (string, string), q: (string, string))
    ensures AssignAll(m, [p, q]) == m[p.0 := p.1][q.0 := q.1]
  {
    assert [p, q][1..] == [q] && [q][1..] == [];
    assert AssignAll(m[p.0 := p.1], [q]) == m[p.0 := p.1][q.0 := q.1];
  }

  lemma {:induction false} AssignThree(m: map<string, string>, p: (string, string), q: (string, string), r: (string, string))
    ensures AssignAll(m, [p, q, r]) == m[p.0 := p.1][q.0 := q.1][r.0 := r.1]
  {
    assert [p, q, r][1..] == [q, r];
    AssignTwo(m[p.0 := p.1], q, r);
  }

  lemma {:induction false} PutTwo(t: Tree, p: (string, string), q: (string, string))
    requires WellFormed(t)
    ensures WellFormed(PutAll(t, [p, q])) && ToMap(PutAll(t, [p, q])) == ToMap(t)[p.0 := p.1][q.0 := q.1]
  {
    PutAllCorrect(t, [p, q]);
    AssignTwo(ToMap(t), p, q);
  }

  /** Before it is addressed, the table has the sender's headers, the content type and length, and the answer over them. */
  lemma {:induction false} OutTableIsPrepared(headers: Tree, body: string, answer: Pairs)
    requires WellFormed(headers)
    ensures var t, base := OutTable(headers, body, answer), Unaddressed(ToMap(headers), body, answer);
      WellFormed(t) && ToMap(t) == base && Prepared(t, base)
  {
    hide PutAll, Merge;
    MergeIsUnion(Leaf, headers);
    JoinEmpty(ToMap(headers));
    PutTwo(Merge(Leaf, headers), (CONTENT_TYPE, TEXT_PLAIN), (CONTENT_LENGTH, Itoa(|body|)));
    PutAllCorrect(PutAll(Merge(Leaf, headers), [(CONTENT_TYPE, TEXT_PLAIN), (CONTENT_LENGTH, Itoa(|body|))]), answer);
  }

  lemma {:induction false} Reassign<K, V>(m: map<K, V>, base: map<K, V>, a: K, x: V, b: K, y: V, c: K, z: V)
    requires m - {a, b, c} == base - {a, b, c}
    ensures m[a := x][b := y][c := z] == base[a := x][b := y][c := z]
    ensures m[a := x][b := y][c := z] - {a, b, c} == base - {a, b, c}
  {
    var r, s := m[a := x][b := y][c := z], base[a := x][b := y][c := z];
    forall k ensures (k in r <==> k in s) && (k in r ==> r[k] == s[k]) {
      if k !in {a, b, c} {
        assert k in m <==> k in m - {a, b, c};
        assert k in base <==> k in base - {a, b, c};
        assert k in m ==> m[k] == (m - {a, b, c})[k];
        assert k in base ==> base[k] == (base - {a, b, c})[k];
      }
    }
    assert r == s;
    assert r - {a, b, c} == m - {a, b, c};
  }

  /** Addressing a prepared table gives exactly the headers to be delivered, and leaves it prepared. */
  lemma {:induction false} AddressedIsDelivered(t: Tree, base: map<string, string>, messageId: nat, topic: string, id: string)
    requires Prepared(t, base)
    ensures var r := Addressed(t, messageId, topic, id);
      Prepared(r, base) && ToMap(r) == DeliveredMap(base, messageId, topic, id)
  {
    var n := Itoa(AsInt(messageId));
    PutAllCorrect(t, [(MESSAGE_ID, n), (DESTINATION, topic), (SUBSCRIPTION, id)]);
    AssignThree(ToMap(t), (MESSAGE_ID, n), (DESTINATION, topic), (SUBSCRIPTION, id));
    Reassign(ToMap(t), base, MESSAGE_ID, n, DESTINATION, topic, SUBSCRIPTION, id);
  }

  // ---------------------------------------------------------------- reading a delivered message

  /** The frame is read as these headers and this body. */
  predicate Reads(text: string, m: map<string, string>, body: string) {
    var at := NextRow(text, 0, |text|);
    && at == |"MESSAGE\n"| && HasPrefix(text, "MESSAGE\n")
    && var (ps, b) := ParseHeaders([], text, at, |text|);
      b >= 0 && text[b..] == body && ToMap(PutAll(Leaf, ps)) == m
  }

  lemma CleanUpdate(m: map<string, string>, key: string, value: string)
    requires CleanMap(m) && CleanKey(key) && CleanText(value)
    ensures CleanMap(m[key := value])
  {
  }

  lemma AddressKeysAreClean()
    ensures CleanKey(MESSAGE_ID) && CleanKey(DESTINATION) && CleanKey(SUBSCRIPTION)
  {
  }

  lemma {:induction false} UnaddressedIsClean(headers: map<string, string>, body: string, answer: Pairs)
    requires CleanMap(headers) && CleanPairs(answer)
    ensures CleanMap(Unaddressed(headers, body, answer))
  {
    TypeLine();
    LengthLine("");
    DigitsAreClean(|body|);
    CleanUpdate(headers, CONTENT_TYPE, TEXT_PLAIN);
    CleanUpdate(headers[CONTENT_TYPE := TEXT_PLAIN], CONTENT_LENGTH, Itoa(|body|));
    AssignedIsClean(Typed(headers, body), answer);
  }

  lemma {:induction false} DeliveredIsClean(base: map<string, string>, messageId: nat, topic: string, id: string)
    requires CleanMap(base) && CleanText(topic) && CleanText(id)
    ensures CleanMap(DeliveredMap(base, messageId, topic, id))
  {
    var n := Itoa(AsInt(messageId));
    DigitsAreClean(AsInt(messageId));
    AddressKeysAreClean();
    CleanUpdate(base, MESSAGE_ID, n);
    CleanUpdate(base[MESSAGE_ID := n], DESTINATION, topic);
    CleanUpdate(base[MESSAGE_ID := n][DESTINATION := topic], SUBSCRIPTION, id);
  }

  lemma {:induction false} AddressedIsRead(t: Tree, base: map<string, string>, body: string, messageId: nat, topic: string, id: string)
    requires Prepared(t, base) && CleanMap(base) && CleanText(topic) && CleanText(id)
    ensures var r := Addressed(t, messageId, topic, id);
      Prepared(r, base) && Reads(MessageText(r, body), DeliveredMap(base, messageId, topic, id), body)
  {
    var r := Addressed(t, messageId, topic, id);
    AddressedIsDelivered(t, base, messageId, topic, id);
    DeliveredIsClean(base, messageId, topic, id);
    assert SUBSCRIPTION in ToMap(r);
    HeaderRoundTrip(r, body);
    MessageLines(r, body);
  }

  // ---------------------------------------------------------------- one message to many subscribers

  /** The messages of one distribution: the table is addressed anew for each subscription in turn. */
  function Deliveries(t: Tree, subs: Subscriptions, topic: string, messageId: nat, body: string): (r: seq<OutMessage>)
    requires HeightsExact(t)
    ensures |r| == |subs|
    decreases |subs|
  {
    if subs == [] then []
    else
      var t1 := Addressed(t, messageId, topic, subs[0].id);
      [Message(subs[0].sessionId, MessageText(t1, body))]
      + Deliveries(t1, subs[1..], topic, NextUnsigned(messageId), body)
  }

  /** Each message goes to the session of its subscription. */
  lemma {:induction false} DeliveredTo(t: Tree, subs: Subscriptions, topic: string, messageId: nat, body: string, i: nat)
    requires HeightsExact(t) && i < |subs|
    ensures Deliveries(t, subs, topic, messageId, body)[i].fd == subs[i].sessionId
    decreases |subs|
  {
    if i > 0 {
      DeliveredTo(Addressed(t, messageId, topic, subs[0].id), subs[1..], topic, NextUnsigned(messageId), body, i - 1);
    }
  }

  predicate CleanIds(subs: Subscriptions) {
    forall i :: 0 <= i < |subs| ==> CleanText(subs[i].id)
  }

  /** The id of the i-th message that is sent from now on. */
  function IdAt(messageId: nat, i: nat): nat {
    (messageId + i) % TWO_32
  }

  lemma IdAfterNext(messageId: nat, i: nat)
    requires messageId < TWO_32
    ensures IdAt(NextUnsigned(messageId), i) == IdAt(messageId, i + 1) && IdAt(messageId, 0) == messageId
  {
  }

  /** Each subscription gets the headers `base`, its own address, the next id and exactly the body. */
  predicate AllRead(ds: seq<OutMessage>, base: map<string, string>, subs: Subscriptions, topic: string,
                    messageId: nat, body: string)
  {
    |ds| == |subs| && forall i :: 0 <= i < |ds| ==>
      Reads(ds[i].content, DeliveredMap(base, IdAt(messageId, i), topic, subs[i].id), body)
  }

  lemma {:induction false} AllReadPrepend(d: OutMessage, ds: seq<OutMessage>, base: map<string, string>, subs: Subscriptions,
                       topic: string, messageId: nat, body: string)
    requires subs != [] && messageId < TWO_32
    requires Reads(d.content, DeliveredMap(base, messageId, topic, subs[0].id), body)
    requires AllRead(ds, base, subs[1..], topic, NextUnsigned(messageId), body)
    ensures AllRead([d] + ds, base, subs, topic, messageId, body)
  {
    var all := [d] + ds;
    forall i | 0 <= i < |all|
      ensures Reads(all[i].content, DeliveredMap(base, IdAt(messageId, i), topic, subs[i].id), body)
    {
      IdAfterNext(messageId, if i > 0 then i - 1 else 0);
      if i > 0 { assert all[i] == ds[i - 1] && subs[i] == subs[1..][i - 1]; }
    }
  }

  lemma {:induction false} DeliveriesAreRead(t: Tree, base: map<string, string>, subs: Subscriptions, topic: string,
                                            messageId: nat, body: string)
    requires Prepared(t, base) && CleanMap(base) && CleanText(topic) && CleanIds(subs) && messageId < TWO_32
    ensures AllRead(Deliveries(t, subs, topic, messageId, body), base, subs, topic, messageId, body)
    decreases |subs|
  {
    if subs != [] {
      var t1 := Addressed(t, messageId, topic, subs[0].id);
      AddressedIsRead(t, base, body, messageId, topic, subs[0].id);
      DeliveriesAreRead(t1, base, subs[1..], topic, NextUnsigned(messageId), body);
      AllReadPrepend(Message(subs[0].sessionId, MessageText(t1, body)),
                     Deliveries(t1, subs[1..], topic, NextUnsigned(messageId), body), base, subs, topic, messageId, body);
    }
  }
}
