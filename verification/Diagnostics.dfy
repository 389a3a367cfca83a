/** The answers to diagnostic queries: the frame for a DIAG command, and the headers of a message to a DIAG topic. */
module Diagnostics {
  import opened CString
  import opened AssocTree
  import opened Parser
  import opened Messages
  import opened GeneralList
  import opened PubSub
  import opened Delivery

  /** The sizes that a query can ask for. */
  datatype Stats = Stats(sessions: nat, encoded: nat, connected: nat, subscriptions: nat, bytes: nat, hits: nat,
                         misses: nat, input: nat, output: nat, stale: nat)

  datatype Query =
    | SessionSize | EncodedSize | ConnectedSize | PubSubSize | AllSessions | AllPatterns | BufferUse | QueueSizes | NoQuery

  /** A body is a query by its prefix; the first of these counts. */
  function QueryOf(body: string): Query {
    if HasPrefix(body, "session-size") then SessionSize
    else if HasPrefix(body, "session-encoded-size") then EncodedSize
    else if HasPrefix(body, "session-connected-size") then ConnectedSize
    else if HasPrefix(body, "pubsub-size") then PubSubSize
    else if HasPrefix(body, "session") then AllSessions
    else if HasPrefix(body, "subs") then AllPatterns
    else if HasPrefix(body, "ws_buffer") then BufferUse
    else if HasPrefix(body, "stale") then QueueSizes
    else NoQuery
  }

  // ---------------------------------------------------------------- headers of messages to a DIAG topic

  const SESSION_SIZE_KEY: string := "session-size"
  const ENCODED_SIZE_KEY: string := "session-encoded-size"
  const CONNECTED_SIZE_KEY: string := "session-connected-size"
  const PUBSUB_SIZE_KEY: string := "pubsub-size"
  const CLIENTS_KEY: string := "clients"
  const WEBSOCKETS_KEY: string := "websockets"
  const STOMP_CONNECTED_KEY: string := "stomp_connected"
  const SUBSCRIPTIONS_KEY: string := "subscriptions"
  const ALLOCATED_KEY: string := "allocated"
  const HITS_KEY: string := "hits"
  const MISSES_KEY: string := "misses"
  const INPUT_SIZE_KEY: string := "input-queue-size"
  const OUTPUT_SIZE_KEY: string := "output-queue-size"
  const STALE_SIZE_KEY: string := "stale-queue-size"

  /** create_diagnostic_headers: what is put over the table, in order. */
  function HeadersFor(q: Query, st: Stats): Pairs {
    match q
    case SessionSize => [(SESSION_SIZE_KEY, Itoa(st.sessions))]
    case EncodedSize => [(ENCODED_SIZE_KEY, Itoa(st.encoded))]
    case ConnectedSize => [(CONNECTED_SIZE_KEY, Itoa(st.connected))]
    case PubSubSize => [(PUBSUB_SIZE_KEY, Itoa(st.subscriptions))]
    case AllSessions => [(CLIENTS_KEY, Itoa(st.sessions)), (WEBSOCKETS_KEY, Itoa(st.encoded)),
                         (STOMP_CONNECTED_KEY, Itoa(st.connected)), (SUBSCRIPTIONS_KEY, Itoa(st.subscriptions))]
    case AllPatterns => []
    case BufferUse => [(ALLOCATED_KEY, Itoa(st.bytes)), (HITS_KEY, Itoa(st.hits)), (MISSES_KEY, Itoa(st.misses))]
    case QueueSizes => [(INPUT_SIZE_KEY, Itoa(st.input)), (OUTPUT_SIZE_KEY, Itoa(st.output)), (STALE_SIZE_KEY, Itoa(st.stale))]
    case NoQuery => []
  }

  /** The headers that a message to `topic` gets besides those of every message. */
  function AnswerIn(topic: string, body: string, st: Stats): Pairs {
    if HasPrefix(topic, "DIAG") then HeadersFor(QueryOf(body), st) else []
  }

  /** Which of the queries with a common beginning a body is. */
  predicate IsOverview(body: string) {
    && "session" <= body && !("session-size" <= body) && !("session-encoded-size" <= body)
    && !("session-connected-size" <= body)
  }

  lemma {:induction false} QueriesPlainly(body: string)
    ensures QueryOf(body) == SessionSize <==> "session-size" <= body
    ensures QueryOf(body) == EncodedSize <==> "session-encoded-size" <= body
    ensures QueryOf(body) == ConnectedSize <==> "session-connected-size" <= body
    ensures QueryOf(body) == PubSubSize <==> "pubsub-size" <= body
    ensures QueryOf(body) == AllSessions <==> IsOverview(body)
    ensures QueryOf(body) == AllPatterns <==> "subs" <= body
    ensures QueryOf(body) == BufferUse <==> "ws_buffer" <= body
    ensures QueryOf(body) == QueueSizes <==> "stale" <= body
    ensures QueryOf(body) == NoQuery <==>
      !("session" <= body || "pubsub-size" <= body || "subs" <= body || "ws_buffer" <= body || "stale" <= body)
  {
    SessionLetters(body);
    OtherLetters(body);
  }

  lemma SessionLetters(body: string)
    ensures "session-size" <= body ==> body[0] == 's' && body[1] == 'e' && body[8] == 's'
    ensures "session-encoded-size" <= body ==> body[0] == 's' && body[1] == 'e' && body[8] == 'e'
    ensures "session-connected-size" <= body ==> body[0] == 's' && body[1] == 'e' && body[8] == 'c'
    ensures "session" <= body ==> body[0] == 's' && body[1] == 'e'
  {
  }

  lemma OtherLetters(body: string)
    ensures "pubsub-size" <= body ==> body[0] == 'p'
    ensures "subs" <= body ==> body[0] == 's' && body[1] == 'u'
    ensures "ws_buffer" <= body ==> body[0] == 'w'
    ensures "stale" <= body ==> body[0] == 's' && body[1] == 't'
  {
  }

  /** The headers that each query puts over those of a message, in plain terms. */
  lemma {:induction false} AnswersPlainly(topic: string, body: string, st: Stats)
    ensures var a := AnswerIn(topic, body, st);
      if !("DIAG" <= topic) then a == []
      else if "session-size" <= body then a == [("session-size", Itoa(st.sessions))]
      else if "session-encoded-size" <= body then a == [("session-encoded-size", Itoa(st.encoded))]
      else if "session-connected-size" <= body then a == [("session-connected-size", Itoa(st.connected))]
      else if "pubsub-size" <= body then a == [("pubsub-size", Itoa(st.subscriptions))]
      else if "session" <= body then
        a == [("clients", Itoa(st.sessions)), ("websockets", Itoa(st.encoded)),
              ("stomp_connected", Itoa(st.connected)), ("subscriptions", Itoa(st.subscriptions))]
      else if "ws_buffer" <= body then
        a == [("allocated", Itoa(st.bytes)), ("hits", Itoa(st.hits)), ("misses", Itoa(st.misses))]
      else if "stale" <= body then
        a == [("input-queue-size", Itoa(st.input)), ("output-queue-size", Itoa(st.output)), ("stale-queue-size", Itoa(st.stale))]
      else a == []
  {
    hide Itoa, QueryOf;
    QueriesPlainly(body);
  }

  lemma SizeKeysAreClean()
    ensures CleanKey(SESSION_SIZE_KEY) && CleanKey(ENCODED_SIZE_KEY) && CleanKey(CONNECTED_SIZE_KEY)
    ensures CleanKey(PUBSUB_SIZE_KEY)
  {
  }

  lemma SessionKeysAreClean()
    ensures CleanKey(CLIENTS_KEY) && CleanKey(WEBSOCKETS_KEY) && CleanKey(STOMP_CONNECTED_KEY)
    ensures CleanKey(SUBSCRIPTIONS_KEY)
  {
  }

  lemma BufferAndQueueKeysAreClean()
    ensures CleanKey(ALLOCATED_KEY) && CleanKey(HITS_KEY) && CleanKey(MISSES_KEY)
    ensures CleanKey(INPUT_SIZE_KEY) && CleanKey(OUTPUT_SIZE_KEY) && CleanKey(STALE_SIZE_KEY)
  {
  }

  lemma NumbersAreClean(st: Stats)
    ensures CleanText(Itoa(st.sessions)) && CleanText(Itoa(st.encoded)) && CleanText(Itoa(st.connected))
    ensures CleanText(Itoa(st.subscriptions)) && CleanText(Itoa(st.bytes)) && CleanText(Itoa(st.hits))
    ensures CleanText(Itoa(st.misses)) && CleanText(Itoa(st.input)) && CleanText(Itoa(st.output)) && CleanText(Itoa(st.stale))
  {
    DigitsAreClean(st.sessions);
    DigitsAreClean(st.encoded);
    DigitsAreClean(st.connected);
    DigitsAreClean(st.subscriptions);
    DigitsAreClean(st.bytes);
    DigitsAreClean(st.hits);
    DigitsAreClean(st.misses);
    DigitsAreClean(st.input);
    DigitsAreClean(st.output);
    DigitsAreClean(st.stale);
  }

  lemma {:induction false} AnswerIsClean(topic: string, body: string, st: Stats)
    ensures CleanPairs(AnswerIn(topic, body, st))
  {
    hide CleanKey, CleanText, Itoa, HasPrefix, QueryOf;
    SizeKeysAreClean();
    SessionKeysAreClean();
    BufferAndQueueKeysAreClean();
    NumbersAreClean(st);
  }

  lemma {:induction false} AssignedHas(m: map<string, string>, ps: Pairs, i: nat)
    requires i < |ps| && forall j :: i < j < |ps| ==> ps[j].0 != ps[i].0
    ensures ps[i].0 in AssignAll(m, ps) && AssignAll(m, ps)[ps[i].0] == ps[i].1
    decreases |ps|
  {
    if i > 0 {
      AssignedHas(m[ps[0].0 := ps[0].1], ps[1..], i - 1);
    } else {
      AssignedKeeps(m[ps[0].0 := ps[0].1], ps[1..], ps[0].0);
    }
  }

  lemma {:induction false} AssignedKeeps(m: map<string, string>, ps: Pairs, k: string)
    requires k in m && forall j :: 0 <= j < |ps| ==> ps[j].0 != k
    ensures k in AssignAll(m, ps) && AssignAll(m, ps)[k] == m[k]
    decreases |ps|
  {
    if ps != [] { AssignedKeeps(m[ps[0].0 := ps[0].1], ps[1..], k); }
  }

  predicate DistinctKeys(ps: Pairs) {
    forall i, j :: 0 <= i < j < |ps| ==> ps[i].0 != ps[j].0
  }

  predicate NoAddress(ps: Pairs) {
    forall i :: 0 <= i < |ps| ==> ps[i].0 != MESSAGE_ID && ps[i].0 != DESTINATION && ps[i].0 != SUBSCRIPTION
  }

  lemma KeysApart(q: Query, st: Stats)
    ensures DistinctKeys(HeadersFor(q, st)) && NoAddress(HeadersFor(q, st))
  {
    hide Itoa;
    assert |MESSAGE_ID| == 10 && |DESTINATION| == 11 && |SUBSCRIPTION| == 12 && MESSAGE_ID[0] == 'm';
    match q
    case AllSessions =>
      assert |CLIENTS_KEY| == 7 && |WEBSOCKETS_KEY| == 10 && |STOMP_CONNECTED_KEY| == 15 && |SUBSCRIPTIONS_KEY| == 13;
      assert WEBSOCKETS_KEY[0] == 'w';
    case BufferUse =>
      assert |ALLOCATED_KEY| == 9 && |HITS_KEY| == 4 && |MISSES_KEY| == 6;
    case QueueSizes =>
      assert |INPUT_SIZE_KEY| == 16 && |OUTPUT_SIZE_KEY| == 17 && |STALE_SIZE_KEY| == 16;
      assert INPUT_SIZE_KEY[0] == 'i' && STALE_SIZE_KEY[0] == 's';
    case PubSubSize =>
      assert |PUBSUB_SIZE_KEY| == 11 && PUBSUB_SIZE_KEY[0] == 'p' && DESTINATION[0] == 'd';
    case SessionSize =>
      assert |SESSION_SIZE_KEY| == 12 && SESSION_SIZE_KEY[1] == 'e' && SUBSCRIPTION[1] == 'u';
    case _ =>
      assert |ENCODED_SIZE_KEY| == 20 && |CONNECTED_SIZE_KEY| == 22;
  }

  /** Every header of the answer reaches the subscribers with its number, whatever headers the sender has set. */
  lemma {:induction false} AnswerIsDelivered(topic: string, body: string, st: Stats, headers: map<string, string>,
                                             messageId: nat, id: string, i: nat)
    requires i < |AnswerIn(topic, body, st)|
    ensures var answer := AnswerIn(topic, body, st);
      var m := DeliveredMap(Unaddressed(headers, body, answer), messageId, topic, id);
      answer[i].0 in m && m[answer[i].0] == answer[i].1
  {
    hide HeadersFor, QueryOf, HasPrefix, Itoa, Typed;
    var answer := AnswerIn(topic, body, st);
    KeysApart(QueryOf(body), st);
    AssignedHas(Typed(headers, body), answer, i);
  }

  // ---------------------------------------------------------------- the list of patterns

  const MESSAGE_BUFFER: int := 4000

  /** The patterns separated by commas; a comma stands only behind something. */
  function Joined(subs: Subscriptions): string {
    if subs == [] then ""
    else
      var front := Joined(subs[..|subs| - 1]);
      front + (if |front| > 0 then "," else "") + subs[|subs| - 1].pattern
  }

  /** Whether the buffer has room for one more pattern, a comma and the NUL. */
  predicate HasRoom(subs: Subscriptions, k: nat)
    requires k < |subs|
  {
    |subs[k].pattern| + |Joined(subs[..k])| + 2 <= MESSAGE_BUFFER
  }

  /** How many patterns the buffer has room for, when the first k of them are in it. */
  function Listed(subs: Subscriptions, k: nat): (n: nat)
    requires k <= |subs|
    ensures k <= n <= |subs|
    ensures n < |subs| ==> !HasRoom(subs, n)
    ensures forall j :: k <= j < n ==> HasRoom(subs, j)
    decreases |subs| - k
  {
    if k == |subs| || !HasRoom(subs, k) then k else Listed(subs, k + 1)
  }

  function PatternList(subs: Subscriptions): string {
    Joined(subs[..Listed(subs, 0)])
  }

  lemma {:induction false} JoinedStep(subs: Subscriptions, k: nat)
    requires k < |subs|
    ensures var front := Joined(subs[..k]);
      Joined(subs[..k + 1]) == front + (if |front| > 0 then "," else "") + subs[k].pattern
  {
    assert subs[..k + 1][..k] == subs[..k];
  }

  /** A text that lists the patterns from the front, each but the last with a comma behind it. */
  predicate IsList(subs: Subscriptions, text: string) {
    if subs == [] then text == []
    else if |subs| == 1 then text == subs[0].pattern
    else
      var n := |subs[0].pattern|;
      n < |text| && text[..n] == subs[0].pattern && text[n] == ',' && IsList(subs[1..], text[n + 1..])
  }

  lemma {:induction false} IsListOn(subs: Subscriptions, text: string, s: Subscription)
    requires subs != [] && IsList(subs, text)
    ensures IsList(subs + [s], text + "," + s.pattern)
  {
    var n, all, more := |subs[0].pattern|, subs + [s], text + "," + s.pattern;
    assert all[1..] == subs[1..] + [s];
    if |subs| == 1 {
      assert more[n + 1..] == s.pattern && all[1..] == [s];
    } else {
      IsListOn(subs[1..], text[n + 1..], s);
      assert more[n + 1..] == text[n + 1..] + "," + s.pattern;
    }
  }

  /** The patterns are listed in order; empty ones at the front are passed over. */
  lemma {:induction false} JoinedIsList(subs: Subscriptions)
    ensures if subs != [] && subs[0].pattern == "" then Joined(subs) == Joined(subs[1..]) else IsList(subs, Joined(subs))
  {
    hide Joined, IsList;
    if |subs| <= 1 {
      OneIsListed(subs);
      OneIsListed([]);
      assert subs != [] ==> subs[1..] == [];
    } else {
      var last := |subs| - 1;
      var front := subs[..last];
      JoinedIsList(front);
      assert front[1..] == subs[1..][..last - 1] && subs == front + [subs[last]];
      assert subs[..last + 1] == subs && subs[1..][..last] == subs[1..];
      JoinedStep(subs, last);
      JoinedStep(subs[1..], last - 1);
      if subs[0].pattern != "" {
        IsListOn(front, Joined(front), subs[last]);
        ListIsNotEmpty(front, Joined(front));
      }
    }
  }

  lemma OneIsListed(subs: Subscriptions)
    requires |subs| <= 1
    ensures Joined(subs) == if subs == [] then "" else subs[0].pattern
    ensures IsList(subs, Joined(subs))
  {
    if subs != [] {
      assert Joined(subs[..0]) == "" && "" + subs[0].pattern == subs[0].pattern;
      assert subs[1..] == [];
    }
  }

  lemma ListIsNotEmpty(subs: Subscriptions, text: string)
    requires subs != [] && subs[0].pattern != "" && IsList(subs, text)
    ensures text != ""
  {
  }

  /** Patterns are listed while one more, a comma and the NUL fit into 4000 octets, and not beyond the first that does not fit. */
  lemma PatternListIsLongest(subs: Subscriptions) returns (n: nat)
    ensures n <= |subs| && PatternList(subs) == Joined(subs[..n])
    ensures forall k :: 0 <= k < n ==> |subs[k].pattern| + |Joined(subs[..k])| + 2 <= 4000
    ensures n < |subs| ==> |subs[n].pattern| + |PatternList(subs)| + 2 > 4000
  {
    n := Listed(subs, 0);
    forall k | 0 <= k < n ensures |subs[k].pattern| + |Joined(subs[..k])| + 2 <= 4000 { assert HasRoom(subs, k); }
  }

  /** pubsub_to_str on an empty buffer: as many patterns, in order, as leave room for a comma and the NUL. */
  method PubSubToStr(topics: List<Subscription>) returns (dst: string)
    requires topics.Valid()
    ensures dst == PatternList(topics.contents) && |dst| < 4000
  {
    hide Joined, Ahead;
    dst := "";
    if topics.size == 0 {
      NothingJoined(topics.contents);
      return;
    }
    var c := topics.first;
    ghost var i, ahead := 0, topics.contents;
    AheadStart(topics);
    NothingJoined(topics.contents);
    while c != null
      invariant Ahead(topics, c, i, ahead) && i <= |topics.contents| && ahead == topics.contents[i..]
      invariant dst == Joined(topics.contents[..i]) && |dst| < MESSAGE_BUFFER
      invariant Listed(topics.contents, i) == Listed(topics.contents, 0)
      decreases |ahead|
    {
      AheadOn(topics, c, i, ahead);
      var sub := c.data;
      if |sub.pattern| + |dst| + 2 > MESSAGE_BUFFER { return; }
      JoinedStep(topics.contents, i);
      if |dst| > 0 { dst := dst + ","; }
      dst := dst + sub.pattern;
      c := c.next;
      i, ahead := i + 1, ahead[1..];
    }
    AheadAtEnd(topics, i, ahead);
  }

  lemma NothingJoined(subs: Subscriptions)
    ensures Joined(subs[..0]) == "" && (subs == [] ==> PatternList(subs) == "")
  {
  }

  lemma AheadStart(list: List<Subscription>)
    requires list.Valid()
    ensures Ahead(list, list.first, 0, list.contents) && list.contents[0..] == list.contents
  {
  }

  // ---------------------------------------------------------------- the answer to a DIAG command

  /** Field names and numbers in turn, and the closing brace. */
  function Filled(parts: seq<(string, nat)>): string {
    if parts == [] then "}" else parts[0].0 + Itoa(parts[0].1) + Filled(parts[1..])
  }

  function SessionFields(st: Stats): seq<(string, nat)> {
    [("{\"clients\":", st.sessions), (",\"websockets\": ", st.encoded), (",\"stomp_connected\":", st.connected),
     (",\"subscriptions\":", st.subscriptions)]
  }

  function BufferFields(st: Stats): seq<(string, nat)> {
    [("{\"allocated\":", st.bytes), (",\"hits\":", st.hits), (",\"misses\":", st.misses)]
  }

  function QueueFields(st: Stats): seq<(string, nat)> {
    [("{\"in\":", st.input), (",\"out\":", st.output)]
  }

  /** What create_diagnostic_message prints for a query that it knows. */
  function ValueOf(q: Query, st: Stats, subs: Subscriptions): string {
    match q
    case SessionSize => Itoa(st.sessions)
    case EncodedSize => Itoa(st.encoded)
    case ConnectedSize => Itoa(st.connected)
    case PubSubSize => Itoa(st.subscriptions)
    case AllSessions => Filled(SessionFields(st))
    case AllPatterns => PatternList(subs)
    case BufferUse => Filled(BufferFields(st))
    case QueueSizes => Filled(QueueFields(st))
    case NoQuery => ""
  }

  /** What each query is answered with in a DIAG frame, in plain terms. */
  lemma {:induction false} ValuesPlainly(body: string, st: Stats, subs: Subscriptions)
    ensures var v := ValueOf(QueryOf(body), st, subs);
      if "session-size" <= body then v == Itoa(st.sessions)
      else if "session-encoded-size" <= body then v == Itoa(st.encoded)
      else if "session-connected-size" <= body then v == Itoa(st.connected)
      else if "pubsub-size" <= body then v == Itoa(st.subscriptions)
      else if "session" <= body then v == Filled(SessionFields(st))
      else if "subs" <= body then v == PatternList(subs)
      else if "ws_buffer" <= body then v == Filled(BufferFields(st))
      else if "stale" <= body then v == Filled(QueueFields(st))
      else QueryOf(body) == NoQuery
  {
    hide Itoa, QueryOf, PatternList, Filled;
    QueriesPlainly(body);
  }

  lemma {:induction false} FieldsOn(a: (string, nat), parts: seq<(string, nat)>)
    ensures Filled([a] + parts) == a.0 + Itoa(a.1) + Filled(parts) && Filled([]) == "}"
  {
    hide Itoa;
    assert ([a] + parts)[1..] == parts;
  }

  /** The objects that the queries with several numbers are answered with. */
  lemma {:induction false} OverviewPlainly(st: Stats)
    ensures Filled(SessionFields(st))
      == "{\"clients\":" + Itoa(st.sessions) + (",\"websockets\": " + Itoa(st.encoded)
         + (",\"stomp_connected\":" + Itoa(st.connected) + (",\"subscriptions\":" + Itoa(st.subscriptions) + "}")))
  {
    hide Itoa, Filled;
    var s := SessionFields(st);
    FieldsOn(s[3], []);
    FieldsOn(s[2], [s[3]]);
    FieldsOn(s[1], [s[2], s[3]]);
    FieldsOn(s[0], [s[1], s[2], s[3]]);
    assert [s[3]] + [] == [s[3]] && [s[2]] + [s[3]] == [s[2], s[3]] && [s[1]] + [s[2], s[3]] == [s[1], s[2], s[3]];
    assert [s[0]] + [s[1], s[2], s[3]] == s;
  }

  lemma {:induction false} BufferUsePlainly(st: Stats)
    ensures Filled(BufferFields(st))
      == "{\"allocated\":" + Itoa(st.bytes) + (",\"hits\":" + Itoa(st.hits) + (",\"misses\":" + Itoa(st.misses) + "}"))
  {
    hide Itoa, Filled;
    var s := BufferFields(st);
    FieldsOn(s[2], []);
    FieldsOn(s[1], [s[2]]);
    FieldsOn(s[0], [s[1], s[2]]);
    assert [s[2]] + [] == [s[2]] && [s[1]] + [s[2]] == [s[1], s[2]] && [s[0]] + [s[1], s[2]] == s;
  }

  lemma {:induction false} QueueSizesPlainly(st: Stats)
    ensures Filled(QueueFields(st)) == "{\"in\":" + Itoa(st.input) + (",\"out\":" + Itoa(st.output) + "}")
  {
    hide Itoa, Filled;
    var s := QueueFields(st);
    FieldsOn(s[1], []);
    FieldsOn(s[0], [s[1]]);
    assert [s[1]] + [] == [s[1]] && [s[0]] + [s[1]] == s;
  }

  /** message_diagnostic. */
  function DiagnosticText(key: string, value: string): string {
    "DIAG\n" + "content-type:text/plain\n" + key + ":" + value + "\n"
  }

  const UNKNOWN_QUERY: string := "Invalid message!"

  function DiagnosticReply(body: string, st: Stats, subs: Subscriptions): string {
    var q := QueryOf(body);
    if q == NoQuery then ErrorText(UNKNOWN_QUERY) else DiagnosticText(body, ValueOf(q, st, subs))
  }

  /** A query without ':' and line breaks, answered without line breaks, is read back as a header of that name. */
  lemma {:induction false} DiagnosticIsRead(key: string, value: string)
    requires CleanKey(key) && CleanText(value)
    ensures var s := DiagnosticText(key, value);
      ParseHeaders([], s, |"DIAG\n"|, |s|) == ([(CONTENT_TYPE, TEXT_PLAIN), (key, value)], -1)
  {
    hide ParseLine;
    var s, ps := DiagnosticText(key, value), [(CONTENT_TYPE, TEXT_PLAIN), (key, value)];
    TypeLine();
    assert ps[1..] == [(key, value)] && Lines([(key, value)]) == LineOf(key, value) + Lines([(key, value)][1..]);
    assert Lines(ps) == LineOf(CONTENT_TYPE, TEXT_PLAIN) + Lines(ps[1..]);
    assert s == "DIAG\n" + (Lines(ps) + "");
    ParseLines([], s, "DIAG\n", ps, "");
    assert "DIAG\n" + Lines(ps) == s && [] + ps == ps;
    UnfinishedLine(s, |s|);
  }

  predicate CleanPatterns(subs: Subscriptions) {
    forall i :: 0 <= i < |subs| ==> CleanText(subs[i].pattern)
  }

  lemma {:induction false} JoinedIsClean(subs: Subscriptions)
    requires CleanPatterns(subs)
    ensures CleanText(Joined(subs))
  {
    if subs != [] { JoinedIsClean(subs[..|subs| - 1]); }
  }

  lemma FieldNamesAreClean()
    ensures CleanText("{\"clients\":") && CleanText(",\"websockets\": ") && CleanText(",\"stomp_connected\":")
    ensures CleanText(",\"subscriptions\":") && CleanText("}")
  {
  }

  lemma MoreFieldNamesAreClean()
    ensures CleanText("{\"allocated\":") && CleanText(",\"hits\":") && CleanText(",\"misses\":")
    ensures CleanText("{\"in\":") && CleanText(",\"out\":") && CleanText("}")
  {
  }

  lemma {:induction false} FilledIsClean(parts: seq<(string, nat)>)
    requires forall i :: 0 <= i < |parts| ==> CleanText(parts[i].0)
    ensures CleanText(Filled(parts))
  {
    if parts != [] {
      DigitsAreClean(parts[0].1);
      FilledIsClean(parts[1..]);
    }
  }

  lemma {:induction false} ValueIsClean(q: Query, st: Stats, subs: Subscriptions)
    requires CleanPatterns(subs)
    ensures CleanText(ValueOf(q, st, subs))
  {
    hide CleanText, Filled, Itoa, Joined;
    NumbersAreClean(st);
    FieldNamesAreClean();
    MoreFieldNamesAreClean();
    JoinedIsClean(subs[..Listed(subs, 0)]);
    match q
    case AllSessions => FilledIsClean(SessionFields(st));
    case BufferUse => FilledIsClean(BufferFields(st));
    case QueueSizes => FilledIsClean(QueueFields(st));
    case NoQuery => NothingIsClean();
    case _ =>
  }

  lemma NothingIsClean()
    ensures CleanText("")
  {
  }

  /** The answer to a query that is a name: one header of that name with the value asked for. */
  lemma {:induction false} QueryIsAnswered(body: string, st: Stats, subs: Subscriptions)
    requires QueryOf(body) != NoQuery && CleanKey(body) && CleanPatterns(subs)
    ensures var s := DiagnosticReply(body, st, subs);
      && |"DIAG\n"| <= |s|
      && ParseHeaders([], s, |"DIAG\n"|, |s|)
         == ([(CONTENT_TYPE, TEXT_PLAIN), (body, ValueOf(QueryOf(body), st, subs))], -1)
  {
    hide ValueOf, QueryOf, CleanText, CleanKey, ParseHeaders;
    ValueIsClean(QueryOf(body), st, subs);
    DiagnosticIsRead(body, ValueOf(QueryOf(body), st, subs));
  }
}
