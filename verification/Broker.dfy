/** stomp_process: one frame or purge at a time over the connected clients, the subscriptions and the waiting messages. */
module Broker {
  import opened CString
  import opened Seqs
  import opened AssocTree
  import opened BitSets
  import opened Parser
  import opened Messages
  import opened SessionFlags
  import opened Session
  import opened Chain
  import opened Queue
  import opened GeneralList
  import opened ThreadSafeQueue
  import opened Batch
  import opened PubSub
  import opened Delivery
  import opened Diagnostics
  import opened Stale
  import opened Distribution

  datatype State = State(connected: set<nat>, subs: Subscriptions, stale: seq<Stored>, counters: Counters)

  /** The sizes outside the broker's own state: sessions and receive buffers, and the queues that other threads share. */
  datatype Environment = Environment(sessions: nat, encoded: nat, bytes: nat, hits: nat, misses: nat, input: nat, output: nat)

  /** A message from the input queue, with the time and the sizes that its processing meets. */
  datatype Input = Input(fd: nat, content: string, ts: int, now: int, ttl: nat, env: Environment)

  /** The sizes that a query can ask for. */
  function StatsOf(s: State, e: Environment): Stats {
    Stats(e.sessions, e.encoded, |s.connected|, |s.subs|, e.bytes, e.hits, e.misses, e.input, e.output, |s.stale|)
  }

  predicate IsPurge(fd: nat) {
    fd != WithoutFlags(fd) && IsCmdPurge(fd)
  }

  /** The client's name in the subscription list. */
  function ClientOf(fd: nat): nat {
    if IsPurge(fd) then WithoutCmdPurge(fd) else fd
  }

  // ---------------------------------------------------------------- the transition

  /**
   What a frame does: the new state, the messages it sends, and the reply to its sender if there is one. Crashes: the
   broker follows the null pointer of a missing body.
   */
  datatype Effect = Effect(state: State, sent: seq<OutMessage>, reply: Option<OutMessage>) | Crashes

  function Refuse(s: State, fd: nat, reason: string): Effect {
    Effect(s, [], Some(Message(fd, ErrorText(reason))))
  }

  function Leave(s: State, fd: nat, client: nat): State {
    s.(subs := Keep(s.subs, OfClient(client)), connected := s.connected - {WithoutFlags(fd)})
  }

  const ALREADY_CONNECTED: string := "Can not connect, client is already connected!"
  const NOT_YET_CONNECTED: string := "Can not disconnect, client is not connected yet!"
  const NO_ID: string := "No id defined!"
  const NO_DESTINATION: string := "No destination defined!"
  const NOT_CONNECTED: string := "Not connected!"
  const NO_TOPIC: string := "No topic defined!"
  const WILDCARD: string := "Can not have wildcard in message destination!\n"
  const EMPTY_BODY: string := "Empty message_body!"
  const INVALID: string := "Invalid message!"

  function Connect(s: State, fd: nat): Effect {
    var client := WithoutFlags(fd);
    if client in s.connected then Refuse(s, fd, ALREADY_CONNECTED)
    else Effect(s.(connected := s.connected + {client}), [], Some(Message(fd, ConnectedText(client))))
  }

  function Disconnect(s: State, fd: nat): Effect {
    if WithoutFlags(fd) in s.connected then Effect(Leave(s, fd, fd), [], None) else Refuse(s, fd, NOT_YET_CONNECTED)
  }

  function SubscribeTo(s: State, fd: nat, pm: ParsedMessage, now: int, ttl: nat): Effect {
    if pm.id.None? then Refuse(s, fd, NO_ID)
    else if pm.topic.None? then Refuse(s, fd, NO_DESTINATION)
    else if WithoutFlags(fd) !in s.connected then Refuse(s, fd, NOT_CONNECTED)
    else
      var a := Asker(pm.topic.value, fd, pm.id.value, now, ttl);
      var out := AllDelivered(Fated(s.stale, Matched, a), a, s.counters.messageId);
      Effect(s.(subs := s.subs + [Subscription(fd, pm.topic.value, pm.id.value)], stale := Fated(s.stale, Waiting, a),
                counters := s.counters.(messageId := IdAt(s.counters.messageId, |out|))), out, None)
  }

  function UnsubscribeFrom(s: State, fd: nat, pm: ParsedMessage): Effect {
    if pm.id.None? then Refuse(s, fd, NO_ID)
    else if pm.topic.None? then Refuse(s, fd, NO_DESTINATION)
    else if WithoutFlags(fd) !in s.connected then Refuse(s, fd, NOT_CONNECTED)
    else Effect(s.(subs := Keep(s.subs, OfTopic(pm.topic.value, fd, pm.id.value))), [], None)
  }

  function SendOut(s: State, fd: nat, pm: ParsedMessage, i: Input): Effect
    requires HeightsExact(pm.headers)
  {
    if pm.topic.None? then Refuse(s, fd, NO_TOPIC)
    else if WithoutFlags(fd) !in s.connected then Refuse(s, fd, NOT_CONNECTED)
    else if HasStar(pm.topic.value) then Refuse(s, fd, WILDCARD)
    else
      match Distributed(pm, s.subs, i.now, i.ttl, s.counters, StatsOf(s, i.env))
      case Outcome(out, counters) => Effect(s.(counters := counters), out, None)
      case Crash => Crashes
  }

  function Diagnose(s: State, fd: nat, pm: ParsedMessage, env: Environment): Effect {
    if pm.body.None? then Refuse(s, fd, EMPTY_BODY)
    else Effect(s, [], Some(Message(fd, DiagnosticReply(pm.body.value, StatsOf(s, env), s.subs))))
  }

  function EffectOf(s: State, fd: nat, pm: ParsedMessage, i: Input): Effect
    requires HeightsExact(pm.headers)
  {
    if pm.command == CONNECT then Connect(s, fd)
    else if pm.command == DISCONNECT then Disconnect(s, fd)
    else if pm.command == SUBSCRIBE then SubscribeTo(s, fd, pm, i.now, i.ttl)
    else if pm.command == UNSUBSCRIBE then UnsubscribeFrom(s, fd, pm)
    else if pm.command == SEND then SendOut(s, fd, pm, i)
    else if pm.command == DIAGNOSTIC then Diagnose(s, fd, pm, i.env)
    else Refuse(s, fd, INVALID)
  }

  /** The reply, or else the receipt that was asked for. */
  function ReplyTo(e: Effect, fd: nat, receipt: Option<string>): Option<OutMessage>
    requires e.Effect?
  {
    if e.reply.Some? then e.reply
    else if receipt.Some? then Some(Message(fd, ReceiptText(receipt.value)))
    else None
  }

  function AsSeq<T>(o: Option<T>): seq<T> {
    if o.Some? then [o.value] else []
  }

  /** What one or more steps come to; after a crash there is no broker, and `state` is the last one it had. */
  datatype Result = Result(state: State, out: seq<OutMessage>, crashed: bool)

  /** The whole step: what is sent comes before the reply. */
  function Step(s: State, i: Input): Result {
    if IsPurge(i.fd) then Result(Leave(s, i.fd, WithoutCmdPurge(i.fd)), [], false)
    else
      var pm := ParseMessage(i.content, i.ts);
      var e := EffectOf(s, i.fd, pm, i);
      if e.Crashes? then Result(s, [], true) else Result(e.state, e.sent + AsSeq(ReplyTo(e, i.fd, pm.receipt)), false)
  }

  const START: State := State({}, [], [], Counters(0, 0))

  function Run(s: State, inputs: seq<Input>): Result
    decreases |inputs|
  {
    if inputs == [] then Result(s, [], false)
    else
      var first := Step(s, inputs[0]);
      if first.crashed then first
      else
        var rest := Run(first.state, inputs[1..]);
        Result(rest.state, first.out + rest.out, rest.crashed)
  }

  // ---------------------------------------------------------------- the transition on the shared structures

  class Broker {
    const sessions: Sessions
    const topics: List<Subscription>
    const stale: Queue<Stored>
    const output: TsQueue<OutMessage>
    var counters: Counters

    ghost predicate Valid()
      reads this, sessions, sessions.words, topics, topics.items, stale, stale.items, output, output.q, output.q.items
    {
      sessions.Valid() && topics.Valid() && stale.Valid() && output.Valid() && InRange(counters)
    }

    ghost function Abstract(): State
      reads this, sessions.words, topics, stale
    {
      State(Connected(sessions.words[..]), topics.contents, stale.contents, counters)
    }

    /** stomp_start and the queues of process_start_threads. */
    constructor ()
      ensures Valid() && Abstract() == START && output.q.contents == []
      ensures fresh(sessions) && fresh(sessions.words) && fresh(topics) && fresh(stale) && fresh(output) && fresh(output.q)
    {
      sessions := new Sessions();
      topics := new List<Subscription>();
      stale := new Queue<Stored>();
      output := new TsQueue<OutMessage>();
      counters := Counters(0, 0);
    }

    // The methods below do one thing each to one or two of the structures and say what the whole is then.

    method IsHere(fd: nat) returns (here: bool)
      requires Valid()
      ensures here <==> WithoutFlags(fd) in Abstract().connected
    {
      here := sessions.IsConnected(WithoutFlags(fd));
    }

    method SetHere(fd: nat, here: bool)
      requires Valid()
      modifies sessions.words
      ensures Valid() && Abstract() == old(Abstract()).(connected := Marked(old(Abstract()).connected, WithoutFlags(fd), here))
    {
      sessions.SetConnected(WithoutFlags(fd), here);
    }

    method Subscribe(fd: nat, topic: string, id: string)
      requires Valid()
      modifies topics, topics.Repr`next
      ensures Valid() && fresh(topics.Repr - old(topics.Repr))
      ensures Abstract() == old(Abstract()).(subs := old(Abstract()).subs + [Subscription(fd, topic, id)])
    {
      TypesApart(topics.Repr, stale.Repr, output.q.Repr);
      PubSub.Subscribe(topics, topic, fd, id);
    }

    method Unsubscribe(fd: nat, topic: string, id: string)
      requires Valid()
      modifies topics, topics.Repr`next
      ensures Valid() && topics.Repr == old(topics.Repr)
      ensures Abstract() == old(Abstract()).(subs := Keep(old(Abstract()).subs, OfTopic(topic, fd, id)))
    {
      TypesApart(topics.Repr, stale.Repr, output.q.Repr);
      PubSub.Unsubscribe(topics, topic, fd, id);
    }

    method RemoveSubscriptions(client: nat)
      requires Valid()
      modifies topics, topics.Repr`next
      ensures Valid() && topics.Repr == old(topics.Repr)
      ensures Abstract() == old(Abstract()).(subs := Keep(old(Abstract()).subs, OfClient(client)))
    {
      TypesApart(topics.Repr, stale.Repr, output.q.Repr);
      RemoveClient(topics, client);
    }

    method Drain(a: Asker)
      requires Valid()
      modifies this, stale, stale.Repr`next, output, output.q, output.q.Repr`next
      ensures Valid() && stale.Repr == old(stale.Repr) && fresh(output.q.Repr - old(output.q.Repr))
      ensures var s := old(Abstract());
        var out := AllDelivered(Fated(s.stale, Matched, a), a, s.counters.messageId);
        && output.q.contents == old(output.q.contents) + out
        && Abstract() == s.(stale := Fated(s.stale, Waiting, a),
                            counters := s.counters.(messageId := IdAt(s.counters.messageId, |out|)))
    {
      hide AllDelivered, Fated;
      TypesApart(topics.Repr, stale.Repr, output.q.Repr);
      var nextId := DrainStale(stale, output, a, counters.messageId);
      counters := counters.(messageId := nextId);
    }

    /** What the size functions that a query calls return. */
    method Sizes(e: Environment) returns (st: Stats)
      requires Valid()
      ensures st == StatsOf(Abstract(), e)
    {
      var connected := sessions.ConnectedSize();
      st := Stats(e.sessions, e.encoded, connected, topics.size, e.bytes, e.hits, e.misses, e.input, e.output, stale.size);
    }

    method Distribute(pm: ParsedMessage, now: int, ttl: nat, st: Stats) returns (crashed: bool)
      requires Valid() && pm.topic.Some? && HeightsExact(pm.headers)
      modifies this, output, output.q, output.q.Repr`next
      ensures Valid() && fresh(output.q.Repr - old(output.q.Repr))
      ensures var s := old(Abstract());
        var r := Distributed(pm, s.subs, now, ttl, s.counters, st);
        && crashed == r.Crash?
        && (!crashed ==> output.q.contents == old(output.q.contents) + r.out && Abstract() == s.(counters := r.counters))
    {
      hide Distributed;
      TypesApart(topics.Repr, stale.Repr, output.q.Repr);
      counters, crashed := DistributeMessages(topics, output, pm, now, ttl, counters, st);
    }

    /** create_diagnostic_message. */
    method Diagnose(body: string, e: Environment) returns (text: string)
      requires Valid()
      ensures text == DiagnosticReply(body, StatsOf(Abstract(), e), Abstract().subs)
    {
      hide ErrorText, DiagnosticText, PatternList, Filled;
      var st := Sizes(e);
      var q := QueryOf(body);
      if q == NoQuery { return ErrorText(UNKNOWN_QUERY); }
      var value := ValueOf(q, st, []);
      if q == AllPatterns { value := PubSubToStr(topics); }
      text := DiagnosticText(body, value);
    }

    method Reply(m: OutMessage)
      requires Valid()
      modifies output, output.q, output.q.Repr`next
      ensures Valid() && fresh(output.q.Repr - old(output.q.Repr))
      ensures Abstract() == old(Abstract()) && output.q.contents == old(output.q.contents) + [m]
    {
      TypesApart(topics.Repr, stale.Repr, output.q.Repr);
      output.Enqueue(m);
    }

    // From here on only the whole matters.

    method Remove(fd: nat, client: nat)
      requires Valid()
      modifies sessions.words, topics, topics.Repr`next
      ensures Valid() && Abstract() == Leave(old(Abstract()), fd, client) && topics.Repr == old(topics.Repr)
    {
      hide Valid, Abstract;
      RemoveSubscriptions(client);
      SetHere(fd, false);
    }

    /** The branch of SUBSCRIBE. */
    method ApplySubscribe(fd: nat, pm: ParsedMessage, i: Input, here: bool) returns (reply: Option<OutMessage>)
      requires Valid() && (here <==> WithoutFlags(fd) in Abstract().connected)
      modifies this, topics, topics.Repr`next, stale, stale.Repr`next, output, output.q, output.q.Repr`next
      ensures Valid() && fresh(topics.Repr - old(topics.Repr)) && stale.Repr == old(stale.Repr)
      ensures fresh(output.q.Repr - old(output.q.Repr))
      ensures var e := SubscribeTo(old(Abstract()), fd, pm, i.now, i.ttl);
        e.Effect? && Abstract() == e.state && reply == e.reply && output.q.contents == old(output.q.contents) + e.sent
    {
      hide Valid, Abstract, ErrorText, AllDelivered, Fated;
      reply := None;
      assert output.q.contents + [] == output.q.contents;
      if pm.id.None? {
        reply := Some(Message(fd, ErrorText(NO_ID)));
      } else if pm.topic.None? {
        reply := Some(Message(fd, ErrorText(NO_DESTINATION)));
      } else if here {
        Subscribe(fd, pm.topic.value, pm.id.value);
        Drain(Asker(pm.topic.value, fd, pm.id.value, i.now, i.ttl));
      } else {
        reply := Some(Message(fd, ErrorText(NOT_CONNECTED)));
      }
    }

    /** The branch of SEND. */
    method ApplySend(fd: nat, pm: ParsedMessage, i: Input, here: bool) returns (reply: Option<OutMessage>, crashed: bool)
      requires Valid() && (here <==> WithoutFlags(fd) in Abstract().connected) && HeightsExact(pm.headers)
      modifies this, output, output.q, output.q.Repr`next
      ensures Valid() && fresh(output.q.Repr - old(output.q.Repr))
      ensures var e := SendOut(old(Abstract()), fd, pm, i);
        && crashed == e.Crashes?
        && (!crashed ==> Abstract() == e.state && reply == e.reply && output.q.contents == old(output.q.contents) + e.sent)
    {
      hide Valid, Abstract, ErrorText, Distributed, StatsOf;
      reply, crashed := None, false;
      assert output.q.contents + [] == output.q.contents;
      if pm.topic.None? {
        reply := Some(Message(fd, ErrorText(NO_TOPIC)));
      } else if here {
        if StrChr(pm.topic.value, '*') >= 0 {
          reply := Some(Message(fd, ErrorText(WILDCARD)));
        } else {
          var st := Sizes(i.env);
          crashed := Distribute(pm, i.now, i.ttl, st);
        }
      } else {
        reply := Some(Message(fd, ErrorText(NOT_CONNECTED)));
      }
    }

    /** The switch of stomp_process over the command. */
    method Apply(fd: nat, pm: ParsedMessage, i: Input) returns (reply: Option<OutMessage>, crashed: bool)
      requires Valid() && HeightsExact(pm.headers)
      modifies this, sessions.words, topics, topics.Repr`next, stale, stale.Repr`next, output, output.q, output.q.Repr`next
      ensures Valid() && fresh(topics.Repr - old(topics.Repr)) && stale.Repr == old(stale.Repr)
      ensures fresh(output.q.Repr - old(output.q.Repr))
      ensures var e := EffectOf(old(Abstract()), fd, pm, i);
        && crashed == e.Crashes?
        && (!crashed ==> Abstract() == e.state && reply == e.reply && output.q.contents == old(output.q.contents) + e.sent)
    {
      hide Valid, Abstract, ErrorText, ConnectedText, SendOut, SubscribeTo, DiagnosticReply, StatsOf;
      var here := IsHere(fd);
      reply, crashed := None, false;
      assert output.q.contents + [] == output.q.contents;
      if pm.command == CONNECT {
        if here {
          reply := Some(Message(fd, ErrorText(ALREADY_CONNECTED)));
        } else {
          SetHere(fd, true);
          reply := Some(Message(fd, ConnectedText(WithoutFlags(fd))));
        }
      } else if pm.command == DISCONNECT {
        if here { Remove(fd, fd); } else { reply := Some(Message(fd, ErrorText(NOT_YET_CONNECTED))); }
      } else if pm.command == SUBSCRIBE {
        reply := ApplySubscribe(fd, pm, i, here);
      } else if pm.command == UNSUBSCRIBE {
        if pm.id.None? {
          reply := Some(Message(fd, ErrorText(NO_ID)));
        } else if pm.topic.None? {
          reply := Some(Message(fd, ErrorText(NO_DESTINATION)));
        } else if here {
          Unsubscribe(fd, pm.topic.value, pm.id.value);
        } else {
          reply := Some(Message(fd, ErrorText(NOT_CONNECTED)));
        }
      } else if pm.command == SEND {
        reply, crashed := ApplySend(fd, pm, i, here);
      } else if pm.command == DIAGNOSTIC {
        if pm.body.None? {
          reply := Some(Message(fd, ErrorText(EMPTY_BODY)));
        } else {
          var text := Diagnose(pm.body.value, i.env);
          reply := Some(Message(fd, text));
        }
      } else {
        reply := Some(Message(fd, ErrorText(INVALID)));
      }
    }

    /** stomp_process: the connection to clean up, or 0. After a crash nothing is promised. */
    method Process(i: Input) returns (purged: int, crashed: bool)
      requires Valid()
      modifies this, sessions.words, topics, topics.Repr`next, stale, stale.Repr`next, output, output.q, output.q.Repr`next
      ensures Valid() && fresh(topics.Repr - old(topics.Repr)) && stale.Repr == old(stale.Repr)
      ensures fresh(output.q.Repr - old(output.q.Repr))
      ensures purged == if IsPurge(i.fd) then WithoutFlags(i.fd) else 0
      ensures var r := Step(old(Abstract()), i);
        && crashed == r.crashed
        && (!crashed ==> Abstract() == r.state && output.q.contents == old(output.q.contents) + r.out)
    {
      hide Valid, Abstract, EffectOf, Leave, ParseMessage, ReceiptText;
      if i.fd != WithoutFlags(i.fd) {
        if IsCmdPurge(i.fd) {
          assert output.q.contents + [] == output.q.contents;
          Remove(i.fd, WithoutCmdPurge(i.fd));
          return WithoutFlags(i.fd), false;
        }
      }
      var pm := ParseMessage(i.content, i.ts);
      ghost var was, e := output.q.contents, EffectOf(Abstract(), i.fd, pm, i);
      var resp;
      resp, crashed := Apply(i.fd, pm, i);
      if crashed { return 0, true; }
      ghost var sent := e.sent;
      Regroup(was, sent, AsSeq(ReplyTo(e, i.fd, pm.receipt)));
      if resp.Some? {
        Reply(resp.value);
      } else if pm.receipt.Some? {
        Reply(Message(i.fd, ReceiptText(pm.receipt.value)));
      } else {
        assert was + (sent + []) == was + sent;
      }
      return 0, false;
    }
  }

  /** Items of the list and of the two queues are of different types, hence different. */
  lemma TypesApart(s: set<Item<Subscription>>, t: set<Item<Stored>>, u: set<Item<OutMessage>>)
    ensures forall o: object :: !(o in s && o in t) && !(o in s && o in u) && !(o in t && o in u)
  {
  }

  // ---------------------------------------------------------------- replies

  /** The kind of a frame is its first line. */
  predicate IsKind(m: OutMessage, kind: string) {
    HasPrefix(m.content, kind + "\n")
  }

  lemma {:induction false} MessageKind(t: Tree, body: string)
    ensures HasPrefix(MessageText(t, body), "MESSAGE\n")
  {
  }

  lemma {:induction false} DeliveriesKind(t: Tree, subs: Subscriptions, topic: string, messageId: nat, body: string)
    requires HeightsExact(t)
    ensures forall m :: m in Deliveries(t, subs, topic, messageId, body) ==> IsKind(m, "MESSAGE")
    decreases |subs|
  {
    if subs != [] {
      var t1 := Addressed(t, messageId, topic, subs[0].id);
      MessageKind(t1, body);
      DeliveriesKind(t1, subs[1..], topic, NextUnsigned(messageId), body);
      assert "MESSAGE" + "\n" == "MESSAGE\n";
    }
  }

  lemma {:induction false} DrainKind(ms: seq<Stored>, a: Asker, messageId: nat)
    ensures forall m :: m in AllDelivered(ms, a, messageId) ==> IsKind(m, "MESSAGE")
  {
  }

  /** Everything that a frame sends, apart from its reply, is a MESSAGE. */
  lemma {:induction false} SentAreMessages(s: State, fd: nat, pm: ParsedMessage, i: Input)
    requires HeightsExact(pm.headers) && EffectOf(s, fd, pm, i).Effect?
    ensures forall m :: m in EffectOf(s, fd, pm, i).sent ==> IsKind(m, "MESSAGE")
  {
    hide Deliveries, AllDelivered, TableOf, IsKind, DiagnosticReply;
    if pm.command == SUBSCRIBE && pm.topic.Some? && pm.id.Some? {
      var a := Asker(pm.topic.value, fd, pm.id.value, i.now, i.ttl);
      DrainKind(Fated(s.stale, Matched, a), a, s.counters.messageId);
    } else if pm.command == SEND && pm.topic.Some? && pm.body.Some? {
      var topic := pm.topic.value;
      DeliveriesKind(TableOf(pm, StatsOf(s, i.env)), Chosen(Matching(s.subs, topic), topic, s.counters.next), topic,
                     s.counters.messageId, pm.body.value);
    }
  }

  lemma {:induction false} FirstLetter(text: string, kind: string, c: char)
    requires HasPrefix(text, kind) && kind != [] && kind[0] == c
    ensures text[0] == c
  {
  }

  lemma {:induction false} ErrorKind(reason: string)
    ensures HasPrefix(ErrorText(reason), "ERROR\n")
  {
  }

  lemma {:induction false} DiagnosticKind(body: string, st: Stats, subs: Subscriptions)
    ensures HasPrefix(DiagnosticReply(body, st, subs), if QueryOf(body) == NoQuery then "ERROR\n" else "DIAG\n")
  {
    hide QueryOf, ValueOf;
    ErrorKind(UNKNOWN_QUERY);
  }

  lemma ConnectedKind(session: int)
    ensures HasPrefix(ConnectedText(session), "CONNECTED\n")
  {
  }

  lemma {:induction false} ReceiptKind(id: string)
    ensures HasPrefix(ReceiptText(id), "RECEIPT\n")
  {
  }

  /** What a frame is answered with of its own accord: an error, the connection, a diagnostic; never a message or a receipt. */
  lemma {:induction false} EffectReply(s: State, fd: nat, pm: ParsedMessage, i: Input)
    requires HeightsExact(pm.headers) && EffectOf(s, fd, pm, i).Effect?
    ensures var r := EffectOf(s, fd, pm, i).reply;
      r.Some? ==> r.value.fd == fd && r.value.content != [] && r.value.content[0] in {'E', 'C', 'D'}
  {
    hide ErrorText, ConnectedText, DiagnosticReply, QueryOf, StatsOf, Distributed;
    var r := EffectOf(s, fd, pm, i).reply;
    if r.Some? {
      if pm.command == CONNECT && WithoutFlags(fd) !in s.connected {
        ConnectedKind(WithoutFlags(fd));
        FirstLetter(r.value.content, "CONNECTED\n", 'C');
      } else if pm.command == DIAGNOSTIC && pm.body.Some? {
        var text, known := r.value.content, QueryOf(pm.body.value) != NoQuery;
        DiagnosticKind(pm.body.value, StatsOf(s, i.env), s.subs);
        FirstLetter(text, if known then "DIAG\n" else "ERROR\n", if known then 'D' else 'E');
      } else {
        var reason :| r.value.content == ErrorText(reason);
        ErrorKind(reason);
        FirstLetter(r.value.content, "ERROR\n", 'E');
      }
    }
  }

  lemma {:induction false} LettersApart(m: OutMessage)
    ensures IsKind(m, "MESSAGE") ==> m.content != [] && m.content[0] == 'M'
    ensures IsKind(m, "RECEIPT") ==> m.content != [] && m.content[0] == 'R'
    ensures IsKind(m, "ERROR") ==> m.content != [] && m.content[0] == 'E'
  {
  }

  /** The reply rule for what comes out of one step. */
  ghost predicate RepliesOnce(out: seq<OutMessage>, fd: nat, receiptAsked: bool) {
    && (forall j :: 0 <= j < |out| - 1 ==> IsKind(out[j], "MESSAGE"))
    && (out != [] && !IsKind(out[|out| - 1], "MESSAGE") ==> out[|out| - 1].fd == fd)
    && (receiptAsked ==> out != [] && !IsKind(out[|out| - 1], "MESSAGE"))
    && (forall j :: 0 <= j < |out| && IsKind(out[j], "RECEIPT") ==> receiptAsked)
    && (forall j, k :: 0 <= j < |out| && 0 <= k < |out| && IsKind(out[j], "RECEIPT") ==> !IsKind(out[k], "ERROR"))
  }

  lemma {:induction false} SentThenReply(sent: seq<OutMessage>, reply: Option<OutMessage>, fd: nat, receiptAsked: bool)
    requires forall m :: m in sent ==> IsKind(m, "MESSAGE")
    requires reply.Some? ==> reply.value.fd == fd && reply.value.content != [] && reply.value.content[0] in {'E', 'C', 'D', 'R'}
    requires reply.Some? && reply.value.content[0] == 'R' ==> receiptAsked
    requires receiptAsked ==> reply.Some?
    ensures RepliesOnce(sent + AsSeq(reply), fd, receiptAsked)
  {
    hide IsKind;
    var out := sent + AsSeq(reply);
    forall j | 0 <= j < |out|
      ensures j < |sent| ==> IsKind(out[j], "MESSAGE") && !IsKind(out[j], "RECEIPT") && !IsKind(out[j], "ERROR")
      ensures j >= |sent| ==> out[j] == reply.value && !IsKind(out[j], "MESSAGE")
    {
      LettersApart(out[j]);
      if j < |sent| { assert out[j] == sent[j]; }
    }
    if reply.Some? { LettersApart(reply.value); }
  }

  /**
   Each frame that the broker survives has at most one reply, and it comes after the messages that the frame causes; a
   receipt that is asked for is given unless there is another reply, so never together with an error.
   */
  lemma {:induction false} FrameRepliesOnce(s: State, i: Input)
    requires !IsPurge(i.fd) && !Step(s, i).crashed
    ensures RepliesOnce(Step(s, i).out, i.fd, ParseMessage(i.content, i.ts).receipt.Some?)
  {
    hide ParseMessage, EffectOf, ReceiptText;
    var pm := ParseMessage(i.content, i.ts);
    var e := EffectOf(s, i.fd, pm, i);
    SentAreMessages(s, i.fd, pm, i);
    EffectReply(s, i.fd, pm, i);
    if e.reply.None? && pm.receipt.Some? {
      ReceiptKind(pm.receipt.value);
      FirstLetter(ReceiptText(pm.receipt.value), "RECEIPT\n", 'R');
    }
    SentThenReply(e.sent, ReplyTo(e, i.fd, pm.receipt), i.fd, pm.receipt.Some?);
  }

  // ---------------------------------------------------------------- when the broker crashes

  /**
   A step crashes the broker exactly at a SEND without a body of a connected client, not too old, to a topic without
   wildcard that somebody has subscribed to.
   */
  lemma {:induction false} CrashesIff(s: State, i: Input)
    ensures var pm := ParseMessage(i.content, i.ts);
      Step(s, i).crashed <==>
        && !IsPurge(i.fd) && pm.command == SEND && pm.topic.Some? && !HasStar(pm.topic.value) && pm.body.None?
        && WithoutFlags(i.fd) in s.connected && !TooOld(pm.ts, i.now, i.ttl)
        && exists x :: x in s.subs && Promised(pm.topic.value, x.pattern)
  {
    hide ParseMessage, Distributed, HasStar, Promised, AllDelivered, ErrorText, ConnectedText, DiagnosticReply;
    var pm := ParseMessage(i.content, i.ts);
    if pm.topic.Some? && !HasStar(pm.topic.value) {
      CrashIff(pm, s.subs, i.now, i.ttl, s.counters, StatsOf(s, i.env));
    }
  }

  /** The broker survives every run in which whatever is sent has a body. */
  lemma {:induction false} BodiesAreSafe(s: State, inputs: seq<Input>)
    requires forall k :: 0 <= k < |inputs| ==>
      var pm := ParseMessage(inputs[k].content, inputs[k].ts); pm.command == SEND ==> pm.body.Some?
    ensures !Run(s, inputs).crashed
    decreases |inputs|
  {
    hide ParseMessage, Step;
    if inputs != [] {
      CrashesIff(s, inputs[0]);
      BodiesAreSafe(Step(s, inputs[0]).state, inputs[1..]);
    }
  }

  // Frames of a client with session number `fd`, the time to live switched off.

  function FrameInput(fd: nat, command: string, ps: Pairs, rest: string, env: Environment): Input {
    Input(fd, FrameText(command, ps, rest), 0, 0, 0, env)
  }

  function ConnectInput(fd: nat, env: Environment): Input {
    FrameInput(fd, "CONNECT", [], "\n", env)
  }

  function SubscribeInput(fd: nat, topic: string, id: string, env: Environment): Input {
    FrameInput(fd, "SUBSCRIBE", [(DESTINATION, topic), ("id", id)], "\n", env)
  }

  /** A SEND that breaks off in its second header line. */
  function BrokenSendInput(fd: nat, topic: string, env: Environment): Input {
    FrameInput(fd, "SEND", [(DESTINATION, topic)], "b:", env)
  }

  lemma {:induction false} ConnectIsRead(fd: nat, env: Environment)
    ensures var pm := ParseMessage(ConnectInput(fd, env).content, 0); pm.command == CONNECT
  {
    var s := FrameText("CONNECT", [], "\n" + "");
    assert s[..7] == "CONNECT" && "\n" + "" == "\n";
    FrameIsRead("CONNECT", [], "", 0);
    ParsedCommand(s, [], Some(""), 0);
  }

  lemma {:induction false} SpecialsOf(topic: string, id: string)
    ensures Latest([(DESTINATION, topic)], DESTINATION) == Some(topic)
    ensures Latest([(DESTINATION, topic), ("id", id)], DESTINATION) == Some(topic)
    ensures Latest([(DESTINATION, topic), ("id", id)], "id") == Some(id)
  {
    LatestOn([], DESTINATION, topic, DESTINATION);
    LatestOn([(DESTINATION, topic)], "id", id, DESTINATION);
    LatestOn([(DESTINATION, topic)], "id", id, "id");
    assert [] + [(DESTINATION, topic)] == [(DESTINATION, topic)];
    assert [(DESTINATION, topic)] + [("id", id)] == [(DESTINATION, topic), ("id", id)];
    assert !HasPrefix("id", DESTINATION);
  }

  lemma NamesAreClean()
    ensures CleanKey("id") && CleanKey(DESTINATION)
  {
  }

  lemma {:induction false} SubscribeIsRead(fd: nat, topic: string, id: string, env: Environment)
    requires CleanText(topic) && CleanText(id)
    ensures var pm := ParseMessage(SubscribeInput(fd, topic, id, env).content, 0);
      pm.command == SUBSCRIBE && pm.topic == Some(topic) && pm.id == Some(id)
  {
    var ps := [(DESTINATION, topic), ("id", id)];
    var s := FrameText("SUBSCRIBE", ps, "\n" + "");
    NamesAreClean();
    assert s[..9] == "SUBSCRIBE" && "\n" + "" == "\n";
    SubscribeCommand(s);
    FrameIsRead("SUBSCRIBE", ps, "", 0);
    SpecialsOf(topic, id);
  }

  lemma OtherPrefix(s: string, prefix: string, k: nat)
    requires k < |prefix| && k < |s| && s[k] != prefix[k]
    ensures !HasPrefix(s, prefix)
  {
  }

  lemma {:induction false} SubscribeCommand(s: string)
    requires HasPrefix(s, "SUBSCRIBE")
    ensures ParseCommand(s) == SUBSCRIBE
  {
    assert s[0] == s[..9][0] == 'S' && s[1] == s[..9][1] == 'U';
    OtherPrefix(s, "STOMP", 1);
    OtherPrefix(s, "CONNECT", 0);
    OtherPrefix(s, "DISCONNECT", 0);
  }

  lemma {:induction false} SendCommand(s: string)
    requires HasPrefix(s, "SEND")
    ensures ParseCommand(s) == SEND
  {
    assert s[0] == s[..4][0] == 'S' && s[1] == s[..4][1] == 'E';
    OtherPrefix(s, "STOMP", 1);
    OtherPrefix(s, "CONNECT", 0);
    OtherPrefix(s, "DISCONNECT", 0);
    OtherPrefix(s, "SUBSCRIBE", 1);
    OtherPrefix(s, "UNSUBSCRIBE", 0);
  }

  /** The broken frame is parsed without looking behind its end. */
  lemma {:induction false} BrokenSendIsRead(fd: nat, topic: string, env: Environment)
    requires CleanText(topic)
    ensures var content := BrokenSendInput(fd, topic, env).content;
      var pm := ParseMessage(content, 0);
      pm.command == SEND && pm.topic == Some(topic) && pm.body == None && pm.ts == 0 && !LeavesText(content)
  {
    var ps := [(DESTINATION, topic)];
    var s := FrameText("SEND", ps, "b:");
    NamesAreClean();
    assert s[..4] == "SEND" && "b:"[1] == ':';
    SendCommand(s);
    BrokenFrameIsRead("SEND", ps, "b:", 0);
    SpecialsOf(topic, "");
  }

  lemma RunOn(s: State, first: Input, inputs: seq<Input>)
    requires !Step(s, first).crashed
    ensures var rest := Run(Step(s, first).state, inputs);
      Run(s, [first] + inputs).state == rest.state && Run(s, [first] + inputs).crashed == rest.crashed
  {
    hide Step;
    assert ([first] + inputs)[1..] == inputs;
  }

  lemma RunNone(s: State)
    ensures Run(s, []) == Result(s, [], false)
  {
  }

  lemma {:induction false} ConnectStep(fd: nat, env: Environment)
    requires !IsPurge(fd)
    ensures var r := Step(START, ConnectInput(fd, env));
      !r.crashed && r.state == START.(connected := {WithoutFlags(fd)})
  {
    hide ParseMessage, ConnectedText;
    ConnectIsRead(fd, env);
    assert START.connected + {WithoutFlags(fd)} == {WithoutFlags(fd)};
  }

  lemma {:induction false} SubscribeStep(fd: nat, topic: string, id: string, env: Environment)
    requires !IsPurge(fd) && CleanText(topic) && CleanText(id)
    ensures var r := Step(START.(connected := {WithoutFlags(fd)}), SubscribeInput(fd, topic, id, env));
      !r.crashed && r.state == START.(connected := {WithoutFlags(fd)}, subs := [Subscription(fd, topic, id)])
  {
    hide ParseMessage, ReceiptText;
    SubscribeIsRead(fd, topic, id, env);
    assert START.subs + [Subscription(fd, topic, id)] == [Subscription(fd, topic, id)];
  }

  /** The frames of a client that enters and subscribes. */
  function Entering(fd: nat, topic: string, id: string, env: Environment): seq<Input> {
    [ConnectInput(fd, env)] + [SubscribeInput(fd, topic, id, env)]
  }

  /** From the start they leave it connected, with the one subscription. */
  lemma {:induction false} EnteringWorks(fd: nat, topic: string, id: string, env: Environment, more: seq<Input>)
    requires !IsPurge(fd) && CleanText(topic) && CleanText(id)
    ensures var s := State({WithoutFlags(fd)}, [Subscription(fd, topic, id)], [], Counters(0, 0));
      var r, rest := Run(START, Entering(fd, topic, id, env) + more), Run(s, more);
      r.crashed == rest.crashed && r.state == rest.state
  {
    hide Step, Run, ConnectInput, SubscribeInput;
    ConnectStep(fd, env);
    SubscribeStep(fd, topic, id, env);
    RunOn(START, ConnectInput(fd, env), [SubscribeInput(fd, topic, id, env)] + more);
    RunOn(START.(connected := {WithoutFlags(fd)}), SubscribeInput(fd, topic, id, env), more);
    Regroup([ConnectInput(fd, env)], [SubscribeInput(fd, topic, id, env)], more);
  }

  /** A run from the start that crashes: a client connects, subscribes, and sends a frame that breaks off. */
  lemma {:induction false} CrashIsReachable(fd: nat, topic: string, id: string, env: Environment)
    requires !IsPurge(fd) && CleanText(topic) && CleanText(id) && !HasStar(topic)
    ensures Run(START, Entering(fd, topic, id, env) + [BrokenSendInput(fd, topic, env)]).crashed
  {
    hide Run, Step, ParseMessage, BrokenSendInput, Entering;
    var last, sub := BrokenSendInput(fd, topic, env), Subscription(fd, topic, id);
    var s := State({WithoutFlags(fd)}, [sub], [], Counters(0, 0));
    EnteringWorks(fd, topic, id, env, [last]);
    BrokenSendIsRead(fd, topic, env);
    BrokenSendOf(fd, topic, env);
    assert sub in s.subs;
    CrashesIff(s, last);
    RunOne(s, last);
  }

  lemma BrokenSendOf(fd: nat, topic: string, env: Environment)
    ensures var i := BrokenSendInput(fd, topic, env); i.fd == fd && i.ts == 0
  {
  }

  lemma RunOne(s: State, i: Input)
    ensures Run(s, [i]).crashed == Step(s, i).crashed && Run(s, [i]).state == Step(s, i).state
  {
    hide Step;
    assert [i][1..] == [];
  }

  // ---------------------------------------------------------------- safety

  /** The connection behind a client's name. */
  function Base(client: int): nat {
    if client >= 0 then WithoutFlags(client) else 0
  }

  /** Every stored subscription belongs to a connected client. */
  ghost predicate Safe(s: State) {
    forall x :: x in s.subs ==> Base(x.sessionId) in s.connected
  }

  /** The name under which a connection always appears, given which connections are encoded. */
  ghost function Named(c: nat, encoded: nat -> bool): nat {
    if encoded(c) then SetEncoded(c) else c
  }

  /** All frames and purges of one connection carry the same encoded flag. */
  ghost predicate Consistent(i: Input, encoded: nat -> bool) {
    var c := WithoutFlags(i.fd);
    1 <= c < FD_SPACE && (i.fd == Named(c, encoded) || i.fd == SetCmdPurge(Named(c, encoded)))
  }

  /** Each subscription is stored under the one name of a connected client. */
  ghost predicate Owned(s: State, encoded: nat -> bool) {
    forall x :: x in s.subs ==>
      var c := Base(x.sessionId); c in s.connected && x.sessionId == Named(c, encoded)
  }

  lemma {:induction false} ConsistentNames(i: Input, encoded: nat -> bool)
    requires Consistent(i, encoded)
    ensures var c := WithoutFlags(i.fd);
      ClientOf(i.fd) == Named(c, encoded) && Base(ClientOf(i.fd)) == c && (!IsPurge(i.fd) ==> i.fd == Named(c, encoded))
  {
  }

  lemma {:induction false} KeptOnes(subs: Subscriptions, gone: Subscription -> bool)
    ensures forall x :: x in Keep(subs, gone) <==> x in subs && !gone(x)
  {
    forall x ensures x in Keep(subs, gone) <==> x in subs && !gone(x) { KeepIsFilter(subs, gone, x); }
  }

  /** What a step does to the connected clients and the subscriptions, whatever it sends. */
  datatype Change = Nothing | Enters | Leaves | Subscribes(sub: Subscription) | Unsubscribes(topic: string, id: string)

  function ChangeOf(s: State, i: Input): Change {
    var pm, here := ParseMessage(i.content, i.ts), WithoutFlags(i.fd) in s.connected;
    if IsPurge(i.fd) then Leaves
    else if pm.command == CONNECT then (if here then Nothing else Enters)
    else if !here then Nothing
    else if pm.command == DISCONNECT then Leaves
    else if pm.id.None? || pm.topic.None? then Nothing
    else if pm.command == SUBSCRIBE then Subscribes(Subscription(i.fd, pm.topic.value, pm.id.value))
    else if pm.command == UNSUBSCRIBE then Unsubscribes(pm.topic.value, pm.id.value)
    else Nothing
  }

  function Changed(s: State, fd: nat, c: Change): (set<nat>, Subscriptions) {
    match c
    case Nothing => (s.connected, s.subs)
    case Enters => (s.connected + {WithoutFlags(fd)}, s.subs)
    case Leaves => (s.connected - {WithoutFlags(fd)}, Keep(s.subs, OfClient(ClientOf(fd))))
    case Subscribes(sub) => (s.connected, s.subs + [sub])
    case Unsubscribes(topic, id) => (s.connected, Keep(s.subs, OfTopic(topic, fd, id)))
  }

  lemma {:induction false} StepChanges(s: State, i: Input)
    ensures var t := Step(s, i).state; (t.connected, t.subs) == Changed(s, i.fd, ChangeOf(s, i))
    ensures |Step(s, i).state.stale| <= |s.stale|
  {
    hide ParseMessage, Distributed, AllDelivered, ErrorText;
    var pm := ParseMessage(i.content, i.ts);
    if pm.command == SUBSCRIBE && pm.topic.Some? && pm.id.Some? {
      var a := Asker(pm.topic.value, i.fd, pm.id.value, i.now, i.ttl);
      FatesAddUp(s.stale, a);
    }
  }

  /** One step of consistent clients keeps the subscriptions owned. */
  lemma {:induction false} StepKeepsOwned(s: State, i: Input, encoded: nat -> bool)
    requires Owned(s, encoded) && Consistent(i, encoded)
    ensures Owned(Step(s, i).state, encoded)
  {
    hide Step, ParseMessage;
    StepChanges(s, i);
    ConsistentNames(i, encoded);
    KeptOnes(s.subs, OfClient(ClientOf(i.fd)));
    var c := ChangeOf(s, i);
    if c.Unsubscribes? { KeptOnes(s.subs, OfTopic(c.topic, i.fd, c.id)); }
  }

  lemma {:induction false} RunKeepsOwned(s: State, inputs: seq<Input>, encoded: nat -> bool)
    requires Owned(s, encoded) && forall k :: 0 <= k < |inputs| ==> Consistent(inputs[k], encoded)
    ensures Owned(Run(s, inputs).state, encoded)
    decreases |inputs|
  {
    hide Step, Consistent, Owned;
    if inputs != [] {
      StepKeepsOwned(s, inputs[0], encoded);
      RunKeepsOwned(Step(s, inputs[0]).state, inputs[1..], encoded);
    }
  }

  lemma {:induction false} DeliveredToMembers(t: Tree, subs: Subscriptions, topic: string, messageId: nat, body: string)
    requires HeightsExact(t)
    ensures forall m :: m in Deliveries(t, subs, topic, messageId, body) ==> exists x :: x in subs && x.sessionId == m.fd
  {
    var ds := Deliveries(t, subs, topic, messageId, body);
    forall k | 0 <= k < |ds| ensures exists x :: x in subs && x.sessionId == ds[k].fd {
      DeliveredTo(t, subs, topic, messageId, body, k);
      assert subs[k] in subs;
    }
  }

  /** A step sends only to owners of stored subscriptions, or to the connected client who subscribes. */
  lemma {:induction false} SentToOwners(s: State, fd: nat, pm: ParsedMessage, i: Input)
    requires HeightsExact(pm.headers) && EffectOf(s, fd, pm, i).Effect?
    ensures var e := EffectOf(s, fd, pm, i);
      forall m :: m in e.sent ==> (exists x :: x in s.subs && x.sessionId == m.fd) || (m.fd == fd && WithoutFlags(fd) in s.connected)
    ensures EffectOf(s, fd, pm, i).sent != [] ==> EffectOf(s, fd, pm, i).state.connected == s.connected
  {
    hide Deliveries, TableOf, Delivered, DiagnosticReply;
    if pm.command == SEND && pm.topic.Some? && pm.body.Some? {
      var topic := pm.topic.value;
      var chosen := Chosen(Matching(s.subs, topic), topic, s.counters.next);
      KeptOnes(s.subs, NotFor(topic));
      DeliveredToMembers(TableOf(pm, StatsOf(s, i.env)), chosen, topic, s.counters.messageId, pm.body.value);
    } else if pm.command == SUBSCRIBE && pm.topic.Some? && pm.id.Some? {
      var a := Asker(pm.topic.value, fd, pm.id.value, i.now, i.ttl);
      DrainGoesToAsker(Fated(s.stale, Matched, a), a, s.counters.messageId);
    }
  }

  lemma DrainGoesToAsker(ms: seq<Stored>, a: Asker, messageId: nat)
    ensures forall m :: m in AllDelivered(ms, a, messageId) ==> m.fd == a.client
  {
  }

  /**
   Broker safety over whole runs: after any frames and purges of consistently flagged connections, every
   subscription belongs to a connected client, and whatever comes next produces MESSAGEs for connected clients only.
   */
  lemma {:induction false} NoMessageToUnconnected(inputs: seq<Input>, i: Input, encoded: nat -> bool)
    requires Consistent(i, encoded) && forall k :: 0 <= k < |inputs| ==> Consistent(inputs[k], encoded)
    ensures var s := Run(START, inputs).state;
      && Safe(s)
      && forall m :: m in Step(s, i).out && IsKind(m, "MESSAGE") ==> Base(m.fd) in Step(s, i).state.connected
  {
    hide Run, ParseMessage, EffectOf, ReceiptText, Consistent, IsKind;
    var s := Run(START, inputs).state;
    RunKeepsOwned(START, inputs, encoded);
    assert Safe(s);
    if !IsPurge(i.fd) && !Step(s, i).crashed {
      var pm := ParseMessage(i.content, i.ts);
      var e := EffectOf(s, i.fd, pm, i);
      SentToOwners(s, i.fd, pm, i);
      EffectReply(s, i.fd, pm, i);
      if e.reply.None? && pm.receipt.Some? {
        ReceiptKind(pm.receipt.value);
        FirstLetter(ReceiptText(pm.receipt.value), "RECEIPT\n", 'R');
      }
      forall m | m in Step(s, i).out && IsKind(m, "MESSAGE") ensures Base(m.fd) in Step(s, i).state.connected {
        LettersApart(m);
        assert m in e.sent;
      }
    }
  }

  // ---------------------------------------------------------------- when safety is lost

  /**
   Without the assumption on the flags: a step of a safe state leaves it safe exactly if it is not the departure of
   a client of whose connection subscriptions are stored under another name.
   */
  lemma {:induction false} StepKeepsSafeIff(s: State, i: Input)
    requires Safe(s)
    ensures Safe(Step(s, i).state) <==>
      !(ChangeOf(s, i) == Leaves && exists x :: x in s.subs && Base(x.sessionId) == WithoutFlags(i.fd) && x.sessionId != ClientOf(i.fd))
  {
    hide Step, ParseMessage;
    StepChanges(s, i);
    KeptOnes(s.subs, OfClient(ClientOf(i.fd)));
    var c, t := ChangeOf(s, i), Step(s, i).state;
    if c.Unsubscribes? { KeptOnes(s.subs, OfTopic(c.topic, i.fd, c.id)); }
    if c == Leaves {
      if x :| x in s.subs && Base(x.sessionId) == WithoutFlags(i.fd) && x.sessionId != ClientOf(i.fd) {
        assert x in t.subs;
      }
    }
  }

  /** The purge of a connection, with or without its encoded flag. */
  function PurgeInput(fd: nat, env: Environment): Input {
    Input(SetCmdPurge(fd), "", 0, 0, 0, env)
  }

  /**
   A run from the start that loses safety: an encoded client connects and subscribes, and its purge has lost the encoded
   flag. Its subscription stays, and still matches.
   */
  lemma {:induction false} PurgeWithoutFlagStrands(c: nat, topic: string, id: string, env: Environment)
    requires 1 <= c < FD_SPACE && CleanText(topic) && CleanText(id) && !HasStar(topic)
    ensures var before := Run(START, Entering(SetEncoded(c), topic, id, env));
      var r := Run(START, Entering(SetEncoded(c), topic, id, env) + [PurgeInput(c, env)]);
      && !before.crashed && Safe(before.state) && !r.crashed && !Safe(r.state)
      && Matching(r.state.subs, topic) == [Subscription(SetEncoded(c), topic, id)]
  {
    hide Run, Step, ParseMessage, Entering, Matching;
    var fd, purge := SetEncoded(c), PurgeInput(c, env);
    var s := State({c}, [Subscription(fd, topic, id)], [], Counters(0, 0));
    FlagsAreIndependent(c);
    EnteringWorks(fd, topic, id, env, []);
    assert Entering(fd, topic, id, env) + [] == Entering(fd, topic, id, env);
    RunNone(s);
    EnteringWorks(fd, topic, id, env, [purge]);
    RunOne(s, purge);
    PurgeStep(c, topic, id, env);
  }

  lemma {:induction false} PurgeStep(c: nat, topic: string, id: string, env: Environment)
    requires 1 <= c < FD_SPACE && !HasStar(topic)
    ensures var sub := Subscription(SetEncoded(c), topic, id);
      var s := State({c}, [sub], [], Counters(0, 0));
      var r := Step(s, PurgeInput(c, env));
      Safe(s) && !r.crashed && !Safe(r.state) && Matching(r.state.subs, topic) == [sub]
  {
    hide ParseMessage, EffectOf;
    var sub := Subscription(SetEncoded(c), topic, id);
    FlagsAreIndependent(c);
    PurgeRoundTrip(c);
    KeepAll([sub], OfClient(c));
    LiveMatchIsPromised(topic, topic);
    KeepAll([sub], NotFor(topic));
    assert sub in [sub];
  }

  // ---------------------------------------------------------------- what else every run keeps

  function NotOf(client: int): Subscription -> bool {
    (x: Subscription) => x.sessionId != client
  }

  lemma {:induction false} KeepOther(subs: Subscriptions, gone: Subscription -> bool, client: int)
    requires forall x :: gone(x) ==> x.sessionId != client
    ensures Keep(Keep(subs, gone), NotOf(client)) == Keep(subs, NotOf(client))
  {
    if subs != [] {
      KeepOther(subs[1..], gone, client);
      KeepAppend(if gone(subs[0]) then [] else [subs[0]], Keep(subs[1..], gone), NotOf(client));
      assert Keep([subs[0]], NotOf(client)) == (if NotOf(client)(subs[0]) then [] else [subs[0]]) + Keep([], NotOf(client));
    }
  }

  /** A client's step leaves the connections and the subscriptions of all others as they are, in order. */
  lemma {:induction false} OthersUnchanged(s: State, i: Input, c: nat, client: int)
    requires c != WithoutFlags(i.fd) && client != ClientOf(i.fd)
    ensures var t := Step(s, i).state;
      (c in t.connected <==> c in s.connected) && Keep(t.subs, NotOf(client)) == Keep(s.subs, NotOf(client))
  {
    hide Step, ParseMessage;
    StepChanges(s, i);
    match ChangeOf(s, i)
    case Leaves => KeepOther(s.subs, OfClient(ClientOf(i.fd)), client);
    case Subscribes(sub) => KeepStep(s.subs, sub, NotOf(client));
    case Unsubscribes(topic, id) => KeepOther(s.subs, OfTopic(topic, i.fd, id), client);
    case _ =>
  }

  /** Nothing ever waits: from the start no step puts a message into the stale queue. */
  lemma {:induction false} NothingEverWaits(s: State, inputs: seq<Input>)
    requires s.stale == []
    ensures Run(s, inputs).state.stale == []
    decreases |inputs|
  {
    hide Step;
    if inputs != [] {
      StepChanges(s, inputs[0]);
      NothingEverWaits(Step(s, inputs[0]).state, inputs[1..]);
    }
  }
}
