/** Sending one message to its subscribers: all of them, or one in turn for a '#' topic. */
module Distribution {
  import opened Seqs
  import opened AssocTree
  import opened Ntohl
  import opened Parser
  import opened Messages
  import opened Chain
  import opened GeneralList
  import opened ThreadSafeQueue
  import opened Batch
  import opened PubSub
  import opened Delivery
  import opened Diagnostics
  import opened Stale
  import opened RoundRobin

  /** The two global counters, unsigned and of 32 bits. */
  datatype Counters = Counters(messageId: nat, next: nat)

  predicate InRange(c: Counters) {
    c.messageId < TWO_32 && c.next < TWO_32
  }

  /** What is sent and the counters after it; Crash: the length of a body that is missing is asked for. */
  datatype Outcome = Outcome(out: seq<OutMessage>, counters: Counters) | Crash

  /** '#' topics are for one subscriber at a time. */
  predicate IsShared(topic: string) {
    topic != [] && topic[0] == '#'
  }

  /** Whom a message to `topic` goes to. */
  function Chosen(matches: Subscriptions, topic: string, next: nat): (r: Subscriptions)
    ensures |r| == if matches != [] && IsShared(topic) then 1 else |matches|
  {
    if matches != [] && IsShared(topic) then [matches[next % |matches|]] else matches
  }

  /** The table of a message before it is addressed. */
  function TableOf(pm: ParsedMessage, st: Stats): (t: Tree)
    requires pm.topic.Some? && pm.body.Some?
    ensures HeightsExact(t)
  {
    OutTable(pm.headers, pm.body.value, AnswerIn(pm.topic.value, pm.body.value, st))
  }

  /** The headers that all receivers of a message get, apart from their addresses. */
  function BaseOf(pm: ParsedMessage, st: Stats): map<string, string>
    requires pm.topic.Some? && pm.body.Some?
  {
    Unaddressed(ToMap(pm.headers), pm.body.value, AnswerIn(pm.topic.value, pm.body.value, st))
  }

  /** distribute_messages as a function. */
  function Distributed(pm: ParsedMessage, subs: Subscriptions, now: int, ttl: nat, c: Counters, st: Stats): (r: Outcome)
    requires pm.topic.Some? && HeightsExact(pm.headers)
    ensures r.Outcome? && InRange(c) ==> InRange(r.counters)
  {
    var topic := pm.topic.value;
    var matches := Matching(subs, topic);
    if TooOld(pm.ts, now, ttl) || matches == [] then Outcome([], c)
    else if pm.body.None? then Crash
    else
      var chosen := Chosen(matches, topic, c.next);
      Outcome(Deliveries(TableOf(pm, st), chosen, topic, c.messageId, pm.body.value),
              Counters(IdAt(c.messageId, |chosen|), if IsShared(topic) then NextUnsigned(c.next) else c.next))
  }

  // ---------------------------------------------------------------- on the lists

  /** pick_next: the list of the one subscription whose turn it is. */
  method PickNext(subscriptions: List<Subscription>, next: nat) returns (messagesOut: List<Subscription>)
    requires subscriptions.Valid() && subscriptions.contents != []
    modifies subscriptions, subscriptions.Repr`next
    ensures messagesOut.Valid() && fresh(messagesOut) && fresh(messagesOut.Repr)
    ensures var all := old(subscriptions.contents); messagesOut.contents == [all[next % |all|]]
  {
    messagesOut := new List<Subscription>();
    var nextIndex := next % subscriptions.size;
    var data := subscriptions.UnchainAt(nextIndex);
    messagesOut.Add(data.value);
  }

  /** What is addressed so far and what is still to be addressed make up the whole. */
  ghost predicate Addressing(goal: seq<OutMessage>, out: seq<OutMessage>, t: Tree, ahead: Subscriptions, topic: string,
                             messageId: nat, body: string)
  {
    HeightsExact(t) && goal == out + Deliveries(t, ahead, topic, messageId, body)
  }

  lemma AddressingOn(goal: seq<OutMessage>, out: seq<OutMessage>, t: Tree, ahead: Subscriptions,
                                        topic: string, messageId: nat, body: string)
    requires Addressing(goal, out, t, ahead, topic, messageId, body) && ahead != []
    ensures var t1 := Addressed(t, messageId, topic, ahead[0].id);
      var m := Message(ahead[0].sessionId, MessageText(t1, body));
      Addressing(goal, out + [m], t1, ahead[1..], topic, NextUnsigned(messageId), body)
  {
  }

  /** One turn: the table is addressed to the subscription at hand and printed. */
  method AddressOne(messagesOut: List<OutMessage>, t: Tree, sub: Subscription, topic: string, messageId: nat, body: string,
                    ghost goal: seq<OutMessage>, ghost ahead: Subscriptions) returns (headers: Tree)
    requires messagesOut.Valid() && ahead != [] && sub == ahead[0]
    requires Addressing(goal, messagesOut.contents, t, ahead, topic, messageId, body)
    modifies messagesOut, messagesOut.Repr`next
    ensures messagesOut.Valid() && fresh(messagesOut.Repr - old(messagesOut.Repr))
    ensures Addressing(goal, messagesOut.contents, headers, ahead[1..], topic, NextUnsigned(messageId), body)
  {
    AddressingOn(goal, messagesOut.contents, t, ahead, topic, messageId, body);
    headers := Addressed(t, messageId, topic, sub.id);
    messagesOut.Add(Message(sub.sessionId, MessageText(headers, body)));
  }

  /** The loop over the chosen subscriptions; one table is addressed to each of them in turn. */
  method AddressAll(matching: List<Subscription>, messagesOut: List<OutMessage>, table: Tree, topic: string,
                    messageId: nat, body: string, ghost goal: seq<OutMessage>) returns (nextId: nat)
    requires matching.Valid() && messagesOut.Valid() && messageId < TWO_32
    requires Addressing(goal, messagesOut.contents, table, matching.contents, topic, messageId, body)
    modifies messagesOut, messagesOut.Repr`next
    ensures messagesOut.Valid() && fresh(messagesOut.Repr - old(messagesOut.Repr))
    ensures messagesOut.contents == goal && nextId == IdAt(messageId, |matching.contents|)
  {
    nextId := messageId;
    var headers, first := table, matching.first;
    ghost var i, ahead := 0, matching.contents;
    ItemsApart(matching.Repr, messagesOut.Repr);
    assert Ahead(matching, first, i, ahead);
    hide Deliveries, Ahead;
    while first != null
      invariant Ahead(matching, first, i, ahead)
      invariant messagesOut.Valid() && fresh(messagesOut.Repr - old(messagesOut.Repr))
      invariant Addressing(goal, messagesOut.contents, headers, ahead, topic, nextId, body)
      invariant nextId == IdAt(messageId, i)
      decreases |ahead|
    {
      NextIdAt(messageId, i);
      AheadOn(matching, first, i, ahead);
      headers := AddressOne(messagesOut, headers, first.data, topic, nextId, body, goal, ahead);
      nextId := NextUnsigned(nextId);
      first := first.next;
      i, ahead := i + 1, ahead[1..];
    }
    AheadAtEnd(matching, i, ahead);
  }

  /** Items of the two lists are of different types, hence different. */
  lemma ItemsApart(s: set<Item<Subscription>>, t: set<Item<OutMessage>>)
    ensures forall o: object :: !(o in s && o in t)
  {
  }

  /** Sends one message to the chosen subscriptions. */
  method Send(matching: List<Subscription>, output: TsQueue<OutMessage>, pm: ParsedMessage, topic: string, ttl: nat,
              messageId: nat, st: Stats) returns (nextId: nat, crashed: bool)
    requires matching.Valid() && matching.contents != [] && output.Valid() && messageId < TWO_32 && HeightsExact(pm.headers)
    requires pm.topic == Some(topic)
    modifies output, output.q, output.q.Repr`next
    ensures output.Valid() && fresh(output.q.Repr - old(output.q.Repr))
    ensures crashed <==> pm.body.None?
    ensures !crashed ==>
      output.q.contents == old(output.q.contents) + Deliveries(TableOf(pm, st), matching.contents, topic, messageId, pm.body.value)
    ensures !crashed ==> nextId == IdAt(messageId, |matching.contents|)
  {
    hide Deliveries, OutTable, AnswerIn;
    if pm.body.None? { return messageId, true; }
    var messagesOut := new List<OutMessage>();
    var body := pm.body.value;
    var table := OutTable(pm.headers, body, AnswerIn(topic, body, st));
    ghost var goal := Deliveries(table, matching.contents, topic, messageId, body);
    assert [] + goal == goal;
    nextId := AddressAll(matching, messagesOut, table, topic, messageId, body, goal);
    crashed := false;
    if messagesOut.size > 0 {
      output.EnqueueMultiple(messagesOut);
    } else if ttl > 0 {
      assert false;
    }
  }

  /**
   distribute_messages. The stale queue would be filled where something matches and yet nothing is to be sent,
   which cannot happen, so it is not among what is modified. After a crash nothing is promised.
   */
  method DistributeMessages(topics: List<Subscription>, output: TsQueue<OutMessage>, pm: ParsedMessage,
                            now: int, ttl: nat, c: Counters, st: Stats) returns (counters: Counters, crashed: bool)
    requires topics.Valid() && output.Valid() && InRange(c)
    requires pm.topic.Some? && HeightsExact(pm.headers)
    modifies output, output.q, output.q.Repr`next
    ensures output.Valid() && fresh(output.q.Repr - old(output.q.Repr)) && InRange(counters)
    ensures var r := Distributed(pm, topics.contents, now, ttl, c, st);
      && crashed == r.Crash?
      && (!crashed ==> output.q.contents == old(output.q.contents) + r.out && counters == r.counters)
  {
    hide Deliveries, TableOf, Matching;
    counters, crashed := c, false;
    var topic := pm.topic.value;
    assert output.q.contents + [] == output.q.contents;
    if TooOld(pm.ts, now, ttl) { return; }
    var matching := new List<Subscription>();
    var n := FindMatching(topics, topic, matching);
    assert matching.contents == Matching(topics.contents, topic);
    if n > 0 {
      if IsShared(topic) && matching.size > 0 {
        matching := PickNext(matching, c.next);
        counters := counters.(next := NextUnsigned(c.next));
      }
      var nextId;
      nextId, crashed := Send(matching, output, pm, topic, ttl, c.messageId, st);
      if !crashed { counters := counters.(messageId := nextId); }
    }
  }

  // ---------------------------------------------------------------- what a distribution does

  /** Asking for a missing body is reached exactly if the message is not too old and somebody has subscribed to its topic. */
  lemma {:induction false} CrashIff(pm: ParsedMessage, subs: Subscriptions, now: int, ttl: nat, c: Counters, st: Stats)
    requires pm.topic.Some? && HeightsExact(pm.headers) && !HasStar(pm.topic.value)
    ensures Distributed(pm, subs, now, ttl, c, st).Crash? <==>
      pm.body.None? && !TooOld(pm.ts, now, ttl) && exists x :: x in subs && Promised(pm.topic.value, x.pattern)
  {
    hide TableOf, Deliveries;
    var topic := pm.topic.value;
    var matches := Matching(subs, topic);
    forall x ensures x in matches <==> x in subs && Promised(topic, x.pattern) {
      KeepIsFilter(subs, NotFor(topic), x);
      LiveMatchIsPromised(topic, x.pattern);
    }
    if matches != [] { assert matches[0] in matches; }
  }

  /** The subscriptions that get a message, by their positions: all that cover the topic, or one of them for a '#' topic. */
  ghost predicate AreReceivers(out: seq<OutMessage>, subs: Subscriptions, topic: string, next: nat) {
    exists idx: seq<nat>, all: Subscriptions ::
      && Selects(idx, subs, all) && (forall j :: 0 <= j < |subs| ==> (j in idx <==> Covers(subs[j].pattern, topic)))
      && if topic != [] && topic[0] == '#' && all != []
         then |out| == 1 && out[0].fd == all[next % |all|].sessionId
         else |out| == |all| && forall k :: 0 <= k < |out| ==> out[k].fd == all[k].sessionId
  }

  /**
   Who gets a message. One that has no time stamp, or is no older than the time to live, goes to every subscription that
   covers its topic, in order, or to one in turn for a '#' topic; any other goes to nobody. The ids go on by one
   per message sent, the turn by one if there was one.
   */
  lemma {:induction false} SentExactlyTo(pm: ParsedMessage, subs: Subscriptions, now: int, ttl: nat, c: Counters, st: Stats)
    requires pm.topic.Some? && HeightsExact(pm.headers) && !HasStar(pm.topic.value) && InRange(c)
    ensures var r, topic := Distributed(pm, subs, now, ttl, c, st), pm.topic.value;
      if pm.ts != 0 && ttl != 0 && now - pm.ts > ttl then r == Outcome([], c)
      else pm.body.Some? ==>
        && r.Outcome? && AreReceivers(r.out, subs, topic, c.next)
        && r.counters.messageId == (c.messageId + |r.out|) % 0x1_0000_0000
        && r.counters.next
           == if topic != [] && topic[0] == '#' && r.out != [] then (c.next + 1) % 0x1_0000_0000 else c.next
  {
    hide Distributed, Deliveries, TableOf, Matching, AreReceivers, HasStar, Chosen;
    var topic, matches := pm.topic.value, Matching(subs, pm.topic.value);
    DistributedOf(pm, subs, now, ttl, c, st);
    MatchingIsPromised(subs, topic);
    if pm.body.Some? {
      ChosenAreReceivers(TableOf(pm, st), matches, subs, topic, c, pm.body.value);
      CountersGoOn(c, matches, topic);
    }
  }

  lemma {:induction false} DistributedOf(pm: ParsedMessage, subs: Subscriptions, now: int, ttl: nat, c: Counters, st: Stats)
    requires pm.topic.Some? && HeightsExact(pm.headers)
    ensures var r, topic := Distributed(pm, subs, now, ttl, c, st), pm.topic.value;
      var matches := Matching(subs, topic);
      var chosen := Chosen(matches, topic, c.next);
      if TooOld(pm.ts, now, ttl) then r == Outcome([], c)
      else pm.body.Some? ==>
        && r.Outcome? && r.out == Deliveries(TableOf(pm, st), chosen, topic, c.messageId, pm.body.value)
        && r.counters == CountersAfter(c, matches, topic)
  {
    hide TableOf, Matching;
  }

  function CountersAfter(c: Counters, matches: Subscriptions, topic: string): Counters {
    if matches == [] then c
    else Counters(IdAt(c.messageId, |Chosen(matches, topic, c.next)|), if IsShared(topic) then NextUnsigned(c.next) else c.next)
  }

  lemma CountersGoOn(c: Counters, matches: Subscriptions, topic: string)
    requires InRange(c)
    ensures var r, n := CountersAfter(c, matches, topic), |Chosen(matches, topic, c.next)|;
      && r.messageId == (c.messageId + n) % 0x1_0000_0000
      && r.next == if topic != [] && topic[0] == '#' && n > 0 then (c.next + 1) % 0x1_0000_0000 else c.next
  {
  }

  lemma {:induction false} ChosenAreReceivers(t: Tree, matches: Subscriptions, subs: Subscriptions, topic: string,
                                              c: Counters, body: string)
    requires HeightsExact(t) && AreThose(matches, subs, (x: Subscription) => Covers(x.pattern, topic))
    ensures AreReceivers(Deliveries(t, Chosen(matches, topic, c.next), topic, c.messageId, body), subs, topic, c.next)
  {
    hide Covers, Deliveries;
    var chosen := Chosen(matches, topic, c.next);
    var out := Deliveries(t, chosen, topic, c.messageId, body);
    forall k | 0 <= k < |out| ensures out[k].fd == chosen[k].sessionId {
      DeliveredTo(t, chosen, topic, c.messageId, body, k);
    }
  }

  /** Everything sent goes to a matching subscription; without '#', one message to each of them, in order. */
  lemma {:induction false} SentToMatching(pm: ParsedMessage, subs: Subscriptions, now: int, ttl: nat, c: Counters, st: Stats,
                                          i: nat)
    requires pm.topic.Some? && HeightsExact(pm.headers) && !HasStar(pm.topic.value)
    requires Distributed(pm, subs, now, ttl, c, st).Outcome? && i < |Distributed(pm, subs, now, ttl, c, st).out|
    ensures var out, topic, matches := Distributed(pm, subs, now, ttl, c, st).out, pm.topic.value, Matching(subs, pm.topic.value);
      && 0 < |matches| && |out| == (if IsShared(topic) then 1 else |matches|)
      && var s := matches[if IsShared(topic) then c.next % |matches| else i];
        s in subs && Promised(topic, s.pattern) && out[i].fd == s.sessionId
  {
    hide TableOf;
    var topic, matches := pm.topic.value, Matching(subs, pm.topic.value);
    var s := matches[if IsShared(topic) then c.next % |matches| else i];
    KeepIsFilter(subs, NotFor(topic), s);
    LiveMatchIsPromised(topic, s.pattern);
    DeliveredTo(TableOf(pm, st), Chosen(matches, topic, c.next), topic, c.messageId, pm.body.value, i);
  }

  /**
   End to end: each receiver reads the sender's headers, the answer if the topic is a DIAG topic, its own address, and
   exactly the sender's body.
   */
  lemma {:induction false} SentIsRead(content: string, ts: int, subs: Subscriptions, now: int, ttl: nat, c: Counters,
                                      st: Stats)
    requires NulFree(content) && CleanIds(subs) && InRange(c) && ParseMessage(content, ts).topic.Some?
    requires Distributed(ParseMessage(content, ts), subs, now, ttl, c, st).Outcome?
    ensures var pm := ParseMessage(content, ts);
      var topic, out := pm.topic.value, Distributed(pm, subs, now, ttl, c, st).out;
      out == [] || (pm.body.Some?
        && AllRead(out, BaseOf(pm, st), Chosen(Matching(subs, topic), topic, c.next), topic, c.messageId, pm.body.value))
  {
    hide ParseMessage, Deliveries, OutTable, AllRead, AnswerIn, Unaddressed;
    var pm := ParseMessage(content, ts);
    var topic := pm.topic.value;
    if pm.body.Some? {
      var body, answer := pm.body.value, AnswerIn(topic, pm.body.value, st);
      ParsedIsClean(content, ts);
      OutTableIsPrepared(pm.headers, body, answer);
      AnswerIsClean(topic, body, st);
      UnaddressedIsClean(ToMap(pm.headers), body, answer);
      var matches := Matching(subs, topic);
      MatchesAreClean(subs, topic);
      DeliveriesAreRead(TableOf(pm, st), BaseOf(pm, st), Chosen(matches, topic, c.next), topic, c.messageId, body);
    }
  }

  lemma {:induction false} MatchesAreClean(subs: Subscriptions, topic: string)
    requires CleanIds(subs)
    ensures CleanIds(Matching(subs, topic))
  {
    var matches := Matching(subs, topic);
    forall i | 0 <= i < |matches| ensures CleanText(matches[i].id) {
      KeepIsFilter(subs, NotFor(topic), matches[i]);
      var k :| 0 <= k < |subs| && subs[k] == matches[i];
    }
  }

  // ---------------------------------------------------------------- one in turn

  /** A message with the time and the sizes that its distribution meets. */
  datatype Arrival = Arrival(pm: ParsedMessage, now: int, st: Stats)

  /** Messages with a body to one topic, none of them too old. */
  predicate InTime(ms: seq<Arrival>, topic: string, ttl: nat) {
    forall i :: 0 <= i < |ms| ==>
      var pm := ms[i].pm; pm.topic == Some(topic) && pm.body.Some? && HeightsExact(pm.headers) && !TooOld(pm.ts, ms[i].now, ttl)
  }

  /** The receivers of consecutive messages to one topic. */
  function Receivers(ms: seq<Arrival>, subs: Subscriptions, topic: string, ttl: nat, c: Counters): seq<int>
    requires InTime(ms, topic, ttl)
    decreases |ms|
  {
    if ms == [] then []
    else
      var r := Distributed(ms[0].pm, subs, ms[0].now, ttl, c, ms[0].st);
      Fds(r.out) + Receivers(ms[1..], subs, topic, ttl, r.counters)
  }

  function Fds(ms: seq<OutMessage>): (r: seq<int>)
    ensures |r| == |ms|
  {
    seq(|ms|, i requires 0 <= i < |ms| => ms[i].fd)
  }

  lemma {:induction false} OneGoesOut(ms: seq<Arrival>, topic: string, subs: Subscriptions, ttl: nat, c: Counters)
    requires InTime(ms, topic, ttl) && ms != [] && IsShared(topic) && Matching(subs, topic) != []
    ensures var matches, r := Matching(subs, topic), Distributed(ms[0].pm, subs, ms[0].now, ttl, c, ms[0].st);
      r.Outcome? && r.counters.next == NextUnsigned(c.next) && Fds(r.out) == [matches[c.next % |matches|].sessionId]
  {
    hide Matching, TableOf;
  }

  /**
   Consecutive messages to a '#' topic: each goes to exactly one subscriber, and the i-th to the one that the counter
   points to.
   */
  lemma {:induction false} OneInTurn(ms: seq<Arrival>, topic: string, subs: Subscriptions, ttl: nat, c: Counters)
    requires InTime(ms, topic, ttl) && IsShared(topic) && Matching(subs, topic) != [] && InRange(c)
    ensures var matches, to := Matching(subs, topic), Receivers(ms, subs, topic, ttl, c);
      && |to| == |ms|
      && forall i :: 0 <= i < |to| ==> to[i] == matches[IdAt(c.next, i) % |matches|].sessionId
    decreases |ms|
  {
    hide Matching, Distributed, Fds;
    if ms != [] {
      var matches, r := Matching(subs, topic), Distributed(ms[0].pm, subs, ms[0].now, ttl, c, ms[0].st);
      OneGoesOut(ms, topic, subs, ttl, c);
      var rest, to := Receivers(ms[1..], subs, topic, ttl, r.counters), Receivers(ms, subs, topic, ttl, c);
      OneInTurn(ms[1..], topic, subs, ttl, r.counters);
      forall i | 0 <= i < |to| ensures to[i] == matches[IdAt(c.next, i) % |matches|].sessionId {
        IdAfterNext(c.next, if i > 0 then i - 1 else 0);
        if i > 0 { assert to[i] == rest[i - 1]; }
      }
    }
  }

  /** How often the counters c, c + 1, ... point to subscriber j is how often what they point to occurs. */
  lemma {:induction false} ShareOfReceivers(to: seq<int>, matches: Subscriptions, c: nat, j: nat)
    requires matches != [] && j < |matches|
    requires forall i :: 0 <= i < |to| ==> to[i] == matches[IdAt(c, i) % |matches|].sessionId
    requires forall i :: 0 <= i < |matches| && i != j ==> matches[i].sessionId != matches[j].sessionId
    ensures multiset(to)[matches[j].sessionId] == Share(c, |to|, |matches|, j)
    decreases |to|
  {
    if to != [] {
      var last := |to| - 1;
      ShareOfReceivers(to[..last], matches, c, j);
      assert to == to[..last] + [to[last]];
    }
  }

  /**
   Worker queues are fair: of any k consecutive messages to a '#' topic a client with one matching subscription gets k/n
   rounded down or up, unless the counter wraps and n does not divide 2 to the 32nd.
   */
  lemma {:induction false} DeliveredFairly(ms: seq<Arrival>, topic: string, subs: Subscriptions, ttl: nat, c: Counters,
                                           j: nat)
    requires InTime(ms, topic, ttl) && IsShared(topic) && InRange(c) && j < |Matching(subs, topic)|
    requires c.next + |ms| <= TWO_32 || TWO_32 % |Matching(subs, topic)| == 0
    requires var matches := Matching(subs, topic);
      forall i :: 0 <= i < |matches| && i != j ==> matches[i].sessionId != matches[j].sessionId
    ensures var matches, to := Matching(subs, topic), Receivers(ms, subs, topic, ttl, c);
      Fair(multiset(to)[matches[j].sessionId], |ms|, |matches|)
  {
    hide Matching, Receivers, Fair;
    var matches, to := Matching(subs, topic), Receivers(ms, subs, topic, ttl, c);
    OneInTurn(ms, topic, subs, ttl, c);
    ShareOfReceivers(to, matches, c.next, j);
    FairUnlessCut(c.next, |ms|, |matches|, j);
  }
}
