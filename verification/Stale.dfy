/** Waiting messages, delivered when somebody subscribes to their topic. */
module Stale {
  import opened Seqs
  import opened AssocTree
  import opened Ntohl
  import opened Parser
  import opened Messages
  import opened Chain
  import opened Queue
  import opened GeneralList
  import opened ThreadSafeQueue
  import opened Batch
  import opened PubSub
  import opened Delivery

  /** A message that waits has a topic and a body. */
  type Stored = pm: ParsedMessage | pm.topic.Some? && pm.body.Some? && HeightsExact(pm.headers)
    witness ParsedMessage(SEND, Leaf, None, Some(""), None, Some(""), 0)

  datatype Fate = Expired | Matched | Waiting

  predicate TooOld(ts: int, now: int, ttl: nat) {
    ts != 0 && ttl != 0 && now - ts > ttl
  }

  /** A new subscriber's view of the waiting messages. */
  datatype Asker = Asker(pattern: string, client: int, id: string, now: int, ttl: nat)

  function FateOf(pm: Stored, a: Asker): Fate {
    if TooOld(pm.ts, a.now, a.ttl) then Expired
    else if StaleMatch(pm.topic.value, a.pattern) then Matched
    else Waiting
  }

  lemma FateIs(pm: Stored, a: Asker)
    ensures FateOf(pm, a) == if TooOld(pm.ts, a.now, a.ttl) then Expired
                             else if StaleMatch(pm.topic.value, a.pattern) then Matched else Waiting
  {
  }

  /**
   In plain terms: with both a time stamp and a time to live, a message expires when it is older than that; of the others
   those match that the pattern covers, with something to spare behind a '*'.
   */
  lemma {:induction false} FatePlainly(pm: Stored, a: Asker)
    ensures var expired := pm.ts != 0 && a.ttl != 0 && a.now - pm.ts > a.ttl;
      && (FateOf(pm, a) == Expired <==> expired)
      && (FateOf(pm, a) == Matched <==> !expired && CoversBeyond(a.pattern, pm.topic.value))
      && (FateOf(pm, a) == Waiting <==> !expired && !CoversBeyond(a.pattern, pm.topic.value))
  {
    RulesPlainly(pm.topic.value, a.pattern);
  }

  function NotFated(fate: Fate, a: Asker): Stored -> bool {
    (pm: Stored) => FateOf(pm, a) != fate
  }

  /** The waiting messages of one fate, in order. */
  function Fated(q: seq<Stored>, fate: Fate, a: Asker): seq<Stored> {
    Keep(q, NotFated(fate, a))
  }

  /** The message for the new subscriber: addressed with the pattern that was subscribed to. */
  function Delivered(pm: Stored, a: Asker, messageId: nat): OutMessage {
    var t := Addressed(OutTable(pm.headers, pm.body.value, []), messageId, a.pattern, a.id);
    Message(a.client, MessageText(t, pm.body.value))
  }

  function AllDelivered(ms: seq<Stored>, a: Asker, messageId: nat): (r: seq<OutMessage>)
    ensures |r| == |ms| && forall i :: 0 <= i < |r| ==> r[i] == Delivered(ms[i], a, IdAt(messageId, i))
  {
    seq(|ms|, i requires 0 <= i < |ms| => Delivered(ms[i], a, IdAt(messageId, i)))
  }

  // ---------------------------------------------------------------- the walk

  lemma {:induction false} FatedStep(done: seq<Stored>, pm: Stored, fate: Fate, a: Asker)
    ensures Fated(done + [pm], fate, a) == Fated(done, fate, a) + (if FateOf(pm, a) == fate then [pm] else [])
  {
    KeepStep(done, pm, NotFated(fate, a));
  }

  lemma DeliveredStep(ms: seq<Stored>, pm: Stored, a: Asker, messageId: nat)
    ensures AllDelivered(ms + [pm], a, messageId) == AllDelivered(ms, a, messageId) + [Delivered(pm, a, IdAt(messageId, |ms|))]
  {
  }

  lemma NextIdAt(messageId: nat, i: nat)
    ensures NextUnsigned(IdAt(messageId, i)) == IdAt(messageId, i + 1)
  {
  }

  /** The messages taken so far, as the walk has left them. */
  ghost predicate SoFar(done: seq<Stored>, kept: seq<Stored>, out: seq<OutMessage>, nextId: nat, a: Asker, messageId: nat) {
    && kept == Fated(done, Waiting, a)
    && out == AllDelivered(Fated(done, Matched, a), a, messageId)
    && nextId == IdAt(messageId, |out|)
  }

  lemma SoFarStart(a: Asker, messageId: nat)
    requires messageId < TWO_32
    ensures SoFar([], [], [], messageId, a, messageId)
  {
  }

  lemma SoFarEnd(done: seq<Stored>, kept: seq<Stored>, out: seq<OutMessage>, nextId: nat, a: Asker, messageId: nat)
    requires SoFar(done, kept, out, nextId, a, messageId)
    ensures kept == Fated(done, Waiting, a) && out == AllDelivered(Fated(done, Matched, a), a, messageId)
    ensures nextId == IdAt(messageId, |out|)
  {
  }

  lemma {:induction false} SoFarStep(done: seq<Stored>, pm: Stored, kept: seq<Stored>, out: seq<OutMessage>, nextId: nat,
                                     a: Asker, messageId: nat)
    requires SoFar(done, kept, out, nextId, a, messageId)
    ensures match FateOf(pm, a)
      case Expired => SoFar(done + [pm], kept, out, nextId, a, messageId)
      case Matched => SoFar(done + [pm], kept, out + [Delivered(pm, a, nextId)], NextUnsigned(nextId), a, messageId)
      case Waiting => SoFar(done + [pm], kept + [pm], out, nextId, a, messageId)
  {
    FatedStep(done, pm, Waiting, a);
    FatedStep(done, pm, Matched, a);
    DeliveredStep(Fated(done, Matched, a), pm, a, messageId);
    NextIdAt(messageId, |out|);
    assert kept + [] == kept && Fated(done, Matched, a) + [] == Fated(done, Matched, a);
  }

  /** What the walk over the waiting messages has at each turn. */
  ghost predicate Walk(stale: Queue<Stored>, parent: Item?<Stored>, item: Item?<Stored>, done: seq<Stored>,
                       ahead: seq<Stored>, out: seq<OutMessage>, nextId: nat, a: Asker, messageId: nat)
    reads stale, stale.items
  {
    exists kept :: Scanning(stale, parent, item, kept, ahead) && SoFar(done, kept, out, nextId, a, messageId)
  }

  /** Items of the two queues are of different types, hence different. */
  lemma ItemsApart(s: set<Item<Stored>>, t: set<Item<OutMessage>>)
    ensures forall o: object :: !(o in s && o in t)
  {
  }

  /** One turn: the message at hand is dropped, taken out for delivery, or passed over. */
  method WalkTurn(stale: Queue<Stored>, messagesOut: List<OutMessage>, parent: Item?<Stored>, item: Item<Stored>,
                  a: Asker, nextId: nat, ghost done: seq<Stored>, ghost ahead: seq<Stored>, ghost messageId: nat)
    returns (newParent: Item?<Stored>, next: Item?<Stored>, newId: nat)
    requires Walk(stale, parent, item, done, ahead, messagesOut.contents, nextId, a, messageId) && messagesOut.Valid()
    modifies stale, stale.Repr`next, messagesOut, messagesOut.Repr`next
    ensures ahead != [] && stale.Repr == old(stale.Repr)
    ensures Walk(stale, newParent, next, done + [ahead[0]], ahead[1..], messagesOut.contents, newId, a, messageId)
    ensures messagesOut.Valid() && fresh(messagesOut.Repr - old(messagesOut.Repr))
  {
    hide Fated, AllDelivered, SoFar, Delivered, FateOf;
    ghost var out := messagesOut.contents;
    ghost var kept :| Scanning(stale, parent, item, kept, ahead) && SoFar(done, kept, out, nextId, a, messageId);
    ItemsApart(stale.Repr, messagesOut.Repr);
    SkipOne(stale, parent, item, kept, ahead);
    SoFarStep(done, ahead[0], kept, out, nextId, a, messageId);
    FateIs(ahead[0], a);
    var pm := item.data;
    newParent, newId := parent, nextId;
    if TooOld(pm.ts, a.now, a.ttl) {
      next := TakeOut(stale, parent, item, kept, ahead);
    } else if StaleMatch(pm.topic.value, a.pattern) {
      next := TakeOut(stale, parent, item, kept, ahead);
      messagesOut.Add(Delivered(pm, a, nextId));
      newId := NextUnsigned(nextId);
    } else {
      newParent, next := item, item.next;
      assert Scanning(stale, newParent, next, kept + [ahead[0]], ahead[1..]);
    }
  }

  /**
   The walk of distribute_messages_from_stale_q: it drops what has expired, takes out what matches, and leaves
   the rest linked in order.
   */
  method CollectStale(stale: Queue<Stored>, a: Asker, messageId: nat)
    returns (messagesOut: List<OutMessage>, nextId: nat)
    requires stale.Valid() && messageId < TWO_32
    modifies stale, stale.Repr`next
    ensures stale.Valid() && stale.Repr == old(stale.Repr)
    ensures messagesOut.Valid() && fresh(messagesOut) && fresh(messagesOut.Repr)
    ensures stale.contents == Fated(old(stale.contents), Waiting, a)
    ensures messagesOut.contents == AllDelivered(Fated(old(stale.contents), Matched, a), a, messageId)
    ensures nextId == IdAt(messageId, |messagesOut.contents|)
  {
    hide AllDelivered, Fated, SoFar;
    messagesOut := new List<OutMessage>();
    var parent: Item?<Stored>, item := null, stale.first;
    nextId := messageId;
    ghost var done: seq<Stored>, ahead, all := [], stale.contents, stale.contents;
    SoFarStart(a, messageId);
    assert Scanning(stale, parent, item, [], ahead);
    while item != null
      invariant Walk(stale, parent, item, done, ahead, messagesOut.contents, nextId, a, messageId)
      invariant stale.Repr == old(stale.Repr) && all == done + ahead
      invariant messagesOut.Valid() && fresh(messagesOut) && fresh(messagesOut.Repr)
      decreases |ahead|
    {
      MoveOne(done, ahead);
      parent, item, nextId := WalkTurn(stale, messagesOut, parent, item, a, nextId, done, ahead, messageId);
      done, ahead := done + [ahead[0]], ahead[1..];
    }
    ghost var kept :| Scanning(stale, parent, item, kept, ahead)
      && SoFar(done, kept, messagesOut.contents, nextId, a, messageId);
    assert done + ahead == done && kept + ahead == kept;
    SoFarEnd(done, kept, messagesOut.contents, nextId, a, messageId);
  }

  /** distribute_messages_from_stale_q. */
  method DrainStale(stale: Queue<Stored>, output: TsQueue<OutMessage>, a: Asker, messageId: nat) returns (nextId: nat)
    requires stale.Valid() && output.Valid() && messageId < TWO_32
    modifies stale, stale.Repr`next, output, output.q, output.q.Repr`next
    ensures stale.Valid() && output.Valid() && stale.Repr == old(stale.Repr)
    ensures stale.contents == Fated(old(stale.contents), Waiting, a)
    ensures var out := AllDelivered(Fated(old(stale.contents), Matched, a), a, messageId);
      output.q.contents == old(output.q.contents) + out && nextId == IdAt(messageId, |out|)
    ensures AreThose(stale.contents, old(stale.contents), Stays(a))
    ensures AreThose(Fated(old(stale.contents), Matched, a), old(stale.contents), Goes(a))
    ensures fresh(output.q.Repr - old(output.q.Repr))
  {
    DrainedAreThose(stale.contents, a);
    ItemsApart(stale.Repr, output.q.Repr);
    var messagesOut;
    messagesOut, nextId := CollectStale(stale, a, messageId);
    if messagesOut.size > 0 {
      output.EnqueueMultiple(messagesOut);
      ItemsApart(stale.Repr, output.q.Repr);
    } else {
      assert output.q.contents + [] == output.q.contents;
    }
  }

  // ---------------------------------------------------------------- what a drain does

  /** What stays waiting. */
  ghost function Stays(a: Asker): Stored -> bool {
    (pm: Stored) => (pm.ts == 0 || a.ttl == 0 || a.now - pm.ts <= a.ttl) && !CoversBeyond(a.pattern, pm.topic.value)
  }

  /** What goes to the asker. */
  ghost function Goes(a: Asker): Stored -> bool {
    (pm: Stored) => (pm.ts == 0 || a.ttl == 0 || a.now - pm.ts <= a.ttl) && CoversBeyond(a.pattern, pm.topic.value)
  }

  /** What a drain keeps and what it delivers are just those, each at its place in the order. */
  lemma {:induction false} DrainedAreThose(q: seq<Stored>, a: Asker)
    ensures AreThose(Fated(q, Waiting, a), q, Stays(a)) && AreThose(Fated(q, Matched, a), q, Goes(a))
  {
    hide FateOf;
    forall j | 0 <= j < |q|
      ensures Stays(a)(q[j]) == !NotFated(Waiting, a)(q[j]) && Goes(a)(q[j]) == !NotFated(Matched, a)(q[j])
    {
      FatePlainly(q[j], a);
    }
    KeepIsThose(q, NotFated(Waiting, a), Stays(a));
    KeepIsThose(q, NotFated(Matched, a), Goes(a));
  }

  /** Each waiting message has exactly one fate, so the three counts add up to the old size. */
  lemma {:induction false} FatesAddUp(q: seq<Stored>, a: Asker)
    ensures |Fated(q, Expired, a)| + |Fated(q, Matched, a)| + |Fated(q, Waiting, a)| == |q|
  {
    if q != [] { FatesAddUp(q[1..], a); }
  }

  lemma {:induction false} FatesPartition(q: seq<Stored>, a: Asker, pm: Stored)
    ensures var fates := multiset(Fated(q, Expired, a)) + multiset(Fated(q, Matched, a)) + multiset(Fated(q, Waiting, a));
      fates[pm] == multiset(q)[pm] && multiset(Fated(q, FateOf(pm, a), a))[pm] == multiset(q)[pm]
  {
    KeepIsFilter(q, NotFated(Expired, a), pm);
    KeepIsFilter(q, NotFated(Matched, a), pm);
    KeepIsFilter(q, NotFated(Waiting, a), pm);
  }

  /** Draining again at the same time delivers nothing and keeps everything. */
  lemma {:induction false} DrainTwice(q: seq<Stored>, a: Asker)
    ensures var kept := Fated(q, Waiting, a); Fated(kept, Waiting, a) == kept && Fated(kept, Matched, a) == []
  {
    var kept := Fated(q, Waiting, a);
    forall i | 0 <= i < |kept| ensures FateOf(kept[i], a) == Waiting {
      KeepIsFilter(q, NotFated(Waiting, a), kept[i]);
    }
    KeepAll(kept, NotFated(Waiting, a));
    KeepNone(kept, NotFated(Matched, a));
  }

  /** A delivered message is read as the stored headers, re-addressed, and the stored body. */
  lemma {:induction false} DeliveredIsRead(pm: Stored, a: Asker, messageId: nat)
    requires CleanMessage(pm) && CleanText(a.pattern) && CleanText(a.id)
    ensures var d, base := Delivered(pm, a, messageId), Typed(ToMap(pm.headers), pm.body.value);
      d.fd == a.client && Reads(d.content, DeliveredMap(base, messageId, a.pattern, a.id), pm.body.value)
  {
    var headers, body := ToMap(pm.headers), pm.body.value;
    OutTableIsPrepared(pm.headers, body, []);
    UnaddressedIsClean(headers, body, []);
    assert Unaddressed(headers, body, []) == Typed(headers, body);
    AddressedIsRead(OutTable(pm.headers, body, []), Typed(headers, body), body, messageId, a.pattern, a.id);
  }
}
