/** The subscription list and the two topic matching rules. */
module PubSub {
  import opened CString
  import opened Seqs
  import opened Chain
  import opened GeneralList

  datatype Subscription = Subscription(sessionId: int, pattern: string, id: string)

  type Subscriptions = seq<Subscription>

  // ---------------------------------------------------------------- matching

  /** The length of a pattern before its first '*', if it has one. */
  function MaskLen(pattern: string): (n: nat)
    ensures n <= |pattern|
  {
    var star := StrChr(pattern, '*');
    if star < 0 then |pattern| else star
  }

  predicate HasStar(pattern: string) {
    StrChr(pattern, '*') >= 0
  }

  /** strncmp(a, b, n) == 0, for n within both strings. */
  predicate SameFront(a: string, b: string, n: nat)
    requires n <= |a| && n <= |b|
  {
    a[..n] == b[..n]
  }

  function Min(a: nat, b: nat): nat {
    if a < b then a else b
  }

  /** The rule of pubsub_find_matching for a topic that a message is sent to. */
  predicate LiveMatch(topic: string, pattern: string) {
    var maskLen, len2 := MaskLen(topic), MaskLen(pattern);
    if (!HasStar(pattern) && len2 != maskLen) || (HasStar(pattern) && maskLen < len2) then false
    else SameFront(topic, pattern, Min(maskLen, len2))
  }

  /** The rule of distribute_messages_from_stale_q for a waiting message's topic. */
  predicate StaleMatch(topic: string, pattern: string) {
    && ((!HasStar(pattern) && |topic| == MaskLen(pattern)) || (HasStar(pattern) && MaskLen(pattern) < |topic|))
    && SameFront(topic, pattern, MaskLen(pattern))
  }

  /** What the documentation promises: equal, or the part before the first '*' is a prefix of the topic. */
  predicate Promised(topic: string, pattern: string) {
    if HasStar(pattern) then HasPrefix(topic, pattern[..MaskLen(pattern)]) else topic == pattern
  }

  /** For every topic that may be sent to, the live rule is the promised one. */
  lemma {:induction false} LiveMatchIsPromised(topic: string, pattern: string)
    requires !HasStar(topic)
    ensures LiveMatch(topic, pattern) <==> Promised(topic, pattern)
  {
  }

  /** The part before the first '*' has no '*', and the '*' comes right behind it. */
  lemma {:induction false} MaskIsBeforeStar(pattern: string)
    ensures '*' !in pattern[..MaskLen(pattern)]
    ensures HasStar(pattern) <==> '*' in pattern
    ensures HasStar(pattern) ==> pattern[MaskLen(pattern)] == '*'
  {
    MemChrFirst(pattern, '*', 0, |pattern|);
  }

  /** In plain terms: the pattern is the topic, or what stands before its first '*' is a prefix of the topic. */
  ghost predicate Covers(pattern: string, topic: string) {
    if '*' in pattern then exists n: nat :: IsFront(pattern, n) && pattern[..n] <= topic else pattern == topic
  }

  /** The same with a proper prefix. */
  ghost predicate CoversBeyond(pattern: string, topic: string) {
    if '*' in pattern then exists n: nat :: IsFront(pattern, n) && pattern[..n] < topic else pattern == topic
  }

  /** The first '*' is at n. */
  predicate IsFront(pattern: string, n: nat) {
    n < |pattern| && pattern[n] == '*' && '*' !in pattern[..n]
  }

  lemma FrontIsOne(pattern: string, n: nat, m: nat)
    requires IsFront(pattern, n) && IsFront(pattern, m)
    ensures n == m
  {
    assert forall k {:trigger pattern[k]} :: 0 <= k < n ==> pattern[..n][k] == pattern[k];
    assert forall k {:trigger pattern[k]} :: 0 <= k < m ==> pattern[..m][k] == pattern[k];
  }

  lemma {:induction false} CoversAt(pattern: string, n: nat, topic: string)
    requires IsFront(pattern, n)
    ensures Covers(pattern, topic) <==> pattern[..n] <= topic
    ensures CoversBeyond(pattern, topic) <==> pattern[..n] < topic
  {
    forall m: nat | IsFront(pattern, m) ensures m == n { FrontIsOne(pattern, n, m); }
    assert pattern[n] in pattern;
  }

  lemma {:induction false} RulesPlainly(topic: string, pattern: string)
    ensures Promised(topic, pattern) <==> Covers(pattern, topic)
    ensures StaleMatch(topic, pattern) <==> CoversBeyond(pattern, topic)
  {
    MaskIsBeforeStar(pattern);
    var n := MaskLen(pattern);
    if HasStar(pattern) {
      CoversAt(pattern, n, topic);
    } else {
      assert pattern[..n] == pattern && (|topic| == n ==> topic[..n] == topic);
    }
  }

  /** The stale rule implies the live rule, which differs only at a topic that is the mask itself. */
  lemma {:induction false} StaleRuleAgainstLiveRule(topic: string, pattern: string)
    requires !HasStar(topic)
    ensures StaleMatch(topic, pattern) ==> LiveMatch(topic, pattern)
    ensures LiveMatch(topic, pattern) && !StaleMatch(topic, pattern)
      <==> HasStar(pattern) && topic == pattern[..MaskLen(pattern)]
  {
  }

  // ---------------------------------------------------------------- filters

  function NotFor(topic: string): Subscription -> bool {
    (s: Subscription) => !LiveMatch(topic, s.pattern)
  }

  function Matching(subs: Subscriptions, topic: string): (ms: Subscriptions) {
    Keep(subs, NotFor(topic))
  }

  function OfClient(client: int): Subscription -> bool {
    (s: Subscription) => s.sessionId == client
  }

  function OfTopic(topic: string, client: int, id: string): Subscription -> bool {
    (s: Subscription) => s.sessionId == client && s.pattern == topic && s.id == id
  }

  /** For every topic that may be sent to, the matching subscriptions are those that were promised, in order. */
  lemma {:induction false} MatchingIsPromised(subs: Subscriptions, topic: string)
    requires !HasStar(topic)
    ensures AreThose(Matching(subs, topic), subs, (x: Subscription) => Covers(x.pattern, topic))
  {
    forall j | 0 <= j < |subs| ensures Covers(subs[j].pattern, topic) == !NotFor(topic)(subs[j]) {
      LiveMatchIsPromised(topic, subs[j].pattern);
      RulesPlainly(topic, subs[j].pattern);
    }
    KeepIsThose(subs, NotFor(topic), (x: Subscription) => Covers(x.pattern, topic));
  }

  // ---------------------------------------------------------------- operations on the list

  /** The walk stands behind the items that stay and before those ahead. */
  ghost predicate Walking(topics: List<Subscription>, p: Item?<Subscription>, c: Item?<Subscription>,
                          kept: Subscriptions, ahead: Subscriptions)
    reads topics, topics.items
  {
    && topics.Valid() && topics.contents == kept + ahead
    && p == (if kept == [] then null else topics.items[|kept| - 1])
    && c == (if ahead == [] then null else topics.items[|kept|])
  }

  /** Unlinks the current item; the walk goes on behind the same predecessor. */
  method UnchainCurrent(topics: List<Subscription>, p: Item?<Subscription>, c: Item<Subscription>,
                        ghost kept: Subscriptions, ghost ahead: Subscriptions)
    returns (next: Item?<Subscription>)
    requires Walking(topics, p, c, kept, ahead)
    modifies topics, topics.Repr`next
    ensures ahead != [] && Walking(topics, p, next, kept, ahead[1..])
    ensures topics.Repr == old(topics.Repr)
  {
    topics.Unchain(p, c, |kept|);
    next := if p == null then topics.first else p.next;
  }

  lemma {:induction false} WalkOne(topics: List<Subscription>, p: Item?<Subscription>, c: Item<Subscription>,
                kept: Subscriptions, ahead: Subscriptions)
    requires Walking(topics, p, c, kept, ahead)
    ensures ahead != [] && c.data == ahead[0]
    ensures Walking(topics, c, c.next, kept + [ahead[0]], ahead[1..])
  {
  }

  /** The removal loop that unsubscribing and removing a client have in common. */
  method RemoveWhere(topics: List<Subscription>, gone: Subscription -> bool)
    requires topics.Valid()
    modifies topics, topics.Repr`next
    ensures topics.Valid() && topics.contents == Keep(old(topics.contents), gone)
    ensures topics.Repr == old(topics.Repr)
  {
    if topics.size == 0 { return; }
    var p: Item?<Subscription>, c := null, topics.first;
    ghost var all := topics.contents;
    ghost var done: Subscriptions, kept: Subscriptions, ahead := [], [], all;
    while c != null
      invariant Walking(topics, p, c, kept, ahead) && topics.Repr == old(topics.Repr)
      invariant all == done + ahead && kept == Keep(done, gone)
      decreases |ahead|
    {
      WalkOne(topics, p, c, kept, ahead);
      KeepStep(done, ahead[0], gone);
      Regroup(done, [ahead[0]], ahead[1..]);
      assert ahead == [ahead[0]] + ahead[1..];
      if gone(c.data) {
        c := UnchainCurrent(topics, p, c, kept, ahead);
      } else {
        kept := kept + [ahead[0]];
        p := c;
        c := c.next;
      }
      done, ahead := done + [ahead[0]], ahead[1..];
    }
    assert done + ahead == done && kept + ahead == kept;
  }

  method Subscribe(topics: List<Subscription>, topic: string, client: int, id: string)
    requires topics.Valid()
    modifies topics, topics.Repr`next
    ensures topics.Valid() && fresh(topics.Repr - old(topics.Repr))
    ensures topics.contents == old(topics.contents) + [Subscription(client, topic, id)]
  {
    topics.Add(Subscription(client, topic, id));
  }

  method Unsubscribe(topics: List<Subscription>, topic: string, client: int, id: string)
    requires topics.Valid()
    modifies topics, topics.Repr`next
    ensures topics.Valid() && topics.Repr == old(topics.Repr)
    ensures topics.contents == Keep(old(topics.contents), OfTopic(topic, client, id))
    ensures AreThose(topics.contents, old(topics.contents),
                     (x: Subscription) => !(x.sessionId == client && x.pattern == topic && x.id == id))
    ensures forall x: Subscription ::
      multiset(topics.contents)[x]
      == (if x.sessionId == client && x.pattern == topic && x.id == id then 0 else multiset(old(topics.contents))[x])
  {
    ghost var was := topics.contents;
    RemoveWhere(topics, OfTopic(topic, client, id));
    KeepIsThose(was, OfTopic(topic, client, id),
                (x: Subscription) => !(x.sessionId == client && x.pattern == topic && x.id == id));
    forall x: Subscription
      ensures multiset(topics.contents)[x]
        == (if x.sessionId == client && x.pattern == topic && x.id == id then 0 else multiset(was)[x])
    {
      KeepIsFilter(was, OfTopic(topic, client, id), x);
    }
  }

  method RemoveClient(topics: List<Subscription>, client: int)
    requires topics.Valid()
    modifies topics, topics.Repr`next
    ensures topics.Valid() && topics.Repr == old(topics.Repr)
    ensures topics.contents == Keep(old(topics.contents), OfClient(client))
    ensures AreThose(topics.contents, old(topics.contents), (x: Subscription) => x.sessionId != client)
  {
    KeepIsThose(topics.contents, OfClient(client), (x: Subscription) => x.sessionId != client);
    RemoveWhere(topics, OfClient(client));
  }

  /** The comparison inside the loop of pubsub_find_matching. */
  method Matches(topic: string, pattern: string, maskLen: nat) returns (ok: bool)
    requires maskLen == MaskLen(topic)
    ensures ok == LiveMatch(topic, pattern)
  {
    var wildCard := StrChr(pattern, '*');
    var len2 := if wildCard < 0 then |pattern| else wildCard;
    if (wildCard < 0 && len2 != maskLen) || (wildCard >= 0 && maskLen < len2) { return false; }
    var len := Min(maskLen, len2);
    return topic[..len] == pattern[..len];
  }

  method FindMatching(topics: List<Subscription>, topic: string, matches: List<Subscription>) returns (n: int)
    requires topics.Valid() && matches.Valid() && topics != matches && topics.Repr !! matches.Repr
    modifies matches, matches.Repr`next
    ensures matches.Valid() && fresh(matches.Repr - old(matches.Repr))
    ensures matches.contents == old(matches.contents) + Matching(topics.contents, topic) && n == |matches.contents|
  {
    ghost var all, was := topics.contents, matches.contents;
    ghost var gone := NotFor(topic);
    if topics.size == 0 {
      assert was + [] == was;
      return matches.size;
    }
    var wild := StrChr(topic, '*');
    var maskLen := if wild < 0 then |topic| else wild;
    var c := topics.first;
    ghost var done: Subscriptions, ahead := [], all;
    while c != null
      invariant topics.Valid() && topics.contents == all == done + ahead && topics.Repr == old(topics.Repr)
      invariant c == if ahead == [] then null else topics.items[|done|]
      invariant matches.Valid() && fresh(matches.Repr - old(matches.Repr)) && topics.Repr !! matches.Repr
      invariant matches.contents == was + Keep(done, gone)
      decreases |ahead|
    {
      assert c.data == ahead[0] by { assert all[|done|] == ahead[0]; }
      KeepStep(done, ahead[0], gone);
      Regroup(was, Keep(done, gone), [ahead[0]]);
      Regroup(done, [ahead[0]], ahead[1..]);
      assert ahead == [ahead[0]] + ahead[1..];
      var ok := Matches(topic, c.data.pattern, maskLen);
      if ok { matches.Add(c.data); }
      done, ahead := done + [ahead[0]], ahead[1..];
      c := c.next;
    }
    assert done + ahead == done;
    n := matches.size;
  }
}
