/** The writers' batch picker: messages of one connection are taken out of the middle of the queue. */
module Batch {
  import opened Seqs
  import opened Chain
  import opened Queue

  const BATCH_SIZE: int := 1000
  const PILL: int := -1

  /** A message_with_frame_len of the output queue. */
  datatype OutMessage = OutMessage(fd: int, content: string, frameLen: nat)

  type Messages = seq<OutMessage>

  /**
   The scan over the rest of the queue, after `count` messages of connection `fd` (0: none yet) were
   taken and with `budget` bytes left: what is still taken, and what stays.
   */
  function Pick(q: Messages, count: nat, fd: int, budget: int): (r: (Messages, Messages))
    ensures |r.0| + |r.1| == |q|
    decreases |q|
  {
    if q == [] || count >= BATCH_SIZE || budget <= 0 then ([], q)
    else
      var m, rest := q[0], q[1..];
      if m.fd == PILL then ([m], rest)
      else if fd == 0 || (m.fd == fd && m.frameLen <= budget) then
        var (taken, left) := Pick(rest, count + 1, if fd == 0 then m.fd else fd, budget - m.frameLen);
        ([m] + taken, left)
      else if m.fd == fd then ([], q)
      else
        var (taken, left) := Pick(rest, count, fd, budget);
        (taken, [m] + left)
  }

  // ---------------------------------------------------------------- the scan on the linked queue

  /** The outcome of the whole scan, told from a point on the way. */
  ghost predicate Heading(goal: (Messages, Messages), batch: Messages, skipped: Messages,
                          ahead: Messages, fd: int, budget: int)
  {
    var (taken, left) := Pick(ahead, |batch|, fd, budget);
    goal == (batch + taken, skipped + left)
  }

  lemma {:induction false} HeadingStart(goal: (Messages, Messages), q: Messages, budget: int)
    requires goal == Pick(q, 0, 0, budget)
    ensures Heading(goal, [], [], q, 0, budget)
  {
    assert [] + goal.0 == goal.0 && [] + goal.1 == goal.1;
  }

  lemma {:induction false} HeadingEnd(goal: (Messages, Messages), batch: Messages, skipped: Messages,
                   ahead: Messages, fd: int, budget: int)
    requires Heading(goal, batch, skipped, ahead, fd, budget)
    requires ahead == [] || |batch| >= BATCH_SIZE || budget <= 0
    ensures goal == (batch, skipped + ahead)
  {
    assert batch + [] == batch;
  }

  lemma {:induction false} HeadingOn(goal: (Messages, Messages), batch: Messages, skipped: Messages,
                  ahead: Messages, fd: int, budget: int)
    requires Heading(goal, batch, skipped, ahead, fd, budget)
    requires ahead != [] && |batch| < BATCH_SIZE && budget > 0
    ensures var m, rest := ahead[0], ahead[1..];
      if m.fd == PILL then goal == (batch + [m], skipped + rest)
      else if fd == 0 || (m.fd == fd && m.frameLen <= budget) then
        Heading(goal, batch + [m], skipped, rest, if fd == 0 then m.fd else fd, budget - m.frameLen)
      else if m.fd == fd then goal == (batch, skipped + ahead)
      else Heading(goal, batch, skipped + [m], rest, fd, budget)
  {
    var m, rest := ahead[0], ahead[1..];
    var (taken, left) := Pick(rest, |batch| + 1, if fd == 0 then m.fd else fd, budget - m.frameLen);
    Regroup(batch, [m], taken);
    Regroup(skipped, [m], Pick(rest, |batch|, fd, budget).1);
    assert batch + [] == batch;
  }

  /** ts_dequeue_multiple_messages_for_same_fd, inside the lock and after the wait. */
  method DequeueMultiple(q: Queue<OutMessage>, bufferSize: int) returns (batch: Messages)
    requires q.Valid()
    modifies q, q.Repr`next
    ensures q.Valid() && (batch, q.contents) == Pick(old(q.contents), 0, 0, bufferSize)
  {
    hide Pick, Heading;
    batch := [];
    var firstFd, remaining := 0, bufferSize;
    var parent: Item?<OutMessage>, cursor := null, q.first;
    ghost var skipped, ahead, goal := [], q.contents, Pick(q.contents, 0, 0, bufferSize);
    HeadingStart(goal, q.contents, bufferSize);
    while |batch| < BATCH_SIZE && cursor != null && remaining > 0
      invariant Scanning(q, parent, cursor, skipped, ahead) && q.Repr == old(q.Repr)
      invariant Heading(goal, batch, skipped, ahead, firstFd, remaining)
      decreases |ahead|
    {
      SkipOne(q, parent, cursor, skipped, ahead);
      HeadingOn(goal, batch, skipped, ahead, firstFd, remaining);
      var msg := cursor.data;
      if msg.fd == PILL {
        batch := batch + [msg];
        cursor := TakeOut(q, parent, cursor, skipped, ahead);
        return;
      } else if firstFd == 0 {
        firstFd := msg.fd;
      } else if msg.fd != firstFd {
        skipped, ahead := skipped + [msg], ahead[1..];
        parent, cursor := cursor, cursor.next;
        continue;
      } else if msg.frameLen > remaining {
        return;
      }
      batch := batch + [msg];
      remaining := remaining - msg.frameLen;
      cursor := TakeOut(q, parent, cursor, skipped, ahead);
      ahead := ahead[1..];
    }
    HeadingEnd(goal, batch, skipped, ahead, firstFd, remaining);
  }

  // ---------------------------------------------------------------- what a batch is

  /** The messages of one connection, in order. */
  function Own(q: Messages, fd: int): Messages {
    if q == [] then [] else (if q[0].fd == fd then [q[0]] else []) + Own(q[1..], fd)
  }

  lemma {:induction false} OwnAppend(a: Messages, b: Messages, fd: int)
    ensures Own(a + b, fd) == Own(a, fd) + Own(b, fd)
  {
    if a == [] {
      assert a + b == b;
    } else {
      assert (a + b)[1..] == a[1..] + b;
      OwnAppend(a[1..], b, fd);
      Regroup(if a[0].fd == fd then [a[0]] else [], Own(a[1..], fd), Own(b, fd));
    }
  }

  /** After the first message only its connection's messages, and at most a final pill, are taken. */
  lemma {:induction false} PickTakesOwn(q: Messages, count: nat, fd: int, budget: int)
    requires fd != 0
    ensures forall m :: m in Pick(q, count, fd, budget).0 ==> m.fd == fd || m.fd == PILL
    decreases |q|
  {
    if q != [] && count < BATCH_SIZE && budget > 0 {
      var m, rest := q[0], q[1..];
      if m.fd == fd && m.frameLen <= budget {
        PickTakesOwn(rest, count + 1, fd, budget - m.frameLen);
      } else if m.fd != fd {
        PickTakesOwn(rest, count, fd, budget);
      }
    }
  }

  lemma {:induction false} OwnOfOthers(q: Messages, fd: int)
    requires forall m :: m in q ==> m.fd != fd
    ensures Own(q, fd) == []
  {
    if q != [] {
      assert q[0] in q && forall m :: m in q[1..] ==> m in q;
      OwnOfOthers(q[1..], fd);
    }
  }

  lemma OwnOfNone(q: Messages, g: int)
    ensures Own([], g) == [] && [] + q == q && [] + Own(q, g) == Own(q, g)
  {
  }

  lemma {:induction false} OwnOfOne(m: OutMessage, rest: Messages, g: int)
    ensures Own([m] + rest, g) == (if m.fd == g then [m] else []) + Own(rest, g)
    ensures Own([m], g) == if m.fd == g then [m] else []
  {
  }

  /** Taking a batch splits every connection's messages into a first part, taken, and the rest, in order. */
  lemma {:induction false} PickSplitsOwn(q: Messages, count: nat, fd: int, budget: int, g: int)
    ensures var (taken, left) := Pick(q, count, fd, budget); Own(q, g) == Own(taken, g) + Own(left, g)
    decreases |q|
  {
    hide Own;
    if q == [] || count >= BATCH_SIZE || budget <= 0 {
      OwnOfNone(q, g);
    } else {
      var m, rest := q[0], q[1..];
      var one := if m.fd == g then [m] else [];
      assert q == [m] + rest;
      OwnOfOne(m, rest, g);
      if m.fd == PILL {
      } else if fd == 0 || (m.fd == fd && m.frameLen <= budget) {
        var fd1 := if fd == 0 then m.fd else fd;
        var (taken, left) := Pick(rest, count + 1, fd1, budget - m.frameLen);
        PickSplitsOwn(rest, count + 1, fd1, budget - m.frameLen, g);
        OwnOfOne(m, taken, g);
        Regroup(one, Own(taken, g), Own(left, g));
      } else if m.fd != fd {
        var (taken, left) := Pick(rest, count, fd, budget);
        PickSplitsOwn(rest, count, fd, budget, g);
        OwnOfOne(m, left, g);
        if m.fd == g {
          PickTakesOwn(rest, count, fd, budget);
          OwnOfOthers(taken, g);
        }
        assert one + Own(rest, g) == Own(taken, g) + (one + Own(left, g));
      } else {
        OwnOfNone(q, g);
      }
    }
  }

  predicate PillOnlyLast(taken: Messages) {
    forall i :: 0 <= i < |taken| - 1 ==> taken[i].fd != PILL
  }

  /** A pill ends the batch, so there is at most one. */
  lemma {:induction false} PillIsLast(q: Messages, count: nat, fd: int, budget: int)
    ensures PillOnlyLast(Pick(q, count, fd, budget).0)
    decreases |q|
  {
    if q != [] && count < BATCH_SIZE && budget > 0 {
      var m, rest := q[0], q[1..];
      if m.fd == PILL {
      } else if fd == 0 || (m.fd == fd && m.frameLen <= budget) {
        PillIsLast(rest, count + 1, if fd == 0 then m.fd else fd, budget - m.frameLen);
        var t := Pick(rest, count + 1, if fd == 0 then m.fd else fd, budget - m.frameLen).0;
        assert PillOnlyLast([m] + t);
      } else if m.fd != fd {
        PillIsLast(rest, count, fd, budget);
      }
    }
  }

  function Sum(ms: Messages): nat {
    if ms == [] then 0 else ms[0].frameLen + Sum(ms[1..])
  }

  /** The queue without the first k messages of a connection; all others stay in order. */
  function Dropped(q: Messages, fd: int, k: nat): Messages {
    if q == [] || k == 0 then q
    else if q[0].fd == fd then Dropped(q[1..], fd, k - 1)
    else [q[0]] + Dropped(q[1..], fd, k)
  }

  /** Messages as the broker makes them: of a real connection and at least one byte long. */
  predicate Plain(q: Messages) {
    forall i :: 0 <= i < |q| ==> q[i].fd != PILL && q[i].fd != 0 && q[i].frameLen > 0
  }

  /** The longest prefix of `own` that the limits allow, when `count` messages were taken before. */
  predicate Longest(own: Messages, k: nat, count: nat, budget: int) {
    && k <= |own| && (k > 0 ==> count + k <= BATCH_SIZE && Sum(own[..k]) <= budget)
    && (k == |own| || count + k >= BATCH_SIZE || Sum(own[..k + 1]) > budget)
  }

  /** How many of a connection's messages are taken from the front of `own`. */
  function Fit(own: Messages, count: nat, budget: int): (k: nat)
    ensures k <= |own|
  {
    if own == [] || count >= BATCH_SIZE || budget <= 0 || own[0].frameLen > budget then 0
    else 1 + Fit(own[1..], count + 1, budget - own[0].frameLen)
  }

  lemma {:induction false} PrefixSum(own: Messages, k: nat)
    requires own != [] && k < |own|
    ensures own[..k + 1] == [own[0]] + own[1..][..k]
    ensures Sum(own[..k + 1]) == own[0].frameLen + Sum(own[1..][..k])
  {
  }

  lemma {:induction false} FitIsLongest(own: Messages, count: nat, budget: int)
    requires Plain(own)
    ensures Longest(own, Fit(own, count, budget), count, budget)
    decreases |own|
  {
    var k := Fit(own, count, budget);
    if k == 0 {
      if own != [] { PrefixSum(own, 0); }
    } else {
      FitIsLongest(own[1..], count + 1, budget - own[0].frameLen);
      PrefixSum(own, k - 1);
      if k < |own| { PrefixSum(own, k); }
    }
  }

  lemma {:induction false} OwnIsPlain(q: Messages, fd: int)
    requires Plain(q)
    ensures Plain(Own(q, fd))
  {
    if q != [] { OwnIsPlain(q[1..], fd); }
  }

  lemma {:induction false} PickFits(q: Messages, count: nat, fd: int, budget: int)
    requires Plain(q) && fd != 0
    ensures var own := Own(q, fd); var k := Fit(own, count, budget);
      Pick(q, count, fd, budget) == (own[..k], Dropped(q, fd, k))
    decreases |q|
  {
    if q != [] {
      var m, rest, own := q[0], q[1..], Own(q, fd);
      var k := Fit(own, count, budget);
      if m.fd == fd {
        assert own[1..] == Own(rest, fd);
        PickFits(rest, count + 1, fd, budget - m.frameLen);
        if k > 0 { PrefixSum(own, k - 1); }
      } else {
        assert own == Own(rest, fd);
        PickFits(rest, count, fd, budget);
        assert k == 0 ==> own[..k] == [] && [m] + rest == q;
      }
    }
  }

  /** The head is always taken; after it, as many of its connection's messages as fit. */
  lemma {:induction false} HeadThenFit(q: Messages, budget: int)
    requires q != [] && Plain(q) && budget > 0
    ensures var m, own := q[0], Own(q, q[0].fd); var k := 1 + Fit(own[1..], 1, budget - m.frameLen);
      Pick(q, 0, 0, budget) == (own[..k], Dropped(q, m.fd, k))
  {
    var m, rest, own := q[0], q[1..], Own(q, q[0].fd);
    assert own[1..] == Own(rest, m.fd) && own[0] == m;
    PickFits(rest, 1, m.fd, budget - m.frameLen);
    var j := Fit(own[1..], 1, budget - m.frameLen);
    assert own[..1 + j] == [m] + own[1..][..j];
  }

  /** The same count, seen as the longest prefix that the limits allow. */
  lemma {:induction false} HeadFitIsLongest(own: Messages, budget: int)
    requires own != [] && Plain(own) && budget > 0
    ensures var k := 1 + Fit(own[1..], 1, budget - own[0].frameLen);
      && k <= BATCH_SIZE && k <= |own|
      && (Sum(own[..k]) <= budget || k == 1)
      && (k == |own| || k == BATCH_SIZE || Sum(own[..k + 1]) > budget)
  {
    var j := Fit(own[1..], 1, budget - own[0].frameLen);
    FitIsLongest(own[1..], 1, budget - own[0].frameLen);
    PrefixSum(own, j);
    if j + 1 < |own| { PrefixSum(own, j + 1); }
  }

  /**
   The batch promise. With no pill queued, the batch is the longest prefix of the head connection's
   messages that fits 1000 items and the byte budget, where the head itself is always taken; everything
   else stays in order, and the byte sum exceeds the budget only for a single oversized head.
   */
  lemma {:induction false} BatchIsLongestPrefix(q: Messages, budget: int)
    requires q != [] && Plain(q) && budget > 0
    ensures var (taken, left) := Pick(q, 0, 0, budget); var own, k := Own(q, q[0].fd), |taken|;
      && 1 <= k <= 1000 && k <= |own| && taken == own[..k] && left == Dropped(q, q[0].fd, k)
      && (Sum(taken) <= budget || k == 1)
      && (k == |own| || k == 1000 || Sum(own[..k + 1]) > budget)
  {
    OwnIsPlain(q, q[0].fd);
    HeadThenFit(q, budget);
    HeadFitIsLongest(Own(q, q[0].fd), budget);
  }

  lemma PickTakesSome(q: Messages, budget: int)
    requires q != [] && budget > 0
    ensures Pick(q, 0, 0, budget).0 != [] && |Pick(q, 0, 0, budget).1| < |q|
  {
  }

  // ---------------------------------------------------------------- runs of the output queue

  /** Messages put behind the queue in one step, or a batch taken from it. */
  datatype Event = Put(ms: Messages) | Take(budget: int)

  datatype Run = Run(queue: Messages, put: Messages, taken: Messages)

  function After(r: Run, events: seq<Event>): Run
    decreases |events|
  {
    if events == [] then r
    else
      match events[0]
      case Put(ms) => After(Run(r.queue + ms, r.put + ms, r.taken), events[1..])
      case Take(budget) =>
        var (taken, left) := Pick(r.queue, 0, 0, budget);
        After(Run(left, r.put, r.taken + taken), events[1..])
  }

  /** Over any run each connection's messages come out first in, first out, none lost and none twice. */
  lemma {:induction false} FifoPerConnection(r: Run, events: seq<Event>, fd: int)
    requires Own(r.put, fd) == Own(r.taken, fd) + Own(r.queue, fd)
    ensures var e := After(r, events); Own(e.put, fd) == Own(e.taken, fd) + Own(e.queue, fd)
    decreases |events|
  {
    if events != [] {
      match events[0]
      case Put(ms) =>
        OwnAppend(r.queue, ms, fd);
        OwnAppend(r.put, ms, fd);
        Regroup(Own(r.taken, fd), Own(r.queue, fd), Own(ms, fd));
        FifoPerConnection(Run(r.queue + ms, r.put + ms, r.taken), events[1..], fd);
      case Take(budget) =>
        var (taken, left) := Pick(r.queue, 0, 0, budget);
        PickSplitsOwn(r.queue, 0, 0, budget, fd);
        OwnAppend(r.taken, taken, fd);
        Regroup(Own(r.taken, fd), Own(taken, fd), Own(left, fd));
        FifoPerConnection(Run(left, r.put, r.taken + taken), events[1..], fd);
    }
  }
}
