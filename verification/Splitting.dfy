/** Cutting received bytes at their NULs into messages for the input queue. */
module Splitting {
  import opened Bytes
  import opened Seqs
  import opened Queue
  import opened Frames

  /** A message_with_timestamp of the input queue. */
  datatype InMessage = InMessage(fd: int, content: seq<Byte>, ts: int)

  /** The first NUL in s[i..], or the end of s. */
  function NulAt(s: seq<Byte>, i: nat): (p: nat)
    requires i <= |s|
    ensures i <= p <= |s| && (p < |s| ==> s[p] == 0) && forall k :: i <= k < p ==> s[k] != 0
    decreases |s| - i
  {
    if i == |s| || s[i] == 0 then i else NulAt(s, i + 1)
  }

  /** The texts that the scan over s[i..] finds: it resumes behind each NUL. */
  function Pieces(s: seq<Byte>, i: nat): seq<seq<Byte>>
    decreases |s| - i
  {
    if i >= |s| then [] else [Sub(s, i, NulAt(s, i))] + Pieces(s, NulAt(s, i) + 1)
  }

  function Wrap(fd: int, texts: seq<seq<Byte>>, ts: int): (ms: seq<InMessage>)
    ensures |ms| == |texts| && forall i :: 0 <= i < |ms| ==> ms[i] == InMessage(fd, texts[i], ts)
  {
    seq(|texts|, i requires 0 <= i < |texts| => InMessage(fd, texts[i], ts))
  }

  /** The queue after at most filling it up to its limit. */
  function Filled<T>(q: seq<T>, more: seq<T>, limit: nat): seq<T>
    decreases |more|
  {
    if more == [] then q
    else Filled(if |q| < limit then q + [more[0]] else q, more[1..], limit)
  }

  /** While the limit is not reached nothing is dropped. */
  lemma {:induction false} FilledBelowLimit<T>(q: seq<T>, more: seq<T>, limit: nat)
    requires |q| + |more| <= limit
    ensures Filled(q, more, limit) == q + more
    decreases |more|
  {
    if more == [] {
      assert q + more == q;
    } else {
      FilledBelowLimit(q + [more[0]], more[1..], limit);
      assert q + [more[0]] + more[1..] == q + more;
    }
  }

  /** The first of the new ones are added, as many as the limit allows. */
  lemma {:induction false} FilledUpToLimit<T>(q: seq<T>, more: seq<T>, limit: nat)
    ensures var n := if |q| + |more| <= limit then |more| else if |q| < limit then limit - |q| else 0;
      Filled(q, more, limit) == q + more[..n]
    decreases |more|
  {
    if more == [] {
      assert q + more == q;
    } else {
      var next := if |q| < limit then q + [more[0]] else q;
      FilledUpToLimit(next, more[1..], limit);
      if |q| < limit {
        var n := if |q| + |more| <= limit then |more| else limit - |q|;
        assert next + more[1..][..n - 1] == q + more[..n];
      }
    }
  }

  /** What was queued stays, and what is added is among the new ones. */
  lemma {:induction false} FilledFrom<T>(q: seq<T>, more: seq<T>, limit: nat)
    ensures q <= Filled(q, more, limit)
    ensures forall k :: |q| <= k < |Filled(q, more, limit)| ==> Filled(q, more, limit)[k] in more
    decreases |more|
  {
    if more != [] {
      var next := if |q| < limit then q + [more[0]] else q;
      FilledFrom(next, more[1..], limit);
      var all := Filled(q, more, limit);
      assert next <= all && q <= next;
      forall k | |q| <= k < |all| ensures all[k] in more {
        if k < |next| { assert all[k] == next[k] == more[0]; } else { assert all[k] in more[1..]; }
      }
    }
  }

  /** The inner loop: from position i to the next NUL, the terminator at the latest. */
  method ScanToNul(buf: array<Byte>, i: nat, len: nat) returns (p: nat)
    requires i < len < buf.Length && buf[len] == 0
    ensures p == NulAt(buf[..len], i)
  {
    p := i;
    while buf[p] != 0
      invariant i <= p <= len && NulAt(buf[..len], i) == NulAt(buf[..len], p)
      decreases len - p
    {
      p := p + 1;
    }
  }

  /** Queuing the text in front. */
  lemma {:induction false} FilledStep(q: seq<InMessage>, fd: int, texts: seq<seq<Byte>>, ts: int, limit: nat)
    requires texts != []
    ensures var m := InMessage(fd, texts[0], ts);
      Filled(q, Wrap(fd, texts, ts), limit)
      == Filled(if |q| < limit then q + [m] else q, Wrap(fd, texts[1..], ts), limit)
  {
    assert Wrap(fd, texts, ts)[1..] == Wrap(fd, texts[1..], ts);
  }

  /**
   put_stomp_messages_on_queue: the buffer gets a terminator behind the received bytes and every text
   up to a NUL is queued; what exceeds the queue's limit is dropped.
   */
  method PutMessagesOnQueue(fd: int, buf: array<Byte>, q: Queue<InMessage>, len: nat, ts: int, limit: nat)
    requires len < buf.Length && q.Valid()
    modifies buf, q, q.Repr`next
    ensures q.Valid() && fresh(q.Repr - old(q.Repr))
    ensures q.contents == Filled(old(q.contents), Wrap(fd, Pieces(old(buf[..len]), 0), ts), limit)
    ensures old(q.contents) <= q.contents
    ensures forall k :: |old(q.contents)| <= k < |q.contents| ==> q.contents[k].fd == fd && q.contents[k].ts == ts
    ensures buf[..] == if len == 0 then old(buf[..]) else old(buf[..])[len := 0]
  {
    FilledFrom(q.contents, Wrap(fd, Pieces(buf[..len], 0), ts), limit);
    if len == 0 { return; }
    buf[len] := 0;
    ghost var s := buf[..len];
    assert s == old(buf[..len]);
    QueueTexts(fd, buf, q, len, ts, limit);
  }

  /** The scan: one message per text, in order. */
  method QueueTexts(fd: int, buf: array<Byte>, q: Queue<InMessage>, len: nat, ts: int, limit: nat)
    requires len < buf.Length && buf[len] == 0 && q.Valid()
    modifies q, q.Repr`next
    ensures q.Valid() && fresh(q.Repr - old(q.Repr))
    ensures q.contents == Filled(old(q.contents), Wrap(fd, Pieces(buf[..len], 0), ts), limit)
  {
    var i := 0;
    ghost var left := Pieces(buf[..len], 0);
    ghost var goal := Filled(q.contents, Wrap(fd, left, ts), limit);
    while i < len
      invariant q.Valid() && fresh(q.Repr - old(q.Repr))
      invariant left == Pieces(buf[..len], i) && goal == Filled(q.contents, Wrap(fd, left, ts), limit)
    {
      FilledStep(q.contents, fd, left, ts, limit);
      var p := ScanToNul(buf, i, len);
      var ok := q.EnqueueLimited(InMessage(fd, Sub(buf[..len], i, p), ts), limit);
      i, left := p + 1, left[1..];
    }
  }

  // ---------------------------------------------------------------- what is queued for whole payloads

  /** A payload that is made of non-empty texts, each closed by a NUL. */
  predicate IsTexts(s: seq<Byte>) {
    s != [] && s[0] != 0 && s[|s| - 1] == 0 && forall i :: 0 <= i < |s| - 1 && s[i] == 0 ==> s[i + 1] != 0
  }

  /** What one read queues: all pieces before the last decoded byte, which the terminator replaces. */
  function Queued(out: seq<Byte>): seq<seq<Byte>> {
    if out == [] then [] else Pieces(out[..|out| - 1], 0)
  }

  lemma {:induction false} NulAtFrame(s: seq<Byte>, t: seq<Byte>, i: nat)
    requires i < |s| <= |t| && (forall k :: i <= k < |s| ==> s[k] == t[k]) && s[|s| - 1] == 0
    ensures NulAt(s, i) == NulAt(t, i) < |s|
    decreases |s| - i
  {
  }

  lemma PieceAt(s: seq<Byte>, i: nat)
    requires i < |s|
    ensures Pieces(s, i) == [Sub(s, i, NulAt(s, i))] + Pieces(s, NulAt(s, i) + 1)
  {
  }

  /** Equal first pieces and equal rests make equal pieces. */
  lemma PiecesMatch(s: seq<Byte>, i: nat, t: seq<Byte>, j: nat)
    requires i < |s| && j < |t| && Sub(s, i, NulAt(s, i)) == Sub(t, j, NulAt(t, j))
    requires Pieces(s, NulAt(s, i) + 1) == Pieces(t, NulAt(t, j) + 1)
    ensures Pieces(s, i) == Pieces(t, j)
  {
  }

  /** Behind a NUL the scan goes on as on the rest alone. */
  lemma {:induction false} PiecesShift(a: seq<Byte>, b: seq<Byte>, i: nat)
    requires i <= |b| + 1
    ensures Pieces(a + b, |a| + i) == Pieces(b, i)
    decreases |b| + 1 - i
  {
    hide NulAt;
    if i < |b| {
      var p := NulAt(b, i);
      NulAtShift(a, b, i);
      SubShift(a, b, i, p);
      PiecesShift(a, b, p + 1);
      PiecesMatch(a + b, |a| + i, b, i);
    }
  }

  lemma {:induction false} NulAtShift(a: seq<Byte>, b: seq<Byte>, i: nat)
    requires i <= |b|
    ensures NulAt(a + b, |a| + i) == |a| + NulAt(b, i)
    decreases |b| - i
  {
    if i < |b| && b[i] != 0 { NulAtShift(a, b, i + 1); }
  }

  /** Texts closed by a NUL, followed by anything: their pieces come first. */
  lemma {:induction false} PiecesAppend(a: seq<Byte>, b: seq<Byte>, i: nat)
    requires i < |a| && a[|a| - 1] == 0
    ensures Pieces(a + b, i) == Pieces(a, i) + Pieces(b, 0)
    decreases |a| - i
  {
    hide NulAt, Pieces;
    NulAtFrame(a, a + b, i);
    var p := NulAt(a, i);
    SubOfPrefix(a, b, i, p);
    PieceAt(a, i);
    PieceAt(a + b, i);
    if p + 1 < |a| {
      PiecesAppend(a, b, p + 1);
      Regroup([Sub(a, i, p)], Pieces(a, p + 1), Pieces(b, 0));
    } else {
      NoPieces(a);
      PiecesShift(a, b, 0);
    }
  }

  /** Replacing the NUL that closes the last, non-empty text by the terminator changes no piece. */
  lemma {:induction false} PiecesDropLast(s: seq<Byte>, i: nat)
    requires i < |s| && s[|s| - 1] == 0 && s[i] != 0
    requires forall k :: i <= k < |s| - 1 && s[k] == 0 ==> s[k + 1] != 0
    ensures Pieces(s[..|s| - 1], i) == Pieces(s, i)
    decreases |s| - i
  {
    hide NulAt;
    var t, p := s[..|s| - 1], NulAt(s, i);
    NulAtDropLast(s, i);
    assert s == t + [0];
    SubOfPrefix(t, [0], i, p);
    if p + 1 < |s| { PiecesDropLast(s, p + 1); }
    PiecesMatch(t, i, s, i);
  }

  lemma {:induction false} NulAtDropLast(s: seq<Byte>, i: nat)
    requires i < |s| && s[|s| - 1] == 0
    ensures NulAt(s[..|s| - 1], i) == NulAt(s, i) < |s|
    decreases |s| - i
  {
  }

  /** The texts of all payloads, in order. */
  function AllTexts(frames: seq<seq<Byte>>): seq<seq<Byte>> {
    if frames == [] then [] else Pieces(frames[0], 0) + AllTexts(frames[1..])
  }

  predicate AllAreTexts(frames: seq<seq<Byte>>) {
    forall i :: 0 <= i < |frames| ==> IsTexts(frames[i])
  }

  lemma {:induction false} AllTextsAppend(a: seq<seq<Byte>>, b: seq<seq<Byte>>)
    ensures AllTexts(a + b) == AllTexts(a) + AllTexts(b)
  {
    if a == [] {
      assert a + b == b;
    } else {
      assert (a + b)[1..] == a[1..] + b;
      AllTextsAppend(a[1..], b);
      Regroup(Pieces(a[0], 0), AllTexts(a[1..]), AllTexts(b));
    }
  }

  lemma {:induction false} FlattenedTexts(frames: seq<seq<Byte>>)
    requires frames != [] && AllAreTexts(frames)
    ensures IsTexts(Flatten(frames)) && Pieces(Flatten(frames), 0) == AllTexts(frames)
  {
    var a, b := frames[0], Flatten(frames[1..]);
    if |frames| == 1 {
      assert a + b == a && Pieces(a, 0) + AllTexts([]) == Pieces(a, 0);
    } else {
      FlattenedTexts(frames[1..]);
      PiecesAppend(a, b, 0);
    }
  }

  /** The frames that one read completes are queued text by text. */
  lemma {:induction false} QueuedIsAllTexts(frames: seq<seq<Byte>>)
    requires AllAreTexts(frames)
    ensures Queued(Flatten(frames)) == AllTexts(frames)
  {
    if frames != [] {
      FlattenedTexts(frames);
      PiecesDropLast(Flatten(frames), 0);
    }
  }

  // ---------------------------------------------------------------- texts as clients write them

  /** Texts one behind the other, each closed by a NUL. */
  function Closed(texts: seq<seq<Byte>>): seq<Byte> {
    if texts == [] then [] else texts[0] + [0] + Closed(texts[1..])
  }

  predicate HasNoNul(texts: seq<seq<Byte>>) {
    forall i :: 0 <= i < |texts| ==> 0 !in texts[i]
  }

  /** The scan finds exactly the texts that were closed, in order. */
  lemma {:induction false} PiecesOfClosed(texts: seq<seq<Byte>>)
    requires HasNoNul(texts)
    ensures Pieces(Closed(texts), 0) == texts
  {
    hide Pieces, NulAt;
    if texts == [] {
      NoPieces([]);
    } else {
      var t, rest := texts[0], Closed(texts[1..]);
      PiecesOfClosed(texts[1..]);
      FirstPiece(t, rest);
      assert texts == [t] + texts[1..];
    }
  }

  lemma NoPieces(s: seq<Byte>)
    ensures Pieces(s, |s|) == []
  {
  }

  lemma {:induction false} FirstPiece(t: seq<Byte>, rest: seq<Byte>)
    requires 0 !in t
    ensures Pieces(t + [0] + rest, 0) == [t] + Pieces(rest, 0)
  {
    hide NulAt;
    var s := t + [0] + rest;
    NulBehind(t, s);
    PiecesShift(t + [0], rest, 0);
    assert Sub(s, 0, |t|) == t;
  }

  lemma {:induction false} NulBehind(t: seq<Byte>, s: seq<Byte>)
    requires 0 !in t && |t| < |s| && s[..|t|] == t && s[|t|] == 0
    ensures NulAt(s, 0) == |t|
  {
    var p := NulAt(s, 0);
    assert forall k :: 0 <= k < |t| ==> s[k] == t[k] != 0;
  }

  /** Non-empty texts, at least one. */
  predicate AreWords(texts: seq<seq<Byte>>) {
    texts != [] && HasNoNul(texts) && forall i :: 0 <= i < |texts| ==> texts[i] != []
  }

  lemma {:induction false} ClosedIsTexts(texts: seq<seq<Byte>>)
    requires AreWords(texts)
    ensures IsTexts(Closed(texts))
  {
    var t, rest := texts[0], Closed(texts[1..]);
    var s := t + [0] + rest;
    assert forall k :: 0 <= k < |t| ==> s[k] == t[k] != 0;
    if |texts| > 1 {
      ClosedIsTexts(texts[1..]);
      assert forall k :: |t| < k < |s| ==> s[k] == rest[k - |t| - 1];
    } else {
      assert rest == [];
    }
  }

  lemma {:induction false} TextsOfClosed(frames: seq<seq<Byte>>, texts: seq<seq<seq<Byte>>>)
    requires |frames| == |texts| && forall j :: 0 <= j < |frames| ==> AreWords(texts[j]) && frames[j] == Closed(texts[j])
    ensures AllAreTexts(frames) && AllTexts(frames) == Flatten(texts)
  {
    hide IsTexts, AreWords, Closed;
    if frames != [] {
      TextsOfClosed(frames[1..], texts[1..]);
      ClosedIsTexts(texts[0]);
      WordsHaveNoNul(texts[0]);
      PiecesOfClosed(texts[0]);
      forall j | 0 <= j < |frames| ensures IsTexts(frames[j]) {
        if j > 0 { assert frames[j] == frames[1..][j - 1]; }
      }
    }
  }

  lemma WordsHaveNoNul(texts: seq<seq<Byte>>)
    requires AreWords(texts)
    ensures HasNoNul(texts)
  {
  }

  /** What all reads of one connection queue, in order. */
  function QueuedByAll(content: seq<Byte>, chunks: seq<seq<Byte>>): seq<seq<Byte>>
    decreases |chunks|
  {
    if chunks == [] then []
    else
      var d := Drain(content + chunks[0]);
      Queued(Flatten(d.frames)) + QueuedByAll(d.rest, chunks[1..])
  }

  lemma {:induction false} QueuedByAllIsAllTexts(content: seq<Byte>, chunks: seq<seq<Byte>>)
    requires AllAreTexts(FeedAll(content, chunks).frames)
    ensures QueuedByAll(content, chunks) == AllTexts(FeedAll(content, chunks).frames)
    decreases |chunks|
  {
    if chunks != [] {
      var d := Drain(content + chunks[0]);
      var more := FeedAll(d.rest, chunks[1..]);
      assert AllAreTexts(d.frames) by {
        forall i | 0 <= i < |d.frames| ensures IsTexts(d.frames[i]) { assert d.frames[i] == (d.frames + more.frames)[i]; }
      }
      assert AllAreTexts(more.frames) by {
        forall i | 0 <= i < |more.frames| ensures IsTexts(more.frames[i]) {
          assert more.frames[i] == (d.frames + more.frames)[|d.frames| + i];
        }
      }
      QueuedIsAllTexts(d.frames);
      QueuedByAllIsAllTexts(d.rest, chunks[1..]);
      AllTextsAppend(d.frames, more.frames);
    }
  }

  /** Any two cuttings of one stream of NUL-terminated texts queue the same messages. */
  lemma {:induction false} MessagesSplitIndependent(a: seq<seq<Byte>>, b: seq<seq<Byte>>)
    requires Flatten(a) == Flatten(b) && AllAreTexts(FeedAll([], a).frames)
    ensures QueuedByAll([], a) == QueuedByAll([], b)
  {
    SplitIndependence(a, b);
    QueuedByAllIsAllTexts([], a);
    QueuedByAllIsAllTexts([], b);
  }
}
