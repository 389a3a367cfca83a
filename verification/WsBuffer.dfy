/** The pool of receive buffers, one slot per WebSocket connection with an unfinished frame. */
module WsBuffer {
  import opened Bytes
  import opened Seqs

  const CONTINUATION_BUFFER: int := 1000
  const MAX_BUFFER_SIZE: int := 10000000

  /** A buffer_item; `received` is None where the original holds a null pointer. */
  datatype Slot = Slot(fd: int, mask: seq<Byte>, receivedLen: nat, frameLen: nat, received: Option<seq<Byte>>)

  const FREE: Slot := Slot(0, [0, 0, 0, 0], 0, 0, None)

  predicate SlotOk(s: Slot) {
    && |s.mask| == 4
    && (s.fd == 0 ==> s == FREE)
    && (match s.received case None => s.receivedLen == 0 case Some(r) => |r| == s.receivedLen > 0)
  }

  /** Every slot is consistent and no connection owns two of them. */
  predicate SlotsOk(slots: seq<Slot>) {
    && (forall i :: 0 <= i < |slots| ==> SlotOk(slots[i]))
    && (forall i, j :: 0 <= i < j < |slots| && slots[i].fd != 0 ==> slots[i].fd != slots[j].fd)
  }

  /** The bytes held by all slots together. */
  function Total(slots: seq<Slot>): nat {
    if slots == [] then 0 else slots[0].receivedLen + Total(slots[1..])
  }

  lemma {:induction false} TotalUpdate(slots: seq<Slot>, i: nat, s: Slot)
    requires i < |slots|
    ensures Total(slots[i := s]) == Total(slots) - slots[i].receivedLen + s.receivedLen
  {
    if i == 0 {
      assert slots[0 := s][1..] == slots[1..];
    } else {
      assert slots[i := s][1..] == slots[1..][i - 1 := s];
      TotalUpdate(slots[1..], i - 1, s);
    }
  }

  lemma {:induction false} TotalAtLeast(slots: seq<Slot>, i: nat)
    requires i < |slots|
    ensures slots[i].receivedLen <= Total(slots)
  {
    if i > 0 { TotalAtLeast(slots[1..], i - 1); }
  }

  lemma {:induction false} TotalOfFree(n: nat)
    ensures Total(seq(n, _ => FREE)) == 0
  {
    if n > 0 {
      assert seq(n, _ => FREE)[1..] == seq(n - 1, _ => FREE);
      TotalOfFree(n - 1);
    }
  }

  /** The slot of a connection, or -1. */
  function SlotOf(slots: seq<Slot>, fd: int, from: nat): (i: int)
    requires from <= |slots|
    ensures i == -1 || (from <= i < |slots| && slots[i].fd == fd)
    ensures forall j :: from <= j < (if i < 0 then |slots| else i) ==> slots[j].fd != fd
    decreases |slots| - from
  {
    if from == |slots| then -1 else if slots[from].fd == fd then from else SlotOf(slots, fd, from + 1)
  }

  /** The bytes kept for a connection. */
  function Kept(slots: seq<Slot>, fd: int): seq<Byte> {
    var i := SlotOf(slots, fd, 0);
    if i >= 0 && slots[i].received.Some? then slots[i].received.value else []
  }

  /** A position that is the only one of its connection is the one found. */
  lemma {:induction false} SlotOfIs(slots: seq<Slot>, fd: int, from: nat, i: nat)
    requires from <= i < |slots| && slots[i].fd == fd
    requires forall j :: from <= j < |slots| && j != i ==> slots[j].fd != fd
    ensures SlotOf(slots, fd, from) == i
    decreases |slots| - from
  {
  }

  lemma {:induction false} SlotOfFrame(slots: seq<Slot>, i: nat, s: Slot, fd: int, from: nat)
    requires i < |slots| && from <= |slots| && slots[i].fd != fd && s.fd != fd
    ensures SlotOf(slots[i := s], fd, from) == SlotOf(slots, fd, from)
    decreases |slots| - from
  {
    if from < |slots| { SlotOfFrame(slots, i, s, fd, from + 1); }
  }

  /** Changing the slot of one connection never changes what another one has. */
  lemma {:induction false} KeptFrame(slots: seq<Slot>, i: nat, s: Slot, fd: int)
    requires i < |slots| && slots[i].fd != fd && s.fd != fd
    ensures Kept(slots[i := s], fd) == Kept(slots, fd)
  {
    SlotOfFrame(slots, i, s, fd, 0);
  }

  class Pool {
    var slots: array<Slot>
    var allocatedSize: int

    /** ws_buffer_stat.allocated_size accounts for exactly the bytes in the slots, within the limit. */
    ghost predicate Valid()
      reads this, slots
    {
      && slots.Length == CONTINUATION_BUFFER && SlotsOk(slots[..])
      && allocatedSize == Total(slots[..]) <= MAX_BUFFER_SIZE
    }

    constructor ()
      ensures Valid() && fresh(slots) && slots.Length == 1000 && forall i :: 0 <= i < 1000 ==> slots[i] == FREE
    {
      slots := new Slot[CONTINUATION_BUFFER](_ => FREE);
      allocatedSize := 0;
      new;
      assert slots[..] == seq(CONTINUATION_BUFFER, _ => FREE);
      TotalOfFree(CONTINUATION_BUFFER);
    }

    /** ws_buffer_find; also the search for a free slot, which has fd 0. */
    method Find(fd: int) returns (i: int)
      ensures i == SlotOf(slots[..], fd, 0)
    {
      i := 0;
      while i < slots.Length
        invariant 0 <= i <= slots.Length
        invariant SlotOf(slots[..], fd, 0) == SlotOf(slots[..], fd, i)
      {
        if slots[i].fd == fd { return; }
        i := i + 1;
      }
      i := -1;
    }

    /** Writing one slot and accounting for the change in its length keeps the pool valid. */
    method Write(i: nat, s: Slot)
      requires Valid() && i < slots.Length && SlotOk(s)
      requires s.fd != 0 ==> forall j :: 0 <= j < slots.Length && j != i ==> slots[j].fd != s.fd
      requires allocatedSize - slots[i].receivedLen + s.receivedLen <= MAX_BUFFER_SIZE
      modifies this`allocatedSize, slots
      ensures Valid() && slots[..] == old(slots[..])[i := s]
    {
      TotalUpdate(slots[..], i, s);
      ghost var was := slots[..];
      allocatedSize := allocatedSize - slots[i].receivedLen + s.receivedLen;
      slots[i] := s;
      assert slots[..] == was[i := s];
    }

    /** ws_buffer_free. */
    method Free(i: int)
      requires Valid() && -1 <= i < slots.Length
      modifies this`allocatedSize, slots
      ensures Valid() && slots[..] == if i >= 0 then old(slots[..])[i := FREE] else old(slots[..])
    {
      if i >= 0 {
        TotalAtLeast(slots[..], i);
        Write(i, FREE);
      }
    }

    /** ws_buffer_add: the first free slot takes the bytes, if there is one. */
    method Add(fd: int, data: seq<Byte>) returns (i: int)
      requires Valid() && fd > 0 && data != [] && SlotOf(slots[..], fd, 0) == -1
      requires allocatedSize + |data| <= MAX_BUFFER_SIZE
      modifies this`allocatedSize, slots
      ensures Valid() && i == SlotOf(old(slots[..]), 0, 0)
      ensures slots[..] == if i >= 0 then old(slots[..])[i := Slot(fd, [0, 0, 0, 0], |data|, 0, Some(data))]
                           else old(slots[..])
    {
      i := Find(0);
      if i >= 0 { Write(i, Slot(fd, [0, 0, 0, 0], |data|, 0, Some(data))); }
    }
  }
}
