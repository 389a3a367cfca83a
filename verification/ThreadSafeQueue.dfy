/** The queue behind a lock: each operation is what one thread does while it holds the lock. */
module ThreadSafeQueue {
  import opened Seqs
  import opened Queue
  import opened GeneralList

  class TsQueue<T> {
    const q: Queue<T>
    /** The signals sent so far to threads that wait for elements. */
    ghost var signals: nat

    ghost predicate Valid()
      reads this, q, q.items
    {
      q.Valid()
    }

    constructor ()
      ensures Valid() && fresh(q) && q.contents == [] && q.Repr == {} && signals == 0
    {
      q := new Queue();
      signals := 0;
    }

    method Enqueue(x: T)
      requires Valid()
      modifies this, q, q.Repr`next
      ensures Valid() && q.contents == old(q.contents) + [x] && signals == old(signals) + 1
      ensures fresh(q.Repr - old(q.Repr))
    {
      q.Enqueue(x);
      signals := signals + 1;
    }

    method PutHead(x: T)
      requires Valid()
      modifies this, q, q.Repr`next
      ensures Valid() && q.contents == [x] + old(q.contents) && signals == old(signals) + 1
      ensures fresh(q.Repr - old(q.Repr))
    {
      q.PutHead(x);
      signals := signals + 1;
    }

    /** All elements of a list behind the queue, with one signal if there are any. */
    method EnqueueMultiple(newItems: List<T>)
      requires Valid() && newItems.Valid() && newItems.Repr !! q.Repr
      modifies this, q, q.Repr`next
      ensures Valid() && newItems.Valid() && q.contents == old(q.contents) + newItems.contents
      ensures signals == old(signals) + (if newItems.contents == [] then 0 else 1)
      ensures fresh(q.Repr - old(q.Repr))
    {
      var first := newItems.first;
      ghost var was, i := q.contents, 0;
      if first != null { signals := signals + 1; }
      while first != null
        invariant Valid() && newItems.Valid() && newItems.Repr !! q.Repr && fresh(q.Repr - old(q.Repr))
        invariant 0 <= i <= |newItems.contents| && q.contents == was + newItems.contents[..i]
        invariant first == if i == |newItems.items| then null else newItems.items[i]
        invariant signals == old(signals) + (if newItems.contents == [] then 0 else 1)
        decreases |newItems.contents| - i
      {
        assert newItems.contents[..i + 1] == newItems.contents[..i] + [newItems.contents[i]];
        Regroup(was, newItems.contents[..i], [newItems.contents[i]]);
        q.Enqueue(first.data);
        first := first.next;
        i := i + 1;
      }
      assert newItems.contents[..i] == newItems.contents;
    }

    method EnqueueLimited(x: T, limit: nat) returns (r: int)
      requires Valid()
      modifies this, q, q.Repr`next
      ensures Valid() && fresh(q.Repr - old(q.Repr))
      ensures if |old(q.contents)| < limit
              then r == 0 && q.contents == old(q.contents) + [x] && signals == old(signals) + 1
              else r == -1 && q.contents == old(q.contents) && signals == old(signals)
    {
      r := 0;
      if q.size < limit {
        q.Enqueue(x);
        signals := signals + 1;
      } else {
        r := -1;
      }
    }

    /** None: the thread gives the lock up and waits. */
    method Dequeue() returns (x: Option<T>)
      requires Valid()
      modifies q
      ensures Valid() && q.Repr == old(q.Repr)
      ensures old(q.contents) == [] ==> x == None && q.contents == []
      ensures old(q.contents) != [] ==> x == Some(old(q.contents)[0]) && q.contents == old(q.contents)[1..]
    {
      if q.size == 0 { return None; }
      x := q.Dequeue();
    }
  }
}
