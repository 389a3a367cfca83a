/** The queue: a chain with both ends and a size. */
module Queue {
  import opened Seqs
  import opened Chain

  class Queue<T> {
    var first: Item?<T>
    var last: Item?<T>
    var size: int
    ghost var contents: seq<T>
    ghost var items: seq<Item<T>>
    ghost var Repr: set<Item<T>>

    ghost predicate Valid()
      reads this, items
    {
      Linked(items, contents, Repr, first, last) && size == |items|
    }

    /** queue_init. */
    constructor ()
      ensures Valid() && contents == [] && Repr == {}
    {
      first, last, size := null, null, 0;
      contents, items, Repr := [], [], {};
    }

    method Enqueue(x: T)
      requires Valid()
      modifies this, Repr`next
      ensures Valid() && contents == old(contents) + [x] && fresh(Repr - old(Repr))
    {
      var item := new Item(x);
      DistinctWith(items, item);
      if size == 0 {
        first, last := item, item;
      } else {
        DistinctFrom(items, |items| - 1);
        assert items[|items| - 1] in Repr;
        last.next := item;
        last := item;
      }
      contents, items, Repr := contents + [x], items + [item], Repr + {item};
      size := size + 1;
    }

    method PutHead(x: T)
      requires Valid()
      modifies this
      ensures Valid() && contents == [x] + old(contents) && fresh(Repr - old(Repr))
    {
      var item := new Item(x);
      DistinctWith(items, item);
      item.next := first;
      first := item;
      if size == 0 { last := first; }
      contents, items, Repr := [x] + contents, [item] + items, Repr + {item};
      size := size + 1;
    }

    /** enqueue_limited. */
    method EnqueueLimited(x: T, limit: nat) returns (ok: bool)
      requires Valid()
      modifies this, Repr`next
      ensures Valid() && ok == (|old(contents)| < limit) && fresh(Repr - old(Repr))
      ensures contents == if ok then old(contents) + [x] else old(contents)
    {
      ok := size < limit;
      if ok { Enqueue(x); }
    }

    method Dequeue() returns (x: Option<T>)
      requires Valid()
      modifies this
      ensures Valid() && Repr == old(Repr)
      ensures old(contents) == [] ==> x == None && contents == []
      ensures old(contents) != [] ==> x == Some(old(contents)[0]) && contents == old(contents)[1..]
    {
      var head := first;
      if head == null { return None; }
      DistinctTail(items);
      x := Some(head.data);
      first := head.next;
      if last == head { last := null; }
      contents, items := contents[1..], items[1..];
      size := size - 1;
    }

    /** unchain_child: unlinks the item at position i; its own link is left as it was. */
    method UnchainChild(parent: Item?<T>, child: Item<T>, ghost i: nat)
      requires Valid() && i < |items| && child == items[i]
      requires parent == if i == 0 then null else items[i - 1]
      modifies this, Repr`next
      ensures Valid() && Repr == old(Repr)
      ensures items == Without(old(items), i) && contents == Without(old(contents), i)
      ensures child.next == old(child.next)
    {
      LinkedItem(items, contents, Repr, first, last, i);
      if i > 0 { LinkedItem(items, contents, Repr, first, last, i - 1); }
      size := size - 1;
      if parent == null {
        first := child.next;
      } else {
        parent.next := child.next;
      }
      if last == child { last := parent; }
      LinkedWithout(items, contents, Repr, i, first, last);
      contents, items := Without(contents, i), Without(items, i);
    }
  }

  // ---------------------------------------------------------------- walking over a queue

  /** The scan has skipped some items and stands at the first of those ahead. */
  ghost predicate Scanning<T>(q: Queue<T>, parent: Item?<T>, cursor: Item?<T>,
                           skipped: seq<T>, ahead: seq<T>)
    reads q, q.items
  {
    && q.Valid() && q.contents == skipped + ahead
    && parent == (if skipped == [] then null else q.items[|skipped| - 1])
    && cursor == (if ahead == [] then null else q.items[|skipped|])
  }

  method TakeOut<T>(q: Queue<T>, parent: Item?<T>, cursor: Item<T>,
                 ghost skipped: seq<T>, ghost ahead: seq<T>) returns (next: Item?<T>)
    requires Scanning(q, parent, cursor, skipped, ahead)
    modifies q, q.Repr`next
    ensures ahead != [] && Scanning(q, parent, next, skipped, ahead[1..])
    ensures q.Repr == old(q.Repr)
  {
    q.UnchainChild(parent, cursor, |skipped|);
    next := cursor.next;
  }

  lemma {:induction false} SkipOne<T>(q: Queue<T>, parent: Item?<T>, cursor: Item<T>,
                skipped: seq<T>, ahead: seq<T>)
    requires Scanning(q, parent, cursor, skipped, ahead)
    ensures ahead != [] && cursor.data == ahead[0]
    ensures Scanning(q, cursor, cursor.next, skipped + [ahead[0]], ahead[1..])
  {
  }
}
