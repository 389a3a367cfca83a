/** The general list: a chain that is appended to and unlinked by index. */
module GeneralList {
  import opened Seqs
  import opened Chain

  class List<T> {
    var first: Item?<T>
    var last: Item?<T>
    var size: int
    ghost var contents: seq<T>
    ghost var items: seq<Item<T>>
    ghost var Repr: set<Item<T>>

    ghost predicate Valid()
      reads this, items
    {
      Linked(items, contents, Repr, first, last) && size == |items|
    }

    /** list_new. */
    constructor ()
      ensures Valid() && contents == [] && Repr == {}
    {
      first, last, size := null, null, 0;
      contents, items, Repr := [], [], {};
    }

    /** list_add. */
    method Add(x: T)
      requires Valid()
      modifies this, Repr`next
      ensures Valid() && contents == old(contents) + [x] && fresh(Repr - old(Repr))
    {
      var item := new Item(x);
      DistinctWith(items, item);
      if last != null {
        DistinctFrom(items, |items| - 1);
        assert items[|items| - 1] in Repr;
        size := size + 1;
        last.next := item;
        last := item;
      } else {
        first, last, size := item, item, 1;
      }
      contents, items, Repr := contents + [x], items + [item], Repr + {item};
    }

    /** The unlinking that the list and its users spell out: the item at position i follows p. */
    method Unchain(p: Item?<T>, c: Item<T>, ghost i: nat)
      requires Valid() && i < |items| && c == items[i]
      requires p == if i == 0 then null else items[i - 1]
      modifies this, Repr`next
      ensures Valid() && Repr == old(Repr)
      ensures items == Without(old(items), i) && contents == Without(old(contents), i)
      ensures c.next == old(c.next)
    {
      LinkedItem(items, contents, Repr, first, last, i);
      if i > 0 { LinkedItem(items, contents, Repr, first, last, i - 1); }
      if p == null {
        first := c.next;
      } else {
        p.next := c.next;
      }
      if last == c { last := p; }
      size := size - 1;
      LinkedWithout(items, contents, Repr, i, first, last);
      contents, items := Without(contents, i), Without(items, i);
    }

    /** list_unchain_at. */
    method UnchainAt(ix: int) returns (data: Option<T>)
      requires Valid()
      modifies this, Repr`next
      ensures Valid() && Repr == old(Repr)
      ensures if 0 <= ix < |old(contents)|
              then data == Some(old(contents)[ix]) && contents == Without(old(contents), ix)
              else data == None && contents == old(contents)
    {
      if ix < 0 || ix >= size { return None; }
      var current, p := first, null;
      var i := 0;
      while i < ix
        invariant 0 <= i <= ix && current == items[i]
        invariant p == if i == 0 then null else items[i - 1]
      {
        i := i + 1;
        p := current;
        current := current.next;
      }
      data := Some(current.data);
      Unchain(p, current, ix);
    }
  }

  // ---------------------------------------------------------------- walking over a list

  /** A walk over the list has i items behind it and stands at the first of those ahead. */
  ghost predicate Ahead<T>(list: List<T>, item: Item?<T>, i: nat, ahead: seq<T>)
    reads list, list.items
  {
    && list.Valid() && i + |ahead| == |list.contents| && ahead == list.contents[i..]
    && item == if ahead == [] then null else list.items[i]
  }

  lemma {:induction false} AheadOn<T>(list: List<T>, item: Item<T>, i: nat, ahead: seq<T>)
    requires Ahead(list, item, i, ahead)
    ensures ahead != [] && item.data == ahead[0] && Ahead(list, item.next, i + 1, ahead[1..])
  {
  }

  lemma AheadAtEnd<T>(list: List<T>, i: nat, ahead: seq<T>)
    requires Ahead(list, null, i, ahead)
    ensures list.Valid() && ahead == [] && i == |list.contents|
  {
  }
}
