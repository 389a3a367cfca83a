/** Singly linked chains of items, as the queue and the list share them. */
module Chain {

  class Item<T> {
    var data: T
    var next: Item?<T>

    constructor (data: T)
      ensures this.data == data && next == null
    {
      this.data, next := data, null;
    }
  }

  /**
   The items hold the data in order, each points to the one after it, none occurs twice, the ends are
   where the header says, and repr covers the items.
   */
  ghost predicate Linked<T>(items: seq<Item<T>>, data: seq<T>, repr: set<Item<T>>, first: Item?<T>, last: Item?<T>)
    reads items
  {
    && |items| == |data| && Distinct(items)
    && first == (if items == [] then null else items[0])
    && last == (if items == [] then null else items[|items| - 1])
    && (forall i {:trigger items[i] in repr} :: 0 <= i < |items| ==> items[i] in repr)
    && (forall i {:trigger items[i].next} :: 0 <= i < |items| ==> items[i].next == Next(items, i))
    && (forall i {:trigger items[i].data} :: 0 <= i < |items| ==> items[i].data == data[i])
  }

  // Distinctness is stated through At so that the solver compares items only where a lemma asks for it.
  ghost function At<T>(items: seq<Item<T>>, i: nat): Item<T>
    requires i < |items|
  {
    items[i]
  }

  ghost predicate Distinct<T>(items: seq<Item<T>>) {
    forall i, j {:trigger At(items, i), At(items, j)} :: 0 <= i < j < |items| ==> At(items, i) != At(items, j)
  }

  lemma {:induction false} DistinctFrom<T>(items: seq<Item<T>>, i: nat)
    requires Distinct(items) && i < |items|
    ensures forall k {:trigger items[k]} :: 0 <= k < |items| && k != i ==> items[k] != items[i]
  {
    forall k | 0 <= k < |items| && k != i ensures items[k] != items[i] {
      assert At(items, k) != At(items, i);
    }
  }

  lemma {:induction false} DistinctWithout<T>(items: seq<Item<T>>, i: nat)
    requires Distinct(items) && i < |items|
    ensures Distinct(Without(items, i))
  {
    var s := Without(items, i);
    forall j, k | 0 <= j < k < |s| ensures At(s, j) != At(s, k) {
      assert At(items, if j < i then j else j + 1) != At(items, if k < i then k else k + 1);
    }
  }

  lemma {:induction false} DistinctTail<T>(items: seq<Item<T>>)
    requires Distinct(items) && items != []
    ensures Distinct(items[1..])
    ensures |items| > 1 ==> items[0] != items[|items| - 1]
  {
    var s := items[1..];
    forall j, k | 0 <= j < k < |s| ensures At(s, j) != At(s, k) {
      assert At(items, j + 1) != At(items, k + 1);
    }
    if |items| > 1 { assert At(items, 0) != At(items, |items| - 1); }
  }

  lemma {:induction false} DistinctWith<T>(items: seq<Item<T>>, x: Item<T>)
    requires Distinct(items) && x !in items
    ensures Distinct(items + [x]) && Distinct([x] + items)
  {
    var s, t := items + [x], [x] + items;
    forall j, k | 0 <= j < k < |s| ensures At(s, j) != At(s, k) {
      if k < |items| { assert At(items, j) != At(items, k); }
    }
    forall j, k | 0 <= j < k < |t| ensures At(t, j) != At(t, k) {
      if j > 0 { assert At(items, j - 1) != At(items, k - 1); }
    }
  }

  ghost function Next<T>(items: seq<Item<T>>, i: nat): Item?<T>
    requires i < |items|
  {
    if i + 1 < |items| then items[i + 1] else null
  }

  function Without<T>(s: seq<T>, i: nat): seq<T>
    requires i < |s|
  {
    s[..i] + s[i + 1..]
  }

  lemma {:induction false} LinkedItem<T>(items: seq<Item<T>>, data: seq<T>, repr: set<Item<T>>, first: Item?<T>,
                                         last: Item?<T>, i: nat)
    requires Linked(items, data, repr, first, last) && i < |items|
    ensures items[i] in repr && (items[i] == last <==> i == |items| - 1)
    ensures forall k {:trigger items[k]} :: 0 <= k < |items| && k != i ==> items[k] != items[i]
  {
    DistinctFrom(items, |items| - 1);
    DistinctFrom(items, i);
  }

  /** All links are those of the chain, except that the item at position i is bypassed. */
  ghost predicate Bypassing<T>(items: seq<Item<T>>, i: nat)
    requires i < |items|
    reads items
  {
    && (forall k {:trigger items[k].next} :: 0 <= k < |items| && k != i - 1 ==> items[k].next == Next(items, k))
    && (i > 0 ==> items[i - 1].next == Next(items, i))
  }

  /** Then the others are a chain, if the ends are moved where they were that item. */
  lemma {:induction false} LinkedWithout<T>(items: seq<Item<T>>, data: seq<T>, repr: set<Item<T>>, i: nat, first: Item?<T>,
                                            last: Item?<T>)
    requires i < |items| == |data| && Distinct(items) && Bypassing(items, i)
    requires forall k {:trigger items[k] in repr} :: 0 <= k < |items| ==> items[k] in repr
    requires forall k {:trigger items[k].data} :: 0 <= k < |items| ==> items[k].data == data[k]
    requires first == if i == 0 then Next(items, 0) else items[0]
    requires last == if i < |items| - 1 then items[|items| - 1] else if i == 0 then null else items[i - 1]
    ensures Linked(Without(items, i), Without(data, i), repr, first, last)
  {
    DistinctWithout(items, i);
    var s, d := Without(items, i), Without(data, i);
    forall k | 0 <= k < |s| ensures s[k] in repr && s[k].next == Next(s, k) && s[k].data == d[k] {
      var j := if k < i then k else k + 1;
      assert s[k] == items[j] && d[k] == data[j] && items[j] in repr;
    }
  }
}
