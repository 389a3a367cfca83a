/**
 The associative array in place: items linked by mutable child pointers. Every operation is proved
 against the value-level tree of AssocTree, of which each item keeps a ghost copy.
 */
module AssocArray {
  import opened CString
  import opened Seqs
  import opened AssocTree

  class Item {
    var height: int
    var key: string
    var value: string
    var left: Item?
    var right: Item?
    ghost var tree: Tree
    ghost var Repr: set<Item>

    /** The footprint covers the children's, which are apart from each other and from this item. */
    ghost predicate Framed()
      reads this, Repr
      ensures Framed() ==> this in Repr
    {
      && this in Repr
      && (left != null ==> left in Repr && left.Repr <= Repr && this !in left.Repr)
      && (right != null ==> right in Repr && right.Repr <= Repr && this !in right.Repr)
      && (left != null && right != null ==> left.Repr !! right.Repr)
    }

    ghost predicate Valid()
      reads this, Repr
      ensures Valid() ==> this in Repr && tree.Node? && tree.height == height >= 1
      decreases Repr
    {
      && Framed()
      && (left != null ==> left.Valid())
      && (right != null ==> right.Valid())
      && tree == Node(key, value, TreeOf(left), TreeOf(right), height)
      && height >= 1
    }

    /** Valid below, but this item's own height may be out of date. */
    ghost predicate Linked()
      reads this, Repr
      ensures Linked() ==> this in Repr
    {
      && Framed()
      && (left != null ==> left.Valid())
      && (right != null ==> right.Valid())
    }

    static ghost function TreeOf(n: Item?): Tree
      reads n
    {
      if n == null then Leaf else n.tree
    }

    static ghost function ReprOf(n: Item?): set<Item>
      reads n
    {
      if n == null then {} else n.Repr
    }

    constructor (key: string, value: string)
      ensures Valid() && fresh(Repr) && Repr == {this}
      ensures tree == Node(key, value, Leaf, Leaf, 1)
    {
      this.key, this.value := key, value;
      left, right := null, null;
      height := 1;
      tree := Node(key, value, Leaf, Leaf, 1);
      Repr := {this};
    }

    /** max_h: the larger stored height of the children. */
    function MaxH(): int
      reads this, left, right
    {
      var ret := if left != null && left.height != 0 then left.height else 0;
      if right != null && right.height > ret then right.height else ret
    }

    function BalanceOf(): (b: int)
      requires Valid()
      reads Repr
      ensures b == Balance(tree)
    {
      var l := if left != null && left.height != 0 then left.height else 0;
      var r := if right != null && right.height != 0 then right.height else 0;
      r - l
    }

    /** What may be hung below an item: valid, apart from it. */
    ghost predicate CanHang(c: Item?)
      reads c, ReprOf(c)
    {
      c != null ==> c.Valid() && this !in c.Repr
    }

    /** Hangs two children below this item and stores the height that they give. */
    method Hang(l: Item?, r: Item?, ghost repr: set<Item>)
      requires CanHang(l) && CanHang(r) && ReprOf(l) !! ReprOf(r)
      requires this in repr && ReprOf(l) <= repr && ReprOf(r) <= repr
      modifies this
      ensures left == l && right == r && key == old(key) && value == old(value)
      ensures Valid() && Repr == repr
      ensures tree == Join(key, value, TreeOf(l), TreeOf(r))
    {
      left, right, Repr := l, r, repr;
      height := MaxH() + 1;
      tree := Node(key, value, TreeOf(left), TreeOf(right), height);
    }

    /** The value of an item whose own height is not yet up to date. */
    ghost function Pending(): Tree
      reads this, left, right
    {
      Node(key, value, TreeOf(left), TreeOf(right), 0)
    }

    static method RotateRight(node: Item) returns (top: Item)
      requires node.Linked() && node.left != null
      modifies node, node.left
      ensures top == old(node.left) && top.Valid() && top.Repr == old(node.Repr)
      ensures top.tree == AssocTree.RotateRight(old(node.Pending()))
    {
      ghost var repr := node.Repr;
      top := node.left;
      node.Hang(top.right, node.right, {node} + ReprOf(top.right) + ReprOf(node.right));
      top.Hang(top.left, node, repr);
    }

    static method RotateLeft(node: Item) returns (top: Item)
      requires node.Linked() && node.right != null
      modifies node, node.right
      ensures top == old(node.right) && top.Valid() && top.Repr == old(node.Repr)
      ensures top.tree == AssocTree.RotateLeft(old(node.Pending()))
    {
      ghost var repr := node.Repr;
      top := node.right;
      node.Hang(node.left, top.left, {node} + ReprOf(node.left) + ReprOf(top.left));
      top.Hang(node, top.right, repr);
    }

    /** The first half of the double rotations: the child is rotated where it hangs. */
    static method TurnLeftChild(node: Item)
      requires node.Linked() && node.left != null && node.left.right != null
      modifies node, node.left, node.left.right
      ensures node.Linked() && node.Repr == old(node.Repr) && node.left == old(node.left.right)
      ensures node.Pending()
        == Node(old(node.key), old(node.value), AssocTree.RotateLeft(old(node.left.tree)), old(TreeOf(node.right)), 0)
    {
      node.left := RotateLeft(node.left);
    }

    static method TurnRightChild(node: Item)
      requires node.Linked() && node.right != null && node.right.left != null
      modifies node, node.right, node.right.left
      ensures node.Linked() && node.Repr == old(node.Repr) && node.right == old(node.right.left)
      ensures node.Pending()
        == Node(old(node.key), old(node.value), old(TreeOf(node.left)), AssocTree.RotateRight(old(node.right.tree)), 0)
    {
      node.right := RotateRight(node.right);
    }

    static method RotateLeftRight(node: Item) returns (top: Item)
      requires node.Linked() && node.left != null && node.left.right != null
      modifies node, node.left, node.left.right
      ensures top.Valid() && top.Repr == old(node.Repr)
      ensures top.tree == AssocTree.RotateLeftRight(old(node.Pending()))
    {
      TurnLeftChild(node);
      top := RotateRight(node);
    }

    static method RotateRightLeft(node: Item) returns (top: Item)
      requires node.Linked() && node.right != null && node.right.left != null
      modifies node, node.right, node.right.left
      ensures top.Valid() && top.Repr == old(node.Repr)
      ensures top.tree == AssocTree.RotateRightLeft(old(node.Pending()))
    {
      TurnRightChild(node);
      top := RotateLeft(node);
    }

    /** The tail of an insertion that created an item: new height, then at most one rotation. */
    static method Rebalance(a: Item) returns (top: Item)
      requires a.Linked() && CanRebalance(a.Pending())
      modifies a.Repr
      ensures top.Valid() && top.Repr == old(a.Repr)
      ensures top.tree == AssocTree.Rebalance(old(a.Pending()))
    {
      a.Hang(a.left, a.right, a.Repr);
      var b := a.BalanceOf();
      if b < -1 {
        if a.left.BalanceOf() <= 0 {
          top := RotateRight(a);
        } else {
          top := RotateLeftRight(a);
        }
      } else if b > 1 {
        if a.right.BalanceOf() >= 0 {
          top := RotateLeft(a);
        } else {
          top := RotateRightLeft(a);
        }
      } else {
        top := a;
      }
    }

    /** Brings an item whose children were just updated back in order. */
    static method Finish(a: Item, created: bool) returns (top: Item)
      requires a.Linked() && CanRebalance(a.Pending()) && a.height >= 1
      modifies a.Repr
      ensures top.Valid() && top.Repr == old(a.Repr)
      ensures top.tree == AssocTree.Finish(old(a.Pending()).(height := old(a.height)), created).0
    {
      if created {
        top := Rebalance(a);
      } else {
        top := a;
        a.tree := Node(a.key, a.value, TreeOf(a.left), TreeOf(a.right), a.height);
      }
    }

    /** Insertion below a pointer, the root's or a child's: a missing item is created. */
    static method SetOrPutBelow(n: Item?, key: string, value: string) returns (top: Item, created: bool)
      requires n != null ==> n.Valid()
      requires HeightsExact(TreeOf(n))
      modifies ReprOf(n)
      ensures top.Valid() && fresh(top.Repr - old(ReprOf(n)))
      ensures (top.tree, created) == Put(old(TreeOf(n)), key, value)
      decreases ReprOf(n), 3
    {
      if n == null {
        top := new Item(key, value);
        created := true;
      } else {
        top, created := SetOrPut(n, key, value);
      }
    }

    method PutLeft(key: string, value: string) returns (created: bool)
      requires Valid() && HeightsExact(tree)
      modifies Repr
      ensures Linked() && fresh(Repr - old(Repr)) && height == old(height)
      ensures var (l, c) := Put(old(tree.left), key, value);
        Pending() == old(Pending()).(left := l) && created == c
      decreases Repr, 1
    {
      hide AssocTree.Put;
      left, created := SetOrPutBelow(left, key, value);
      Repr := Repr + left.Repr;
    }

    method PutRight(key: string, value: string) returns (created: bool)
      requires Valid() && HeightsExact(tree)
      modifies Repr
      ensures Linked() && fresh(Repr - old(Repr)) && height == old(height)
      ensures var (r, c) := Put(old(tree.right), key, value);
        Pending() == old(Pending()).(right := r) && created == c
      decreases Repr, 1
    {
      hide AssocTree.Put;
      right, created := SetOrPutBelow(right, key, value);
      Repr := Repr + right.Repr;
    }

    /**
     aa_set_or_put_item: the item that takes a's place below its parent is returned, where the
     original writes it through the parent's pointer.
     */
    static method SetOrPut(a: Item, key: string, value: string) returns (top: Item, created: bool)
      requires a.Valid() && HeightsExact(a.tree)
      modifies a.Repr
      ensures top.Valid() && fresh(top.Repr - old(a.Repr))
      ensures (top.tree, created) == Put(old(a.tree), key, value)
      decreases a.Repr, 2
    {
      var c := StrCmp(key, a.key);
      created := false;
      if c == 0 {
        a.value := value;
      } else if c < 0 {
        created := a.PutLeft(key, value);
      } else {
        created := a.PutRight(key, value);
      }
      top := Finish(a, created);
    }
  }

  /** aa_has: the 1-based depth of the key below n, 0 if it is missing. */
  function Has(n: Item?, key: string): (depth: nat)
    requires n != null ==> n.Valid()
    reads n, if n == null then {} else n.Repr
    ensures depth == AssocTree.Has(Item.TreeOf(n), key)
    decreases Item.ReprOf(n)
  {
    if n == null then 0
    else
      var c := StrCmp(key, n.key);
      if c == 0 then 1
      else
        var found := if c < 0 then Has(n.left, key) else Has(n.right, key);
        if found > 0 then found + 1 else found
  }

  /** aa_get: the item that holds the key. */
  function Get(n: Item?, key: string): (item: Item?)
    requires n != null ==> n.Valid()
    reads n, if n == null then {} else n.Repr
    ensures (if item == null then None else Some(item.value)) == AssocTree.Get(Item.TreeOf(n), key)
    decreases Item.ReprOf(n)
  {
    if n == null then null
    else
      var c := StrCmp(key, n.key);
      if c == 0 then n
      else if c < 0 then Get(n.left, key)
      else Get(n.right, key)
  }

  class AssociativeArray {
    var root: Item?

    ghost predicate Valid()
      reads this, root, Item.ReprOf(root)
    {
      (root != null ==> root.Valid()) && WellFormed(Tree())
    }

    ghost function Tree(): Tree
      reads this, root
    {
      Item.TreeOf(root)
    }

    /** The items of the array; the header itself is not among them. */
    ghost function Items(): set<Item>
      reads this, root
    {
      Item.ReprOf(root)
    }

    constructor ()
      ensures Valid() && Tree() == Leaf && Items() == {}
    {
      root := null;
    }

    /** aa_put: PutCorrect says what the new tree means. */
    method Put(key: string, value: string)
      requires Valid()
      modifies this, Items()
      ensures Valid() && fresh(Items() - old(Items()))
      ensures Tree() == AssocTree.Put(old(Tree()), key, value).0
    {
      PutWellFormed(Tree(), key, value);
      var created;
      root, created := Item.SetOrPutBelow(root, key, value);
    }

    /** aa_merge: every item below `tree` is put, parent before children, left before right. */
    method Merge(tree: Item)
      requires Valid() && tree.Valid() && Items() !! tree.Repr
      modifies this, Items()
      ensures Valid() && fresh(Items() - old(Items()))
      ensures Tree() == AssocTree.Merge(old(Tree()), tree.tree)
      decreases tree.Repr
    {
      hide AssocTree.Merge, AssocTree.Put;
      ghost var t := Tree();
      MergeSteps(t, tree.tree);
      Put(tree.key, tree.value);
      if tree.left != null { Merge(tree.left); } else { MergeNothing(Tree()); }
      if tree.right != null { Merge(tree.right); } else { MergeNothing(Tree()); }
    }
  }
}
