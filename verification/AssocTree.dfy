/**
 The height-balanced tree behind the associative array, as a value: what each step of insertion
 turns the tree into, and why the result is again a balanced search tree for the updated map.
 */
module AssocTree {
  import opened Bytes
  import opened CString
  import opened Seqs

  datatype Tree = Leaf | Node(key: string, value: string, left: Tree, right: Tree, height: int)

  /** The stored height of a possibly absent child. */
  function H(t: Tree): int {
    if t.Leaf? then 0 else t.height
  }

  function Max(a: int, b: int): int {
    if a > b then a else b
  }

  function Balance(t: Tree): int
    requires t.Node?
  {
    H(t.right) - H(t.left)
  }

  /** A node with the height that its children give. */
  function Join(key: string, value: string, l: Tree, r: Tree): Tree {
    Node(key, value, l, r, Max(H(l), H(r)) + 1)
  }

  predicate HeightsExact(t: Tree) {
    t.Node? ==>
      && HeightsExact(t.left) && HeightsExact(t.right)
      && t.height == Max(H(t.left), H(t.right)) + 1
  }

  lemma {:induction false} HeightPositive(t: Tree)
    requires HeightsExact(t)
    ensures H(t) >= 0 && (H(t) == 0 <==> t.Leaf?)
  {
    if t.Node? {
      HeightPositive(t.left);
      HeightPositive(t.right);
    }
  }

  // ---------------------------------------------------------------- rotations

  function RotateRight(t: Tree): Tree
    requires t.Node? && t.left.Node?
  {
    var tmp := t.left;
    Join(tmp.key, tmp.value, tmp.left, Join(t.key, t.value, tmp.right, t.right))
  }

  function RotateLeft(t: Tree): Tree
    requires t.Node? && t.right.Node?
  {
    var tmp := t.right;
    Join(tmp.key, tmp.value, Join(t.key, t.value, t.left, tmp.left), tmp.right)
  }

  function RotateLeftRight(t: Tree): Tree
    requires t.Node? && t.left.Node? && t.left.right.Node?
  {
    RotateRight(t.(left := RotateLeft(t.left)))
  }

  function RotateRightLeft(t: Tree): Tree
    requires t.Node? && t.right.Node? && t.right.left.Node?
  {
    RotateLeft(t.(right := RotateRight(t.right)))
  }

  predicate CanRebalance(t: Tree) {
    t.Node? && HeightsExact(t.left) && HeightsExact(t.right)
  }

  /** The block run after a new item was created below `t`: new height, then at most one rotation. */
  function Rebalance(t: Tree): Tree
    requires CanRebalance(t)
  {
    var a := Join(t.key, t.value, t.left, t.right);
    HeightPositive(a.left); HeightPositive(a.right);
    var b := Balance(a);
    if b < -1 then
      HeightPositive(a.left.left); HeightPositive(a.left.right);
      if Balance(a.left) <= 0 then RotateRight(a) else RotateLeftRight(a)
    else if b > 1 then
      HeightPositive(a.right.left); HeightPositive(a.right.right);
      if Balance(a.right) >= 0 then RotateLeft(a) else RotateRightLeft(a)
    else a
  }

  lemma RotationsExact(t: Tree)
    requires CanRebalance(t)
    ensures t.left.Node? ==> HeightsExact(RotateRight(t))
    ensures t.right.Node? ==> HeightsExact(RotateLeft(t))
  {
  }

  lemma {:induction false} RebalanceExact(t: Tree)
    requires CanRebalance(t)
    ensures HeightsExact(Rebalance(t))
  {
    var a := Join(t.key, t.value, t.left, t.right);
    RotationsExact(a);
    HeightPositive(a.left);
    HeightPositive(a.right);
    if a.left.Node? && a.left.right.Node? {
      RotationsExact(a.left);
      RotationsExact(a.(left := RotateLeft(a.left)));
    }
    if a.right.Node? && a.right.left.Node? {
      RotationsExact(a.right);
      RotationsExact(a.(right := RotateRight(a.right)));
    }
  }

  /** Insertion or update; the flag says whether a new item was created. */
  function Put(t: Tree, key: string, value: string): (r: (Tree, bool))
    requires HeightsExact(t)
    ensures HeightsExact(r.0) && r.0.Node?
    ensures !r.1 ==> H(r.0) == H(t)
  {
    if t.Leaf? then (Node(key, value, Leaf, Leaf, 1), true)
    else
      var c := StrCmp(key, t.key);
      if c == 0 then (t.(value := value), false)
      else if c < 0 then
        var (l, created) := Put(t.left, key, value);
        Finish(t.(left := l), created)
      else
        var (r, created) := Put(t.right, key, value);
        Finish(t.(right := r), created)
  }

  function Finish(t: Tree, created: bool): (r: (Tree, bool))
    requires CanRebalance(t)
    ensures r.1 == created
    ensures created ==> HeightsExact(r.0) && r.0.Node?
    ensures !created ==> r.0 == t
  {
    if created then RebalanceExact(t); (Rebalance(t), true) else (t, false)
  }

  // ---------------------------------------------------------------- what a tree means

  function Keys(t: Tree): set<string> {
    if t.Leaf? then {} else Keys(t.left) + {t.key} + Keys(t.right)
  }

  predicate Below(ks: set<string>, k: string) {
    forall x :: x in ks ==> Less(x, k)
  }

  predicate Above(ks: set<string>, k: string) {
    forall x :: x in ks ==> Less(k, x)
  }

  predicate Ordered(t: Tree) {
    t.Node? ==>
      && Ordered(t.left) && Ordered(t.right)
      && Below(Keys(t.left), t.key) && Above(Keys(t.right), t.key)
  }

  predicate Balanced(t: Tree) {
    t.Node? ==> Balanced(t.left) && Balanced(t.right) && -1 <= Balance(t) <= 1
  }

  /** Strict search order, exact stored heights, balance factors in -1..1. */
  predicate WellFormed(t: Tree) {
    HeightsExact(t) && Ordered(t) && Balanced(t)
  }

  function ToMap(t: Tree): (m: map<string, string>)
    ensures m.Keys == Keys(t)
  {
    if t.Leaf? then map[] else (ToMap(t.left) + ToMap(t.right))[t.key := t.value]
  }

  // ---------------------------------------------------------------- rotations keep the meaning

  /** In a search tree no key occurs twice. */
  lemma {:induction false} KeysDisjoint(t: Tree)
    requires t.Node? && Ordered(t)
    ensures t.key !in Keys(t.left) && t.key !in Keys(t.right) && Keys(t.left) !! Keys(t.right)
  {
    Trichotomy(t.key, t.key);
    forall x | x in Keys(t.left) ensures x !in Keys(t.right) { Trichotomy(x, t.key); }
  }

  /** Joining three maps around two further keys gives the same map for either nesting. */
  lemma JoinsAgree<K, V>(l: map<K, V>, x: K, vx: V, m: map<K, V>, y: K, vy: V, r: map<K, V>)
    requires x != y && x !in m && x !in r && y !in l && y !in m
    ensures (l + (m + r)[y := vy])[x := vx] == ((l + m)[x := vx] + r)[y := vy]
  {
  }

  /** Updating a key that only one side of a join can hold. */
  lemma JoinUpdates<K, V>(l: map<K, V>, x: K, vx: V, r: map<K, V>, k: K, v: V)
    requires k != x
    ensures k !in r ==> (l[k := v] + r)[x := vx] == (l + r)[x := vx][k := v]
    ensures (l + r[k := v])[x := vx] == (l + r)[x := vx][k := v]
  {
  }

  lemma {:induction false} RotateRightMeaning(t: Tree)
    requires t.Node? && t.left.Node? && Ordered(t)
    ensures Ordered(RotateRight(t)) && ToMap(RotateRight(t)) == ToMap(t)
  {
    var tmp := t.left;
    assert tmp.key in Keys(t.left) && Keys(tmp.right) <= Keys(t.left);
    forall x | x in Keys(t.right) ensures Less(tmp.key, x) {
      LessTransitive(tmp.key, t.key, x);
    }
    KeysDisjoint(t);
    KeysDisjoint(tmp);
    JoinsAgree(ToMap(tmp.left), tmp.key, tmp.value, ToMap(tmp.right), t.key, t.value, ToMap(t.right));
  }

  lemma {:induction false} RotateLeftMeaning(t: Tree)
    requires t.Node? && t.right.Node? && Ordered(t)
    ensures Ordered(RotateLeft(t)) && ToMap(RotateLeft(t)) == ToMap(t)
  {
    var tmp := t.right;
    assert tmp.key in Keys(t.right) && Keys(tmp.left) <= Keys(t.right);
    forall x | x in Keys(t.left) ensures Less(x, tmp.key) {
      LessTransitive(x, t.key, tmp.key);
    }
    KeysDisjoint(t);
    KeysDisjoint(tmp);
    JoinsAgree(ToMap(t.left), t.key, t.value, ToMap(tmp.left), tmp.key, tmp.value, ToMap(tmp.right));
  }

  /** Swapping a subtree for one with the same meaning changes nothing the parent can see. */
  lemma {:induction false} SameMeaningLeft(t: Tree, l: Tree)
    requires t.Node? && Ordered(t) && Ordered(l) && ToMap(l) == ToMap(t.left)
    ensures Ordered(t.(left := l)) && ToMap(t.(left := l)) == ToMap(t)
  {
  }

  lemma {:induction false} SameMeaningRight(t: Tree, r: Tree)
    requires t.Node? && Ordered(t) && Ordered(r) && ToMap(r) == ToMap(t.right)
    ensures Ordered(t.(right := r)) && ToMap(t.(right := r)) == ToMap(t)
  {
  }

  /** All four rotation cases keep the search order and the map. */
  lemma {:induction false} RebalanceMeaning(t: Tree)
    requires CanRebalance(t) && Ordered(t)
    ensures Ordered(Rebalance(t)) && ToMap(Rebalance(t)) == ToMap(t)
  {
    var a := Join(t.key, t.value, t.left, t.right);
    HeightPositive(a.left);
    HeightPositive(a.right);
    assert Ordered(a) && ToMap(a) == ToMap(t);
    if Balance(a) < -1 {
      if Balance(a.left) <= 0 {
        RotateRightMeaning(a);
      } else {
        HeightPositive(a.left.left);
        HeightPositive(a.left.right);
        RotateLeftMeaning(a.left);
        SameMeaningLeft(a, RotateLeft(a.left));
        RotateRightMeaning(a.(left := RotateLeft(a.left)));
      }
    } else if Balance(a) > 1 {
      if Balance(a.right) >= 0 {
        RotateLeftMeaning(a);
      } else {
        HeightPositive(a.right.left);
        HeightPositive(a.right.right);
        RotateRightMeaning(a.right);
        SameMeaningRight(a, RotateRight(a.right));
        RotateLeftMeaning(a.(right := RotateRight(a.right)));
      }
    }
  }

  /** Heights of an exact node's children are non-negative, and one of them is one below it. */
  lemma ChildHeights(t: Tree)
    requires HeightsExact(t) && t.Node?
    ensures H(t.left) >= 0 && H(t.right) >= 0 && H(t) == Max(H(t.left), H(t.right)) + 1
    ensures (H(t.left) == 0 <==> t.left.Leaf?) && (H(t.right) == 0 <==> t.right.Leaf?)
  {
  }

  lemma {:induction false} LeftHeavyBalances(t: Tree)
    requires CanRebalance(t) && Balanced(t.left) && Balanced(t.right) && Balance(t) == -2
    ensures Balanced(Rebalance(t)) && H(t.left) <= H(Rebalance(t)) <= H(t.left) + 1
  {
    HeightPositive(t.right);
    ChildHeights(t.left);
    if Balance(t.left) > 0 { ChildHeights(t.left.right); }
  }

  lemma {:induction false} RightHeavyBalances(t: Tree)
    requires CanRebalance(t) && Balanced(t.left) && Balanced(t.right) && Balance(t) == 2
    ensures Balanced(Rebalance(t)) && H(t.right) <= H(Rebalance(t)) <= H(t.right) + 1
  {
    HeightPositive(t.left);
    ChildHeights(t.right);
    if Balance(t.right) < 0 { ChildHeights(t.right.left); }
  }

  /** One rotation repairs an imbalance of two, and costs at most the level that was gained. */
  lemma {:induction false} RebalanceBalances(t: Tree)
    requires CanRebalance(t) && Balanced(t.left) && Balanced(t.right)
    requires -2 <= Balance(t) <= 2
    ensures Balanced(Rebalance(t))
    ensures Max(H(t.left), H(t.right)) <= H(Rebalance(t)) <= Max(H(t.left), H(t.right)) + 1
    ensures -1 <= Balance(t) <= 1 ==> H(Rebalance(t)) == Max(H(t.left), H(t.right)) + 1
  {
    if Balance(t) == -2 {
      LeftHeavyBalances(t);
    } else if Balance(t) == 2 {
      RightHeavyBalances(t);
    }
  }

  // ---------------------------------------------------------------- insertion

  lemma {:induction false} UpdateLeft(t: Tree, l: Tree, key: string, value: string)
    requires t.Node? && Ordered(t) && Ordered(l) && Less(key, t.key)
    requires ToMap(l) == ToMap(t.left)[key := value]
    ensures Ordered(t.(left := l)) && ToMap(t.(left := l)) == ToMap(t)[key := value]
    ensures key in Keys(t) <==> key in Keys(t.left)
  {
    assert Keys(l) == Keys(t.left) + {key};
    assert key != t.key && key !in Keys(t.right) by {
      Trichotomy(key, t.key);
    }
    JoinUpdates(ToMap(t.left), t.key, t.value, ToMap(t.right), key, value);
  }

  lemma {:induction false} UpdateRight(t: Tree, r: Tree, key: string, value: string)
    requires t.Node? && Ordered(t) && Ordered(r) && Less(t.key, key)
    requires ToMap(r) == ToMap(t.right)[key := value]
    ensures Ordered(t.(right := r)) && ToMap(t.(right := r)) == ToMap(t)[key := value]
    ensures key in Keys(t) <==> key in Keys(t.right)
  {
    assert Keys(r) == Keys(t.right) + {key};
    assert key != t.key && key !in Keys(t.left) by {
      Trichotomy(t.key, key);
    }
    JoinUpdates(ToMap(t.left), t.key, t.value, ToMap(t.right), key, value);
  }

  /** Insertion keeps the search tree ordered, denotes the updated map and reports a new key exactly. */
  lemma {:induction false} PutMeaning(t: Tree, key: string, value: string)
    requires HeightsExact(t) && Ordered(t)
    ensures var (r, created) := Put(t, key, value);
      && Ordered(r) && ToMap(r) == ToMap(t)[key := value]
      && (created <==> key !in Keys(t))
  {
    if t.Node? {
      StrCmpZero(key, t.key);
      StrCmpFlip(key, t.key);
      if Less(key, t.key) {
        PutMeaning(t.left, key, value);
        var (l, created) := Put(t.left, key, value);
        UpdateLeft(t, l, key, value);
        if created { RebalanceMeaning(t.(left := l)); }
      } else if Less(t.key, key) {
        PutMeaning(t.right, key, value);
        var (r, created) := Put(t.right, key, value);
        UpdateRight(t, r, key, value);
        if created { RebalanceMeaning(t.(right := r)); }
      } else {
        assert key !in Keys(t.left) && key !in Keys(t.right) by { Trichotomy(key, key); }
      }
    }
  }

  /** Insertion keeps every balance in -1..1; the height grows by at most one, and only for a new key. */
  lemma {:induction false} PutBalances(t: Tree, key: string, value: string)
    requires HeightsExact(t) && Balanced(t)
    ensures var (r, created) := Put(t, key, value);
      && Balanced(r) && H(t) <= H(r) <= H(t) + 1 && (!created ==> H(r) == H(t))
  {
    if t.Node? {
      if StrCmp(key, t.key) < 0 {
        PutBalances(t.left, key, value);
        var (l, created) := Put(t.left, key, value);
        if created { RebalanceBalances(t.(left := l)); }
      } else if StrCmp(key, t.key) > 0 {
        PutBalances(t.right, key, value);
        var (r, created) := Put(t.right, key, value);
        if created { RebalanceBalances(t.(right := r)); }
      }
    }
  }

  /** The whole promise of one insertion on any well-formed tree. */
  lemma {:induction false} PutCorrect(t: Tree, key: string, value: string)
    requires WellFormed(t)
    ensures var (r, created) := Put(t, key, value);
      && WellFormed(r) && ToMap(r) == ToMap(t)[key := value]
      && (created <==> key !in ToMap(t))
      && H(t) <= H(r) <= H(t) + 1 && (key in ToMap(t) ==> H(r) == H(t))
  {
    PutMeaning(t, key, value);
    PutBalances(t, key, value);
  }

  lemma {:induction false} PutWellFormed(t: Tree, key: string, value: string)
    requires WellFormed(t)
    ensures WellFormed(Put(t, key, value).0)
  {
    PutCorrect(t, key, value);
  }

  // ---------------------------------------------------------------- runs of insertions, merging

  type Pairs = seq<(string, string)>

  /** Insertions in order. */
  function PutAll(t: Tree, ps: Pairs): (r: Tree)
    requires HeightsExact(t)
    ensures HeightsExact(r)
    decreases |ps|
  {
    if ps == [] then t else PutAll(Put(t, ps[0].0, ps[0].1).0, ps[1..])
  }

  /** The map that the same assignments, made in order, give. */
  function AssignAll(m: map<string, string>, ps: Pairs): map<string, string>
    decreases |ps|
  {
    if ps == [] then m else AssignAll(m[ps[0].0 := ps[0].1], ps[1..])
  }

  lemma {:induction false} PutAllCorrect(t: Tree, ps: Pairs)
    requires WellFormed(t)
    ensures WellFormed(PutAll(t, ps)) && ToMap(PutAll(t, ps)) == AssignAll(ToMap(t), ps)
    decreases |ps|
  {
    if ps != [] {
      PutCorrect(t, ps[0].0, ps[0].1);
      PutAllCorrect(Put(t, ps[0].0, ps[0].1).0, ps[1..]);
    }
  }

  /** The items of a tree in the order in which merging and printing visit them. */
  function Preorder(t: Tree): Pairs {
    if t.Leaf? then [] else [(t.key, t.value)] + Preorder(t.left) + Preorder(t.right)
  }

  lemma {:induction false} PutAllAppend(t: Tree, a: Pairs, b: Pairs)
    requires HeightsExact(t)
    ensures PutAll(t, a + b) == PutAll(PutAll(t, a), b)
    decreases |a|
  {
    if a == [] {
      assert a + b == b;
    } else {
      assert (a + b)[1..] == a[1..] + b;
      PutAllAppend(Put(t, a[0].0, a[0].1).0, a[1..], b);
    }
  }

  function Merge(target: Tree, tree: Tree): (r: Tree)
    requires HeightsExact(target)
    ensures HeightsExact(r)
  {
    PutAll(target, Preorder(tree))
  }

  lemma MergeNothing(target: Tree)
    requires HeightsExact(target)
    ensures Merge(target, Leaf) == target
  {
  }

  /** Merging is: put the root item, merge the left subtree, merge the right subtree. */
  lemma {:induction false} MergeSteps(target: Tree, tree: Tree)
    requires HeightsExact(target)
    ensures tree.Leaf? ==> Merge(target, tree) == target
    ensures tree.Node? ==>
      Merge(target, tree) == Merge(Merge(Put(target, tree.key, tree.value).0, tree.left), tree.right)
  {
    if tree.Node? {
      var head := [(tree.key, tree.value)];
      assert PutAll(target, head) == PutAll(Put(target, tree.key, tree.value).0, []);
      PutAllAppend(target, head, Preorder(tree.left));
      PutAllAppend(target, head + Preorder(tree.left), Preorder(tree.right));
    }
  }

  lemma {:induction false} AssignAllAppend(m: map<string, string>, a: Pairs, b: Pairs)
    ensures AssignAll(m, a + b) == AssignAll(AssignAll(m, a), b)
    decreases |a|
  {
    if a == [] {
      assert a + b == b;
    } else {
      assert (a + b)[1..] == a[1..] + b;
      AssignAllAppend(m[a[0].0 := a[0].1], a[1..], b);
    }
  }

  lemma JoinAtFront<K, V>(m: map<K, V>, l: map<K, V>, r: map<K, V>, k: K, v: V)
    requires k !in l && k !in r
    ensures m[k := v] + l + r == m + (l + r)[k := v]
  {
  }

  lemma {:induction false} AssignPreorder(m: map<string, string>, t: Tree)
    requires Ordered(t)
    ensures AssignAll(m, Preorder(t)) == m + ToMap(t)
    decreases t
  {
    if t.Node? {
      var head := [(t.key, t.value)];
      var m1 := m[t.key := t.value];
      assert AssignAll(m, head) == AssignAll(m1, []) == m1;
      AssignAllAppend(m, head, Preorder(t.left));
      AssignAllAppend(m, head + Preorder(t.left), Preorder(t.right));
      AssignPreorder(m1, t.left);
      AssignPreorder(m1 + ToMap(t.left), t.right);
      KeysDisjoint(t);
      JoinAtFront(m, ToMap(t.left), ToMap(t.right), t.key, t.value);
    }
  }

  /** Merging is right-biased union of the two maps, and leaves a balanced search tree. */
  lemma {:induction false} MergeIsUnion(target: Tree, tree: Tree)
    requires WellFormed(target) && Ordered(tree)
    ensures WellFormed(Merge(target, tree))
    ensures ToMap(Merge(target, tree)) == ToMap(target) + ToMap(tree)
  {
    PutAllCorrect(target, Preorder(tree));
    AssignPreorder(ToMap(target), tree);
  }

  lemma JoinEmpty<K, V>(m: map<K, V>)
    ensures map[] + m == m
  {
  }

  /** Putting the items of a tree into an empty one gives a tree, maybe of another shape, with the same map. */
  lemma {:induction false} RebuiltTable(t: Tree)
    requires WellFormed(t)
    ensures WellFormed(PutAll(Leaf, Preorder(t))) && ToMap(PutAll(Leaf, Preorder(t))) == ToMap(t)
  {
    PutAllCorrect(Leaf, Preorder(t));
    AssignPreorder(map[], t);
    JoinEmpty(ToMap(t));
  }

  // ---------------------------------------------------------------- lookups

  /** 1-based depth of a found key, 0 otherwise. */
  function Has(t: Tree, key: string): nat {
    if t.Leaf? then 0
    else
      var c := StrCmp(key, t.key);
      if c == 0 then 1
      else
        var found := if c < 0 then Has(t.left, key) else Has(t.right, key);
        if found > 0 then found + 1 else found
  }

  function Get(t: Tree, key: string): Option<string> {
    if t.Leaf? then None
    else
      var c := StrCmp(key, t.key);
      if c == 0 then Some(t.value)
      else if c < 0 then Get(t.left, key)
      else Get(t.right, key)
  }

  /** Some item at depth `d`, wherever it is in the tree, holds the key. */
  predicate AtDepth(t: Tree, key: string, d: nat)
    decreases t
  {
    t.Node? && d > 0 &&
    if d == 1 then t.key == key else AtDepth(t.left, key, d - 1) || AtDepth(t.right, key, d - 1)
  }

  lemma {:induction false} AtDepthInKeys(t: Tree, key: string, d: nat)
    requires AtDepth(t, key, d)
    ensures key in Keys(t)
  {
    if d > 1 {
      if AtDepth(t.left, key, d - 1) {
        AtDepthInKeys(t.left, key, d - 1);
      } else {
        AtDepthInKeys(t.right, key, d - 1);
      }
    }
  }

  /** Lookup by comparison finds exactly what the map holds, at the only depth where the key occurs. */
  lemma {:induction false} LookupCorrect(t: Tree, key: string)
    requires HeightsExact(t) && Ordered(t)
    ensures Get(t, key) == if key in ToMap(t) then Some(ToMap(t)[key]) else None
    ensures Has(t, key) > 0 <==> key in ToMap(t)
    ensures Has(t, key) <= H(t)
    ensures forall d: nat :: AtDepth(t, key, d) <==> d > 0 && d == Has(t, key)
  {
    HeightPositive(t);
    if t.Node? {
      HeightPositive(t.left);
      HeightPositive(t.right);
      StrCmpZero(key, t.key);
      StrCmpFlip(key, t.key);
      Trichotomy(key, key);
      LookupCorrect(t.left, key);
      LookupCorrect(t.right, key);
      assert key in Keys(t.left) ==> Less(key, t.key) && key !in Keys(t.right) by { Trichotomy(key, t.key); }
      assert key in Keys(t.right) ==> Less(t.key, key) by { Trichotomy(key, t.key); }
      forall d: nat ensures AtDepth(t, key, d) <==> d > 0 && d == Has(t, key) {
        if d > 1 && AtDepth(t.left, key, d - 1) { AtDepthInKeys(t.left, key, d - 1); }
        if d > 1 && AtDepth(t.right, key, d - 1) { AtDepthInKeys(t.right, key, d - 1); }
      }
    }
  }

  // ---------------------------------------------------------------- how tall a tree can be

  function Size(t: Tree): nat {
    if t.Leaf? then 0 else Size(t.left) + 1 + Size(t.right)
  }

  function Fib(n: nat): nat {
    if n < 2 then n else Fib(n - 1) + Fib(n - 2)
  }

  lemma {:induction false} SizeCountsKeys(t: Tree)
    requires Ordered(t)
    ensures Size(t) == |ToMap(t)| == |Keys(t)|
  {
    assert ToMap(t).Keys == Keys(t);
    if t.Node? {
      SizeCountsKeys(t.left);
      SizeCountsKeys(t.right);
      Trichotomy(t.key, t.key);
      assert Keys(t.left) !! {t.key} && (Keys(t.left) + {t.key}) !! Keys(t.right) by {
        forall x | x in Keys(t.left) ensures x !in Keys(t.right) { Trichotomy(x, t.key); }
      }
      assert |Keys(t.left) + {t.key}| == |Keys(t.left)| + 1;
    }
  }

  lemma {:induction false} FibMonotone(m: nat, n: nat)
    requires m <= n
    ensures Fib(m) <= Fib(n)
    decreases n - m
  {
    if m < n { FibMonotone(m + 1, n); }
  }

  lemma FibStep(n: nat)
    ensures Fib(n + 2) == Fib(n + 1) + Fib(n) && Fib(0) == 0 && Fib(1) == 1
  {
  }

  /** The AVL bound: a tree of height h holds at least Fib(h+2) - 1 keys. */
  lemma {:induction false} SizeBound(t: Tree)
    requires HeightsExact(t) && Balanced(t)
    ensures H(t) >= 0 && Size(t) + 1 >= Fib(H(t) + 2)
  {
    hide Fib;
    HeightPositive(t);
    if t.Leaf? {
      FibStep(0);
    } else {
      SizeBound(t.left);
      SizeBound(t.right);
      FibStep(H(t));
      FibMonotone(H(t), H(t.left) + 2);
      FibMonotone(H(t), H(t.right) + 2);
    }
  }

  /** A table of up to 1024 keys is at most 14 items tall. */
  lemma {:induction false} HeightOf1024(t: Tree)
    requires WellFormed(t) && |ToMap(t)| <= 1024
    ensures H(t) <= 14
  {
    SizeCountsKeys(t);
    SizeBound(t);
    if H(t) > 14 {
      FibMonotone(17, H(t) + 2);
      FibAt17();
    }
  }

  lemma {:induction false} FibAt17()
    ensures Fib(17) == 1597
  {
    assert Fib(4) == 3 && Fib(5) == 5;
    assert Fib(8) == 21 && Fib(9) == 34;
    assert Fib(12) == 144 && Fib(13) == 233;
    assert Fib(16) == 987;
  }

  lemma {:induction false} FibDoubles(k: nat)
    ensures Fib(2 * k + 2) >= Pow2(k)
  {
    if k > 0 {
      FibDoubles(k - 1);
      FibMonotone(2 * k, 2 * k + 1);
    }
  }

  /** Lookups are logarithmic: whatever was put, no key lies deeper than twice the binary logarithm. */
  lemma {:induction false} LookupIsLogarithmic(ps: Pairs, key: string, k: nat)
    ensures var t := PutAll(Leaf, ps);
      && WellFormed(t) && Size(t) == |AssignAll(map[], ps)|
      && Has(t, key) <= H(t)
      && Size(t) + 1 >= Fib(H(t) + 2)
      && (Has(t, key) >= 2 * k ==> |AssignAll(map[], ps)| + 1 >= Pow2(k))
  {
    var t := PutAll(Leaf, ps);
    PutAllCorrect(Leaf, ps);
    LookupCorrect(t, key);
    SizeBound(t);
    SizeCountsKeys(t);
    if Has(t, key) >= 2 * k {
      FibMonotone(2 * k + 2, H(t) + 2);
      FibDoubles(k);
    }
  }
}
