/** Optional values and sequence helpers shared by the modules. */
module Seqs {

  datatype Option<+T> = None | Some(value: T)

  /** The elements s[from..to]. */
  function Sub<T>(s: seq<T>, from: nat, to: nat): (r: seq<T>)
    requires from <= to <= |s|
    ensures |r| == to - from && forall k :: 0 <= k < to - from ==> r[k] == s[from + k]
  {
    seq(to - from, k requires 0 <= k < to - from => s[from + k])
  }

  lemma Regroup<T>(a: seq<T>, b: seq<T>, c: seq<T>)
    ensures a + (b + c) == (a + b) + c
  {
  }

  /** The first of the elements ahead joins those that are done. */
  lemma MoveOne<T>(done: seq<T>, ahead: seq<T>)
    ensures ahead != [] ==> (done + [ahead[0]]) + ahead[1..] == done + ahead
  {
  }

  lemma SubOfPrefix<T>(a: seq<T>, b: seq<T>, from: nat, to: nat)
    requires from <= to <= |a|
    ensures Sub(a + b, from, to) == Sub(a, from, to)
  {
  }

  lemma SubToEnd<T>(a: seq<T>, b: seq<T>, from: nat)
    requires from <= |a|
    ensures Sub(a + b, from, |a + b|) == Sub(a, from, |a|) + b
  {
  }

  lemma SubShift<T>(a: seq<T>, b: seq<T>, from: nat, to: nat)
    requires from <= to <= |b|
    ensures Sub(a + b, |a| + from, |a| + to) == Sub(b, from, to)
  {
  }

  lemma SubAll<T>(s: seq<T>)
    ensures Sub(s, 0, |s|) == s
  {
  }

  /** The concatenation of a sequence of sequences. */
  function Flatten<T>(ss: seq<seq<T>>): seq<T> {
    if ss == [] then [] else ss[0] + Flatten(ss[1..])
  }

  lemma {:induction false} FlattenAppend<T>(a: seq<seq<T>>, b: seq<seq<T>>)
    ensures Flatten(a + b) == Flatten(a) + Flatten(b)
  {
    if a == [] {
      assert a + b == b;
    } else {
      assert (a + b)[1..] == a[1..] + b;
      FlattenAppend(a[1..], b);
      Regroup(a[0], Flatten(a[1..]), Flatten(b));
    }
  }

  /** The elements that stay when those that are `gone` are removed. */
  function Keep<T>(xs: seq<T>, gone: T -> bool): seq<T> {
    if xs == [] then [] else (if gone(xs[0]) then [] else [xs[0]]) + Keep(xs[1..], gone)
  }

  lemma {:induction false} KeepAppend<T>(a: seq<T>, b: seq<T>, gone: T -> bool)
    ensures Keep(a + b, gone) == Keep(a, gone) + Keep(b, gone)
  {
    if a == [] {
      assert a + b == b;
    } else {
      assert (a + b)[1..] == a[1..] + b;
      KeepAppend(a[1..], b, gone);
      Regroup(if gone(a[0]) then [] else [a[0]], Keep(a[1..], gone), Keep(b, gone));
    }
  }

  /** An element stays exactly if it is not removed, and as often as before. */
  lemma {:induction false} KeepIsFilter<T>(xs: seq<T>, gone: T -> bool, x: T)
    ensures x in Keep(xs, gone) <==> x in xs && !gone(x)
    ensures multiset(Keep(xs, gone))[x] == if gone(x) then 0 else multiset(xs)[x]
  {
    if xs != [] {
      KeepIsFilter(xs[1..], gone, x);
      assert xs == [xs[0]] + xs[1..];
    }
  }

  lemma {:induction false} KeepStep<T>(done: seq<T>, x: T, gone: T -> bool)
    ensures Keep(done + [x], gone) == Keep(done, gone) + (if gone(x) then [] else [x])
  {
    KeepAppend(done, [x], gone);
    assert Keep([x], gone) == (if gone(x) then [] else [x]) + Keep([], gone);
  }

  lemma {:induction false} KeepAll<T>(xs: seq<T>, gone: T -> bool)
    requires forall i :: 0 <= i < |xs| ==> !gone(xs[i])
    ensures Keep(xs, gone) == xs
  {
    if xs != [] {
      KeepAll(xs[1..], gone);
      assert xs == [xs[0]] + xs[1..];
    }
  }

  lemma {:induction false} KeepNone<T>(xs: seq<T>, gone: T -> bool)
    requires forall i :: 0 <= i < |xs| ==> gone(xs[i])
    ensures Keep(xs, gone) == []
  {
    if xs != [] { KeepNone(xs[1..], gone); }
  }

  /** ys are the elements of xs at the positions idx, in order. */
  ghost predicate Selects<T>(idx: seq<nat>, xs: seq<T>, ys: seq<T>) {
    && |idx| == |ys|
    && (forall k :: 0 <= k < |idx| ==> idx[k] < |xs| && xs[idx[k]] == ys[k])
    && forall k, l :: 0 <= k < l < |idx| ==> idx[k] < idx[l]
  }

  /** ys are exactly the elements of xs that `stays` says, each at its place in the order. */
  ghost predicate AreThose<T>(ys: seq<T>, xs: seq<T>, stays: T -> bool) {
    exists idx :: Selects(idx, xs, ys) && forall j :: 0 <= j < |xs| ==> (j in idx <==> stays(xs[j]))
  }

  lemma {:induction false} KeepSelects<T>(xs: seq<T>, gone: T -> bool) returns (idx: seq<nat>)
    ensures Selects(idx, xs, Keep(xs, gone))
    ensures forall j :: 0 <= j < |xs| ==> (j in idx <==> !gone(xs[j]))
  {
    if xs == [] {
      idx := [];
    } else {
      var rest := KeepSelects(xs[1..], gone);
      var moved := seq(|rest|, k requires 0 <= k < |rest| => rest[k] + 1);
      idx := (if gone(xs[0]) then [] else [0]) + moved;
      SelectsOn(rest, moved, xs, Keep(xs[1..], gone));
      forall j | 0 <= j < |xs| ensures j in idx <==> !gone(xs[j]) {
        if j > 0 { MovedIn(rest, moved, j - 1); }
      }
    }
  }

  lemma MovedIn(rest: seq<nat>, moved: seq<nat>, j: nat)
    requires |moved| == |rest| && forall k :: 0 <= k < |rest| ==> moved[k] == rest[k] + 1
    ensures j in rest <==> j + 1 in moved
  {
    if j in rest {
      var k :| 0 <= k < |rest| && rest[k] == j;
      assert moved[k] == j + 1;
    }
  }

  lemma {:induction false} SelectsOn<T>(rest: seq<nat>, moved: seq<nat>, xs: seq<T>, ys: seq<T>)
    requires xs != [] && Selects(rest, xs[1..], ys)
    requires |moved| == |rest| && forall k :: 0 <= k < |rest| ==> moved[k] == rest[k] + 1
    ensures Selects(moved, xs, ys) && Selects([0] + moved, xs, [xs[0]] + ys) && 0 !in moved
  {
  }

  lemma {:induction false} KeepIsThose<T>(xs: seq<T>, gone: T -> bool, stays: T -> bool)
    requires forall j :: 0 <= j < |xs| ==> stays(xs[j]) == !gone(xs[j])
    ensures AreThose(Keep(xs, gone), xs, stays)
  {
    var idx := KeepSelects(xs, gone);
  }
}
