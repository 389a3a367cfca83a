/** How fairly a counter modulo the number of subscribers spreads consecutive messages. */
module RoundRobin {
  import opened Division
  import opened Ntohl
  import opened Delivery

  /** How many of the k messages from counter c on go to subscriber j of n; the counter has 32 bits. */
  function Share(c: nat, k: nat, n: nat, j: nat): (r: nat)
    requires n > 0
    ensures r <= k
  {
    if k == 0 then 0 else Share(c, k - 1, n, j) + (if IdAt(c, k - 1) % n == j then 1 else 0)
  }

  /** Between k / n rounded down and k / n rounded up. */
  predicate Fair(share: nat, k: nat, n: nat)
    requires n > 0
  {
    k / n <= share && share <= k / n + (if k % n == 0 then 0 else 1)
  }

  // ---------------------------------------------------------------- without wrapping

  /** The same count over unbounded counters. */
  function Hits(c: nat, k: nat, n: nat, j: nat): (r: nat)
    requires n > 0
  {
    if k == 0 then 0 else Hits(c, k - 1, n, j) + (if (c + (k - 1)) % n == j then 1 else 0)
  }

  /** Where the counters c, c + 1, ... first reach remainder j. */
  function FirstHit(c: nat, n: nat, j: nat): (d: nat)
    requires j < n
    ensures d < n
  {
    if c % n <= j then j - c % n else n + j - c % n
  }

  lemma {:induction false} HitsAt(c: nat, i: nat, n: nat, j: nat)
    requires j < n && i < n
    ensures (c + i) % n == j <==> i == FirstHit(c, n, j)
  {
    var q, b := c / n, c % n;
    assert c == q * n + b;
    if b + i < n {
      DivModUnique(c + i, n, q, b + i);
    } else {
      assert (q + 1) * n == q * n + n;
      DivModUnique(c + i, n, q + 1, b + i - n);
    }
  }

  /** Among fewer than n consecutive counters at most one hits, among n exactly one. */
  lemma {:induction false} HitsInWindow(c: nat, m: nat, n: nat, j: nat)
    requires j < n && m <= n
    ensures Hits(c, m, n, j) == if FirstHit(c, n, j) < m then 1 else 0
  {
    if m > 0 {
      HitsInWindow(c, m - 1, n, j);
      HitsAt(c, m - 1, n, j);
    }
  }

  lemma {:induction false} HitsSplit(c: nat, a: nat, b: nat, n: nat, j: nat)
    requires n > 0
    ensures Hits(c, a + b, n, j) == Hits(c, a, n, j) + Hits(c + a, b, n, j)
  {
    if b > 0 {
      HitsSplit(c, a, b - 1, n, j);
      assert c + (a + b - 1) == c + a + (b - 1);
    }
  }

  lemma {:induction false} FairStep(share: nat, k: nat, n: nat)
    requires n > 0 && Fair(share, k, n)
    ensures Fair(share + 1, k + n, n)
  {
    assert k == (k / n) * n + k % n;
    Difference(k / n + 1, 1, n);
    DivModUnique(k + n, n, k / n + 1, k % n);
  }

  lemma {:induction false} HitsAreFair(c: nat, k: nat, n: nat, j: nat)
    requires j < n
    ensures Fair(Hits(c, k, n, j), k, n)
    decreases k
  {
    if k < n {
      DivModUnique(k, n, 0, k);
      HitsInWindow(c, k, n, j);
    } else {
      HitsSplit(c, n, k - n, n, j);
      HitsInWindow(c, n, n, j);
      HitsAreFair(c + n, k - n, n, j);
      FairStep(Hits(c + n, k - n, n, j), k - n, n);
    }
  }

  lemma SmallId(c: nat, i: nat)
    requires c + i < TWO_32
    ensures IdAt(c, i) == c + i
  {
  }

  lemma {:induction false} ShareIsHits(c: nat, k: nat, n: nat, j: nat)
    requires n > 0 && c + k <= TWO_32
    ensures Share(c, k, n, j) == Hits(c, k, n, j)
  {
    if k > 0 {
      ShareIsHits(c, k - 1, n, j);
      SmallId(c, k - 1);
    }
  }

  /** While the counter does not wrap, any k consecutive messages are spread evenly. */
  lemma {:induction false} FairWithoutWrap(c: nat, k: nat, n: nat, j: nat)
    requires j < n && c + k <= TWO_32
    ensures Fair(Share(c, k, n, j), k, n)
  {
    ShareIsHits(c, k, n, j);
    HitsAreFair(c, k, n, j);
  }

  // ---------------------------------------------------------------- across a wrap

  lemma {:induction false} MultipleOff(x: nat, m: nat, n: nat)
    requires n > 0
    ensures (x + m * n) % n == x % n
  {
    var q := x / n;
    assert x == n * q + x % n;
    assert (q + m) * n == q * n + m * n;
    DivModUnique(x + m * n, n, q + m, x % n);
  }

  /** If n divides 2 to the 32nd, taking the counter modulo 2 to the 32nd first changes nothing. */
  lemma {:induction false} WrapIsHarmless(x: nat, n: nat)
    requires n > 0 && TWO_32 % n == 0
    ensures x % TWO_32 % n == x % n
  {
    var w, q := x / TWO_32, TWO_32 / n;
    assert TWO_32 == n * q;
    assert x == TWO_32 * w + x % TWO_32;
    assert TWO_32 * w == (q * w) * n by {
      assert n * q * w == (q * w) * n;
    }
    MultipleOff(x % TWO_32, q * w, n);
  }

  lemma {:induction false} ShareAcrossWrap(c: nat, k: nat, n: nat, j: nat)
    requires n > 0 && TWO_32 % n == 0
    ensures Share(c, k, n, j) == Hits(c, k, n, j)
  {
    if k > 0 {
      ShareAcrossWrap(c, k - 1, n, j);
      WrapIsHarmless(c + (k - 1), n);
    }
  }

  /** Even spreading whenever the counter does not wrap, or wraps without a trace. */
  lemma {:induction false} FairUnlessCut(c: nat, k: nat, n: nat, j: nat)
    requires j < n && (c + k <= TWO_32 || TWO_32 % n == 0)
    ensures Fair(Share(c, k, n, j), k, n)
  {
    if c + k <= TWO_32 { ShareIsHits(c, k, n, j); } else { ShareAcrossWrap(c, k, n, j); }
    HitsAreFair(c, k, n, j);
  }

  /** Otherwise the first subscriber is served before the wrap and again right behind it. */
  lemma {:induction false} UnfairAtWrap(n: nat)
    requires 0 < n < TWO_32 && TWO_32 % n != 0
    ensures var r := TWO_32 % n;
      r < n && Share(TWO_32 - r, r + 1, n, 0) == 2 && !Fair(2, r + 1, n)
  {
    var r := TWO_32 % n;
    var c, q := TWO_32 - r, TWO_32 / n;
    assert TWO_32 == n * q + r;
    DivModUnique(c, n, q, 0);
    HitsInWindow(c, r, n, 0);
    ShareIsHits(c, r, n, 0);
    assert IdAt(c, r) == 0;
    DivModUnique(0, n, 0, 0);
    if r + 1 < n {
      DivModUnique(r + 1, n, 0, r + 1);
    } else {
      DivModUnique(r + 1, n, 1, 0);
    }
  }

  /** Any run of messages is spread evenly, wraps of the counter included, exactly if n divides 2 to the 32nd. */
  lemma {:induction false} FairIff(n: nat)
    requires 0 < n < TWO_32
    ensures (forall c: nat, k: nat, j: nat :: c < TWO_32 && j < n ==> Fair(Share(c, k, n, j), k, n))
      <==> TWO_32 % n == 0
  {
    if TWO_32 % n == 0 {
      forall c: nat, k: nat, j: nat | c < TWO_32 && j < n ensures Fair(Share(c, k, n, j), k, n) {
        ShareAcrossWrap(c, k, n, j);
        HitsAreFair(c, k, n, j);
      }
    } else {
      UnfairAtWrap(n);
      var r := TWO_32 % n;
      assert !Fair(Share(TWO_32 - r, r + 1, n, 0), r + 1, n);
    }
  }
}
