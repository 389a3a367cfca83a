/** C strings and their strcmp order (unsigned characters, the end of the string sorts first). */
module CString {
  import opened Seqs

  /** The sign of C's strcmp(a, b). */
  function StrCmp(a: string, b: string): int {
    if a == [] then (if b == [] then 0 else -1)
    else if b == [] then 1
    else if a[0] < b[0] then -1
    else if b[0] < a[0] then 1
    else StrCmp(a[1..], b[1..])
  }

  predicate Less(a: string, b: string) {
    StrCmp(a, b) < 0
  }

  lemma {:induction false} StrCmpZero(a: string, b: string)
    ensures StrCmp(a, b) == 0 <==> a == b
  {
    if a != [] && b != [] {
      StrCmpZero(a[1..], b[1..]);
      assert a == [a[0]] + a[1..] && b == [b[0]] + b[1..];
    }
  }

  lemma {:induction false} StrCmpFlip(a: string, b: string)
    ensures StrCmp(a, b) == -StrCmp(b, a)
  {
    if a != [] && b != [] {
      StrCmpFlip(a[1..], b[1..]);
    }
  }

  lemma {:induction false} LessTransitive(a: string, b: string, c: string)
    requires Less(a, b) && Less(b, c)
    ensures Less(a, c)
  {
    if a != [] && b != [] && c != [] && a[0] == b[0] == c[0] {
      LessTransitive(a[1..], b[1..], c[1..]);
    }
  }

  /** strcmp is a strict total order: exactly one of less, equal, greater. */
  lemma {:induction false} Trichotomy(a: string, b: string)
    ensures Less(a, b) || a == b || Less(b, a)
    ensures !(Less(a, b) && Less(b, a)) && !Less(a, a)
  {
    StrCmpZero(a, b);
    StrCmpZero(a, a);
    StrCmpFlip(a, b);
  }

  /** The strings agree up to position k, where the first one ends or has the smaller character. */
  predicate LessFrom(a: string, b: string, k: nat) {
    k <= |a| && k < |b| && a[..k] == b[..k] && (k == |a| || a[k] < b[k])
  }

  lemma {:induction false} LessAt(a: string, b: string) returns (k: nat)
    requires Less(a, b)
    ensures LessFrom(a, b, k)
  {
    k := 0;
    if a != [] && a[0] == b[0] {
      var i := LessAt(a[1..], b[1..]);
      k := i + 1;
      assert a[..k] == [a[0]] + a[1..][..i] && b[..k] == [b[0]] + b[1..][..i];
    }
  }

  lemma {:induction false} LessIf(a: string, b: string, k: nat)
    requires LessFrom(a, b, k)
    ensures Less(a, b)
  {
    if k > 0 {
      assert a[0] == a[..k][0] == b[..k][0] == b[0];
      assert a[1..][..k - 1] == a[..k][1..] == b[..k][1..] == b[1..][..k - 1];
      LessIf(a[1..], b[1..], k - 1);
    }
  }

  /** The order of strcmp is that of the first difference. */
  lemma {:induction false} LessIsFirstDifference(a: string, b: string)
    ensures Less(a, b) <==> exists k: nat :: LessFrom(a, b, k)
  {
    if Less(a, b) { var k := LessAt(a, b); }
    forall k: nat | LessFrom(a, b, k) ensures Less(a, b) { LessIf(a, b, k); }
  }

  /** memchr over s[from..n]: the first position of c, or -1. */
  function MemChr(s: string, c: char, from: nat, n: nat): (i: int)
    requires from <= n <= |s|
    ensures i == -1 || (from <= i < n && s[i] == c)
    decreases n - from
  {
    if from == n then -1 else if s[from] == c then from else MemChr(s, c, from + 1, n)
  }

  /** strchr: the first position of c, or -1. */
  function StrChr(s: string, c: char): (i: int)
    ensures -1 <= i < |s| && (i >= 0 ==> s[i] == c)
  {
    MemChr(s, c, 0, |s|)
  }

  /** Nothing before the position found is c; if none is found, c does not occur. */
  lemma {:induction false} MemChrFirst(s: string, c: char, from: nat, n: nat)
    requires from <= n <= |s|
    ensures var i := MemChr(s, c, from, n); forall k :: from <= k < (if i < 0 then n else i) ==> s[k] != c
    decreases n - from
  {
    if from < n && s[from] != c {
      MemChrFirst(s, c, from + 1, n);
    }
  }

  /** The first occurrence is the position found. */
  lemma {:induction false} MemChrIs(s: string, c: char, from: nat, n: nat, i: nat)
    requires from <= i < n <= |s| && s[i] == c && forall k :: from <= k < i ==> s[k] != c
    ensures MemChr(s, c, from, n) == i
  {
    MemChrFirst(s, c, from, n);
  }

  /** The search looks at nothing outside its range. */
  lemma {:induction false} MemChrFrame(s: string, t: string, c: char, from: nat, n: nat)
    requires from <= n <= |s| && n <= |t| && forall k :: from <= k < n ==> s[k] == t[k]
    ensures MemChr(s, c, from, n) == MemChr(t, c, from, n)
    decreases n - from
  {
    if from < n { MemChrFrame(s, t, c, from + 1, n); }
  }

  /** strncmp(s, prefix, strlen(prefix)) == 0. */
  predicate HasPrefix(s: string, prefix: string) {
    |prefix| <= |s| && s[..|prefix|] == prefix
  }

  /** The C string that starts at `at` in a buffer: everything before the next NUL. */
  function StringAt(buf: string, at: nat): (s: string)
    requires at <= |buf|
  {
    var i := MemChr(buf, '\0', at, |buf|);
    Sub(buf, at, if i < 0 then |buf| else i)
  }

  lemma {:induction false} StringAtIs(buf: string, at: nat, end: nat)
    requires at <= end < |buf| && buf[end] == '\0' && forall k :: at <= k < end ==> buf[k] != '\0'
    ensures StringAt(buf, at) == Sub(buf, at, end)
  {
    MemChrIs(buf, '\0', at, |buf|, end);
  }
}
