/** Sets of numbers as bits in a sequence of words, whatever the words are. */
module BitSets {
  const WORD_BITS: int := 64
  const HALF: int := 32

  /** The set that the words stand for; `bit` tells whether a word has a bit. */
  function Members<W>(words: seq<W>, bit: (W, nat) -> bool): set<nat> {
    set x: nat | x < WORD_BITS * |words| && bit(words[x / WORD_BITS], x % WORD_BITS)
  }

  function Marked(s: set<nat>, x: nat, present: bool): set<nat> {
    if present then s + {x} else s - {x}
  }

  /** Changing one bit of one word changes the membership of one number. */
  lemma {:induction false} WordWritten<W>(words: seq<W>, bit: (W, nat) -> bool, x: nat, present: bool, word: W)
    requires x < WORD_BITS * |words|
    requires forall n: nat :: n < WORD_BITS ==>
      bit(word, n) == if n == x % WORD_BITS then present else bit(words[x / WORD_BITS], n)
    ensures Members(words[x / WORD_BITS := word], bit) == Marked(Members(words, bit), x, present)
  {
  }

  /** The members counted when word i is reached and its bits below j and below 32 + j are done. */
  ghost function Seen<W>(words: seq<W>, bit: (W, nat) -> bool, i: nat, j: nat): set<nat> {
    set x | x in Members(words, bit) && (x / WORD_BITS < i || (x / WORD_BITS == i && x % HALF < j))
  }

  lemma Place(x: nat, i: nat, j: nat)
    requires j < 32
    ensures x / WORD_BITS == i && x % HALF == j <==> x == 64 * i + j || x == 64 * i + j + 32
  {
  }

  lemma {:induction false} SeenStep<W>(words: seq<W>, bit: (W, nat) -> bool, i: nat, j: nat)
    requires i < |words| && j < 32
    ensures |Seen(words, bit, i, j + 1)| == |Seen(words, bit, i, j)|
      + (if bit(words[i], j) then 1 else 0) + (if bit(words[i], j + 32) then 1 else 0)
  {
    var low, up := 64 * i + j, 64 * i + j + 32;
    assert low / WORD_BITS == i && low % WORD_BITS == j && up / WORD_BITS == i && up % WORD_BITS == j + 32;
    forall x: nat ensures x / WORD_BITS == i && x % HALF == j <==> x == low || x == up {
      Place(x, i, j);
    }
    SeenStepAt(words, bit, i, j, low, up);
  }

  lemma {:induction false} SeenStepAt<W>(words: seq<W>, bit: (W, nat) -> bool, i: nat, j: nat, low: nat, up: nat)
    requires i < |words| && low != up && low < WORD_BITS * |words| && up < WORD_BITS * |words|
    requires low / WORD_BITS == i && up / WORD_BITS == i
    requires forall x: nat {:trigger x / WORD_BITS} :: x / WORD_BITS == i && x % HALF == j <==> x == low || x == up
    ensures |Seen(words, bit, i, j + 1)| == |Seen(words, bit, i, j)|
      + (if bit(words[i], low % WORD_BITS) then 1 else 0) + (if bit(words[i], up % WORD_BITS) then 1 else 0)
  {
    var before, all := Seen(words, bit, i, j), Members(words, bit);
    var lower: set<nat> := if low in all then {low} else {};
    var upper: set<nat> := if up in all then {up} else {};
    AddTwo(Seen(words, bit, i, j + 1), before, lower, upper);
  }

  lemma {:induction false} AddTwo(s: set<nat>, a: set<nat>, b: set<nat>, c: set<nat>)
    requires (forall x :: x in s <==> x in a + b + c) && a !! b && (a + b) !! c
    ensures |s| == |a| + |b| + |c|
  {
    assert s == a + b + c;
  }

  lemma SeenBounds<W>(words: seq<W>, bit: (W, nat) -> bool, i: nat)
    ensures Seen(words, bit, i, 32) == Seen(words, bit, i + 1, 0)
    ensures Seen(words, bit, 0, 0) == {}
    ensures Seen(words, bit, |words|, 0) == Members(words, bit)
  {
  }
}
