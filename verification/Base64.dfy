/** Base64, section 3 of RFC 3548. */
module Base64 {
  import opened Bytes

  // ---------------------------------------------------------------- the alphabet

  /** The letter of a 6-bit value. */
  function Letter(v: nat): char
    requires v < 64
  {
    if v < 26 then (v + 'A' as int) as char
    else if v < 52 then (v - 26 + 'a' as int) as char
    else if v < 62 then (v - 52 + '0' as int) as char
    else if v == 62 then '+'
    else '/'
  }

  /** The 6-bit value of a letter, or -1. */
  function Value(c: char): (v: int)
    ensures -1 <= v < 64
  {
    if 'A' <= c <= 'Z' then c as int - 'A' as int
    else if 'a' <= c <= 'z' then c as int - 'a' as int + 26
    else if '0' <= c <= '9' then c as int - '0' as int + 52
    else if c == '+' then 62
    else if c == '/' then 63
    else -1
  }

  /** isbase64: a letter of the alphabet; the padding is not one. */
  predicate IsBase64(c: char) {
    Value(c) >= 0
  }

  lemma LetterValue(v: nat)
    requires v < 64
    ensures Value(Letter(v)) == v && Letter(v) != '='
  {
  }

  const UPPER: string := "ABCDEFGHIJKLMNOPQRSTUVWXYZ"
  const LOWER: string := "abcdefghijklmnopqrstuvwxyz"
  const OTHER: string := "0123456789+/"

  lemma UpperIs(v: nat)
    requires v < 26
    ensures |UPPER| == 26 && UPPER[v] as int == 65 + v
  {
  }

  lemma LowerIs(v: nat)
    requires v < 26
    ensures |LOWER| == 26 && LOWER[v] as int == 97 + v
  {
  }

  lemma OtherIs(v: nat)
    requires v < 12
    ensures |OTHER| == 12 && OTHER[v] == if v < 10 then (48 + v) as char else if v == 10 then '+' else '/'
  {
  }

  /** Table 1 of the standard: the alphabet in order. */
  lemma {:induction false} AlphabetIs(v: nat)
    requires v < 64
    ensures |UPPER + LOWER + OTHER| == 64 && Letter(v) == (UPPER + LOWER + OTHER)[v]
  {
    UpperIs(if v < 26 then v else 0);
    LowerIs(if 26 <= v < 52 then v - 26 else 0);
    OtherIs(if v >= 52 then v - 52 else 0);
  }

  // ---------------------------------------------------------------- encoding

  function EncodedLength(n: nat): nat {
    (n + 2) / 3 * 4
  }

  /** An octet of the input; zero bits are added behind its end. */
  function OctetAt(s: seq<Byte>, i: nat): Byte {
    if i < |s| then s[i] else 0
  }

  /** The g-th 24-bit group of the input. */
  function Group(s: seq<Byte>, g: nat): nat {
    OctetAt(s, 3 * g) as int * 0x1_0000 + OctetAt(s, 3 * g + 1) as int * 0x100 + OctetAt(s, 3 * g + 2)
  }

  /** The j-th of the four 6-bit values of a 24-bit group. */
  function Sextet(v: nat, j: nat): (r: nat)
    requires j < 4
    ensures r < 64
  {
    if j == 0 then v / 0x4_0000 % 64 else if j == 1 then v / 0x1000 % 64 else if j == 2 then v / 64 % 64 else v % 64
  }

  /** The letter at position j of group g: padding where the group has no octets left. */
  function EncodedAt(s: seq<Byte>, g: nat, j: nat): char
    requires j < 4
  {
    if j >= 2 && 3 * g + j - 1 >= |s| then '=' else Letter(Sextet(Group(s, g), j))
  }

  function Encode(s: seq<Byte>): (r: seq<char>)
    ensures |r| == EncodedLength(|s|)
  {
    seq(EncodedLength(|s|), k requires 0 <= k => EncodedAt(s, k / 4, k % 4))
  }

  /** Four 6-bit values make up a 24-bit group and are read back from it. */
  lemma {:induction false} SextetsOf(p: nat, q: nat, r: nat, s: nat)
    requires p < 64 && q < 64 && r < 64 && s < 64
    ensures var v := p * 0x4_0000 + q * 0x1000 + r * 64 + s;
      Sextet(v, 0) == p && Sextet(v, 1) == q && Sextet(v, 2) == r && Sextet(v, 3) == s
  {
    var v := p * 0x4_0000 + q * 0x1000 + r * 64 + s;
    assert v / 0x4_0000 == p;
    assert v / 0x1000 == p * 64 + q;
    assert v / 64 == p * 0x1000 + q * 64 + r;
  }

  /** Three octets as four 6-bit values. */
  lemma Regrouped(a: nat, b: nat, c: nat)
    requires a < 256 && b < 256 && c < 256
    ensures a * 0x1_0000 + b * 0x100 + c
      == a / 4 * 0x4_0000 + (a % 4 * 16 + b / 16) * 0x1000 + (b % 16 * 4 + c / 64) * 64 + c % 64
    ensures a / 4 < 64 && a % 4 * 16 + b / 16 < 64 && b % 16 * 4 + c / 64 < 64
  {
  }

  lemma {:induction false} ShiftsKeepSixBits(a: nat, b: nat, c: nat)
    requires a < 256 && b < 256 && c < 256
    ensures a / 4 % 64 == a / 4
    ensures (a * 16 + b / 16) % 64 == a % 4 * 16 + b / 16
    ensures (b * 4 + c / 64) % 64 == b % 16 * 4 + c / 64
  {
  }

  /** The four expressions of the encoder are the four 6-bit values. */
  lemma {:induction false} EncoderSextets(a: nat, b: nat, c: nat)
    requires a < 256 && b < 256 && c < 256
    ensures var v := a * 0x1_0000 + b * 0x100 + c;
      && a / 4 % 64 == Sextet(v, 0) && (a * 16 + b / 16) % 64 == Sextet(v, 1)
      && (b * 4 + c / 64) % 64 == Sextet(v, 2) && c % 64 == Sextet(v, 3)
  {
    hide Sextet;
    Regrouped(a, b, c);
    ShiftsKeepSixBits(a, b, c);
    SextetsOf(a / 4, a % 4 * 16 + b / 16, b % 16 * 4 + c / 64, c % 64);
  }

  /** The octets of a group as one number, zeros behind the end of the input. */
  lemma GroupIs(s: seq<Byte>, g: nat)
    requires 3 * g < |s|
    ensures Group(s, g) == s[3 * g] as int * 0x1_0000 + (if 3 * g + 1 < |s| then s[3 * g + 1] as int else 0) * 0x100
      + (if 3 * g + 2 < |s| then s[3 * g + 2] as int else 0)
    ensures Group(s, g) == OctetAt(s, 3 * g) as int * 0x1_0000 + OctetAt(s, 3 * g + 1) as int * 0x100 + OctetAt(s, 3 * g + 2)
  {
  }

  lemma {:induction false} LettersAt(s: seq<Byte>, g: nat)
    requires 3 * g < |s|
    ensures 4 * g + 3 < |Encode(s)|
    ensures Encode(s)[4 * g] == Letter(Sextet(Group(s, g), 0)) && Encode(s)[4 * g + 1] == Letter(Sextet(Group(s, g), 1))
    ensures Encode(s)[4 * g + 2] == if 3 * g + 1 < |s| then Letter(Sextet(Group(s, g), 2)) else '='
    ensures Encode(s)[4 * g + 3] == if 3 * g + 2 < |s| then Letter(Sextet(Group(s, g), 3)) else '='
  {
    hide Sextet, Letter, Group;
    Places(g);
    assert 4 * g + 3 < (|s| + 2) / 3 * 4;
  }

  /**
   What an encoding is, in plain terms: each group of four letters stands for 24 bits that are its three octets, zeros
   behind the end of the input; a letter that no octet of the input reaches is the padding.
   */
  lemma {:induction false} EncodedPlainly(s: seq<Byte>, g: nat) returns (v: seq<nat>)
    requires 3 * g < |s|
    ensures |v| == 4 && v[0] < 64 && v[1] < 64 && v[2] < 64 && v[3] < 64
    ensures v[0] * 0x4_0000 + v[1] * 0x1000 + v[2] * 64 + v[3]
      == s[3 * g] as int * 0x1_0000 + (if 3 * g + 1 < |s| then s[3 * g + 1] as int else 0) * 0x100
         + (if 3 * g + 2 < |s| then s[3 * g + 2] as int else 0)
    ensures var t, alphabet := Encode(s), UPPER + LOWER + OTHER;
      && 4 * g + 3 < |t| && |alphabet| == 64 && t[4 * g] == alphabet[v[0]] && t[4 * g + 1] == alphabet[v[1]]
      && t[4 * g + 2] == (if 3 * g + 1 < |s| then alphabet[v[2]] else '=')
      && t[4 * g + 3] == (if 3 * g + 2 < |s| then alphabet[v[3]] else '=')
  {
    hide Sextet, Letter, Group, Encode, OctetAt;
    var n := Group(s, g);
    v := [Sextet(n, 0), Sextet(n, 1), Sextet(n, 2), Sextet(n, 3)];
    GroupIs(s, g);
    LettersAt(s, g);
    SextetsMakeGroup(OctetAt(s, 3 * g), OctetAt(s, 3 * g + 1), OctetAt(s, 3 * g + 2));
    AlphabetIs(v[0]);
    AlphabetIs(v[1]);
    AlphabetIs(v[2]);
    AlphabetIs(v[3]);
  }

  lemma Places(g: nat)
    ensures 4 * g / 4 == g && (4 * g + 1) / 4 == g && (4 * g + 2) / 4 == g && (4 * g + 3) / 4 == g
    ensures 4 * g % 4 == 0 && (4 * g + 1) % 4 == 1 && (4 * g + 2) % 4 == 2 && (4 * g + 3) % 4 == 3
  {
  }

  /** Letters out[..n] are the first n of the encoding; the rest of the buffer is as it was. */
  ghost predicate Written(out: seq<char>, before: seq<char>, full: seq<char>, n: nat) {
    && |out| == |before| && n <= |full| && n <= |out|
    && (forall k :: 0 <= k < n ==> out[k] == full[k])
    && (forall k :: n <= k < |out| ==> out[k] == before[k])
  }

  /** One letter of a group, if there is still room; the encoder stops where the room ends. */
  method PutLetter(out: array<char>, c: char, at: nat, ghost before: seq<char>, ghost full: seq<char>)
    requires Written(out[..], before, full, at) && at < |full| && at < out.Length && c == full[at]
    modifies out
    ensures Written(out[..], before, full, at + 1)
  {
    out[at] := c;
  }

  lemma {:induction false} FullAt(s: seq<Byte>, g: nat, j: nat)
    requires j < 4 && 3 * g < |s|
    ensures 4 * g + j < |Encode(s)| && Encode(s)[4 * g + j] == EncodedAt(s, g, j)
  {
  }

  lemma WrittenWithNul(out: seq<char>, before: seq<char>, full: seq<char>)
    requires Written(out, before, full, |full|) && |full| < |out|
    ensures out[|full| := '\0'] == (full + ['\0']) + before[|full| + 1..]
  {
  }

  lemma WrittenIsPrefix(out: seq<char>, before: seq<char>, full: seq<char>, room: nat)
    requires Written(out, before, full, room)
    ensures out == full[..room] + before[room..]
  {
  }

  /** The four letters of a group as the encoder computes them; `left` octets are left at its start. */
  lemma {:induction false} LettersOfGroup(s: seq<Byte>, g: nat, left: nat, a: int, b: int, c: int)
    requires 3 * g + left == |s| && left > 0 && a == s[3 * g]
    requires b == (if left > 1 then s[3 * g + 1] else 0) && c == (if left > 2 then s[3 * g + 2] else 0)
    ensures 4 * g + 3 < |Encode(s)|
    ensures var full := Encode(s);
      && full[4 * g] == Letter(a / 4 % 64)
      && full[4 * g + 1] == Letter((a * 16 + b / 16) % 64)
      && full[4 * g + 2] == (if left > 1 then Letter((b * 4 + c / 64) % 64) else '=')
      && full[4 * g + 3] == (if left > 2 then Letter(c % 64) else '=')
    ensures left <= 3 ==> |Encode(s)| == 4 * g + 4
  {
    hide Encode, Sextet, Letter;
    FullAt(s, g, 0);
    FullAt(s, g, 1);
    FullAt(s, g, 2);
    FullAt(s, g, 3);
    EncoderSextets(a, b, c);
  }

  /** The four stores of the encoder's loop; it stops where the room ends. */
  method PutGroup(out: array<char>, l0: char, l1: char, l2: char, l3: char, from: nat, room: nat,
                  ghost before: seq<char>, ghost full: seq<char>) returns (at: nat)
    requires from < room <= out.Length && from + 3 < |full| && Written(out[..], before, full, from)
    requires full[from] == l0 && full[from + 1] == l1 && full[from + 2] == l2 && full[from + 3] == l3
    modifies out
    ensures at <= room && Written(out[..], before, full, at) && (at < room ==> at == from + 4)
  {
    hide Written;
    PutLetter(out, l0, from, before, full);
    at := from + 1;
    if at == room { return; }
    PutLetter(out, l1, at, before, full);
    at := at + 1;
    if at == room { return; }
    PutLetter(out, l2, at, before, full);
    at := at + 1;
    if at == room { return; }
    PutLetter(out, l3, at, before, full);
    at := at + 1;
  }

  /** One turn of the encoder's loop: a group of up to three octets, as far as there is room. */
  method EncodeGroup(input: seq<Byte>, g: nat, left: nat, out: array<char>, from: nat, room: nat, ghost before: seq<char>)
    returns (inLen: nat, at: nat)
    requires 3 * g + left == |input| && left > 0 && from == 4 * g < room <= out.Length
    requires Written(out[..], before, Encode(input), from)
    modifies out
    ensures at <= room && Written(out[..], before, Encode(input), at)
    ensures at < room ==> at == 4 * g + 4
    ensures inLen == (if left < 3 then 0 else left - 3)
  {
    var a, b := input[3 * g] as int, if left > 1 then input[3 * g + 1] as int else 0;
    var c := if left > 2 then input[3 * g + 2] as int else 0;
    LettersOfGroup(input, g, left, a, b, c);
    hide Encode, Letter, Written;
    var l2 := if left > 1 then Letter((b * 4 + c / 64) % 64) else '=';
    var l3 := if left > 2 then Letter(c % 64) else '=';
    at := PutGroup(out, Letter(a / 4 % 64), Letter((a * 16 + b / 16) % 64), l2, l3, from, room, before, Encode(input));
    inLen := if left < 3 then 0 else left - 3;
  }

  /** base64_encode: as much of the encoding as fits, and a terminating NUL if there is room for more. */
  method EncodeInto(input: seq<Byte>, out: array<char>, room: nat)
    requires room <= out.Length
    modifies out
    ensures var full := Encode(input);
      if room > |full| then out[..] == (full + ['\0']) + old(out[..])[|full| + 1..]
      else out[..] == full[..room] + old(out[..])[room..]
  {
    ghost var before, full := out[..], Encode(input);
    var inLen, at, g := |input|, 0, 0;
    assert Written(out[..], before, full, 0);
    hide Encode, Written;
    while inLen > 0 && at < room
      invariant 0 <= inLen && at <= room && Written(out[..], before, full, at)
      invariant at < room && inLen > 0 ==> at == 4 * g && 3 * g + inLen == |input|
      invariant at < room && inLen == 0 ==> at == |full|
      decreases room - at
    {
      inLen, at := EncodeGroup(input, g, inLen, out, at, room, before);
      g := g + 1;
    }
    if at < room {
      WrittenWithNul(out[..], before, full);
      ghost var letters := out[..];
      out[at] := '\0';
      assert out[..] == letters[at := '\0'];
    } else {
      WrittenIsPrefix(out[..], before, full, room);
    }
  }

  // ---------------------------------------------------------------- decoding

  /** Letters of the alphabet in groups of four, padded at most at the last two places. */
  predicate IsEncoding(t: seq<char>) {
    && |t| % 4 == 0
    && forall k :: 0 <= k < |t| ==>
      IsBase64(t[k]) || (t[k] == '=' && (k == |t| - 1 || (k == |t| - 2 && t[|t| - 1] == '=')))
  }

  function DecodedLength(t: seq<char>): (n: nat) {
    if |t| < 4 then 0
    else |t| / 4 * 3 - (if t[|t| - 2] == '=' then 2 else if t[|t| - 1] == '=' then 1 else 0)
  }

  function SextetAt(t: seq<char>, k: nat): (v: nat)
    requires k < |t|
    ensures v < 64
  {
    if Value(t[k]) < 0 then 0 else Value(t[k])
  }

  /** The 24 bits of the g-th four letters. */
  function Quantum(t: seq<char>, g: nat): nat
    requires 4 * g + 3 < |t|
  {
    SextetAt(t, 4 * g) * 0x4_0000 + SextetAt(t, 4 * g + 1) * 0x1000 + SextetAt(t, 4 * g + 2) * 64 + SextetAt(t, 4 * g + 3)
  }

  /** The j-th of the three octets of a 24-bit group. */
  function OctetOf(v: nat, j: nat): Byte
    requires j < 3
  {
    if j == 0 then v / 0x1_0000 % 256 else if j == 1 then v / 0x100 % 256 else v % 256
  }

  function Decode(t: seq<char>): (r: seq<Byte>)
    requires |t| % 4 == 0
    ensures |r| == DecodedLength(t)
  {
    seq(DecodedLength(t), i requires 0 <= i < DecodedLength(t) => OctetOf(Quantum(t, i / 3), i % 3))
  }

  lemma By256(q: nat, r: nat)
    requires r < 256
    ensures (q * 256 + r) / 256 == q && (q * 256 + r) % 256 == r
  {
  }

  lemma By65536(q: nat, r: nat)
    requires r < 65536
    ensures (q * 65536 + r) / 65536 == q
  {
  }

  /** Six bits as the upper two or four and the rest. */
  lemma Parts(x: nat)
    requires x < 64
    ensures x == x / 16 * 16 + x % 16 && x / 16 < 4 && x % 16 < 16
    ensures x == x / 4 * 4 + x % 4 && x / 4 < 16 && x % 4 < 4
  {
  }

  lemma {:induction false} FirstOctet(a: nat, b: nat, c: nat, d: nat)
    requires a < 64 && b < 64 && c < 64 && d < 64
    ensures a * 4 + b / 16 == OctetOf(a * 0x4_0000 + b * 0x1000 + c * 64 + d, 0)
  {
    Parts(b);
    var high, b1, b0 := a * 4 + b / 16, b / 16, b % 16;
    assert a * 0x4_0000 + b * 0x1000 + c * 64 + d == (a * 4 + b1) * 65536 + (b0 * 0x1000 + c * 64 + d);
    By65536(a * 4 + b1, b0 * 0x1000 + c * 64 + d);
    By256(0, high);
  }

  lemma {:induction false} SecondOctet(a: nat, b: nat, c: nat, d: nat)
    requires a < 64 && b < 64 && c < 64 && d < 64
    ensures b % 16 * 16 + c / 4 == OctetOf(a * 0x4_0000 + b * 0x1000 + c * 64 + d, 1)
  {
    Parts(b);
    Parts(c);
    var b1, b0, c1, c0 := b / 16, b % 16, c / 4, c % 4;
    assert a * 0x4_0000 + b * 0x1000 + c * 64 + d == ((a * 4 + b1) * 256 + (b0 * 16 + c1)) * 256 + (c0 * 64 + d);
    By256((a * 4 + b1) * 256 + (b0 * 16 + c1), c0 * 64 + d);
    By256(a * 4 + b1, b0 * 16 + c1);
  }

  lemma {:induction false} ThirdOctet(a: nat, b: nat, c: nat, d: nat)
    requires a < 64 && b < 64 && c < 64 && d < 64
    ensures c % 4 * 64 + d == OctetOf(a * 0x4_0000 + b * 0x1000 + c * 64 + d, 2)
  {
    Parts(c);
    var c1, c0 := c / 4, c % 4;
    assert a * 0x4_0000 + b * 0x1000 + c * 64 + d == (a * 1024 + b * 16 + c1) * 256 + (c0 * 64 + d);
    By256(a * 1024 + b * 16 + c1, c0 * 64 + d);
  }

  /** The three expressions of the decoder are the three octets. */
  lemma {:induction false} DecoderOctets(a: nat, b: nat, c: nat, d: nat)
    requires a < 64 && b < 64 && c < 64 && d < 64
    ensures var v := a * 0x4_0000 + b * 0x1000 + c * 64 + d;
      && a * 4 + b / 16 == OctetOf(v, 0) && b % 16 * 16 + c / 4 == OctetOf(v, 1) && c % 4 * 64 + d == OctetOf(v, 2)
  {
    hide OctetOf;
    FirstOctet(a, b, c, d);
    SecondOctet(a, b, c, d);
    ThirdOctet(a, b, c, d);
  }

  /** The octets of the first quanta, or as many of them as there was room for; the rest is as it was. */
  ghost predicate Filled(out: seq<Byte>, before: seq<Byte>, t: seq<char>, count: nat, at: nat, room: nat) {
    && |out| == |before| && room <= |out| && at == (if count < room then count else room)
    && (forall i :: 0 <= i < at ==> 4 * (i / 3) + 3 < |t| && out[i] == OctetOf(Quantum(t, i / 3), i % 3))
    && (forall i :: at <= i < |out| ==> out[i] == before[i])
  }

  /** One octet is put out where there is still room for it, and the room shrinks by one. */
  method PutOctet(out: array<Byte>, v: Byte, at: nat, room: nat, ghost before: seq<Byte>, ghost t: seq<char>,
                  ghost count: nat) returns (next: nat)
    requires at <= room <= out.Length
    modifies out
    ensures next <= room
    ensures Filled(old(out[..]), before, t, count, at, room) ==>
      4 * (count / 3) + 3 < |t| && v == OctetOf(Quantum(t, count / 3), count % 3) ==>
        Filled(out[..], before, t, count + 1, next, room)
  {
    next := at;
    if at < room {
      out[at] := v;
      next := at + 1;
    }
  }

  lemma {:induction false} QuantumAt(t: seq<char>, q: nat, a: nat, b: nat, c: nat, d: nat)
    requires 4 * q + 3 < |t|
    requires a == SextetAt(t, 4 * q) && b == SextetAt(t, 4 * q + 1) && c == SextetAt(t, 4 * q + 2) && d == SextetAt(t, 4 * q + 3)
    ensures var v := Quantum(t, q);
      && a * 4 + b / 16 == OctetOf(v, 0) && b % 16 * 16 + c / 4 == OctetOf(v, 1) && c % 4 * 64 + d == OctetOf(v, 2)
    ensures 3 * q / 3 == q && (3 * q + 1) / 3 == q && (3 * q + 2) / 3 == q
    ensures 3 * q % 3 == 0 && (3 * q + 1) % 3 == 1 && (3 * q + 2) % 3 == 2
  {
    hide SextetAt, OctetOf;
    DecoderOctets(a, b, c, d);
  }

  /** Everything before `at` was accepted, with the padding only at the very end. */
  ghost predicate Accepted(t: seq<char>, at: nat) {
    && at <= |t| && at % 4 == 0
    && if at == |t| then IsEncoding(t) else forall k :: 0 <= k < at ==> IsBase64(t[k])
  }

  /** Four more letters; what the decoder asks of them is what the whole asks of them. */
  lemma AcceptedOn(t: seq<char>, at: nat)
    requires Accepted(t, at) && at + 4 <= |t| && IsBase64(t[at]) && IsBase64(t[at + 1])
    requires IsBase64(t[at + 2]) || (t[at + 2] == '=' && t[at + 3] == '=' && at + 4 == |t|)
    requires IsBase64(t[at + 3]) || (t[at + 3] == '=' && at + 4 == |t|)
    ensures Accepted(t, at + 4)
  {
  }

  lemma {:induction false} Rejected(t: seq<char>, at: nat)
    requires at < |t| && at % 4 == 0
    requires |t| < at + 4 || !IsBase64(t[at]) || !IsBase64(t[at + 1])
      || !(IsBase64(t[at + 2]) || (t[at + 2] == '=' && t[at + 3] == '=' && at + 4 == |t|))
      || !(IsBase64(t[at + 3]) || (t[at + 3] == '=' && at + 4 == |t|))
    ensures !IsEncoding(t)
  {
  }

  lemma PaddingIsNoLetter()
    ensures Value('=') == -1
  {
  }

  /** How many octets have been decoded when the first `at` letters are done. */
  function CountAt(t: seq<char>, at: nat): nat {
    if at == |t| then DecodedLength(t) else at / 4 * 3
  }

  lemma CountStart(t: seq<char>)
    ensures CountAt(t, 0) == 0
  {
  }

  lemma CountShort(t: seq<char>, at: nat)
    requires at < |t| && at % 4 == 0
    ensures CountAt(t, at) == 3 * (at / 4)
  {
  }

  lemma CountOn(t: seq<char>, at: nat)
    requires at + 4 <= |t| && at % 4 == 0
    ensures CountAt(t, at) == 3 * (at / 4)
    ensures CountAt(t, at + 4) == 3 * (at / 4) +
      (if at + 4 == |t| && t[at + 2] == '=' then 1 else if at + 4 == |t| && t[at + 3] == '=' then 2 else 3)
  {
  }

  lemma {:induction false} FilledIsDecoded(out: seq<Byte>, before: seq<Byte>, t: seq<char>, at: nat, room: nat)
    requires Accepted(t, |t|) && Filled(out, before, t, CountAt(t, |t|), at, room)
    ensures IsEncoding(t) && at == (if DecodedLength(t) < room then DecodedLength(t) else room)
    ensures out == Decode(t)[..at] + before[at..]
  {
  }

  /** One turn of the decoder's loop: four letters, or what is left; `more` tells whether they were accepted. */
  method DecodeQuantum(t: seq<char>, from: nat, out: array<Byte>, start: nat, room: nat, ghost before: seq<Byte>)
    returns (more: bool, at: nat)
    requires from + 2 <= |t| && Accepted(t, from) && from % 4 == 0 && start <= room <= out.Length
    requires Filled(out[..], before, t, 3 * (from / 4), start, room)
    modifies out
    ensures more ==> from + 4 <= |t| && Accepted(t, from + 4) && Filled(out[..], before, t, CountAt(t, from + 4), at, room)
    ensures at <= room && (!more ==> !IsEncoding(t))
  {
    hide Filled, Accepted, IsEncoding, DecodedLength, CountAt, OctetOf, Quantum, Value;
    var inLen, q := |t| - from, from / 4;
    more, at := false, start;
    PaddingIsNoLetter();
    if from + 4 > |t| || !IsBase64(t[from]) || !IsBase64(t[from + 1]) { Rejected(t, from); }
    if !IsBase64(t[from]) || !IsBase64(t[from + 1]) { return; }
    var a, b := Value(t[from]), Value(t[from + 1]);
    if from + 4 <= |t| {
      CountOn(t, from);
      QuantumAt(t, q, a, b, SextetAt(t, from + 2), SextetAt(t, from + 3));
    }
    at := PutOctet(out, a * 4 + b / 16, at, room, before, t, 3 * q);
    if inLen == 2 { return; }
    if t[from + 2] == '=' {
      if inLen != 4 || t[from + 3] != '=' {
        Rejected(t, from);
        return;
      }
    } else {
      if !IsBase64(t[from + 2]) {
        Rejected(t, from);
        return;
      }
      var c := Value(t[from + 2]);
      at := PutOctet(out, b % 16 * 16 + c / 4, at, room, before, t, 3 * q + 1);
      if inLen == 3 { return; }
      if t[from + 3] == '=' {
        if inLen != 4 {
          Rejected(t, from);
          return;
        }
      } else {
        if !IsBase64(t[from + 3]) {
          Rejected(t, from);
          return;
        }
        at := PutOctet(out, c % 4 * 64 + Value(t[from + 3]), at, room, before, t, 3 * q + 2);
      }
    }
    AcceptedOn(t, from);
    more := true;
  }

  /** base64_decode: true exactly for encodings; as many octets as there is room for are written. */
  method DecodeInto(t: seq<char>, out: array<Byte>, room: nat) returns (ok: bool, at: nat)
    requires room <= out.Length
    modifies out
    ensures ok <==> IsEncoding(t)
    ensures ok ==> at == (if DecodedLength(t) < room then DecodedLength(t) else room)
    ensures ok ==> out[..] == Decode(t)[..at] + old(out[..])[at..]
  {
    ghost var before := out[..];
    var inPos, more := 0, true;
    at := 0;
    CountStart(t);
    assert Filled(out[..], before, t, 0, 0, room) && Accepted(t, 0);
    hide Filled, Accepted, IsEncoding, DecodedLength, CountAt;
    while more && |t| - inPos >= 2
      invariant inPos <= |t| && inPos % 4 == 0 && at <= room
      invariant more ==> Accepted(t, inPos) && Filled(out[..], before, t, CountAt(t, inPos), at, room)
      invariant !more ==> !IsEncoding(t) && inPos < |t|
      decreases |t| - inPos, more
    {
      if inPos + 4 <= |t| { CountOn(t, inPos); } else { CountShort(t, inPos); }
      more, at := DecodeQuantum(t, inPos, out, at, room, before);
      if more { inPos := inPos + 4; }
    }
    ok := inPos == |t|;
    if more && !ok { Rejected(t, inPos); }
    if ok { FilledIsDecoded(out[..], before, t, at, room); }
  }

  // ---------------------------------------------------------------- the round trip

  lemma {:induction false} OctetsOfGroup(a: nat, b: nat, c: nat)
    requires a < 256 && b < 256 && c < 256
    ensures var v := a * 0x1_0000 + b * 0x100 + c;
      OctetOf(v, 0) == a && OctetOf(v, 1) == b && OctetOf(v, 2) == c
  {
  }

  lemma {:induction false} SextetsMakeGroup(a: nat, b: nat, c: nat)
    requires a < 256 && b < 256 && c < 256
    ensures var v := a * 0x1_0000 + b * 0x100 + c;
      v == Sextet(v, 0) * 0x4_0000 + Sextet(v, 1) * 0x1000 + Sextet(v, 2) * 64 + Sextet(v, 3)
  {
    hide Sextet;
    Regrouped(a, b, c);
    SextetsOf(a / 4, a % 4 * 16 + b / 16, b % 16 * 4 + c / 64, c % 64);
  }

  /** Behind the end of the input the 6-bit values are zero. */
  lemma {:induction false} MissingIsZero(a: nat, b: nat)
    requires a < 256 && b < 256
    ensures Sextet(a * 0x1_0000 + b * 0x100, 3) == 0 && Sextet(a * 0x1_0000, 2) == 0
  {
    assert a * 0x1_0000 / 64 == a * 0x400;
    assert (a * 0x400) % 64 == 0 by { assert a * 0x400 == 64 * (a * 16); }
    assert a * 0x1_0000 + b * 0x100 == 64 * (a * 0x400 + b * 4);
  }

  /** A padded place holds a zero value, so each letter stands for its 6-bit value. */
  lemma {:induction false} SextetIsRead(s: seq<Byte>, g: nat, j: nat)
    requires 3 * g < |s| && j < 4
    ensures 4 * g + j < |Encode(s)| && SextetAt(Encode(s), 4 * g + j) == Sextet(Group(s, g), j)
  {
    hide Encode, Sextet, Letter, Value;
    FullAt(s, g, j);
    MissingIsZero(OctetAt(s, 3 * g), OctetAt(s, 3 * g + 1));
    if j >= 2 && 3 * g + j - 1 >= |s| {
      PaddingIsNoLetter();
    } else {
      LetterValue(Sextet(Group(s, g), j));
    }
  }

  lemma {:induction false} QuantumIsGroup(s: seq<Byte>, g: nat)
    requires 3 * g < |s|
    ensures 4 * g + 3 < |Encode(s)| && Quantum(Encode(s), g) == Group(s, g)
  {
    hide Encode, Sextet, SextetAt;
    SextetIsRead(s, g, 0);
    SextetIsRead(s, g, 1);
    SextetIsRead(s, g, 2);
    SextetIsRead(s, g, 3);
    SextetsMakeGroup(OctetAt(s, 3 * g), OctetAt(s, 3 * g + 1), OctetAt(s, 3 * g + 2));
  }

  lemma {:induction false} EncodeIsEncoding(s: seq<Byte>)
    ensures IsEncoding(Encode(s)) && DecodedLength(Encode(s)) == |s|
  {
    var t := Encode(s);
    forall k | 0 <= k < |t|
      ensures IsBase64(t[k]) || (t[k] == '=' && (k == |t| - 1 || (k == |t| - 2 && t[|t| - 1] == '=')))
      ensures t[k] == '=' <==> k % 4 >= 2 && 3 * (k / 4) + k % 4 - 1 >= |s|
    {
      FullAt(s, k / 4, k % 4);
      if !(k % 4 >= 2 && 3 * (k / 4) + k % 4 - 1 >= |s|) { LetterValue(Sextet(Group(s, k / 4), k % 4)); }
    }
  }

  /** Decoding an encoding gives back every octet string. */
  lemma {:induction false} DecodeInvertsEncode(s: seq<Byte>)
    ensures IsEncoding(Encode(s)) && Decode(Encode(s)) == s
  {
    hide Encode, OctetOf, Quantum, IsEncoding;
    EncodeIsEncoding(s);
    var t := Encode(s);
    forall i | 0 <= i < |s| ensures Decode(t)[i] == s[i] {
      var g := i / 3;
      QuantumIsGroup(s, g);
      OctetsOfGroup(OctetAt(s, 3 * g), OctetAt(s, 3 * g + 1), OctetAt(s, 3 * g + 2));
    }
  }
}
