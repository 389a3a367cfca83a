/** The STOMP frame parser: command word, header lines, body. */
module Parser {
  import opened CString
  import opened Seqs
  import opened AssocTree

  const CONNECT: int := 1
  const DISCONNECT: int := 2
  const SUBSCRIBE: int := 3
  const UNSUBSCRIBE: int := 4
  const SEND: int := 5
  const DIAGNOSTIC: int := 6

  datatype ParsedMessage = ParsedMessage(
    command: int,
    headers: Tree,
    receipt: Option<string>,
    topic: Option<string>,
    id: Option<string>,
    body: Option<string>,
    ts: int)

  /** line_end: the first CR or LF in s[at..n], or -1. */
  function LineEnd(s: string, at: nat, n: nat): (i: int)
    requires at <= n <= |s|
    ensures i == -1 || (at <= i < n && (s[i] == '\n' || s[i] == '\r'))
  {
    var lf, cr := MemChr(s, '\n', at, n), MemChr(s, '\r', at, n);
    if lf < 0 then cr else if cr < 0 then lf else if lf > cr then cr else lf
  }

  /** next_row: the position after the first LF in s[at..n], or -1. */
  function NextRow(s: string, at: nat, n: nat): (i: int)
    requires at <= n <= |s|
    ensures i == -1 || (at < i <= n && s[i - 1] == '\n')
  {
    var lf := MemChr(s, '\n', at, n);
    if lf < 0 then -1 else lf + 1
  }

  /** memchr for ':' in the current line, or in all the rest when there is no further line. */
  function Separator(s: string, at: nat, n: nat): (i: int)
    requires at <= n <= |s|
    ensures i == -1 || (at <= i < n && s[i] == ':')
  {
    var nr := NextRow(s, at, n);
    MemChr(s, ':', at, if nr >= 0 then nr else n)
  }

  /** One turn of the parsing loop: where the next line starts (-1: nowhere), and the header found. */
  datatype Line = Stop(next: int) | Header(next: int, key: string, value: string)

  function ParseLine(s: string, at: nat, n: nat): (r: Line)
    requires at <= n <= |s|
    ensures r.next == -1 || at < r.next <= n
  {
    var le, nr, sep := LineEnd(s, at, n), NextRow(s, at, n), Separator(s, at, n);
    if sep >= 0 && le > sep then Header(nr, Sub(s, at, sep), Sub(s, sep + 1, le)) else Stop(nr)
  }

  /**
   parse_headers on s[at..n] after `ps` has been read: all headers in order, and where the text that
   follows them starts (-1: nowhere).
   */
  function ParseHeaders(ps: Pairs, s: string, at: nat, n: nat): (r: (Pairs, int))
    requires at <= n <= |s|
    ensures r.1 == -1 || at < r.1 <= n
    decreases n - at
  {
    match ParseLine(s, at, n)
    case Stop(nr) => (ps, nr)
    case Header(nr, key, value) =>
      if nr >= 0 then ParseHeaders(ps + [(key, value)], s, nr, n) else (ps + [(key, value)], -1)
  }

  /** The value kept for a special attribute: that of the last header whose key has the prefix. */
  function Latest(ps: Pairs, prefix: string): Option<string> {
    if ps == [] then None
    else
      var (key, value) := ps[|ps| - 1];
      if HasPrefix(key, prefix) then Some(value) else Latest(ps[..|ps| - 1], prefix)
  }

  /**
   The last of several headers counts: the value kept for a special attribute is that of the last header whose key
   has the prefix, wherever it stands, and there is none exactly if no key has the prefix.
   */
  lemma {:induction false} LatestIsLast(ps: Pairs, prefix: string)
    ensures Latest(ps, prefix) == None <==> forall i :: 0 <= i < |ps| ==> !HasPrefix(ps[i].0, prefix)
    ensures Latest(ps, prefix).Some? ==>
      exists i :: 0 <= i < |ps| && HasPrefix(ps[i].0, prefix) && Latest(ps, prefix) == Some(ps[i].1)
        && forall j :: i < j < |ps| ==> !HasPrefix(ps[j].0, prefix)
  {
    hide HasPrefix;
    if ps != [] {
      var last, front := |ps| - 1, ps[..|ps| - 1];
      LatestIsLast(front, prefix);
      assert forall i :: 0 <= i < last ==> ps[i] == front[i];
      if !HasPrefix(ps[last].0, prefix) && Latest(front, prefix).Some? {
        var i :| 0 <= i < last && HasPrefix(front[i].0, prefix) && Latest(front, prefix) == Some(front[i].1)
          && forall j :: i < j < last ==> !HasPrefix(front[j].0, prefix);
        assert HasPrefix(ps[i].0, prefix);
      }
    }
  }

  function ParseCommand(s: string): int {
    if HasPrefix(s, "CONNECT") || HasPrefix(s, "STOMP") then CONNECT
    else if HasPrefix(s, "DISCONNECT") then DISCONNECT
    else if HasPrefix(s, "SUBSCRIBE") then SUBSCRIBE
    else if HasPrefix(s, "UNSUBSCRIBE") then UNSUBSCRIBE
    else if HasPrefix(s, "SEND") then SEND
    else if HasPrefix(s, "DIAG") then DIAGNOSTIC
    else -1
  }

  /** In plain terms: each command by its word at the front of the frame, and no other. */
  lemma CommandsPlainly(s: string)
    ensures ParseCommand(s) == 1 <==> "CONNECT" <= s || "STOMP" <= s
    ensures ParseCommand(s) == 2 <==> "DISCONNECT" <= s
    ensures ParseCommand(s) == 3 <==> "SUBSCRIBE" <= s
    ensures ParseCommand(s) == 4 <==> "UNSUBSCRIBE" <= s
    ensures ParseCommand(s) == 5 <==> "SEND" <= s
    ensures ParseCommand(s) == 6 <==> "DIAG" <= s
    ensures ParseCommand(s) == -1 || 1 <= ParseCommand(s) <= 6
  {
    FirstLetters(s);
  }

  lemma FirstLetters(s: string)
    ensures "CONNECT" <= s ==> s[0] == 'C'
    ensures "STOMP" <= s ==> s[0] == 'S' && s[1] == 'T'
    ensures "DISCONNECT" <= s ==> s[0] == 'D' && s[2] == 'S'
    ensures "SUBSCRIBE" <= s ==> s[0] == 'S' && s[1] == 'U'
    ensures "UNSUBSCRIBE" <= s ==> s[0] == 'U'
    ensures "SEND" <= s ==> s[0] == 'S' && s[1] == 'E'
    ensures "DIAG" <= s ==> s[0] == 'D' && s[2] == 'A'
  {
  }

  // ---------------------------------------------------------------- where the search for ':' leaves the text

  /** The search for the ':' of a line without a line break finds none in the text. */
  predicate SearchesOn(s: string, at: nat, n: nat)
    requires at <= n <= |s|
  {
    NextRow(s, at, n) < 0 && Separator(s, at, n) < 0
  }

  /** Whether parsing s[at..n] comes to a line at which the search for its ':' goes on behind the text. */
  predicate RunsOver(s: string, at: nat, n: nat)
    requires at <= n <= |s|
    decreases n - at
  {
    var line := ParseLine(s, at, n);
    SearchesOn(s, at, n) || (line.Header? && line.next >= 0 && RunsOver(s, line.next, n))
  }

  /** Where the last line of s[at..n] starts. */
  function LastLine(s: string, at: nat, n: nat): (i: nat)
    requires at <= n <= |s|
    ensures at <= i <= n && (i > at ==> s[i - 1] == '\n') && forall k :: i <= k < n ==> s[k] != '\n'
  {
    if n > at && s[n - 1] != '\n' then LastLine(s, at, n - 1) else n
  }

  lemma {:induction false} LastLineFrom(s: string, at: nat, n: nat)
    requires at <= n <= |s|
    ensures var nr := NextRow(s, at, n); LastLine(s, at, n) == if nr >= 0 then LastLine(s, nr, n) else at
  {
    MemChrFirst(s, '\n', at, n);
  }

  /** The exact condition: the frame has no body, and what follows its last line break holds no ':'. */
  lemma {:induction false} RunsOverIff(ps: Pairs, s: string, at: nat, n: nat)
    requires at <= n <= |s|
    ensures RunsOver(s, at, n) <==>
      ParseHeaders(ps, s, at, n).1 == -1 && forall k :: LastLine(s, at, n) <= k < n ==> s[k] != ':'
    decreases n - at
  {
    hide ParseLine, LastLine;
    LastLineFrom(s, at, n);
    LineIs(s, at, n);
    var nr := NextRow(s, at, n);
    if nr < 0 {
      MemChrFirst(s, ':', at, n);
    } else if ParseLine(s, at, n).Header? {
      var line := ParseLine(s, at, n);
      RunsOverIff(ps + [(line.key, line.value)], s, nr, n);
    }
  }

  lemma LineIs(s: string, at: nat, n: nat)
    requires at <= n <= |s|
    ensures ParseLine(s, at, n).next == NextRow(s, at, n)
  {
  }

  /**
   A frame has no body exactly if every line that has a line break is a header line; its body starts behind the first
   one that is not.
   */
  lemma {:induction false} NoBodyIff(ps: Pairs, s: string, at: nat, n: nat)
    requires at <= n <= |s|
    ensures ParseHeaders(ps, s, at, n).1 == -1 <==>
      forall k :: at <= k <= n && (k == at || s[k - 1] == '\n') && NextRow(s, k, n) >= 0 ==> ParseLine(s, k, n).Header?
    decreases n - at
  {
    hide ParseLine;
    LineIs(s, at, n);
    MemChrFirst(s, '\n', at, n);
    var nr, line := NextRow(s, at, n), ParseLine(s, at, n);
    if nr >= 0 && line.Header? { NoBodyIff(ps + [(line.key, line.value)], s, nr, n); }
  }

  function ParseMessage(content: string, ts: int): (pm: ParsedMessage)
    ensures HeightsExact(pm.headers)
  {
    var command, n := ParseCommand(content), |content|;
    var nr := NextRow(content, 0, n);
    var (ps, body) := if command > 0 && nr >= 0 then ParseHeaders([], content, nr, n) else ([], -1);
    ParsedMessage(command, PutAll(Leaf, ps),
                  Latest(ps, "receipt"), Latest(ps, "destination"), Latest(ps, "id"),
                  if body >= 0 then Some(content[body..]) else None, ts)
  }

  /** The value of the last header whose key starts with the prefix, if there is one. */
  predicate IsLast(ps: Pairs, prefix: string, value: Option<string>) {
    if value.None? then forall i :: 0 <= i < |ps| ==> !(prefix <= ps[i].0)
    else exists i :: 0 <= i < |ps| && prefix <= ps[i].0 && value.value == ps[i].1
                     && forall j :: i < j < |ps| ==> !(prefix <= ps[j].0)
  }

  /** The three special headers of a frame, in plain terms. */
  lemma {:induction false} SpecialsPlainly(content: string, ts: int)
    ensures var pm, nr := ParseMessage(content, ts), NextRow(content, 0, |content|);
      var ps := if pm.command > 0 && nr >= 0 then ParseHeaders([], content, nr, |content|).0 else [];
      && pm.ts == ts && IsLast(ps, "receipt", pm.receipt) && IsLast(ps, "destination", pm.topic) && IsLast(ps, "id", pm.id)
  {
    hide ParseCommand, ParseHeaders, NextRow, Latest, PutAll, IsLast;
    var command, nr := ParseCommand(content), NextRow(content, 0, |content|);
    var ps := if command > 0 && nr >= 0 then ParseHeaders([], content, nr, |content|).0 else [];
    LatestPlainly(ps, "receipt");
    LatestPlainly(ps, "destination");
    LatestPlainly(ps, "id");
  }

  lemma {:induction false} LatestPlainly(ps: Pairs, prefix: string)
    ensures IsLast(ps, prefix, Latest(ps, prefix))
  {
    LatestIsLast(ps, prefix);
  }

  /** The header table of any parsed frame is a balanced search tree. */
  lemma {:induction false} ParsedHeadersWellFormed(content: string, ts: int)
    ensures WellFormed(ParseMessage(content, ts).headers)
  {
    var command, n := ParseCommand(content), |content|;
    var nr := NextRow(content, 0, n);
    PutAllCorrect(Leaf, if command > 0 && nr >= 0 then ParseHeaders([], content, nr, n).0 else []);
  }

  // ---------------------------------------------------------------- parsing in the receive buffer

  /** A NUL-terminated buffer without further NULs. */
  predicate IsCString(buf: string) {
    |buf| > 0 && forall k :: 0 <= k < |buf| ==> (buf[k] == '\0' <==> k == |buf| - 1)
  }

  /** The same text, except that some CRs may have become LFs. */
  predicate Restored(now: string, was: string) {
    |now| == |was| && forall i :: 0 <= i < |was| ==> now[i] == was[i] || (was[i] == '\r' && now[i] == '\n')
  }

  /** Cutting a line at its separator and end leaves the key and the value as C strings. */
  lemma {:induction false} CutGivesHeader(buf: string, str: nat, sep: nat, le: nat)
    requires IsCString(buf) && str <= sep < le < |buf| - 1
    ensures StringAt(buf[sep := '\0'][le := '\0'], str) == Sub(buf, str, sep)
    ensures StringAt(buf[sep := '\0'][le := '\0'], sep + 1) == Sub(buf, sep + 1, le)
  {
    var cut := buf[sep := '\0'][le := '\0'];
    assert Sub(cut, str, sep) == Sub(buf, str, sep) && Sub(cut, sep + 1, le) == Sub(buf, sep + 1, le);
    StringAtIs(cut, str, sep);
    StringAtIs(cut, sep + 1, le);
  }

  /** Writes the separator and the line end of a line. */
  method Mark(buf: array<char>, sep: nat, c: char, le: nat, d: char)
    requires sep < le < buf.Length
    modifies buf
    ensures buf[..] == old(buf[..])[sep := c][le := d]
  {
    buf[sep] := c;
    buf[le] := d;
  }

  /** Marking the same two places twice leaves the second marks. */
  lemma MarkTwice(line: string, sep: nat, le: nat)
    requires sep < le < |line| && line[sep] == ':'
    ensures line[sep := '\0'][le := '\0'][sep := ':'][le := '\n'] == line[le := '\n']
  {
  }

  /** One header line: cut at its separator and its end, read as two C strings, restored with an LF. */
  method CutLine(buf: array<char>, str: nat, sep: nat, le: nat) returns (key: string, value: string)
    requires IsCString(buf[..]) && str <= sep < le < buf.Length - 1 && buf[sep] == ':'
    modifies buf
    ensures key == Sub(old(buf[..]), str, sep) && value == Sub(old(buf[..]), sep + 1, le)
    ensures buf[..] == old(buf[..])[le := '\n']
  {
    CutGivesHeader(buf[..], str, sep, le);
    MarkTwice(buf[..], sep, le);
    Mark(buf, sep, '\0', le, '\0');
    key, value := StringAt(buf[..], str), StringAt(buf[..], sep + 1);
    Mark(buf, sep, ':', le, '\n');
  }

  predicate Agree(s: string, t: string, from: nat, n: nat) {
    n <= |s| && n <= |t| && forall k :: from <= k < n ==> s[k] == t[k]
  }

  lemma SubFrame(s: string, t: string, from: nat, to: nat)
    requires from <= to && Agree(s, t, from, to)
    ensures Sub(s, from, to) == Sub(t, from, to)
  {
  }

  /** Parsing a line looks at nothing before it. */
  lemma {:induction false} ParseLineFrame(s: string, t: string, at: nat, n: nat)
    requires at <= n && Agree(s, t, at, n)
    ensures ParseLine(s, at, n) == ParseLine(t, at, n)
  {
    hide MemChr, Sub;
    MemChrFrame(s, t, '\n', at, n);
    MemChrFrame(s, t, '\r', at, n);
    var nr := NextRow(s, at, n);
    MemChrFrame(s, t, ':', at, if nr >= 0 then nr else n);
    var le, sep := LineEnd(s, at, n), Separator(s, at, n);
    if 0 <= sep < le {
      SubFrame(s, t, at, sep);
      SubFrame(s, t, sep + 1, le);
    }
  }

  /** The test and the header of one turn of the parsing loop, on the buffer; `beyond`: the search has left the text. */
  method ParseLineInPlace(buf: array<char>, str: nat) returns (r: Line, beyond: bool)
    requires str < buf.Length && IsCString(buf[..])
    modifies buf
    ensures IsCString(buf[..]) && Restored(buf[..], old(buf[..]))
    ensures r == ParseLine(old(buf[..]), str, buf.Length - 1)
    ensures beyond == SearchesOn(old(buf[..]), str, buf.Length - 1)
    ensures r.next >= 0 ==> Agree(buf[..], old(buf[..]), r.next, buf.Length)
  {
    ghost var was := buf[..];
    var n := buf.Length - 1;
    var le, nr, sep := LineEnd(buf[..], str, n), NextRow(buf[..], str, n), Separator(buf[..], str, n);
    beyond := nr < 0 && sep < 0;
    if sep < 0 || le <= sep {
      return Stop(nr), beyond;
    }
    var key, value := CutLine(buf, str, sep, le);
    return Header(nr, key, value), beyond;
  }

  lemma RestoredTwice(now: string, mid: string, was: string)
    requires Restored(now, mid) && Restored(mid, was)
    ensures Restored(now, was)
  {
  }

  lemma {:induction false} RestoredLfOnly(now: string, was: string)
    requires Restored(now, was) && '\r' !in was
    ensures now == was
  {
  }

  // ---------------------------------------------------------------- what the loop keeps of each header

  datatype Specials = Specials(receipt: Option<string>, topic: Option<string>, id: Option<string>)

  /** The table and the special attributes after the headers `ps`. */
  ghost predicate Known(ps: Pairs, headers: Tree, found: Specials) {
    && HeightsExact(headers) && headers == PutAll(Leaf, ps)
    && found == Specials(Latest(ps, "receipt"), Latest(ps, "destination"), Latest(ps, "id"))
  }

  lemma PrefixesApart(key: string)
    ensures HasPrefix(key, "receipt") ==> !HasPrefix(key, "id") && !HasPrefix(key, "destination")
    ensures HasPrefix(key, "id") ==> !HasPrefix(key, "destination")
  {
    if HasPrefix(key, "receipt") { assert key[..7][0] == 'r'; }
    if HasPrefix(key, "destination") { assert key[..11][0] == 'd'; }
    if HasPrefix(key, "id") { assert key[..2][0] == 'i'; }
  }

  lemma {:induction false} LatestOn(ps: Pairs, key: string, value: string, prefix: string)
    ensures Latest(ps + [(key, value)], prefix) == if HasPrefix(key, prefix) then Some(value) else Latest(ps, prefix)
  {
    hide HasPrefix;
    var all := ps + [(key, value)];
    assert all[|all| - 1] == (key, value) && all[..|all| - 1] == ps;
  }

  lemma {:induction false} PutAllOn(ps: Pairs, key: string, value: string)
    ensures PutAll(Leaf, ps + [(key, value)]) == Put(PutAll(Leaf, ps), key, value).0
  {
    hide Put;
    PutAllAppend(Leaf, ps, [(key, value)]);
    assert [(key, value)][1..] == [];
  }

  /** The body of the loop for one header: aa_put, and the three special attributes by their prefixes. */
  method Remember(headers: Tree, found: Specials, key: string, value: string, ghost ps: Pairs)
    returns (t: Tree, f: Specials)
    requires Known(ps, headers, found)
    ensures Known(ps + [(key, value)], t, f)
  {
    hide Put, PutAll, Latest, HasPrefix;
    PrefixesApart(key);
    PutAllOn(ps, key, value);
    LatestOn(ps, key, value, "receipt");
    LatestOn(ps, key, value, "destination");
    LatestOn(ps, key, value, "id");
    t, f := Put(headers, key, value).0, found;
    if HasPrefix(key, "receipt") {
      f := f.(receipt := Some(value));
    } else if HasPrefix(key, "id") {
      f := f.(id := Some(value));
    } else if HasPrefix(key, "destination") {
      f := f.(topic := Some(value));
    }
  }

  /** The parsing loop before a turn: `was` is the text at the start, `now` the buffer, `str` the line at hand. */
  ghost predicate Parsing(was: string, now: string, start: nat, str: nat, ps: Pairs, headers: Tree, found: Specials) {
    && start <= str < |now| == |was| && IsCString(now) && Restored(now, was) && Agree(now, was, str, |now|)
    && Known(ps, headers, found)
    && ParseHeaders([], was, start, |was| - 1) == ParseHeaders(ps, was, str, |was| - 1)
    && RunsOver(was, start, |was| - 1) == RunsOver(was, str, |was| - 1)
  }

  /** The parsing loop at its end. */
  ghost predicate Parsed(was: string, now: string, start: nat, rest: int, beyond: bool, ps: Pairs, headers: Tree,
                         found: Specials)
  {
    && start < |now| == |was| && IsCString(now) && Restored(now, was) && Known(ps, headers, found)
    && (ps, rest) == ParseHeaders([], was, start, |was| - 1) && beyond == RunsOver(was, start, |was| - 1)
    && (rest >= 0 ==> Agree(now, was, rest, |now|))
  }

  /** What a line that has been read does to the loop. */
  lemma {:induction false} ParsingOn(was: string, mid: string, now: string, start: nat, str: nat, ps: Pairs,
                                     headers: Tree, found: Specials, line: Line, beyond: bool, t: Tree, f: Specials)
    requires Parsing(was, mid, start, str, ps, headers, found) && IsCString(now) && Restored(now, mid)
    requires line == ParseLine(mid, str, |mid| - 1) && beyond == SearchesOn(mid, str, |mid| - 1)
    requires line.next >= 0 ==> Agree(now, mid, line.next, |mid|)
    requires Known(if line.Header? then ps + [(line.key, line.value)] else ps, t, f)
    ensures line.Stop? ==> Parsed(was, now, start, line.next, beyond, ps, t, f)
    ensures line.Header? && line.next < 0 ==> Parsed(was, now, start, -1, beyond, ps + [(line.key, line.value)], t, f)
    ensures line.Header? && line.next >= 0 ==>
      !beyond && Parsing(was, now, start, line.next, ps + [(line.key, line.value)], t, f)
  {
    hide ParseLine, Known, SearchesOn, IsCString;
    ParseLineFrame(mid, was, str, |was| - 1);
    SearchFrame(mid, was, str, |was| - 1);
    LineIs(mid, str, |mid| - 1);
    if line.Header? && line.next >= 0 { NoSearchOn(mid, str, |mid| - 1); }
    RestoredTwice(now, mid, was);
  }

  lemma NoSearchOn(s: string, at: nat, n: nat)
    requires at <= n <= |s| && NextRow(s, at, n) >= 0
    ensures !SearchesOn(s, at, n)
  {
  }

  lemma {:induction false} SearchFrame(s: string, t: string, at: nat, n: nat)
    requires at <= n && Agree(s, t, at, n)
    ensures SearchesOn(s, at, n) == SearchesOn(t, at, n)
  {
    MemChrFrame(s, t, '\n', at, n);
    MemChrFrame(s, t, ':', at, n);
  }

  /** One turn of the loop; `str` is then the next line, or the loop is over. */
  method ParseTurn(buf: array<char>, at: nat, headers: Tree, found: Specials, ghost ps: Pairs, ghost was: string,
                   ghost start: nat)
    returns (over: bool, str: nat, rest: int, beyond: bool, t: Tree, f: Specials, ghost now: Pairs)
    requires Parsing(was, buf[..], start, at, ps, headers, found)
    modifies buf
    ensures !over ==> at < str < buf.Length && !beyond && Parsing(was, buf[..], start, str, now, t, f)
    ensures over ==> Parsed(was, buf[..], start, rest, beyond, now, t, f)
  {
    ghost var mid := buf[..];
    hide ParseLine, Known;
    var line;
    line, beyond := ParseLineInPlace(buf, at);
    over, str, rest, t, f, now := line.Stop? || line.next < 0, 0, line.next, headers, found, ps;
    if line.Header? {
      t, f := Remember(headers, found, line.key, line.value, ps);
      now := ps + [(line.key, line.value)];
    }
    ParsingOn(was, mid, buf[..], start, at, ps, headers, found, line, beyond, t, f);
    if !over { str := line.next; }
  }

  /**
   parse_headers on the buffer itself: lines are cut with NULs, read, and restored. `rest` is the position of the body,
   which is untouched; `beyond` says whether the original has searched behind the text. A buffer whose line ends are
   all LF comes back byte for byte.
   */
  method ParseHeadersInPlace(buf: array<char>, start: nat)
    returns (headers: Tree, found: Specials, rest: int, beyond: bool, ghost ps: Pairs)
    requires start < buf.Length && IsCString(buf[..])
    modifies buf
    ensures (ps, rest) == ParseHeaders([], old(buf[..]), start, buf.Length - 1) && Known(ps, headers, found)
    ensures beyond == RunsOver(old(buf[..]), start, buf.Length - 1)
    ensures IsCString(buf[..]) && Restored(buf[..], old(buf[..]))
    ensures rest >= 0 ==> Agree(buf[..], old(buf[..]), rest, buf.Length)
    ensures '\r' !in old(buf[..]) ==> buf[..] == old(buf[..])
  {
    headers, found, rest, beyond, ps := Leaf, Specials(None, None, None), -1, false, [];
    var str, over := start, false;
    ghost var was := buf[..];
    NothingKnown();
    assert Parsing(was, buf[..], start, str, ps, headers, found);
    hide Parsing, Parsed;
    while !over
      invariant over || str < buf.Length
      invariant !over ==> Parsing(was, buf[..], start, str, ps, headers, found)
      invariant over ==> Parsed(was, buf[..], start, rest, beyond, ps, headers, found)
      decreases !over, if over then 0 else buf.Length - str
    {
      over, str, rest, beyond, headers, found, ps := ParseTurn(buf, str, headers, found, ps, was, start);
    }
    ParsedIs(was, buf[..], start, rest, beyond, ps, headers, found);
  }

  lemma {:induction false} ParsedIs(was: string, now: string, start: nat, rest: int, beyond: bool, ps: Pairs,
                                    headers: Tree, found: Specials)
    requires Parsed(was, now, start, rest, beyond, ps, headers, found)
    ensures start < |now| == |was| && IsCString(now) && Restored(now, was) && Known(ps, headers, found)
    ensures (ps, rest) == ParseHeaders([], was, start, |was| - 1) && beyond == RunsOver(was, start, |was| - 1)
    ensures rest >= 0 ==> Agree(now, was, rest, |now|)
    ensures '\r' !in was ==> now == was
  {
    if '\r' !in was { RestoredLfOnly(now, was); }
  }

  /** Parsing looks at nothing behind its end either. */
  lemma {:induction false} ParseHeadersFrame(ps: Pairs, s: string, t: string, at: nat, n: nat)
    requires at <= n && Agree(s, t, at, n)
    ensures ParseHeaders(ps, s, at, n) == ParseHeaders(ps, t, at, n)
    decreases n - at
  {
    hide ParseLine;
    ParseLineFrame(s, t, at, n);
    match ParseLine(s, at, n)
    case Stop(nr) =>
    case Header(nr, key, value) =>
      if nr >= 0 { ParseHeadersFrame(ps + [(key, value)], s, t, nr, n); }
  }

  lemma {:induction false} RunsOverFrame(s: string, t: string, at: nat, n: nat)
    requires at <= n && Agree(s, t, at, n)
    ensures RunsOver(s, at, n) == RunsOver(t, at, n)
    decreases n - at
  {
    hide ParseLine, SearchesOn;
    ParseLineFrame(s, t, at, n);
    SearchFrame(s, t, at, n);
    var line := ParseLine(s, at, n);
    if line.Header? && line.next >= 0 { RunsOverFrame(s, t, line.next, n); }
  }

  /** Whether parsing a received text makes the original look behind its end. */
  predicate LeavesText(content: string) {
    var nr := NextRow(content, 0, |content|);
    ParseCommand(content) > 0 && nr >= 0 && RunsOver(content, nr, |content|)
  }

  /** A frame with a body never does, and one without exactly if no ':' follows its last line break. */
  lemma {:induction false} LeavesTextIff(content: string, ts: int)
    ensures var pm := ParseMessage(content, ts);
      LeavesText(content) <==>
        && pm.command > 0 && pm.body.None? && NextRow(content, 0, |content|) >= 0
        && forall k :: LastLine(content, 0, |content|) <= k < |content| ==> content[k] != ':'
  {
    var nr := NextRow(content, 0, |content|);
    LastLineFrom(content, 0, |content|);
    if nr >= 0 { RunsOverIff([], content, nr, |content|); }
  }

  /** parse_message on the buffer of a received text. */
  method ParseMessageInPlace(buf: array<char>, ts: int) returns (pm: ParsedMessage, beyond: bool)
    requires IsCString(buf[..])
    modifies buf
    ensures pm == ParseMessage(old(buf[..buf.Length - 1]), ts)
    ensures beyond == LeavesText(old(buf[..buf.Length - 1]))
    ensures IsCString(buf[..]) && Restored(buf[..], old(buf[..]))
    ensures '\r' !in old(buf[..]) ==> buf[..] == old(buf[..])
  {
    hide ParseCommand, ParseHeaders, PutAll, Latest, RunsOver;
    ghost var was := buf[..];
    beyond := false;
    var n := buf.Length - 1;
    var content := buf[..n];
    var command := ParseCommand(content);
    var headers, found, body := Leaf, Specials(None, None, None), None;
    NothingKnown();
    if command > 0 {
      var next := NextRow(content, 0, n);
      if next >= 0 {
        ParseHeadersFrame([], was, content, next, n);
        RunsOverFrame(was, content, next, n);
        var rest;
        ghost var ps;
        headers, found, rest, beyond, ps := ParseHeadersInPlace(buf, next);
        if rest >= 0 {
          body := Some(buf[rest..n]);
          assert buf[rest..n] == content[rest..];
        }
      }
    }
    pm := ParsedMessage(command, headers, found.receipt, found.topic, found.id, body, ts);
  }

  lemma NothingKnown()
    ensures Known([], Leaf, Specials(None, None, None))
  {
  }
}
