/** The text of the frames that the broker sends, and the header table's printed form. */
module Messages {
  import opened CString
  import opened Seqs
  import opened AssocTree
  import opened Parser

  /** What precedes the next item in a possibly missing buffer. */
  function Open(buffer: Option<string>): string {
    if buffer.None? then "" else buffer.value + "\n"
  }

  /** aa_get_str_buf: appends "key:value" of every item, parents first, to a possibly missing buffer. */
  function StrBuf(t: Tree, buffer: Option<string>): string
    requires t.Node?
  {
    var b0 := Open(buffer) + (t.key + ":" + t.value);
    var b1 := if t.left.Node? then StrBuf(t.left, Some(b0)) else b0;
    if t.right.Node? then StrBuf(t.right, Some(b1)) else b1
  }

  /** message_send_with_headers. */
  function MessageText(headers: Tree, body: string): string {
    "MESSAGE\n" + (if headers.Node? then StrBuf(headers, None) else "") + "\n\n" + body
  }

  // ---------------------------------------------------------------- printing

  function LineOf(key: string, value: string): string {
    key + ":" + value + "\n"
  }

  function Lines(ps: Pairs): string {
    if ps == [] then "" else LineOf(ps[0].0, ps[0].1) + Lines(ps[1..])
  }

  lemma {:induction false} LinesAppend(a: Pairs, b: Pairs)
    ensures Lines(a + b) == Lines(a) + Lines(b)
  {
    if a == [] {
      assert a + b == b;
    } else {
      assert (a + b)[1..] == a[1..] + b;
      LinesAppend(a[1..], b);
    }
  }

  lemma {:induction false} LinesOfNode(t: Tree)
    requires t.Node?
    ensures Lines(Preorder(t)) == LineOf(t.key, t.value) + Lines(Preorder(t.left)) + Lines(Preorder(t.right))
  {
    var head := [(t.key, t.value)];
    assert Lines(head) == LineOf(t.key, t.value) + Lines([]);
    LinesAppend(head, Preorder(t.left));
    LinesAppend(head + Preorder(t.left), Preorder(t.right));
  }

  /** The printed form is one line per item, in preorder; only the last line break is missing. */
  lemma {:induction false} StrBufIsLines(t: Tree, buffer: Option<string>)
    requires t.Node?
    ensures StrBuf(t, buffer) + "\n" == Open(buffer) + Lines(Preorder(t))
  {
    var b0 := Open(buffer) + (t.key + ":" + t.value);
    var b1 := if t.left.Node? then StrBuf(t.left, Some(b0)) else b0;
    var line, l, r := LineOf(t.key, t.value), Lines(Preorder(t.left)), Lines(Preorder(t.right));
    LinesOfNode(t);
    Regroup(Open(buffer), t.key + ":" + t.value, "\n");
    assert b0 + "\n" == Open(buffer) + line;
    if t.left.Node? { StrBufIsLines(t.left, Some(b0)); }
    Regroup(Open(buffer), line, l);
    assert b1 + "\n" == Open(buffer) + (line + l);
    if t.right.Node? { StrBufIsLines(t.right, Some(b1)); }
    Regroup(Open(buffer), line + l, r);
  }

  // ---------------------------------------------------------------- parsing what was printed

  predicate CleanText(s: string) {
    forall i :: 0 <= i < |s| ==> s[i] != '\n' && s[i] != '\r' && s[i] != '\0'
  }

  predicate CleanKey(s: string) {
    CleanText(s) && forall i :: 0 <= i < |s| ==> s[i] != ':'
  }

  predicate CleanPairs(ps: Pairs) {
    forall i :: 0 <= i < |ps| ==> CleanKey(ps[i].0) && CleanText(ps[i].1)
  }

  /** Where the characters of a printed line are. */
  lemma {:induction false} LineChars(s: string, pre: string, key: string, value: string, rest: string)
    requires s == pre + (LineOf(key, value) + rest)
    ensures var sep := |pre| + |key|; var le := sep + 1 + |value|;
      && |LineOf(key, value)| == le + 1 - |pre| && le < |s| && s[sep] == ':' && s[le] == '\n'
      && (forall k :: |pre| <= k < sep ==> s[k] == key[k - |pre|])
      && (forall k :: sep < k < le ==> s[k] == value[k - sep - 1])
  {
  }

  lemma {:induction false} ParsePrintedLine(s: string, pre: string, key: string, value: string, rest: string)
    requires s == pre + (LineOf(key, value) + rest) && CleanKey(key) && CleanText(value)
    ensures ParseLine(s, |pre|, |s|) == Header(|pre| + |LineOf(key, value)|, key, value)
  {
    LineChars(s, pre, key, value, rest);
    LineFound(s, |pre|, |pre| + |key|, |pre| + |key| + 1 + |value|);
    var sep := |pre| + |key|;
    assert Sub(s, |pre|, sep) == key && Sub(s, sep + 1, sep + 1 + |value|) == value;
  }

  /** A line whose first separator and first line end are known is a header line. */
  lemma {:induction false} LineFound(s: string, at: nat, sep: nat, le: nat)
    requires at <= sep < le < |s| && s[sep] == ':' && s[le] == '\n'
    requires forall k :: at <= k < sep ==> s[k] != ':'
    requires forall k :: at <= k < le ==> s[k] != '\n' && s[k] != '\r'
    ensures ParseLine(s, at, |s|) == Header(le + 1, Sub(s, at, sep), Sub(s, sep + 1, le))
  {
    MemChrIs(s, '\n', at, |s|, le);
    MemChrIs(s, ':', at, le + 1, sep);
    MemChrFirst(s, '\r', at, |s|);
  }

  lemma {:induction false} ParseBlankLine(s: string, pre: string, rest: string)
    requires s == pre + ("\n" + rest)
    ensures ParseLine(s, |pre|, |s|) == Stop(|pre| + 1)
  {
  }

  /** Printed lines, a blank line and a body. */
  function Printed(ps: Pairs, body: string): string {
    if ps == [] then "\n" + body else LineOf(ps[0].0, ps[0].1) + Printed(ps[1..], body)
  }

  lemma {:induction false} PrintedIsLines(ps: Pairs, body: string)
    ensures Printed(ps, body) == Lines(ps) + ("\n" + body)
  {
    if ps != [] {
      PrintedIsLines(ps[1..], body);
      assert LineOf(ps[0].0, ps[0].1) + (Lines(ps[1..]) + ("\n" + body)) == Lines(ps) + ("\n" + body);
    }
  }

  lemma HeaderStep(acc: Pairs, s: string, at: nat, next: nat, key: string, value: string)
    requires at <= |s| && ParseLine(s, at, |s|) == Header(next, key, value)
    ensures ParseHeaders(acc, s, at, |s|) == ParseHeaders(acc + [(key, value)], s, next, |s|)
  {
  }

  lemma {:induction false} ParsePrintedStep(acc: Pairs, s: string, pre: string, ps: Pairs, body: string)
    requires s == pre + Printed(ps, body) && ps != [] && CleanKey(ps[0].0) && CleanText(ps[0].1)
    ensures var next := pre + LineOf(ps[0].0, ps[0].1);
      && s == next + Printed(ps[1..], body)
      && ParseHeaders(acc, s, |pre|, |s|) == ParseHeaders(acc + [ps[0]], s, |next|, |s|)
  {
    var (key, value) := ps[0];
    var rest := Printed(ps[1..], body);
    ParsePrintedLine(s, pre, key, value, rest);
    Regroup(pre, LineOf(key, value), rest);
    HeaderStep(acc, s, |pre|, |pre + LineOf(key, value)|, key, value);
  }

  /** Parsing printed text gives back the lines in order and the position of the body. */
  lemma {:induction false} ParsePrinted(acc: Pairs, s: string, pre: string, ps: Pairs, body: string)
    requires s == pre + Printed(ps, body) && CleanPairs(ps)
    ensures ParseHeaders(acc, s, |pre|, |s|) == (acc + ps, |s| - |body|)
    decreases |ps|
  {
    if ps == [] {
      ParseBlankLine(s, pre, body);
      assert acc + ps == acc;
    } else {
      ParsePrintedStep(acc, s, pre, ps, body);
      ParsePrinted(acc + [ps[0]], s, pre + LineOf(ps[0].0, ps[0].1), ps[1..], body);
      Regroup(acc, [ps[0]], ps[1..]);
      assert [ps[0]] + ps[1..] == ps;
    }
  }

  /** Parsing printed header lines that are followed by anything. */
  lemma {:induction false} ParseLines(acc: Pairs, s: string, pre: string, ps: Pairs, rest: string)
    requires s == pre + (Lines(ps) + rest) && CleanPairs(ps)
    ensures |pre + Lines(ps)| <= |s|
    ensures ParseHeaders(acc, s, |pre|, |s|) == ParseHeaders(acc + ps, s, |pre + Lines(ps)|, |s|)
    decreases |ps|
  {
    hide ParseHeaders, ParseLine;
    if ps == [] {
      assert acc + ps == acc;
    } else {
      var line, more := LineOf(ps[0].0, ps[0].1), Lines(ps[1..]);
      assert s == pre + (line + (more + rest)) && s == (pre + line) + (more + rest);
      ParsePrintedLine(s, pre, ps[0].0, ps[0].1, more + rest);
      HeaderStep(acc, s, |pre|, |pre + line|, ps[0].0, ps[0].1);
      ParseLines(acc + [ps[0]], s, pre + line, ps[1..], rest);
      assert (acc + [ps[0]]) + ps[1..] == acc + ps && (pre + line) + more == pre + Lines(ps);
    }
  }

  /** Joins keep what each part maps. */
  lemma JoinKeeps<K, V>(l: map<K, V>, r: map<K, V>, x: K, vx: V, k: K)
    requires x !in l && x !in r && l.Keys !! r.Keys
    ensures k in l ==> k in (l + r)[x := vx] && (l + r)[x := vx][k] == l[k]
    ensures k in r ==> k in (l + r)[x := vx] && (l + r)[x := vx][k] == r[k]
  {
  }

  /** The map of a tree has what its root and its subtrees have. */
  lemma {:induction false} PartsInMap(t: Tree, k: string)
    requires t.Node? && Ordered(t)
    ensures k in ToMap(t.left) ==> k in ToMap(t) && ToMap(t)[k] == ToMap(t.left)[k]
    ensures k in ToMap(t.right) ==> k in ToMap(t) && ToMap(t)[k] == ToMap(t.right)[k]
    ensures t.key in ToMap(t) && ToMap(t)[t.key] == t.value
    ensures Ordered(t.left) && Ordered(t.right)
  {
    KeysDisjoint(t);
    JoinKeeps(ToMap(t.left), ToMap(t.right), t.key, t.value, k);
  }

  lemma ItemIsIn(t: Tree, i: nat)
    requires i < |Preorder(t)|
    ensures t.Node? && |Preorder(t)| == 1 + |Preorder(t.left)| + |Preorder(t.right)|
    ensures var l, r := Preorder(t.left), Preorder(t.right);
      Preorder(t)[i] == if i == 0 then (t.key, t.value) else if i <= |l| then l[i - 1] else r[i - 1 - |l|]
  {
  }

  /** Every printed item is in the map. */
  lemma {:induction false} PreorderInMap(t: Tree, i: nat)
    requires Ordered(t) && i < |Preorder(t)|
    ensures Preorder(t)[i].0 in ToMap(t) && ToMap(t)[Preorder(t)[i].0] == Preorder(t)[i].1
  {
    hide ToMap, Preorder, Ordered, Keys;
    ItemIsIn(t, i);
    PartsInMap(t, Preorder(t)[i].0);
    var l := |Preorder(t.left)|;
    if 1 <= i <= l {
      PreorderInMap(t.left, i - 1);
    } else if i > l {
      PreorderInMap(t.right, i - 1 - l);
    }
  }

  predicate CleanMap(m: map<string, string>) {
    forall k :: k in m ==> CleanKey(k) && CleanText(m[k])
  }

  /** The text of a MESSAGE frame, line by line. */
  lemma {:induction false} MessageLines(t: Tree, body: string)
    requires t.Node?
    ensures MessageText(t, body) == "MESSAGE\n" + Printed(Preorder(t), body)
    ensures NextRow(MessageText(t, body), 0, |MessageText(t, body)|) == |"MESSAGE\n"|
  {
    var s := MessageText(t, body);
    StrBufIsLines(t, None);
    PrintedIsLines(Preorder(t), body);
    assert "" + Lines(Preorder(t)) == Lines(Preorder(t));
    assert s == "MESSAGE\n" + ((StrBuf(t, None) + "\n") + ("\n" + body));
    assert s[..8] == "MESSAGE\n";
    assert s[7] == s[..8][7] == '\n' && forall k :: 0 <= k < 7 ==> s[k] == s[..8][k];
    MemChrIs(s, '\n', 0, |s|, 7);
  }

  lemma {:induction false} PrintedPairsParse(t: Tree, body: string)
    requires t.Node? && Ordered(t) && CleanMap(ToMap(t))
    ensures var s := MessageText(t, body);
      |"MESSAGE\n"| <= |s| && ParseHeaders([], s, |"MESSAGE\n"|, |s|) == (Preorder(t), |s| - |body|)
  {
    var ps := Preorder(t);
    MessageLines(t, body);
    forall i | 0 <= i < |ps| ensures CleanKey(ps[i].0) && CleanText(ps[i].1) { PreorderInMap(t, i); }
    ParsePrinted([], MessageText(t, body), "MESSAGE\n", ps, body);
    assert [] + ps == ps;
  }

  /**
   The header round trip: the frame printed from any non-empty header table is read back by the
   parser as the same items in printing order, hence as a table with the same map, and its body is
   exactly what follows.
   */
  lemma {:induction false} HeaderRoundTrip(t: Tree, body: string)
    requires t.Node? && WellFormed(t) && CleanMap(ToMap(t))
    ensures var s := MessageText(t, body);
      var at := NextRow(s, 0, |s|);
      && at == |"MESSAGE\n"|
      && var (ps, b) := ParseHeaders([], s, at, |s|);
      && b == |s| - |body| && s[b..] == body
      && ps == Preorder(t) && WellFormed(PutAll(Leaf, ps)) && ToMap(PutAll(Leaf, ps)) == ToMap(t)
  {
    MessageLines(t, body);
    PrintedPairsParse(t, body);
    RebuiltTable(t);
    assert MessageText(t, body)[|MessageText(t, body)| - |body|..] == body;
  }

  // ---------------------------------------------------------------- frames as clients write them

  /** A command line, header lines, and what follows them: a blank line and a body, or a line that is not finished. */
  function FrameText(command: string, ps: Pairs, rest: string): string {
    command + "\n" + (Lines(ps) + rest)
  }

  lemma {:induction false} CommandLine(command: string, ps: Pairs, rest: string)
    requires CleanText(command)
    ensures var s := FrameText(command, ps, rest); NextRow(s, 0, |s|) == |command + "\n"|
  {
    var s := FrameText(command, ps, rest);
    assert forall k :: 0 <= k < |command| ==> s[k] == command[k];
    MemChrIs(s, '\n', 0, |s|, |command|);
  }

  lemma {:induction false} FrameHeaders(command: string, ps: Pairs, rest: string)
    requires CleanText(command) && CleanPairs(ps)
    ensures var s := FrameText(command, ps, rest); var at := |command + "\n" + Lines(ps)|;
      && at <= |s| && NextRow(s, 0, |s|) == |command + "\n"| && s[at..] == rest
      && ParseHeaders([], s, |command + "\n"|, |s|) == ParseHeaders(ps, s, at, |s|)
  {
    var s := FrameText(command, ps, rest);
    CommandLine(command, ps, rest);
    ParseLines([], s, command + "\n", ps, rest);
    assert [] + ps == ps;
    assert s == (command + "\n" + Lines(ps)) + rest;
  }

  /** What is parsed when `ps` are the headers. */
  function Parsed(s: string, ps: Pairs, body: Option<string>, ts: int): ParsedMessage {
    ParsedMessage(ParseCommand(s), PutAll(Leaf, ps), Latest(ps, "receipt"), Latest(ps, "destination"), Latest(ps, "id"),
                  body, ts)
  }

  lemma ParsedCommand(s: string, ps: Pairs, body: Option<string>, ts: int)
    ensures Parsed(s, ps, body, ts).command == ParseCommand(s) && Parsed(s, ps, body, ts).body == body
  {
  }

  lemma {:induction false} ParsedFrom(s: string, ps: Pairs, b: int, ts: int)
    requires ParseCommand(s) > 0 && NextRow(s, 0, |s|) >= 0
    requires ParseHeaders([], s, NextRow(s, 0, |s|), |s|) == (ps, b)
    ensures ParseMessage(s, ts) == Parsed(s, ps, if b >= 0 then Some(s[b..]) else None, ts)
  {
    hide ParseHeaders, ParseCommand, PutAll, Latest, NextRow;
  }

  /** A whole frame of a client is read as its header lines in order and exactly its body. */
  lemma {:induction false} FrameIsRead(command: string, ps: Pairs, body: string, ts: int)
    requires CleanText(command) && CleanPairs(ps) && ParseCommand(FrameText(command, ps, "\n" + body)) > 0
    ensures var s := FrameText(command, ps, "\n" + body); ParseMessage(s, ts) == Parsed(s, ps, Some(body), ts)
  {
    hide ParseCommand, ParseMessage, Parsed, ParseLine, Lines;
    var s, pre := FrameText(command, ps, "\n" + body), command + "\n" + Lines(ps);
    FrameHeaders(command, ps, "\n" + body);
    assert s == pre + ("\n" + body);
    ParseBlankLine(s, pre, body);
    ParsedFrom(s, ps, |pre| + 1, ts);
    assert s[|pre| + 1..] == body;
  }

  lemma {:induction false} LinesEnd(ps: Pairs)
    ensures ps == [] ==> Lines(ps) == ""
    ensures ps != [] ==> Lines(ps) != [] && Lines(ps)[|Lines(ps)| - 1] == '\n'
  {
    if ps != [] { LinesEnd(ps[1..]); }
  }

  lemma {:induction false} RestIsLastLine(command: string, ps: Pairs, rest: string)
    requires CleanText(rest)
    ensures var s, at := FrameText(command, ps, rest), |command + "\n" + Lines(ps)|;
      && at <= |s| && LastLine(s, 0, |s|) == at && ParseLine(s, at, |s|) == Stop(-1)
      && (':' in rest <==> exists k :: at <= k < |s| && s[k] == ':')
  {
    hide ParseLine, Lines;
    var s, pre := FrameText(command, ps, rest), command + "\n" + Lines(ps);
    LinesEnd(ps);
    assert s == pre + rest;
    assert pre[|pre| - 1] == if ps == [] then (command + "\n")[|command|] else Lines(ps)[|Lines(ps)| - 1];
    assert forall k :: 0 <= k < |rest| ==> rest[k] == s[|pre| + k];
    LastLineIs(s, 0, |s|, |pre|);
    UnfinishedLine(s, |pre|);
  }

  lemma {:induction false} UnfinishedLine(s: string, at: nat)
    requires at <= |s| && forall k :: at <= k < |s| ==> s[k] != '\n' && s[k] != '\r'
    ensures ParseLine(s, at, |s|) == Stop(-1)
  {
    MemChrFirst(s, '\n', at, |s|);
    MemChrFirst(s, '\r', at, |s|);
  }

  /** A frame that breaks off within a line is read as the lines before it, and has no body. */
  lemma {:induction false} BrokenFrameIsRead(command: string, ps: Pairs, rest: string, ts: int)
    requires CleanText(command) && CleanPairs(ps) && CleanText(rest) && ParseCommand(FrameText(command, ps, rest)) > 0
    ensures var s := FrameText(command, ps, rest); ParseMessage(s, ts) == Parsed(s, ps, None, ts)
    ensures LeavesText(FrameText(command, ps, rest)) <==> ':' !in rest
  {
    hide ParseCommand, ParseMessage, Parsed, Lines, LeavesText, ParseLine, LastLine;
    var s := FrameText(command, ps, rest);
    FrameHeaders(command, ps, rest);
    RestIsLastLine(command, ps, rest);
    ParsedFrom(s, ps, -1, ts);
    LeavesTextIff(s, ts);
    ParsedCommand(s, ps, None, ts);
  }

  lemma {:induction false} LastLineIs(s: string, at: nat, n: nat, i: nat)
    requires at <= i <= n <= |s| && (i > at ==> s[i - 1] == '\n') && forall k :: i <= k < n ==> s[k] != '\n'
    ensures LastLine(s, at, n) == i
  {
  }

  // ---------------------------------------------------------------- lines that end with CR and LF

  function CrLfLine(key: string, value: string): string {
    key + ":" + value + "\r\n"
  }

  function CrLfLines(ps: Pairs): string {
    if ps == [] then "" else CrLfLine(ps[0].0, ps[0].1) + CrLfLines(ps[1..])
  }

  function CrLfFrame(command: string, ps: Pairs, body: string): string {
    command + "\r\n" + (CrLfLines(ps) + ("\r\n" + body))
  }

  /** The line ends at the CR and the next one starts behind the LF. */
  lemma {:induction false} CrLfFound(s: string, at: nat, sep: nat, le: nat)
    requires at <= sep < le && le + 1 < |s| && s[sep] == ':' && s[le] == '\r' && s[le + 1] == '\n'
    requires forall k :: at <= k < sep ==> s[k] != ':'
    requires forall k :: at <= k < le ==> s[k] != '\n' && s[k] != '\r'
    ensures ParseLine(s, at, |s|) == Header(le + 2, Sub(s, at, sep), Sub(s, sep + 1, le))
  {
    MemChrIs(s, '\n', at, |s|, le + 1);
    MemChrIs(s, ':', at, le + 2, sep);
    MemChrIs(s, '\r', at, |s|, le);
  }

  lemma {:induction false} CrLfChars(s: string, pre: string, key: string, value: string, rest: string)
    requires s == pre + (CrLfLine(key, value) + rest)
    ensures var sep := |pre| + |key|; var le := sep + 1 + |value|;
      && |CrLfLine(key, value)| == le + 2 - |pre| && le + 1 < |s| && s[sep] == ':' && s[le] == '\r' && s[le + 1] == '\n'
      && (forall k :: |pre| <= k < sep ==> s[k] == key[k - |pre|])
      && (forall k :: sep < k < le ==> s[k] == value[k - sep - 1])
  {
  }

  lemma {:induction false} ParseCrLfLine(s: string, pre: string, key: string, value: string, rest: string)
    requires s == pre + (CrLfLine(key, value) + rest) && CleanKey(key) && CleanText(value)
    ensures ParseLine(s, |pre|, |s|) == Header(|pre| + |CrLfLine(key, value)|, key, value)
  {
    CrLfChars(s, pre, key, value, rest);
    CrLfFound(s, |pre|, |pre| + |key|, |pre| + |key| + 1 + |value|);
    var sep := |pre| + |key|;
    assert Sub(s, |pre|, sep) == key && Sub(s, sep + 1, sep + 1 + |value|) == value;
  }

  lemma {:induction false} ParseCrLfLines(acc: Pairs, s: string, pre: string, ps: Pairs, rest: string)
    requires s == pre + (CrLfLines(ps) + rest) && CleanPairs(ps)
    ensures |pre + CrLfLines(ps)| <= |s|
    ensures ParseHeaders(acc, s, |pre|, |s|) == ParseHeaders(acc + ps, s, |pre + CrLfLines(ps)|, |s|)
    decreases |ps|
  {
    hide ParseHeaders, ParseLine;
    if ps == [] {
      assert acc + ps == acc;
    } else {
      var line, more := CrLfLine(ps[0].0, ps[0].1), CrLfLines(ps[1..]);
      assert s == pre + (line + (more + rest)) && s == (pre + line) + (more + rest);
      ParseCrLfLine(s, pre, ps[0].0, ps[0].1, more + rest);
      HeaderStep(acc, s, |pre|, |pre + line|, ps[0].0, ps[0].1);
      ParseCrLfLines(acc + [ps[0]], s, pre + line, ps[1..], rest);
      assert (acc + [ps[0]]) + ps[1..] == acc + ps && (pre + line) + more == pre + CrLfLines(ps);
    }
  }

  lemma {:induction false} CrLfBlank(s: string, pre: string, body: string)
    requires s == pre + ("\r\n" + body)
    ensures ParseLine(s, |pre|, |s|) == Stop(|pre| + 2) && s[|pre| + 2..] == body
  {
    assert s[|pre|] == '\r' && s[|pre| + 1] == '\n';
    MemChrIs(s, '\n', |pre|, |s|, |pre| + 1);
  }

  /** A frame whose lines end with CR and LF is read alike: its headers in order and exactly its body. */
  lemma {:induction false} CrLfFrameIsRead(command: string, ps: Pairs, body: string, ts: int)
    requires CleanText(command) && CleanPairs(ps) && ParseCommand(CrLfFrame(command, ps, body)) > 0
    ensures var s := CrLfFrame(command, ps, body); ParseMessage(s, ts) == Parsed(s, ps, Some(body), ts)
  {
    hide ParseCommand, ParseMessage, Parsed, ParseLine, CrLfLines;
    var s, pre := CrLfFrame(command, ps, body), command + "\r\n";
    assert s == pre + (CrLfLines(ps) + ("\r\n" + body)) && s == (pre + CrLfLines(ps)) + ("\r\n" + body);
    assert forall k :: 0 <= k < |command| ==> s[k] == command[k];
    assert s[|command|] == '\r' && s[|command| + 1] == '\n';
    MemChrIs(s, '\n', 0, |s|, |command| + 1);
    ParseCrLfLines([], s, pre, ps, "\r\n" + body);
    assert [] + ps == ps;
    CrLfBlank(s, pre + CrLfLines(ps), body);
    ParsedFrom(s, ps, |pre + CrLfLines(ps)| + 2, ts);
  }
}
