/** `_scan_fence_spans`: fenced code blocks, in the style of section 4.5 of
    CommonMark 0.31.2, scanned by offsets and specified line by line. */
module Fences {
  import opened Options

  // ---------- lines ----------

  /** Where the line that starts at `offset` ends: at its newline, or at the end of the text. */
  function LineEnd(text: string, offset: nat): (e: nat)
    requires offset <= |text|
    ensures offset <= e <= |text|
    decreases |text| - offset
  {
    if offset == |text| || text[offset] == '\n' then offset else LineEnd(text, offset + 1)
  }

  /** The line goes up to the first newline. */
  lemma {:induction false} LineEndFirst(text: string, offset: nat)
    requires offset <= |text|
    ensures var e := LineEnd(text, offset);
            && (e < |text| ==> text[e] == '\n')
            && forall i :: offset <= i < e ==> text[i] != '\n'
    decreases |text| - offset
  {
    if offset < |text| && text[offset] != '\n' { LineEndFirst(text, offset + 1); }
  }

  /** A line as a range of the text, its newline excluded. */
  datatype Line = Line(start: nat, end: nat)

  function LinesFrom(text: string, offset: nat): (ls: seq<Line>)
    requires offset <= |text|
    ensures forall i :: 0 <= i < |ls| ==> offset <= ls[i].start <= ls[i].end <= |text|
    decreases |text| - offset
  {
    var e := LineEnd(text, offset);
    [Line(offset, e)] + if e == |text| then [] else LinesFrom(text, e + 1)
  }

  lemma {:induction false} LinesFromFacts(text: string, offset: nat)
    requires offset <= |text|
    ensures var ls := LinesFrom(text, offset);
            && ls != [] && ls[0].start == offset
            && (forall i :: 0 <= i < |ls| ==> ls[i].end == LineEnd(text, ls[i].start))
            && (forall i :: 0 <= i < |ls| ==> (ls[i].end == |text| <==> i == |ls| - 1))
            && (forall i, j :: 0 <= i < j < |ls| ==> ls[i].end < ls[j].start)
            && (forall i, j :: 0 <= i < j < |ls| && j == i + 1 ==> ls[j].start == ls[i].end + 1)
    decreases |text| - offset
  {
    var e := LineEnd(text, offset);
    if e < |text| {
      LinesFromFacts(text, e + 1);
    }
  }

  function LinesOf(text: string): seq<Line> {
    LinesFrom(text, 0)
  }

  /** The line's text without a carriage return at its end. */
  function Content(text: string, l: Line): string
    requires l.start <= l.end <= |text|
  {
    var s := text[l.start..l.end];
    if s != "" && s[|s| - 1] == '\r' then s[..|s| - 1] else s
  }

  // ---------- fence markers ----------

  function RunLength(s: string, c: char): (n: nat)
    ensures n <= |s|
  {
    if s != "" && s[0] == c then 1 + RunLength(s[1..], c) else 0
  }

  /** A run is maximal. */
  lemma {:induction false} RunIsMaximal(s: string, c: char)
    ensures var n := RunLength(s, c);
            (forall i :: 0 <= i < n ==> s[i] == c) && (n < |s| ==> s[n] != c)
  {
    if s != "" && s[0] == c { RunIsMaximal(s[1..], c); }
  }

  datatype Marker = Marker(symbol: char, length: nat, rest: string)

  /** At most three spaces, then at least three backticks or tildes, then anything. */
  function ParseMarker(line: string): Option<Marker> {
    var indent := RunLength(line, ' ');
    if indent > 3 || indent == |line| then None
    else
      var c := line[indent];
      if c != '`' && c != '~' then None
      else
        var n := RunLength(line[indent..], c);
        if n < 3 then None else Some(Marker(c, n, line[indent + n..]))
  }

  /** After i spaces come n copies of c, and after them `rest`. */
  predicate FenceAt(line: string, i: nat, c: char, n: nat, rest: string) {
    && i + n <= |line| && (forall j :: 0 <= j < i ==> line[j] == ' ')
    && (forall j :: i <= j < i + n ==> line[j] == c) && line[i + n..] == rest
  }

  /** A fence line: at most three spaces, n copies of a backtick or a tilde with n at least
      three, and then something that does not begin with one more. */
  ghost predicate IsFenceLine(line: string, c: char, n: nat, rest: string) {
    && (c == '`' || c == '~') && n >= 3 && (rest == "" || rest[0] != c)
    && exists i: nat :: i <= 3 && FenceAt(line, i, c, n, rest)
  }

  /** A run ends where the first other character stands. */
  lemma {:induction false} RunLengthIs(s: string, c: char, n: nat)
    requires n <= |s| && (forall i :: 0 <= i < n ==> s[i] == c) && (n < |s| ==> s[n] != c)
    ensures RunLength(s, c) == n
  {
    if n > 0 { RunLengthIs(s[1..], c, n - 1); }
  }

  lemma MarkerIsFence(line: string)
    requires ParseMarker(line).Some?
    ensures var m := ParseMarker(line).value; IsFenceLine(line, m.symbol, m.length, m.rest)
  {
    var i := RunLength(line, ' ');
    var c := line[i];
    var n := RunLength(line[i..], c);
    RunIsMaximal(line, ' ');
    RunIsMaximal(line[i..], c);
    assert forall j :: i <= j < i + n ==> line[j] == line[i..][j - i];
    assert FenceAt(line, i, c, n, line[i + n..]);
  }

  lemma FenceIsMarker(line: string, c: char, n: nat, rest: string)
    requires IsFenceLine(line, c, n, rest)
    ensures ParseMarker(line) == Some(Marker(c, n, rest))
  {
    var i: nat :| i <= 3 && FenceAt(line, i, c, n, rest);
    assert line[i] == c;
    RunLengthIs(line, ' ', i);
    assert i + n < |line| ==> line[i + n] == rest[0];
    RunLengthIs(line[i..], c, n);
  }

  /** The marker read off a line, in terms of its characters. */
  lemma FenceLineMeans(line: string, m: Marker)
    ensures ParseMarker(line) == Some(m) <==> IsFenceLine(line, m.symbol, m.length, m.rest)
  {
    if ParseMarker(line) == Some(m) { MarkerIsFence(line); }
    if IsFenceLine(line, m.symbol, m.length, m.rest) { FenceIsMarker(line, m.symbol, m.length, m.rest); }
  }

  predicate Blank(s: string) {
    forall i :: 0 <= i < |s| ==> s[i] == ' ' || s[i] == '\t'
  }

  function MarkersIn(text: string, ls: seq<Line>): seq<Option<Marker>>
    requires forall i :: 0 <= i < |ls| ==> ls[i].start <= ls[i].end <= |text|
  {
    if ls == [] then [] else [ParseMarker(Content(text, ls[0]))] + MarkersIn(text, ls[1..])
  }

  lemma {:induction false} MarkersInSize(text: string, ls: seq<Line>)
    requires forall j :: 0 <= j < |ls| ==> ls[j].start <= ls[j].end <= |text|
    ensures |MarkersIn(text, ls)| == |ls|
  {
    if ls != [] { MarkersInSize(text, ls[1..]); }
  }

  lemma {:induction false} MarkersInAt(text: string, ls: seq<Line>, i: nat)
    requires forall j :: 0 <= j < |ls| ==> ls[j].start <= ls[j].end <= |text|
    requires i < |ls| == |MarkersIn(text, ls)|
    ensures MarkersIn(text, ls)[i] == ParseMarker(Content(text, ls[i]))
  {
    if i > 0 {
      assert ls[1..][i - 1] == ls[i];
      MarkersInAt(text, ls[1..], i - 1);
    }
  }

  /** The marker, if any, of each line of the text. */
  function MarkersOf(text: string): seq<Option<Marker>> {
    MarkersIn(text, LinesOf(text))
  }

  lemma MarkersAt(text: string, i: nat)
    ensures |MarkersOf(text)| == |LinesOf(text)|
    ensures i < |LinesOf(text)| ==> MarkersOf(text)[i] == ParseMarker(Content(text, LinesOf(text)[i]))
  {
    MarkersInSize(text, LinesOf(text));
    if i < |LinesOf(text)| { MarkersInAt(text, LinesOf(text), i); }
  }

  /** A marker that closes a fence which the marker `open` has opened: same character, at
      least as long, nothing after it. */
  predicate Closes(m: Option<Marker>, open: Marker) {
    m.Some? && m.value.symbol == open.symbol && m.value.length >= open.length && Blank(m.value.rest)
  }

  // ---------- what the fences of a text are ----------

  /** A fenced block from line `first` to line `last`; `last` is the number of lines if the
      fence is never closed. */
  datatype Block = Block(first: nat, last: nat)

  /** None of the lines from..to closes a fence opened by `open`. */
  ghost predicate NoCloser(ms: seq<Option<Marker>>, from: nat, to: nat, open: Marker) {
    forall m :: from <= m < to && m < |ms| ==> !Closes(ms[m], open)
  }

  /** The block opens with a marker and ends with the first later line that closes it. */
  ghost predicate IsBlock(ms: seq<Option<Marker>>, b: Block) {
    && b.first < b.last <= |ms| && ms[b.first].Some?
    && NoCloser(ms, b.first + 1, b.last, ms[b.first].value)
    && (b.last < |ms| ==> Closes(ms[b.last], ms[b.first].value))
  }

  ghost predicate InSome(blocks: seq<Block>, m: nat) {
    exists k :: 0 <= k < |blocks| && blocks[k].first <= m <= blocks[k].last
  }

  /** The blocks are disjoint and in order, and no marker up to line `to` lies outside them. */
  ghost predicate AreBlocks(ms: seq<Option<Marker>>, blocks: seq<Block>, to: nat) {
    && (forall k :: 0 <= k < |blocks| ==> IsBlock(ms, blocks[k]))
    && (forall j, k :: 0 <= j < k < |blocks| ==> blocks[j].last < blocks[k].first)
    && (forall m {:trigger InSome(blocks, m)} :: 0 <= m < to && m < |ms| && ms[m].Some? ==> InSome(blocks, m))
  }

  ghost predicate EndBefore(blocks: seq<Block>, i: nat) {
    forall k :: 0 <= k < |blocks| ==> blocks[k].last < i
  }

  /** The span of a block: from the start of its first line to the end of its last. */
  function SpanOf(size: nat, lines: seq<Line>, b: Block): (nat, nat)
    requires b.first < |lines|
  {
    (lines[b.first].start, if b.last < |lines| then lines[b.last].end else size)
  }

  ghost predicate AreSpans(size: nat, lines: seq<Line>, blocks: seq<Block>, spans: seq<(nat, nat)>) {
    && |spans| == |blocks|
    && forall k :: 0 <= k < |blocks| ==> blocks[k].first < |lines| && spans[k] == SpanOf(size, lines, blocks[k])
  }

  lemma InSomeMore(blocks: seq<Block>, b: Block, m: nat)
    ensures InSome(blocks + [b], m) <==> InSome(blocks, m) || b.first <= m <= b.last
  {
    var all := blocks + [b];
    if InSome(blocks, m) {
      var k :| 0 <= k < |blocks| && blocks[k].first <= m <= blocks[k].last;
      assert all[k] == blocks[k];
    }
    if b.first <= m <= b.last { assert all[|blocks|] == b; }
  }

  lemma BlockAppended(ms: seq<Option<Marker>>, blocks: seq<Block>, b: Block)
    requires IsBlock(ms, b) && EndBefore(blocks, b.first) && AreBlocks(ms, blocks, b.first)
    ensures AreBlocks(ms, blocks + [b], b.last + 1) && EndBefore(blocks + [b], b.last + 1)
  {
    forall m | 0 <= m < b.last + 1 && m < |ms| && ms[m].Some? ensures InSome(blocks + [b], m) {
      InSomeMore(blocks, b, m);
    }
  }

  lemma SpanAppended(size: nat, lines: seq<Line>, blocks: seq<Block>, b: Block, spans: seq<(nat, nat)>)
    requires AreSpans(size, lines, blocks, spans) && b.first < |lines|
    ensures AreSpans(size, lines, blocks + [b], spans + [SpanOf(size, lines, b)])
  {
  }

  /** The variables of the scan; `openLine` is the line that opened the open fence. */
  datatype Scan = Scan(blocks: seq<Block>, spans: seq<(nat, nat)>, open: Option<Marker>, openStart: nat, openLine: nat)

  /** What the loop knows before line i. */
  ghost predicate Scanning(size: nat, lines: seq<Line>, ms: seq<Option<Marker>>, s: Scan, i: nat) {
    && |ms| == |lines| && i <= |lines| && AreSpans(size, lines, s.blocks, s.spans)
    && (s.open.None? ==> EndBefore(s.blocks, i) && AreBlocks(ms, s.blocks, i))
    && (s.open.Some? ==>
          && s.openLine < i && EndBefore(s.blocks, s.openLine) && s.openStart == lines[s.openLine].start
          && AreBlocks(ms, s.blocks, s.openLine) && ms[s.openLine] == s.open
          && NoCloser(ms, s.openLine + 1, i, s.open.value))
  }

  /** One line: open a fence, close the open one, or go on. */
  function ScanNext(s: Scan, l: Line, m: Option<Marker>, i: nat): Scan {
    if s.open.None? && m.Some? then s.(open := m, openStart := l.start, openLine := i)
    else if s.open.Some? && Closes(m, s.open.value) then
      s.(blocks := s.blocks + [Block(s.openLine, i)], spans := s.spans + [(s.openStart, l.end)], open := None)
    else s
  }

  lemma ScanLine(size: nat, lines: seq<Line>, ms: seq<Option<Marker>>, s: Scan, i: nat)
    requires Scanning(size, lines, ms, s, i) && i < |lines|
    ensures Scanning(size, lines, ms, ScanNext(s, lines[i], ms[i], i), i + 1)
  {
    if s.open.Some? && Closes(ms[i], s.open.value) {
      BlockAppended(ms, s.blocks, Block(s.openLine, i));
      SpanAppended(size, lines, s.blocks, Block(s.openLine, i), s.spans);
    }
  }

  /** The scan of the first i lines. */
  function ScanTo(lines: seq<Line>, ms: seq<Option<Marker>>, i: nat): Scan
    requires i <= |lines| == |ms|
  {
    if i == 0 then Scan([], [], None, 0, 0) else ScanNext(ScanTo(lines, ms, i - 1), lines[i - 1], ms[i - 1], i - 1)
  }

  lemma {:induction false} ScanToOk(size: nat, lines: seq<Line>, ms: seq<Option<Marker>>, i: nat)
    requires i <= |lines| == |ms|
    ensures Scanning(size, lines, ms, ScanTo(lines, ms, i), i)
  {
    if i > 0 {
      ScanToOk(size, lines, ms, i - 1);
      ScanLine(size, lines, ms, ScanTo(lines, ms, i - 1), i - 1);
    }
  }

  /** At the end of the text an open fence runs to the end. */
  ghost function EndBlocks(s: Scan, n: nat): seq<Block> {
    if s.open.Some? then s.blocks + [Block(s.openLine, n)] else s.blocks
  }

  function EndSpans(s: Scan, size: nat): seq<(nat, nat)> {
    if s.open.Some? then s.spans + [(s.openStart, size)] else s.spans
  }

  lemma ScanEnd(size: nat, lines: seq<Line>, ms: seq<Option<Marker>>, s: Scan)
    requires Scanning(size, lines, ms, s, |lines|)
    ensures AreBlocks(ms, EndBlocks(s, |lines|), |ms|) &&
            AreSpans(size, lines, EndBlocks(s, |lines|), EndSpans(s, size))
  {
    if s.open.Some? {
      BlockAppended(ms, s.blocks, Block(s.openLine, |lines|));
      SpanAppended(size, lines, s.blocks, Block(s.openLine, |lines|), s.spans);
    }
  }

  /** The fenced blocks of a text are what the scan of all its lines finds. */
  ghost function FencesOf(text: string): seq<Block> {
    if |LinesOf(text)| != |MarkersOf(text)| then []
    else EndBlocks(ScanTo(LinesOf(text), MarkersOf(text), |LinesOf(text)|), |LinesOf(text)|)
  }

  lemma FencesOfAreBlocks(text: string, lines: seq<Line>, ms: seq<Option<Marker>>)
    requires lines == LinesOf(text) && ms == MarkersOf(text)
    ensures |lines| == |ms|
    ensures AreBlocks(ms, FencesOf(text), |ms|)
    ensures AreSpans(|text|, lines, FencesOf(text), EndSpans(ScanTo(lines, ms, |lines|), |text|))
  {
    MarkersAt(text, 0);
    ScanToOk(|text|, lines, ms, |lines|);
    ScanEnd(|text|, lines, ms, ScanTo(lines, ms, |lines|));
  }

  /** Reads line i, which starts at `offset`: its end, its marker, and whether it is the last. */
  method ReadLine(buffer: string, offset: nat, ghost i: nat) returns (lineEnd: nat, m: Option<Marker>)
    requires i < |LinesOf(buffer)| == |MarkersOf(buffer)| && LinesOf(buffer)[i].start == offset <= |buffer|
    ensures offset <= lineEnd <= |buffer| && LinesOf(buffer)[i].end == lineEnd && m == MarkersOf(buffer)[i]
    ensures lineEnd == |buffer| <==> i + 1 == |LinesOf(buffer)|
    ensures i + 1 < |LinesOf(buffer)| ==> LinesOf(buffer)[i + 1].start == lineEnd + 1
  {
    LineAt(buffer, i);
    MarkersAt(buffer, i);
    lineEnd := LineEnd(buffer, offset);
    var line := buffer[offset..lineEnd];
    if line != "" && line[|line| - 1] == '\r' { line := line[..|line| - 1]; }
    assert line == Content(buffer, LinesOf(buffer)[i]);
    m := ParseMarker(line);
  }

  /** The scanning loop, by offsets, does what the line-by-line scan does. */
  method ScanLoop(buffer: string)
      returns (spans: seq<(nat, nat)>, ghost blocks: seq<Block>, open: Option<Marker>, openStart: nat,
               ghost openLine: nat)
    ensures |LinesOf(buffer)| == |MarkersOf(buffer)|
    ensures Scan(blocks, spans, open, openStart, openLine)
            == ScanTo(LinesOf(buffer), MarkersOf(buffer), |LinesOf(buffer)|)
    ensures var s := ScanTo(LinesOf(buffer), MarkersOf(buffer), |LinesOf(buffer)|); spans == s.spans && open == s.open
  {
    spans, blocks, open, openStart, openLine := [], [], None, 0, 0;
    var offset := 0;
    ghost var lines, ms := LinesOf(buffer), MarkersOf(buffer);
    ghost var i := 0;
    var more := true;
    LineAt(buffer, 0);
    MarkersAt(buffer, 0);
    while more
      invariant i <= |lines|
      invariant if more then i < |lines| && offset <= |buffer| && lines[i].start == offset else i == |lines|
      invariant Scan(blocks, spans, open, openStart, openLine) == ScanTo(lines, ms, i)
      decreases if more then |buffer| - offset + 1 else 0
    {
      var lineEnd, m := ReadLine(buffer, offset, i);
      if m.Some? {
        if open.None? {
          open, openStart := m, offset;
          openLine := i;
        } else if m.value.symbol == open.value.symbol && m.value.length >= open.value.length && Blank(m.value.rest) {
          spans := spans + [(openStart, lineEnd)];
          blocks := blocks + [Block(openLine, i)];
          open := None;
        }
      }
      i := i + 1;
      if lineEnd == |buffer| {
        more := false;
      } else {
        offset := lineEnd + 1;
      }
    }
  }

  /** `_scan_fence_spans`: its spans are those of the fenced blocks of the text. */
  method ScanFenceSpans(buffer: string) returns (spans: seq<(nat, nat)>)
    ensures AreSpans(|buffer|, LinesOf(buffer), FencesOf(buffer), spans)
    ensures AreFenceSpans(buffer, LinesOf(buffer), FencesOf(buffer), spans)
  {
    var open, openStart;
    ghost var blocks, openLine;
    spans, blocks, open, openStart, openLine := ScanLoop(buffer);
    FencesOfAreBlocks(buffer, LinesOf(buffer), MarkersOf(buffer));
    if open.Some? {
      spans := spans + [(openStart, |buffer|)];
    }
    ScannedSpans(buffer, spans);
  }

  lemma LineAt(text: string, i: nat)
    requires i < |LinesOf(text)| || i == 0
    ensures i < |LinesOf(text)| && LinesOf(text)[i].end == LineEnd(text, LinesOf(text)[i].start)
    ensures i == 0 ==> LinesOf(text)[0].start == 0
    ensures LinesOf(text)[i].end == |text| <==> i + 1 == |LinesOf(text)|
    ensures i + 1 < |LinesOf(text)| ==> LinesOf(text)[i + 1].start == LinesOf(text)[i].end + 1
  {
    LinesFromFacts(text, 0);
  }

  // ---------- what follows for the spans ----------

  lemma LinesIncrease(text: string, i: nat, j: nat)
    requires i < j < |LinesOf(text)|
    ensures LinesOf(text)[i].end < LinesOf(text)[j].start
  {
    LinesFromFacts(text, 0);
  }

  lemma MarkerNotEmpty(text: string, l: Line)
    requires l.start <= l.end <= |text| && ParseMarker(Content(text, l)).Some?
    ensures l.start < l.end
  {
  }

  lemma LineStarts(text: string, i: nat)
    requires i < |LinesOf(text)|
    ensures LinesOf(text)[i].start <= LinesOf(text)[i].end <= |text|
    ensures LinesOf(text)[i].start == 0 || text[LinesOf(text)[i].start - 1] == '\n'
  {
    LineAt(text, 0);
    if i > 0 {
      LineAt(text, i - 1);
      LineEndFirst(text, LinesOf(text)[i - 1].start);
    }
  }

  lemma SpanInText(text: string, b: Block)
    requires b.first < b.last <= |LinesOf(text)| == |MarkersOf(text)| && MarkersOf(text)[b.first].Some?
    ensures var s := SpanOf(|text|, LinesOf(text), b);
            s.0 < s.1 <= |text| && (s.0 == 0 || text[s.0 - 1] == '\n')
  {
    LineStarts(text, b.first);
    MarkersAt(text, b.first);
    MarkerNotEmpty(text, LinesOf(text)[b.first]);
    if b.last < |LinesOf(text)| {
      LineStarts(text, b.last);
      LinesIncrease(text, b.first, b.last);
    }
  }

  /** A span lies in the text, starts at the start of a line, is not empty, and ends before
      the next span starts. */
  lemma SpansOrdered(text: string, blocks: seq<Block>, spans: seq<(nat, nat)>, k: nat)
    requires AreBlocks(MarkersOf(text), blocks, |MarkersOf(text)|) && AreSpans(|text|, LinesOf(text), blocks, spans)
    requires k < |spans|
    ensures spans[k].0 < spans[k].1 <= |text|
    ensures spans[k].0 == 0 || text[spans[k].0 - 1] == '\n'
    ensures k + 1 < |spans| ==> spans[k].1 < spans[k + 1].0
  {
    MarkersAt(text, 0);
    BlockFacts(MarkersOf(text), blocks, k);
    SpanInText(text, blocks[k]);
    if k + 1 < |spans| {
      BlockFacts(MarkersOf(text), blocks, k + 1);
      LinesIncrease(text, blocks[k].last, blocks[k + 1].first);
    }
  }

  lemma BlockFacts(ms: seq<Option<Marker>>, blocks: seq<Block>, k: nat)
    requires AreBlocks(ms, blocks, |ms|) && k < |blocks|
    ensures blocks[k].first < |ms| && ms[blocks[k].first].Some? && blocks[k].first < blocks[k].last <= |ms|
    ensures k > 0 ==> blocks[k - 1].last < blocks[k].first
  {
    assert IsBlock(ms, blocks[k]);
  }

  ghost predicate Agree(a: seq<Block>, b: seq<Block>, k: nat) {
    k <= |a| && k <= |b| && forall i :: 0 <= i < k ==> a[i] == b[i]
  }

  /** The blocks of a text are unique, so what the scanner returns is determined. */
  lemma {:induction false} BlocksUnique(ms: seq<Option<Marker>>, a: seq<Block>, b: seq<Block>, k: nat)
    requires AreBlocks(ms, a, |ms|) && AreBlocks(ms, b, |ms|) && k <= |a| && k <= |b|
    ensures Agree(a, b, k)
    ensures k < |a| <==> k < |b|
  {
    if k > 0 {
      BlocksUnique(ms, a, b, k - 1);
      SameBlock(ms, a, b, k - 1);
    }
    if k < |a| { NextExists(ms, a, b, k); }
    if k < |b| { NextExists(ms, b, a, k); }
  }

  lemma NotEarlier(a: seq<Block>, b: seq<Block>, k: nat, j: nat)
    requires Agree(a, b, k) && k < |a| && j < |b| && b[j].first <= a[k].first <= b[j].last
    requires forall i :: 0 <= i < k ==> a[i].last < a[k].first
    ensures k <= j
  {
  }

  /** Where one list has a next block, so has the other, and it does not open later. */
  lemma NextExists(ms: seq<Option<Marker>>, a: seq<Block>, b: seq<Block>, k: nat)
    requires AreBlocks(ms, a, |ms|) && AreBlocks(ms, b, |ms|) && k < |a| && Agree(a, b, k)
    ensures k < |b| && b[k].first <= a[k].first
  {
    BlockFacts(ms, a, k);
    assert InSome(b, a[k].first);
    var j :| 0 <= j < |b| && b[j].first <= a[k].first <= b[j].last;
    NotEarlier(a, b, k, j);
    BlockFacts(ms, b, k);
  }

  lemma SameBlock(ms: seq<Option<Marker>>, a: seq<Block>, b: seq<Block>, k: nat)
    requires AreBlocks(ms, a, |ms|) && AreBlocks(ms, b, |ms|) && k < |a| && k < |b| && Agree(a, b, k)
    ensures a[k] == b[k]
  {
    NextExists(ms, a, b, k);
    NextExists(ms, b, a, k);
    assert IsBlock(ms, a[k]) && IsBlock(ms, b[k]);
  }

  // ---------- the same in terms of the characters of the text ----------

  /** The lines of a text: they part it at its newlines. */
  predicate AreLines(text: string, ls: seq<Line>) {
    && ls != [] && ls[0].start == 0 && ls[|ls| - 1].end == |text|
    && (forall i :: 0 <= i < |ls| ==> ls[i].start <= ls[i].end <= |text| && '\n' !in text[ls[i].start..ls[i].end])
    && (forall i :: 0 <= i < |ls| - 1 ==> ls[i].end < |text| && text[ls[i].end] == '\n')
    && (forall i :: 0 <= i < |ls| - 1 ==> ls[i + 1].start == ls[i].end + 1)
  }

  /** `s` is what stands on the line, without a carriage return at its end. */
  predicate Reads(text: string, l: Line, s: string) {
    && l.start <= l.end <= |text|
    && (text[l.start..l.end] == s + "\r" || (text[l.start..l.end] == s && (s == "" || s[|s| - 1] != '\r')))
  }

  /** The line is a fence line with n characters c. */
  ghost predicate OpensWith(text: string, l: Line, c: char, n: nat) {
    exists s, rest :: Reads(text, l, s) && IsFenceLine(s, c, n, rest)
  }

  predicate OnlyBlanks(s: string) {
    forall x :: x in s ==> x == ' ' || x == '\t'
  }

  /** The line is a fence line of the same character, at least as long, with nothing after it. */
  ghost predicate ClosesFence(text: string, l: Line, c: char, n: nat) {
    exists s, m: nat, rest :: Reads(text, l, s) && m >= n && IsFenceLine(s, c, m, rest) && OnlyBlanks(rest)
  }

  /** The block opens with n characters c and ends with the first later line that closes it. */
  ghost predicate FencedWith(text: string, ls: seq<Line>, b: Block, c: char, n: nat) {
    && b.first < b.last <= |ls| && OpensWith(text, ls[b.first], c, n)
    && (forall i :: b.first < i < b.last ==> !ClosesFence(text, ls[i], c, n))
    && (b.last < |ls| ==> ClosesFence(text, ls[b.last], c, n))
  }

  ghost predicate IsFenced(text: string, ls: seq<Line>, b: Block) {
    exists c, n: nat :: FencedWith(text, ls, b, c, n)
  }

  ghost predicate NoFence(text: string, l: Line) {
    forall c, n: nat :: !OpensWith(text, l, c, n)
  }

  /** The fenced blocks of a text, in order, with no fence line outside them. */
  ghost predicate AreFenced(text: string, ls: seq<Line>, blocks: seq<Block>) {
    && (forall k :: 0 <= k < |blocks| ==> IsFenced(text, ls, blocks[k]))
    && (forall j, k :: 0 <= j < k < |blocks| ==> blocks[j].last < blocks[k].first)
    && (forall i {:trigger InSome(blocks, i)} :: 0 <= i < |ls| && !InSome(blocks, i) ==> NoFence(text, ls[i]))
  }

  /** The spans are the stretches of the fenced blocks, from the start of the first line to
      the end of the last one or of the text. */
  ghost predicate AreFenceSpans(text: string, ls: seq<Line>, blocks: seq<Block>, spans: seq<(nat, nat)>) {
    && AreLines(text, ls) && AreFenced(text, ls, blocks) && |spans| == |blocks|
    && forall k :: 0 <= k < |spans| ==>
        && blocks[k].first < |ls| && spans[k].0 == ls[blocks[k].first].start
        && spans[k].1 == if blocks[k].last < |ls| then ls[blocks[k].last].end else |text|
  }

  lemma LinesAre(text: string)
    ensures AreLines(text, LinesOf(text))
  {
    var ls := LinesOf(text);
    LinesFromFacts(text, 0);
    forall i | 0 <= i < |ls|
      ensures '\n' !in text[ls[i].start..ls[i].end] && (i < |ls| - 1 ==> text[ls[i].end] == '\n')
    {
      LineEndFirst(text, ls[i].start);
    }
  }

  lemma {:induction false} LinesUnique(text: string, a: seq<Line>, b: seq<Line>, n: nat)
    requires AreLines(text, a) && AreLines(text, b) && n < |a|
    ensures n < |b| && a[n] == b[n]
  {
    if n > 0 { LinesUnique(text, a, b, n - 1); }
    assert n < |b| && a[n].start == b[n].start;
    SameEnd(text, a, b, n);
    SameEnd(text, b, a, n);
  }

  /** A line ends at the first newline, so not after another reading of it. */
  lemma SameEnd(text: string, a: seq<Line>, b: seq<Line>, n: nat)
    requires AreLines(text, a) && AreLines(text, b) && n < |a| && n < |b| && a[n].start == b[n].start
    ensures a[n].end <= b[n].end
  {
    var line := text[a[n].start..a[n].end];
    forall i | a[n].start <= i < a[n].end ensures text[i] != '\n' { assert text[i] == line[i - a[n].start]; }
  }

  lemma OneListOfLines(text: string, ls: seq<Line>)
    requires AreLines(text, ls)
    ensures ls == LinesOf(text)
  {
    LinesAre(text);
    forall n | 0 <= n < |ls| ensures n < |LinesOf(text)| && ls[n] == LinesOf(text)[n] {
      LinesUnique(text, ls, LinesOf(text), n);
    }
    if |ls| < |LinesOf(text)| { LinesUnique(text, LinesOf(text), ls, |ls|); }
  }

  lemma ReadsContent(text: string, l: Line, s: string)
    requires l.start <= l.end <= |text|
    ensures Reads(text, l, s) <==> s == Content(text, l)
  {
    var all := text[l.start..l.end];
    if all == s + "\r" { assert all[..|all| - 1] == s; }
    if all != "" && all[|all| - 1] == '\r' { assert all == all[..|all| - 1] + "\r"; }
  }

  lemma BlankMeans(s: string)
    ensures Blank(s) <==> OnlyBlanks(s)
  {
    if OnlyBlanks(s) { forall i | 0 <= i < |s| ensures s[i] == ' ' || s[i] == '\t' { assert s[i] in s; } }
  }

  lemma OpensMeans(text: string, l: Line, c: char, n: nat)
    requires l.start <= l.end <= |text|
    ensures var m := ParseMarker(Content(text, l));
            OpensWith(text, l, c, n) <==> m.Some? && m.value.symbol == c && m.value.length == n
  {
    var s := Content(text, l);
    ReadsContent(text, l, s);
    if ParseMarker(s).Some? { MarkerIsFence(s); }
    forall t, rest | Reads(text, l, t) && IsFenceLine(t, c, n, rest)
      ensures ParseMarker(s) == Some(Marker(c, n, rest))
    {
      ReadsContent(text, l, t);
      FenceIsMarker(t, c, n, rest);
    }
  }

  lemma ClosesMeans(text: string, l: Line, open: Marker)
    requires l.start <= l.end <= |text|
    ensures ClosesFence(text, l, open.symbol, open.length) <==> Closes(ParseMarker(Content(text, l)), open)
  {
    var s := Content(text, l);
    ReadsContent(text, l, s);
    if ParseMarker(s).Some? {
      MarkerIsFence(s);
      BlankMeans(ParseMarker(s).value.rest);
    }
    forall t, m: nat, rest |
      Reads(text, l, t) && m >= open.length && IsFenceLine(t, open.symbol, m, rest) && OnlyBlanks(rest)
      ensures Closes(ParseMarker(s), open)
    {
      ReadsContent(text, l, t);
      FenceIsMarker(t, open.symbol, m, rest);
      BlankMeans(rest);
    }
  }

  /** A block of the markers is a block of the text, and the other way round. */
  lemma FencedMeans(text: string, b: Block)
    ensures |MarkersOf(text)| == |LinesOf(text)|
    ensures IsFenced(text, LinesOf(text), b) <==> IsBlock(MarkersOf(text), b)
  {
    var ls, ms := LinesOf(text), MarkersOf(text);
    LinesAre(text);
    forall i: nat | i < |ls| ensures |ms| == |ls| && ms[i] == ParseMarker(Content(text, ls[i])) { MarkersAt(text, i); }
    MarkersAt(text, 0);
    forall c, n: nat | FencedWith(text, ls, b, c, n) ensures IsBlock(ms, b) {
      OpensMeans(text, ls[b.first], c, n);
      forall i: nat | b.first < i <= b.last && i < |ls|
        ensures Closes(ms[i], ms[b.first].value) <==> ClosesFence(text, ls[i], c, n)
      {
        ClosesMeans(text, ls[i], ms[b.first].value);
      }
    }
    if IsBlock(ms, b) {
      var m := ms[b.first].value;
      OpensMeans(text, ls[b.first], m.symbol, m.length);
      forall i: nat | b.first < i <= b.last && i < |ls|
        ensures Closes(ms[i], m) <==> ClosesFence(text, ls[i], m.symbol, m.length)
      {
        ClosesMeans(text, ls[i], m);
      }
      assert FencedWith(text, ls, b, m.symbol, m.length);
    }
  }

  lemma NoFenceMeans(text: string, i: nat)
    requires i < |LinesOf(text)|
    ensures |MarkersOf(text)| == |LinesOf(text)|
    ensures NoFence(text, LinesOf(text)[i]) <==> MarkersOf(text)[i] == None
  {
    LinesAre(text);
    MarkersAt(text, i);
    var l := LinesOf(text)[i];
    forall c, n: nat { OpensMeans(text, l, c, n); }
    var m := ParseMarker(Content(text, l));
    if m.Some? { assert OpensWith(text, l, m.value.symbol, m.value.length); }
  }

  /** The blocks found on the markers are the fenced blocks of the text. */
  lemma AreFencedMeans(text: string, blocks: seq<Block>)
    ensures AreFenced(text, LinesOf(text), blocks) <==> AreBlocks(MarkersOf(text), blocks, |MarkersOf(text)|)
  {
    MarkersAt(text, 0);
    forall b ensures IsFenced(text, LinesOf(text), b) <==> IsBlock(MarkersOf(text), b) { FencedMeans(text, b); }
    forall i: nat | i < |LinesOf(text)| ensures NoFence(text, LinesOf(text)[i]) <==> MarkersOf(text)[i] == None {
      NoFenceMeans(text, i);
    }
  }

  /** The spans that the scanner returns are those of the fenced blocks of the text. */
  lemma ScannedSpans(text: string, spans: seq<(nat, nat)>)
    requires AreSpans(|text|, LinesOf(text), FencesOf(text), spans)
    ensures AreFenceSpans(text, LinesOf(text), FencesOf(text), spans)
  {
    LinesAre(text);
    FencesOfAreBlocks(text, LinesOf(text), MarkersOf(text));
    AreFencedMeans(text, FencesOf(text));
  }

  /** There is one answer: the description leaves no choice of lines, blocks or spans. */
  lemma FenceSpansUnique(text: string, ls: seq<Line>, a: seq<Block>, s: seq<(nat, nat)>, ms: seq<Line>, b: seq<Block>,
                         t: seq<(nat, nat)>)
    requires AreFenceSpans(text, ls, a, s) && AreFenceSpans(text, ms, b, t)
    ensures s == t
  {
    OneListOfLines(text, ls);
    OneListOfLines(text, ms);
    AreFencedMeans(text, a);
    AreFencedMeans(text, b);
    if |a| <= |b| { BlocksUnique(MarkersOf(text), a, b, |a|); } else { BlocksUnique(MarkersOf(text), a, b, |b|); }
    assert a == b;
  }
}
