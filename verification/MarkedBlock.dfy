/** `replaceBlockLines`: the text between two markers is rewritten, line by line. */
module MarkedBlock {
  datatype Outcome = Replaced(text: string) | MissingStartMarker | MissingEndMarker

  // ---------------------------------------------------------------- string search

  predicate At(text: string, pattern: string, i: int) {
    0 <= i && i + |pattern| <= |text| && text[i..i + |pattern|] == pattern
  }

  ghost predicate Contains(text: string, pattern: string) {
    exists i :: At(text, pattern, i)
  }

  /** `text.indexOf(pattern, start)` */
  function IndexOf(text: string, pattern: string, start: nat): (r: int)
    ensures r == -1 || (start <= r && At(text, pattern, r))
    ensures forall i :: start <= i && (r == -1 || i < r) ==> !At(text, pattern, i)
    decreases |text| - start
  {
    if start + |pattern| > |text| then -1
    else if At(text, pattern, start) then start
    else if start == |text| then -1
    else IndexOf(text, pattern, start + 1)
  }

  /** `text.lastIndexOf("\n", start)` */
  function LastNewline(text: string, start: int): (r: int)
    requires start < |text|
    ensures r == -1 || (0 <= r <= start && text[r] == '\n')
    ensures forall i :: r < i <= start && 0 <= i ==> text[i] != '\n'
  {
    if start < 0 then -1 else if text[start] == '\n' then start else LastNewline(text, start - 1)
  }

  /** `text.slice(lo, hi)` */
  function Slice(text: string, lo: nat, hi: nat): string
    requires hi <= |text|
  {
    if lo <= hi then text[lo..hi] else ""
  }

  /** The position behind the line that holds position `i`. */
  function LineEnd(text: string, i: nat): (r: nat)
    requires i <= |text|
    ensures i <= r <= |text|
  {
    var n := IndexOf(text, "\n", i);
    if n == -1 then |text| else n + 1
  }

  function JoinLines(lines: seq<string>): string
    requires lines != []
  {
    if |lines| == 1 then lines[0] else lines[0] + "\n" + JoinLines(lines[1..])
  }

  function Indented(indent: string, lines: seq<string>): seq<string> {
    if lines == [] then [] else [indent + lines[0]] + Indented(indent, lines[1..])
  }

  // ---------------------------------------------------------------- the rewrite

  function Around(before: string, replacement: string, after: string): string {
    if after == "" then before + replacement else before + replacement + "\n" + after
  }

  function ReplaceBlockLines(text: string, start: string, end: string, lines: seq<string>): Outcome {
    var startIndex := IndexOf(text, start, 0);
    if startIndex == -1 then MissingStartMarker
    else
      var endIndex := IndexOf(text, end, startIndex);
      if endIndex == -1 then MissingEndMarker
      else
        var lastNewline := LastNewline(text, if startIndex < |text| then startIndex else |text| - 1);
        var lineStart := lastNewline + 1;
        var indent := Slice(text, lineStart, startIndex);
        var after := text[LineEnd(text, endIndex)..];
        var replacement := JoinLines([indent + start] + Indented(indent, lines) + [indent + end]);
        Replaced(Around(text[..lineStart], replacement, after))
  }

  // ---------------------------------------------------------------- its meaning

  predicate NewlineFree(s: string) { '\n' !in s }

  /** An end marker: not empty, and on one line. */
  predicate Marker(s: string) { s != "" && NewlineFree(s) }

  /** A start marker: not empty, and not starting with a line end. */
  predicate Opens(s: string) { s != "" && s[0] != '\n' }

  /** The inserted lines, each with its indent and its line end. */
  function Inserted(indent: string, lines: seq<string>): string {
    if lines == [] then "" else indent + lines[0] + "\n" + Inserted(indent, lines[1..])
  }

  /** Every line stands between the lines in front of it and those behind it, with its indent and its line end. */
  lemma {:induction false} LineInserted(indent: string, lines: seq<string>, k: nat)
    requires k < |lines|
    ensures Inserted(indent, lines) ==
            Inserted(indent, lines[..k]) + (indent + lines[k] + "\n") + Inserted(indent, lines[k + 1..])
    ensures Inserted(indent, []) == ""
  {
    if k > 0 {
      LineInserted(indent, lines[1..], k - 1);
      assert lines[1..][..k - 1] == lines[..k][1..] && lines[1..][k..] == lines[k + 1..];
    }
  }

  /** From the start marker to the end of the text. */
  function Block(start: string, end: string, indent: string, lines: seq<string>, after: string): string {
    (start + "\n" + Inserted(indent, lines)) + (indent + end + if after == "" then "" else "\n" + after)
  }

  /** `before` is made of whole lines, `indent` is the part of the start-marker line in front of the first marker. */
  ghost predicate Located(before: string, indent: string, start: string) {
    && (before == "" || before[|before| - 1] == '\n')
    && NewlineFree(indent)
    && forall i :: 0 <= i < |before + indent| ==> !At(before + indent + start, start, i)
  }

  /** What follows the line of the first end marker in `rest`. */
  function AfterEnd(rest: string, end: string): string {
    var k := IndexOf(rest, end, 0);
    if k == -1 then "" else rest[LineEnd(rest, k)..]
  }

  // ---------------------------------------------------------------- proofs

  lemma {:induction false} JoinedBlock(head: string, indent: string, lines: seq<string>, last: string)
    ensures JoinLines([head] + Indented(indent, lines) + [last]) == head + "\n" + Inserted(indent, lines) + last
    decreases lines
  {
    var all := [head] + Indented(indent, lines) + [last];
    if lines == [] {
      assert all[1..] == [last];
      assert head + "\n" + "" + last == head + "\n" + last;
    } else {
      var rest := [indent + lines[0]] + Indented(indent, lines[1..]) + [last];
      assert all[1..] == rest;
      JoinedBlock(indent + lines[0], indent, lines[1..], last);
      assert head + "\n" + (indent + lines[0] + "\n" + Inserted(indent, lines[1..]) + last)
          == head + "\n" + (indent + lines[0] + "\n" + Inserted(indent, lines[1..])) + last;
    }
  }

  /** Searching behind a prefix is searching the rest. */
  lemma AtShift(a: string, b: string, pattern: string, i: int)
    requires i >= |a|
    ensures At(a + b, pattern, i) <==> At(b, pattern, i - |a|)
  {
    if i + |pattern| <= |a + b| {
      assert (a + b)[i..i + |pattern|] == b[i - |a|..i - |a| + |pattern|];
    }
  }

  lemma AtPrefix(a: string, b: string, pattern: string, i: int)
    requires i + |pattern| <= |a|
    ensures At(a + b, pattern, i) <==> At(a, pattern, i)
  {
    if 0 <= i {
      assert (a + b)[i..i + |pattern|] == a[i..i + |pattern|];
    }
  }

  lemma IndexOfIs(text: string, pattern: string, from: nat, k: int)
    requires k >= from && At(text, pattern, k)
    requires forall i :: from <= i < k ==> !At(text, pattern, i)
    ensures IndexOf(text, pattern, from) == k
  {
  }

  lemma IndexOfShift(a: string, b: string, pattern: string, from: nat)
    ensures IndexOf(a + b, pattern, |a| + from) ==
            if IndexOf(b, pattern, from) == -1 then -1 else |a| + IndexOf(b, pattern, from)
  {
    var r := IndexOf(b, pattern, from);
    forall i | i >= |a|
      ensures At(a + b, pattern, i) <==> At(b, pattern, i - |a|)
    {
      AtShift(a, b, pattern, i);
    }
    if r != -1 {
      assert At(a + b, pattern, |a| + r);
      IndexOfIs(a + b, pattern, |a| + from, |a| + r);
    } else {
      var q := IndexOf(a + b, pattern, |a| + from);
      assert q != -1 ==> At(b, pattern, q - |a|);
    }
  }

  /** The first start marker of a located text. */
  lemma StartFound(before: string, indent: string, start: string, tail: string)
    requires Located(before, indent, start) && Opens(start)
    ensures IndexOf(before + indent + (start + tail), start, 0) == |before + indent|
  {
    var head := before + indent;
    var text := head + (start + tail);
    assert text == (head + start) + tail;
    assert text[|head|..|head| + |start|] == start;
    forall i | 0 <= i < |head|
      ensures !At(text, start, i)
    {
      AtPrefix(head + start, tail, start, i);
    }
    IndexOfIs(text, start, 0, |head|);
  }

  /** The line start in front of the first start marker. */
  lemma LineStartFound(before: string, indent: string, rest: string)
    requires before == "" || before[|before| - 1] == '\n'
    requires NewlineFree(indent) && rest != "" && rest[0] != '\n'
    ensures LastNewline(before + indent + rest, |before + indent|) == |before| - 1
  {
    var text := before + indent + rest;
    var r := LastNewline(text, |before + indent|);
    assert text[|before + indent|] == rest[0];
    assert forall i :: |before| <= i < |before + indent| ==> text[i] == indent[i - |before|];
    if before != "" {
      assert text[|before| - 1] == '\n';
    }
  }

  /** The positions of the first start marker, of its line, and of the end marker behind it. */
  ghost predicate Positions(text: string, start: string, end: string, s: nat, lineStart: nat, e: nat) {
    && IndexOf(text, start, 0) == s < |text|
    && LastNewline(text, s) + 1 == lineStart <= s
    && IndexOf(text, end, s) == e <= |text|
  }

  /** The three parts of the text that the rewrite keeps. */
  ghost predicate Parts(text: string, s: nat, lineStart: nat, e: nat, before: string, indent: string, after: string) {
    && lineStart <= s <= |text| && e <= |text|
    && text[..lineStart] == before && text[lineStart..s] == indent && text[LineEnd(text, e)..] == after
  }

  lemma LocatedPositions(before: string, indent: string, start: string, tail: string, end: string, k: nat)
    requires Located(before, indent, start) && Opens(start)
    requires IndexOf(start + tail, end, 0) == k
    ensures Positions(before + indent + (start + tail), start, end, |before + indent|, |before|, |before + indent| + k)
  {
    StartFound(before, indent, start, tail);
    LineStartFound(before, indent, start + tail);
    IndexOfShift(before + indent, start + tail, end, 0);
  }

  lemma LocatedParts(before: string, indent: string, rest: string, k: nat)
    requires k <= |rest|
    ensures Parts(before + indent + rest, |before + indent|, |before|, |before + indent| + k, before, indent, rest[LineEnd(rest, k)..])
  {
    HeadParts(before, indent, rest);
    AfterShift(before + indent, rest, k);
  }

  lemma HeadParts(before: string, indent: string, rest: string)
    ensures var text := before + indent + rest;
            text[..|before|] == before && text[|before|..|before + indent|] == indent
  {
  }

  /** The rewrite keeps `before`, `indent` and `after` of the text. */
  ghost predicate Framed(text: string, start: string, end: string, before: string, indent: string, after: string) {
    exists s: nat, lineStart: nat, e: nat ::
      Positions(text, start, end, s, lineStart, e) && Parts(text, s, lineStart, e, before, indent, after)
  }

  /** A text whose first start marker is located and followed by an end marker is framed by its parts. */
  lemma FrameLocated(before: string, indent: string, start: string, tail: string, end: string)
    requires Located(before, indent, start) && Opens(start)
    requires IndexOf(start + tail, end, 0) != -1
    ensures Framed(before + indent + (start + tail), start, end, before, indent, AfterEnd(start + tail, end))
  {
    var k := IndexOf(start + tail, end, 0);
    LocatedPositions(before, indent, start, tail, end, k);
    LocatedParts(before, indent, start + tail, k);
  }

  lemma ReplaceFramed(text: string, start: string, end: string, lines: seq<string>, before: string, indent: string, after: string)
    requires Framed(text, start, end, before, indent, after)
    ensures ReplaceBlockLines(text, start, end, lines) == Replaced(before + indent + Block(start, end, indent, lines, after))
  {
    var s: nat, lineStart: nat, e: nat :|
      Positions(text, start, end, s, lineStart, e) && Parts(text, s, lineStart, e, before, indent, after);
    ReplaceFound(text, start, end, lines, s, lineStart, e, before, indent, after);
  }

  lemma AfterShift(head: string, rest: string, k: nat)
    requires k <= |rest|
    ensures var text := head + rest;
            text[LineEnd(text, |head| + k)..] == rest[LineEnd(rest, k)..]
  {
    IndexOfShift(head, rest, "\n", k);
  }

  /** The rewrite once the positions of both markers and of the line are known. */
  lemma ReplaceFound(text: string, start: string, end: string, lines: seq<string>, s: nat, lineStart: nat, e: nat,
                     before: string, indent: string, after: string)
    requires Positions(text, start, end, s, lineStart, e) && Parts(text, s, lineStart, e, before, indent, after)
    ensures ReplaceBlockLines(text, start, end, lines) == Replaced(before + indent + Block(start, end, indent, lines, after))
  {
    JoinedBlock(indent + start, indent, lines, indent + end);
    BlockText(before, indent, start, end, lines, after);
  }

  lemma BlockText(before: string, indent: string, start: string, end: string, lines: seq<string>, after: string)
    ensures before + indent + Block(start, end, indent, lines, after) ==
            Around(before, indent + start + "\n" + Inserted(indent, lines) + (indent + end), after)
  {
    assert indent + end + "" == indent + end;
  }

  /** Cut at the first occurrence of the marker, there is none that starts earlier. */
  lemma FirstMarker(head: string, start: string, tail: string)
    requires forall i :: 0 <= i < |head| ==> !At((head + start) + tail, start, i)
    ensures forall i :: 0 <= i < |head| ==> !At(head + start, start, i)
  {
    forall i | 0 <= i < |head|
      ensures !At(head + start, start, i)
    {
      if At(head + start, start, i) {
        AtPrefix(head + start, tail, start, i);
      }
    }
  }

  /** The line of the first marker starts behind the line end before it. */
  lemma LineOf(text: string, k: nat) returns (lineStart: nat)
    requires k < |text| && text[k] != '\n'
    ensures lineStart <= k && lineStart == LastNewline(text, k) + 1
    ensures text[..lineStart] == "" || text[..lineStart][lineStart - 1] == '\n'
    ensures NewlineFree(text[lineStart..k])
  {
    lineStart := LastNewline(text, k) + 1;
  }

  /** A text cut at its first marker. */
  lemma CutAt(text: string, start: string, k: nat)
    requires IndexOf(text, start, 0) == k
    ensures k + |start| <= |text| && text == text[..k] + (start + text[k + |start|..])
    ensures forall i :: 0 <= i < k ==> !At(text[..k] + start, start, i)
  {
    var tail := text[k + |start|..];
    assert text == (text[..k] + start) + tail;
    FirstMarker(text[..k], start, tail);
  }

  /** Every text with a start marker is located. */
  lemma Locate(text: string, start: string) returns (before: string, indent: string, tail: string)
    requires Opens(start) && Contains(text, start)
    ensures Located(before, indent, start) && text == before + indent + (start + tail)
  {
    var k := IndexOf(text, start, 0);
    CutAt(text, start, k);
    tail := text[k + |start|..];
    assert text[k] == start[0];
    var lineStart := LineOf(text, k);
    before, indent := text[..lineStart], text[lineStart..k];
    assert before + indent == text[..k];
  }

  // ---------------------------------------------------------------- when the end marker is found again

  /** A marker does not cross a line end. */
  lemma NoStraddle(text: string, n: nat, pattern: string, i: int)
    requires At(text, pattern, i) && NewlineFree(pattern) && n < |text| && text[n] == '\n'
    ensures i + |pattern| <= n || n < i
  {
    forall m | i <= m < i + |pattern|
      ensures text[m] != '\n'
    {
      assert text[m] == text[i..i + |pattern|][m - i];
      assert pattern[m - i] in pattern;
    }
  }

  lemma ContainsSplit(a: string, b: string, pattern: string)
    requires Marker(pattern)
    ensures Contains(a + "\n" + b, pattern) <==> Contains(a, pattern) || Contains(b, pattern)
  {
    var text := a + "\n" + b;
    assert text == a + ("\n" + b);
    if Contains(text, pattern) {
      var i :| At(text, pattern, i);
      NoStraddle(text, |a|, pattern, i);
      if i + |pattern| <= |a| {
        AtPrefix(a, "\n" + b, pattern, i);
      } else {
        AtShift(a + "\n", b, pattern, i);
      }
    }
    if Contains(a, pattern) {
      var i :| At(a, pattern, i);
      AtPrefix(a, "\n" + b, pattern, i);
    }
    if Contains(b, pattern) {
      var i :| At(b, pattern, i);
      AtShift(a + "\n", b, pattern, i + |a| + 1);
    }
  }

  ghost predicate InSomeLine(end: string, indent: string, lines: seq<string>) {
    exists j :: 0 <= j < |lines| && Contains(indent + lines[j], end)
  }

  lemma {:induction false} InsertedContains(end: string, indent: string, lines: seq<string>)
    requires Marker(end)
    ensures Contains(Inserted(indent, lines), end) <==> InSomeLine(end, indent, lines)
  {
    if lines == [] {
      assert !Contains("", end);
    } else {
      InsertedContains(end, indent, lines[1..]);
      ContainsSplit(indent + lines[0], Inserted(indent, lines[1..]), end);
      if InSomeLine(end, indent, lines) {
        var j :| 0 <= j < |lines| && Contains(indent + lines[j], end);
        assert j > 0 ==> lines[1..][j - 1] == lines[j];
      }
      if InSomeLine(end, indent, lines[1..]) {
        var j :| 0 <= j < |lines[1..]| && Contains(indent + lines[1..][j], end);
        assert lines[j + 1] == lines[1..][j];
      }
    }
  }

  /** The end marker occurs in front of its own line. */
  ghost predicate Premature(start: string, end: string, indent: string, lines: seq<string>) {
    Contains(start, end) || InSomeLine(end, indent, lines)
  }

  /** The block in front of its last line holds the end marker exactly when the marker is premature. */
  lemma HeadContains(start: string, end: string, indent: string, lines: seq<string>)
    requires Marker(end)
    ensures Contains(start + "\n" + Inserted(indent, lines), end) <==> Premature(start, end, indent, lines)
  {
    ContainsSplit(start, Inserted(indent, lines), end);
    InsertedContains(end, indent, lines);
  }

  /** Rewritten once, the block ends where it ended before exactly when the end marker is not premature. */
  lemma AfterBlock(start: string, end: string, indent: string, lines: seq<string>, after: string)
    requires Marker(end) && NewlineFree(indent)
    ensures IndexOf(Block(start, end, indent, lines, after), end, 0) != -1
    ensures AfterEnd(Block(start, end, indent, lines, after), end) == after <==> !Premature(start, end, indent, lines)
  {
    var p := start + "\n" + Inserted(indent, lines);
    var q := indent + end + if after == "" then "" else "\n" + after;
    var text := p + q;
    HeadContains(start, end, indent, lines);
    InsertedEnds(indent, lines);
    assert p[|p| - 1] == '\n';
    assert q[|indent|..|indent| + |end|] == end;
    assert At(q, end, |indent|);
    AtShift(p, q, end, |p| + |indent|);
    var k := IndexOf(text, end, 0);
    assert k != -1 && k <= |p| + |indent|;
    if Contains(p, end) {
      var i :| At(p, end, i);
      AtPrefix(p, q, end, i);
      assert At(text, "\n", |p| - 1);
      assert LineEnd(text, k) <= |p|;
      assert |text[LineEnd(text, k)..]| >= |q| > |after|;
    } else {
      NotBefore(p, q, end, k);
      EndLine(p, indent, end, after, k);
    }
  }

  lemma {:induction false} InsertedEnds(indent: string, lines: seq<string>)
    ensures Inserted(indent, lines) == "" || Inserted(indent, lines)[|Inserted(indent, lines)| - 1] == '\n'
  {
    if lines != [] {
      InsertedEnds(indent, lines[1..]);
    }
  }

  lemma NotBefore(p: string, q: string, end: string, k: int)
    requires p != "" && p[|p| - 1] == '\n' && Marker(end) && !Contains(p, end) && At(p + q, end, k)
    ensures k >= |p|
  {
    NoStraddle(p + q, |p| - 1, end, k);
    if k + |end| <= |p| {
      AtPrefix(p, q, end, k);
    }
  }

  lemma EndLine(p: string, indent: string, end: string, after: string, k: nat)
    requires NewlineFree(indent) && Marker(end) && |p| <= k <= |p| + |indent|
    ensures var text := p + (indent + end + if after == "" then "" else "\n" + after);
            text[LineEnd(text, k)..] == after
  {
    if after == "" {
      LastLine(p, indent + end, k);
      assert indent + end + "" == indent + end;
    } else {
      InnerLine(p, indent + end, after, k);
      assert p + (indent + end + ("\n" + after)) == p + (indent + end) + ("\n" + after);
    }
  }

  lemma LastLine(p: string, line: string, k: nat)
    requires NewlineFree(line) && |p| <= k <= |p| + |line|
    ensures (p + line)[LineEnd(p + line, k)..] == ""
  {
    var text := p + line;
    assert forall i :: |p| <= i < |text| ==> text[i] == line[i - |p|] && line[i - |p|] != '\n';
    assert forall i :: At(text, "\n", i) ==> text[i] == '\n';
  }

  lemma InnerLine(p: string, line: string, after: string, k: nat)
    requires NewlineFree(line) && |p| <= k <= |p| + |line|
    ensures var text := p + line + ("\n" + after);
            text[LineEnd(text, k)..] == after
  {
    var text := p + line + ("\n" + after);
    var n := |p| + |line|;
    assert forall i :: |p| <= i < n ==> text[i] == line[i - |p|] && line[i - |p|] != '\n';
    assert At(text, "\n", n);
    assert forall i :: At(text, "\n", i) ==> text[i] == '\n';
    IndexOfIs(text, "\n", k, n);
    assert text[n + 1..] == after;
  }

  // ---------------------------------------------------------------- the laws

  /** Text in front of the start-marker line and behind the end-marker line is kept; the rest is the new block. */
  lemma OutsideKept(text: string, start: string, end: string, lines: seq<string>)
    returns (before: string, indent: string, rest: string)
    requires Opens(start)
    requires ReplaceBlockLines(text, start, end, lines).Replaced?
    ensures Located(before, indent, start) && start <= rest && text == before + indent + rest
    ensures Framed(text, start, end, before, indent, AfterEnd(rest, end))
    ensures ReplaceBlockLines(text, start, end, lines).text ==
            before + indent + Block(start, end, indent, lines, AfterEnd(rest, end))
    ensures IndexOf(rest, end, 0) != -1
  {
    var tail;
    before, indent, tail := Locate(text, start);
    rest := start + tail;
    StartFound(before, indent, start, tail);
    IndexOfShift(before + indent, rest, end, 0);
    FrameLocated(before, indent, start, tail, end);
    ReplaceFramed(text, start, end, lines, before, indent, AfterEnd(rest, end));
  }

  /** The rewrite fails exactly when a marker is missing: the end marker counts from the first start marker on. */
  lemma FailsIff(text: string, start: string, end: string, lines: seq<string>)
    ensures ReplaceBlockLines(text, start, end, lines).MissingStartMarker? <==> !Contains(text, start)
    ensures ReplaceBlockLines(text, start, end, lines).MissingEndMarker? <==>
            exists i :: At(text, start, i) && (forall j :: 0 <= j < i ==> !At(text, start, j)) &&
                        forall j :: j >= i ==> !At(text, end, j)
  {
    var s := IndexOf(text, start, 0);
    if s != -1 {
      assert At(text, start, s);
    }
  }

  /** The indent that the rewrite of `text` uses. */
  function IndentOf(text: string, start: string): string {
    var k := IndexOf(text, start, 0);
    if k == -1 || k >= |text| then "" else Slice(text, LastNewline(text, k) + 1, k)
  }

  lemma IndentLocated(before: string, indent: string, start: string, tail: string)
    requires Located(before, indent, start) && Opens(start)
    ensures IndentOf(before + indent + (start + tail), start) == indent
  {
    StartFound(before, indent, start, tail);
    LineStartFound(before, indent, start + tail);
  }

  /** A text that already holds a block is framed like the text before it, but for what follows. */
  lemma FrameBlock(before: string, indent: string, start: string, end: string, lines: seq<string>, after: string)
    requires Located(before, indent, start) && Opens(start) && Marker(end)
    ensures var block := Block(start, end, indent, lines, after);
            Framed(before + indent + block, start, end, before, indent, AfterEnd(block, end))
  {
    var block := Block(start, end, indent, lines, after);
    BlockStarts(start, end, indent, lines, after);
    AfterBlock(start, end, indent, lines, after);
    FrameLocated(before, indent, start, block[|start|..], end);
  }

  /** Blocks with the same lines differ as the texts behind them do. */
  lemma SameBlock(head: string, start: string, end: string, indent: string, lines: seq<string>, a: string, b: string)
    ensures Replaced(head + Block(start, end, indent, lines, a)) == Replaced(head + Block(start, end, indent, lines, b)) <==>
            a == b
  {
    PrefixCancels(head, Block(start, end, indent, lines, a), Block(start, end, indent, lines, b));
    BlockInjective(start, end, indent, lines, a, b);
  }

  /** Texts framed alike are rewritten alike exactly when the same text follows. */
  lemma FramedAlike(text: string, once: string, start: string, end: string, lines: seq<string>,
                    before: string, indent: string, a: string, b: string)
    requires Framed(text, start, end, before, indent, a) && Framed(once, start, end, before, indent, b)
    ensures ReplaceBlockLines(once, start, end, lines) == ReplaceBlockLines(text, start, end, lines) <==> a == b
  {
    ReplaceFramed(text, start, end, lines, before, indent, a);
    ReplaceFramed(once, start, end, lines, before, indent, b);
    SameBlock(before + indent, start, end, indent, lines, a, b);
  }

  lemma BlockStarts(start: string, end: string, indent: string, lines: seq<string>, after: string)
    ensures var block := Block(start, end, indent, lines, after);
            |start| <= |block| && block == start + block[|start|..]
  {
    var p, q := start + "\n" + Inserted(indent, lines), indent + end + if after == "" then "" else "\n" + after;
    assert p == start + ("\n" + Inserted(indent, lines));
    assert p + q == start + ("\n" + Inserted(indent, lines) + q);
  }

  /** The end marker of the rewrite of `text` occurs in front of its own line. */
  ghost predicate Ambiguous(text: string, start: string, end: string, lines: seq<string>) {
    Premature(start, end, IndentOf(text, start), lines)
  }

  /**
   * A second rewrite forgets the first, whatever it inserts, exactly when the end marker occurs neither in the
   * start marker nor in an indented line of the first rewrite.
   */
  lemma ForgetsIff(text: string, start: string, end: string, lines: seq<string>, other: seq<string>, once: string)
    requires Opens(start) && Marker(end)
    requires ReplaceBlockLines(text, start, end, lines) == Replaced(once)
    ensures ReplaceBlockLines(once, start, end, other) == ReplaceBlockLines(text, start, end, other) <==>
            !Ambiguous(text, start, end, lines)
  {
    var before, indent, rest := OutsideKept(text, start, end, lines);
    FramedForgets(text, once, start, end, lines, other, before, indent, rest);
  }

  /** The same for a text in its parts. */
  lemma FramedForgets(text: string, once: string, start: string, end: string, lines: seq<string>, other: seq<string>,
                      before: string, indent: string, rest: string)
    requires Opens(start) && Marker(end) && Located(before, indent, start) && start <= rest && text == before + indent + rest
    requires Framed(text, start, end, before, indent, AfterEnd(rest, end))
    requires once == before + indent + Block(start, end, indent, lines, AfterEnd(rest, end))
    ensures ReplaceBlockLines(once, start, end, other) == ReplaceBlockLines(text, start, end, other) <==>
            !Ambiguous(text, start, end, lines)
  {
    var after := AfterEnd(rest, end);
    IndentFound(text, before, indent, start, rest);
    FrameBlock(before, indent, start, end, lines, after);
    AfterBlock(start, end, indent, lines, after);
    FramedAlike(text, once, start, end, other, before, indent, after, AfterEnd(Block(start, end, indent, lines, after), end));
  }

  lemma IndentFound(text: string, before: string, indent: string, start: string, rest: string)
    requires Opens(start) && Located(before, indent, start) && start <= rest && text == before + indent + rest
    ensures IndentOf(text, start) == indent
  {
    assert rest == start + rest[|start|..];
    IndentLocated(before, indent, start, rest[|start|..]);
  }

  /** Under the same condition, and only then, the same rewrite changes nothing. */
  lemma IdempotentIff(text: string, start: string, end: string, lines: seq<string>, once: string)
    requires Opens(start) && Marker(end)
    requires ReplaceBlockLines(text, start, end, lines) == Replaced(once)
    ensures ReplaceBlockLines(once, start, end, lines) == Replaced(once) <==> !Ambiguous(text, start, end, lines)
  {
    ForgetsIff(text, start, end, lines, lines, once);
  }

  lemma PrefixCancels(a: string, x: string, y: string)
    ensures a + x == a + y <==> x == y
  {
    if a + x == a + y {
      assert x == (a + x)[|a|..] && y == (a + y)[|a|..];
    }
  }

  lemma BlockInjective(start: string, end: string, indent: string, lines: seq<string>, a: string, b: string)
    ensures Block(start, end, indent, lines, a) == Block(start, end, indent, lines, b) <==> a == b
  {
    var p := start + "\n" + Inserted(indent, lines);
    var x, y := if a == "" then "" else "\n" + a, if b == "" then "" else "\n" + b;
    PrefixCancels(p, indent + end + x, indent + end + y);
    PrefixCancels(indent + end, x, y);
    PrefixCancels("\n", a, b);
  }
}
