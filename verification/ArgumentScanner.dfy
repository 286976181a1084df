/** The quote- and bracket-aware scanner: `findMatchingParen` and `splitTopLevelArguments`. */
module ArgumentScanner {
  import opened Common

  // ---------------------------------------------------------------- the automata

  datatype Quote = Outside | Inside(quote: char, escaped: bool)

  predicate IsQuote(c: char) { c == '\'' || c == '"' || c == '`' }

  function NextQuote(q: Quote, c: char): Quote {
    match q
    case Outside => if IsQuote(c) then Inside(c, false) else Outside
    case Inside(quote, escaped) =>
      if escaped then Inside(quote, false)
      else if c == '\\' then Inside(quote, true)
      else if c == quote then Outside
      else q
  }

  /** Quotes and the balance of parentheses outside them. */
  datatype Parens = Parens(quote: Quote, depth: int)

  function NextParens(s: Parens, c: char): Parens {
    Parens(NextQuote(s.quote, c),
           if s.quote.Inside? then s.depth else if c == '(' then s.depth + 1 else if c == ')' then s.depth - 1 else s.depth)
  }

  function RunParens(s: Parens, text: string): Parens {
    if text == "" then s else NextParens(RunParens(s, text[..|text| - 1]), text[|text| - 1])
  }

  const BALANCED := Parens(Outside, 0)

  /** Quotes and the three kinds of brackets; a closing bracket without an open one is ignored. */
  datatype Nesting = Nesting(quote: Quote, parens: nat, brackets: nat, braces: nat)

  function Down(n: nat): nat { if n > 0 then n - 1 else 0 }

  function NextNesting(s: Nesting, c: char): Nesting {
    var t := s.(quote := NextQuote(s.quote, c));
    if s.quote.Inside? then t
    else if c == '(' then t.(parens := t.parens + 1)
    else if c == ')' then t.(parens := Down(t.parens))
    else if c == '[' then t.(brackets := t.brackets + 1)
    else if c == ']' then t.(brackets := Down(t.brackets))
    else if c == '{' then t.(braces := t.braces + 1)
    else if c == '}' then t.(braces := Down(t.braces))
    else t
  }

  function RunNesting(s: Nesting, text: string): Nesting {
    if text == "" then s else NextNesting(RunNesting(s, text[..|text| - 1]), text[|text| - 1])
  }

  const TOP := Nesting(Outside, 0, 0, 0)

  // ---------------------------------------------------------------- what the automata see

  const QUOTES: set<char> := {'\'', '"', '`'}

  /** The text of a literal in quotes `q`: the quote and the backslash are escaped. */
  ghost function Escaped(q: char, body: string): string {
    if body == "" then ""
    else
      var c := body[|body| - 1];
      Escaped(q, body[..|body| - 1]) + if c == q || c == '\\' then ['\\', c] else [c]
  }

  /** Text in quotes is passed over, whatever it holds. */
  lemma QuotedSkipped(s: Parens, n: Nesting, q: char, body: string)
    requires q in QUOTES && s.quote == Outside && n.quote == Outside
    ensures RunParens(s, [q] + Escaped(q, body) + [q]) == s
    ensures RunNesting(n, [q] + Escaped(q, body) + [q]) == n
  {
    InsideStays(s.(quote := Inside(q, false)), n.(quote := Inside(q, false)), q, body);
    QuotedParens(s, q, Escaped(q, body));
    QuotedNesting(n, q, Escaped(q, body));
  }

  lemma QuotedParens(s: Parens, q: char, text: string)
    requires q in QUOTES && s.quote == Outside
    requires RunParens(s.(quote := Inside(q, false)), text) == s.(quote := Inside(q, false))
    ensures RunParens(s, [q] + text + [q]) == s
  {
    RunParensOne(s, q);
    RunParensAppend(s, [q], text);
    RunParensAppend(s, [q] + text, [q]);
    RunParensOne(s.(quote := Inside(q, false)), q);
  }

  lemma QuotedNesting(n: Nesting, q: char, text: string)
    requires q in QUOTES && n.quote == Outside
    requires RunNesting(n.(quote := Inside(q, false)), text) == n.(quote := Inside(q, false))
    ensures RunNesting(n, [q] + text + [q]) == n
  {
    RunNestingOne(n, q);
    RunNestingAppend(n, [q], text);
    RunNestingAppend(n, [q] + text, [q]);
    RunNestingOne(n.(quote := Inside(q, false)), q);
  }

  lemma RunParensOne(s: Parens, c: char)
    ensures RunParens(s, [c]) == NextParens(s, c)
  {
    assert [c][..0] == "";
  }

  lemma RunNestingOne(n: Nesting, c: char)
    ensures RunNesting(n, [c]) == NextNesting(n, c)
  {
    assert [c][..0] == "";
  }

  lemma {:induction false} InsideStays(s: Parens, n: Nesting, q: char, body: string)
    requires q in QUOTES && s.quote == Inside(q, false) && n.quote == Inside(q, false)
    ensures RunParens(s, Escaped(q, body)) == s && RunNesting(n, Escaped(q, body)) == n
  {
    if body != "" {
      var init, c := body[..|body| - 1], body[|body| - 1];
      InsideStays(s, n, q, init);
      var piece := if c == q || c == '\\' then ['\\', c] else [c];
      RunParensAppend(s, Escaped(q, init), piece);
      RunNestingAppend(n, Escaped(q, init), piece);
      if |piece| == 1 {
        RunParensOne(s, c);
        RunNestingOne(n, c);
      } else {
        assert piece[..1] == ['\\'];
        RunParensOne(s, '\\');
        RunNestingOne(n, '\\');
      }
    }
  }

  /** Opening characters less closing ones. */
  ghost function Balance(text: string, open: char, close: char): int {
    if text == "" then 0
    else
      var c := text[|text| - 1];
      Balance(text[..|text| - 1], open, close) + Weight(c, open, close)
  }

  ghost predicate QuoteFree(text: string) { forall i :: 0 <= i < |text| ==> text[i] !in QUOTES }

  /** Without quotes, the balance of parentheses is counted. */
  lemma {:induction false} PlainParens(depth: int, text: string)
    requires QuoteFree(text)
    ensures RunParens(Parens(Outside, depth), text) == Parens(Outside, depth + Balance(text, '(', ')'))
  {
    if text != "" {
      PlainParens(depth, text[..|text| - 1]);
    }
  }

  /**
   * A counter that ignores closing characters without an open one stands at the largest balance of an end of
   * the text, the start value included when the whole text is that end.
   */
  ghost predicate Peak(r: nat, start: nat, text: string, open: char, close: char) {
    && start + Balance(text, open, close) <= r
    && (forall i :: 0 <= i <= |text| ==> Balance(text[i..], open, close) <= r)
    && (r == start + Balance(text, open, close) || exists i :: 0 <= i <= |text| && r == Balance(text[i..], open, close))
  }

  /** What one character does to a balance. */
  ghost function Weight(c: char, open: char, close: char): int {
    if c == open then 1 else if c == close then -1 else 0
  }

  lemma BalanceMore(text: string, c: char, open: char, close: char, i: nat)
    requires i <= |text|
    ensures Balance((text + [c])[i..], open, close) == Balance(text[i..], open, close) + Weight(c, open, close)
  {
    assert (text + [c])[i..] == text[i..] + [c];
    assert (text[i..] + [c])[..|text[i..]|] == text[i..];
  }

  ghost function Counted(r: nat, c: char, open: char, close: char): nat {
    if c == open then r + 1 else if c == close then Down(r) else r
  }

  lemma PeakBounds(r: nat, start: nat, text: string, open: char, close: char, c: char)
    requires Peak(r, start, text, open, close) && open != close
    ensures var longer, next := text + [c], Counted(r, c, open, close);
            start + Balance(longer, open, close) <= next && forall i :: 0 <= i <= |longer| ==> Balance(longer[i..], open, close) <= next
  {
    var longer := text + [c];
    forall i | 0 <= i <= |longer|
      ensures Balance(longer[i..], open, close) <= Counted(r, c, open, close)
    {
      PeakBound(r, start, text, open, close, c, i);
    }
    assert longer[0..] == longer && text[0..] == text;
    BalanceMore(text, c, open, close, 0);
  }

  lemma PeakBound(r: nat, start: nat, text: string, open: char, close: char, c: char, i: nat)
    requires Peak(r, start, text, open, close) && open != close && i <= |text| + 1
    ensures Balance((text + [c])[i..], open, close) <= Counted(r, c, open, close)
  {
    if i <= |text| {
      BalanceMore(text, c, open, close, i);
      assert Balance(text[i..], open, close) <= r;
    } else {
      assert (text + [c])[i..] == "";
    }
  }

  lemma PeakMore(r: nat, start: nat, text: string, open: char, close: char, c: char)
    requires Peak(r, start, text, open, close) && open != close
    ensures Peak(Counted(r, c, open, close), start, text + [c], open, close)
  {
    var longer, next := text + [c], Counted(r, c, open, close);
    PeakBounds(r, start, text, open, close, c);
    assert longer[0..] == longer && text[0..] == text && longer[|longer|..] == "";
    if c == close && r == 0 {
      assert next == Balance(longer[|longer|..], open, close);
    } else if r == start + Balance(text, open, close) {
      BalanceMore(text, c, open, close, 0);
    } else {
      var i :| 0 <= i <= |text| && r == Balance(text[i..], open, close);
      BalanceMore(text, c, open, close, i);
      assert next == Balance(longer[i..], open, close);
    }
  }

  lemma PlainStep(n: Nesting, c: char)
    requires n.quote == Outside && c !in QUOTES
    ensures NextNesting(n, c) ==
            Nesting(Outside, Counted(n.parens, c, '(', ')'), Counted(n.brackets, c, '[', ']'), Counted(n.braces, c, '{', '}'))
  {
  }

  /** Without quotes, each kind of bracket is counted by itself. */
  lemma {:induction false} PlainNesting(n: Nesting, text: string)
    requires QuoteFree(text) && n.quote == Outside
    ensures var r := RunNesting(n, text);
            && r.quote == Outside
            && Peak(r.parens, n.parens, text, '(', ')')
            && Peak(r.brackets, n.brackets, text, '[', ']')
            && Peak(r.braces, n.braces, text, '{', '}')
  {
    if text != "" {
      var init, c := text[..|text| - 1], text[|text| - 1];
      assert text == init + [c];
      var before := RunNesting(n, init);
      PlainNesting(n, init);
      PlainStep(before, c);
      PeakMore(before.parens, n.parens, init, '(', ')', c);
      PeakMore(before.brackets, n.brackets, init, '[', ']', c);
      PeakMore(before.braces, n.braces, init, '{', '}', c);
    }
  }

  // ---------------------------------------------------------------- the scanner state

  /** `QuoteScanState` with `beginQuotedSection` and `consumeQuotedChar`. */
  class QuoteScanState {
    var quote: Option<char>
    var escaped: bool

    ghost predicate Valid()
      reads this
    {
      quote.None? ==> !escaped
    }

    ghost function View(): Quote
      reads this
    {
      if quote.None? then Outside else Inside(quote.value, escaped)
    }

    constructor ()
      ensures Valid() && View() == Outside
    {
      quote, escaped := None, false;
    }

    method BeginQuotedSection(c: char) returns (began: bool)
      requires Valid() && quote.None?
      modifies this
      ensures Valid() && View() == NextQuote(old(View()), c) && began == IsQuote(c)
      ensures began <==> c in {'\'', '"', '`'}
    {
      if c != '\'' && c != '"' && c != '`' {
        return false;
      }
      quote := Some(c);
      return true;
    }

    method ConsumeQuotedChar(c: char) returns (consumed: bool)
      requires Valid()
      modifies this
      ensures Valid() && consumed == old(View()).Inside?
      ensures View() == if consumed then NextQuote(old(View()), c) else old(View())
    {
      if quote.None? {
        return false;
      }
      if escaped {
        escaped := false;
        return true;
      }
      if c == '\\' {
        escaped := true;
        return true;
      }
      if quote == Some(c) {
        quote := None;
      }
      return true;
    }
  }

  // ---------------------------------------------------------------- findMatchingParen

  /** Position `j` holds a closing parenthesis that matches the one at `open`. */
  ghost predicate Closes(source: string, open: nat, j: nat)
    requires open < j < |source|
  {
    source[j] == ')' && RunParens(BALANCED, source[open + 1..j]) == BALANCED
  }

  /** `r` is the first position that closes, or -1 when there is none. */
  ghost predicate FirstClose(source: string, open: nat, r: int) {
    && (r == -1 || (open < r < |source| && Closes(source, open, r)))
    && forall j :: open < j < |source| && (r == -1 || j < r) ==> !Closes(source, open, j)
  }

  lemma FirstCloseUnique(source: string, open: nat, r: int, close: int)
    requires FirstClose(source, open, r) && FirstClose(source, open, close)
    ensures r == close
  {
  }

  method FindMatchingParen(source: string, open: nat) returns (r: int)
    ensures FirstClose(source, open, r)
  {
    var depth := 1;
    var quoteState := new QuoteScanState();
    var i := open + 1;
    while i < |source|
      invariant open < i && (i <= |source| || i == open + 1)
      invariant quoteState.Valid() && fresh(quoteState)
      invariant i <= |source| ==> RunParens(BALANCED, source[open + 1..i]) == Parens(quoteState.View(), depth - 1)
      invariant depth >= 1
      invariant forall j :: open < j < i && j < |source| ==> !Closes(source, open, j)
    {
      var ch := source[i];
      assert source[open + 1..i + 1][..i - open - 1] == source[open + 1..i];
      i := i + 1;
      var consumed := quoteState.ConsumeQuotedChar(ch);
      if consumed {
        continue;
      }
      var began := quoteState.BeginQuotedSection(ch);
      if began {
        continue;
      }
      if ch == '(' {
        depth := depth + 1;
        continue;
      }
      if ch == ')' {
        depth := depth - 1;
        if depth == 0 {
          return i - 1;
        }
      }
    }
    return -1;
  }

  // ---------------------------------------------------------------- splitTopLevelArguments

  /** The pieces before each top-level comma, and the text after the last one. */
  datatype Cuts = Cuts(done: seq<string>, current: string)

  ghost function Cut(s: Nesting, text: string): Cuts {
    if text == "" then Cuts([], "")
    else
      var init, c := text[..|text| - 1], text[|text| - 1];
      var before := Cut(s, init);
      if c == ',' && RunNesting(s, init) == TOP then Cuts(before.done + [before.current], "")
      else before.(current := before.current + [c])
  }

  ghost function TrimAll(pieces: seq<string>): seq<string> {
    seq(|pieces|, i requires 0 <= i < |pieces| => Trim(pieces[i]))
  }

  ghost function Arguments(text: string): seq<string> {
    var cuts := Cut(TOP, text);
    TrimAll(cuts.done) + if Trim(cuts.current) == "" then [] else [Trim(cuts.current)]
  }

  /** The three depth counters. */
  datatype Depths = Depths(parens: nat, brackets: nat, braces: nat)

  function At(quote: Quote, d: Depths): Nesting { Nesting(quote, d.parens, d.brackets, d.braces) }

  /** The bracket branches of the loop, outside quotes. */
  method StepBrackets(d: Depths, ch: char) returns (bracket: bool, r: Depths)
    requires !IsQuote(ch)
    ensures At(Outside, r) == NextNesting(At(Outside, d), ch)
    ensures bracket ==> ch != ','
    ensures !bracket ==> r == d
  {
    if ch == '(' {
      return true, d.(parens := d.parens + 1);
    }
    if ch == ')' {
      return true, if d.parens > 0 then d.(parens := d.parens - 1) else d;
    }
    if ch == '[' {
      return true, d.(brackets := d.brackets + 1);
    }
    if ch == ']' {
      return true, if d.brackets > 0 then d.(brackets := d.brackets - 1) else d;
    }
    if ch == '{' {
      return true, d.(braces := d.braces + 1);
    }
    if ch == '}' {
      return true, if d.braces > 0 then d.(braces := d.braces - 1) else d;
    }
    return false, d;
  }

  /** The specification, one character further. */
  lemma CutSnoc(text: string, c: char)
    ensures RunNesting(TOP, text + [c]) == NextNesting(RunNesting(TOP, text), c)
    ensures Cut(TOP, text + [c]) ==
            var before := Cut(TOP, text);
            if c == ',' && RunNesting(TOP, text) == TOP then Cuts(before.done + [before.current], "")
            else before.(current := before.current + [c])
  {
    assert (text + [c])[..|text|] == text;
  }

  method SplitTopLevelArguments(source: string) returns (out: seq<string>)
    ensures out == Arguments(source)
  {
    out := [];
    var current := "";
    var depths := Depths(0, 0, 0);
    var quoteState := new QuoteScanState();
    ghost var cuts := Cuts([], "");
    for i := 0 to |source|
      invariant quoteState.Valid() && fresh(quoteState)
      invariant RunNesting(TOP, source[..i]) == At(quoteState.View(), depths)
      invariant cuts == Cut(TOP, source[..i])
      invariant out == TrimAll(cuts.done) && current == cuts.current
    {
      var ch := source[i];
      assert source[..i + 1] == source[..i] + [ch];
      CutSnoc(source[..i], ch);
      cuts := Cut(TOP, source[..i + 1]);
      if quoteState.quote.Some? {
        current := current + [ch];
        var _ := quoteState.ConsumeQuotedChar(ch);
        continue;
      }
      var began := quoteState.BeginQuotedSection(ch);
      if began {
        current := current + [ch];
        continue;
      }
      var bracket, next := StepBrackets(depths, ch);
      if bracket {
        depths := next;
        current := current + [ch];
        continue;
      }
      if ch == ',' && depths == Depths(0, 0, 0) {
        out := out + [Trim(current)];
        current := "";
        continue;
      }
      current := current + [ch];
    }
    assert source[..|source|] == source;
    if Trim(current) != "" {
      out := out + [Trim(current)];
    }
  }

  // ---------------------------------------------------------------- print and scan

  /** An argument that scans as a unit: trimmed, closed under both automata, no comma of its own at the top. */
  ghost predicate Safe(a: string) {
    && a != "" && Trim(a) == a
    && RunNesting(TOP, a) == TOP
    && (forall i :: 0 <= i < |a| && a[i] == ',' ==> RunNesting(TOP, a[..i]) != TOP)
    && Enclosed(a)
  }

  /** `args.join(", ")` */
  ghost function JoinArguments(args: seq<string>): string
    requires args != []
  {
    if |args| == 1 then args[0] else JoinArguments(args[..|args| - 1]) + ", " + args[|args| - 1]
  }

  lemma {:induction false} RunNestingAppend(s: Nesting, a: string, b: string)
    ensures RunNesting(s, a + b) == RunNesting(RunNesting(s, a), b)
  {
    if b == "" {
      assert a + b == a;
    } else {
      assert (a + b)[..|a + b| - 1] == a + b[..|b| - 1];
      RunNestingAppend(s, a, b[..|b| - 1]);
    }
  }

  lemma {:induction false} RunParensAppend(s: Parens, a: string, b: string)
    ensures RunParens(s, a + b) == RunParens(RunParens(s, a), b)
  {
    if b == "" {
      assert a + b == a;
    } else {
      assert (a + b)[..|a + b| - 1] == a + b[..|b| - 1];
      RunParensAppend(s, a, b[..|b| - 1]);
    }
  }

  lemma {:induction false} CutAppend(s: Nesting, a: string, b: string)
    ensures var before, after := Cut(s, a), Cut(RunNesting(s, a), b);
            Cut(s, a + b) ==
            if after.done == [] then before.(current := before.current + after.current)
            else Cuts(before.done + [before.current + after.done[0]] + after.done[1..], after.current)
  {
    if b == "" {
      assert a + b == a;
      assert Cut(s, a).current + "" == Cut(s, a).current;
    } else {
      var init, c := b[..|b| - 1], b[|b| - 1];
      assert (a + b)[..|a + b| - 1] == a + init;
      CutAppend(s, a, init);
      RunNestingAppend(s, a, init);
      CutAppendStep(Cut(s, a), Cut(RunNesting(s, a), init), c);
    }
  }

  /** Both ways of the last character agree with cutting in two steps. */
  lemma CutAppendStep(before: Cuts, after: Cuts, c: char)
    ensures var both := if after.done == [] then before.(current := before.current + after.current)
                        else Cuts(before.done + [before.current + after.done[0]] + after.done[1..], after.current);
            && Cuts(both.done + [both.current], "") ==
               Cuts(before.done + [before.current + (after.done + [after.current])[0]] + (after.done + [after.current])[1..], "")
            && (after.done == [] ==>
                  both.(current := both.current + [c]) == before.(current := before.current + (after.current + [c])))
  {
    if after.done == [] {
      assert (after.done + [after.current])[1..] == [];
      assert before.current + after.current + [c] == before.current + (after.current + [c]);
    } else {
      assert (after.done + [after.current])[1..] == after.done[1..] + [after.current];
    }
  }

  /** A text without top-level comma is one piece. */
  lemma {:induction false} CutPlain(s: Nesting, a: string)
    requires forall i :: 0 <= i < |a| && a[i] == ',' ==> RunNesting(s, a[..i]) != TOP
    ensures Cut(s, a) == Cuts([], a)
  {
    if a != "" {
      var init := a[..|a| - 1];
      forall i | 0 <= i < |init| && init[i] == ','
        ensures RunNesting(s, init[..i]) != TOP
      {
        assert init[..i] == a[..i];
      }
      CutPlain(s, init);
      assert init + [a[|a| - 1]] == a;
    }
  }

  /** A comma and a space at the top level close a piece. */
  lemma CutSeparator()
    ensures Cut(TOP, ", ") == Cuts([""], " ") && RunNesting(TOP, ", ") == TOP && RunParens(BALANCED, ", ") == BALANCED
  {
    var t := ", ";
    assert t[..1] == "," && t[..1][..0] == "" && ","[..0] == "";
    assert Cut(TOP, ",") == Cuts([""], "") && RunNesting(TOP, ",") == TOP && RunParens(BALANCED, ",") == BALANCED;
  }

  lemma TrimSpace(a: string)
    ensures Trim(" " + a) == Trim(a)
  {
    assert (" " + a)[1..] == a;
  }

  ghost predicate AllSafe(args: seq<string>) { forall i :: 0 <= i < |args| ==> Safe(args[i]) }

  /** A printed separator and one more argument add one piece. */
  lemma CutMore(text: string, last: string)
    requires RunNesting(TOP, text) == TOP && Cut(TOP, last) == Cuts([], last)
    ensures Cut(TOP, text + ", " + last) == Cuts(Cut(TOP, text).done + [Cut(TOP, text).current], " " + last)
    ensures RunNesting(TOP, text + ", " + last) == RunNesting(TOP, last)
  {
    var cuts := Cut(TOP, text);
    CutSeparator();
    RunNestingAppend(TOP, text, ", ");
    RunNestingAppend(TOP, text + ", ", last);
    CutAppend(TOP, text, ", ");
    assert cuts.current + "" == cuts.current;
    assert Cut(TOP, text + ", ") == Cuts(cuts.done + [cuts.current], " ");
    CutAppend(TOP, text + ", ", last);
  }

  lemma TrimMore(cuts: Cuts, last: string)
    requires Trim(last) == last
    ensures TrimAll(cuts.done + [cuts.current]) + [Trim(" " + last)] ==
            TrimAll(cuts.done) + [Trim(cuts.current)] + [last]
  {
    TrimSpace(last);
    var l, r := TrimAll(cuts.done + [cuts.current]), TrimAll(cuts.done) + [Trim(cuts.current)];
    assert |l| == |r|;
    forall i | 0 <= i < |l|
      ensures l[i] == r[i]
    {
    }
    assert l == r;
  }

  ghost function TrimCuts(cuts: Cuts): seq<string> {
    TrimAll(cuts.done) + [Trim(cuts.current)]
  }

  lemma SplitOne(a: string)
    requires Safe(a)
    ensures TrimCuts(Cut(TOP, a)) == [a]
  {
    CutPlain(TOP, a);
    assert TrimAll([]) == [];
  }

  lemma SplitMore(text: string, args: seq<string>, last: string)
    requires RunNesting(TOP, text) == TOP && TrimCuts(Cut(TOP, text)) == args && Safe(last)
    ensures RunNesting(TOP, text + ", " + last) == TOP
    ensures TrimCuts(Cut(TOP, text + ", " + last)) == args + [last]
  {
    CutPlain(TOP, last);
    CutMore(text, last);
    TrimMore(Cut(TOP, text), last);
  }

  /** The printed arguments are cut back into the arguments. */
  lemma {:induction false} SplitJoined(args: seq<string>)
    requires args != [] && AllSafe(args)
    ensures RunNesting(TOP, JoinArguments(args)) == TOP
    ensures TrimCuts(Cut(TOP, JoinArguments(args))) == args
  {
    var init, last := args[..|args| - 1], args[|args| - 1];
    assert args == init + [last];
    if init == [] {
      SplitOne(last);
    } else {
      SplitJoined(init);
      SplitMore(JoinArguments(init), init, last);
    }
  }

  lemma ArgumentsJoined(args: seq<string>)
    requires args != [] && AllSafe(args)
    ensures Arguments(JoinArguments(args)) == args
  {
    SplitJoined(args);
    var cuts := Cut(TOP, JoinArguments(args));
    assert TrimCuts(cuts)[|args| - 1] == Trim(cuts.current) == args[|args| - 1];
    assert Safe(args[|args| - 1]);
  }

  /** Balanced, and no parenthesis inside closes the one before the text. */
  ghost predicate Enclosed(text: string) {
    && RunParens(BALANCED, text) == BALANCED
    && forall i :: 0 <= i < |text| && text[i] == ')' ==> RunParens(BALANCED, text[..i]) != BALANCED
  }

  lemma {:induction false} ParensJoined(args: seq<string>)
    requires args != [] && AllSafe(args)
    ensures Enclosed(JoinArguments(args))
  {
    var last := args[|args| - 1];
    assert Safe(last);
    if |args| > 1 {
      var init := args[..|args| - 1];
      ParensJoined(init);
      var text := JoinArguments(init);
      CutSeparator();
      assert Enclosed(", ");
      ParensAppend(text, ", ");
      ParensAppend(text + ", ", last);
    }
  }

  lemma ParensAppend(a: string, b: string)
    requires Enclosed(a) && Enclosed(b)
    ensures Enclosed(a + b)
  {
    RunParensAppend(BALANCED, a, b);
    forall i | 0 <= i < |a + b| && (a + b)[i] == ')'
      ensures RunParens(BALANCED, (a + b)[..i]) != BALANCED
    {
      if i < |a| {
        assert (a + b)[..i] == a[..i];
      } else {
        assert (a + b)[..i] == a + b[..i - |a|];
        RunParensAppend(BALANCED, a, b[..i - |a|]);
      }
    }
  }

  /** Behind an opening parenthesis, an enclosed text is followed by the parenthesis that matches. */
  lemma EnclosedCloses(source: string, prefix: string, text: string, suffix: string)
    requires Enclosed(text) && source == prefix + "(" + text + ")" + suffix
    ensures |prefix| + 1 + |text| < |source| && source[|prefix| + 1..|prefix| + 1 + |text|] == text
    ensures FirstClose(source, |prefix|, |prefix| + 1 + |text|)
  {
    var close := |prefix| + 1 + |text|;
    assert source[|prefix| + 1..close] == text;
    forall j | |prefix| < j < close
      ensures !Closes(source, |prefix|, j)
    {
      assert source[|prefix| + 1..j] == text[..j - |prefix| - 1];
      assert source[j] == text[j - |prefix| - 1];
    }
  }

  /**
   * Print and scan: printed between parentheses after any prefix and before any suffix, safe arguments are
   * found and split back exactly.
   */
  method RoundTrip(prefix: string, args: seq<string>, suffix: string) returns (close: int, out: seq<string>)
    requires args != [] && AllSafe(args)
    ensures close == |prefix| + 1 + |JoinArguments(args)| && out == args
  {
    var text := Print(args);
    ParensJoined(args);
    ArgumentsJoined(args);
    close, out := Rescan(prefix, text, suffix);
  }

  /** An enclosed text is found behind any prefix and split as it is on its own. */
  method Rescan(prefix: string, text: string, suffix: string) returns (close: int, out: seq<string>)
    requires Enclosed(text)
    ensures close == |prefix| + 1 + |text| && out == Arguments(text)
  {
    var source := prefix + "(" + text + ")" + suffix;
    EnclosedCloses(source, prefix, text, suffix);
    close := FindMatchingParen(source, |prefix|);
    FirstCloseUnique(source, |prefix|, close, |prefix| + 1 + |text|);
    out := SplitTopLevelArguments(source[|prefix| + 1..close]);
  }

  method Print(args: seq<string>) returns (text: string)
    requires args != []
    ensures text == JoinArguments(args)
  {
    text := args[0];
    for i := 1 to |args|
      invariant text == JoinArguments(args[..i])
    {
      assert args[..i + 1][..i] == args[..i];
      text := text + ", " + args[i];
    }
    assert args[..|args|] == args;
  }

  // ---------------------------------------------------------------- safety is needed

  /** The text `a` survives being printed in front of another argument. */
  ghost predicate Survives(a: string) {
    Arguments(a + ", x") == [a, "x"] && Enclosed(a + ", x")
  }

  /** An argument survives next to others exactly when it is safe. */
  lemma SurvivesIff(a: string)
    requires a != "" && Trim(a) == a
    ensures Survives(a) <==> Safe(a)
  {
    if Safe(a) {
      SafeSurvives(a);
    }
    if Survives(a) {
      SurvivorIsEnclosed(a);
      SurvivorIsWhole(a);
    }
  }

  lemma SafeSurvives(a: string)
    requires Safe(a)
    ensures Survives(a)
  {
    assert "x"[..0] == "" && Safe("x");
    var args := [a, "x"];
    assert args[..1] == [a];
    assert JoinArguments(args) == a + ", " + "x" == a + ", x";
    ArgumentsJoined(args);
    ParensJoined(args);
  }

  lemma {:induction false} QuoteChars(a: string)
    ensures RunParens(BALANCED, a).quote.Inside? ==> IsQuote(RunParens(BALANCED, a).quote.quote)
  {
    if a != "" {
      QuoteChars(a[..|a| - 1]);
    }
  }

  /** Neither the separator nor the next argument can repair what `a` left open. */
  lemma ParensTail(p: Parens)
    requires p.quote.Inside? ==> IsQuote(p.quote.quote)
    ensures RunParens(p, ", x") == BALANCED ==> p == BALANCED
  {
    var t := ", x";
    assert t[..2] == ", " && t[..2][..1] == "," && ","[..0] == "";
    assert RunParens(p, "") == p;
    assert RunParens(p, ",") == NextParens(p, ',');
    assert RunParens(p, ", ") == NextParens(NextParens(p, ','), ' ');
    assert RunParens(p, t) == NextParens(RunParens(p, ", "), 'x');
    assert RunParens(p, t).depth == p.depth;
    assert p.quote.Inside? ==> RunParens(p, t).quote.Inside?;
  }

  lemma SurvivorIsEnclosed(a: string)
    requires Survives(a)
    ensures Enclosed(a)
  {
    var text := a + ", x";
    RunParensAppend(BALANCED, a, ", x");
    QuoteChars(a);
    ParensTail(RunParens(BALANCED, a));
    forall i | 0 <= i < |a| && a[i] == ')'
      ensures RunParens(BALANCED, a[..i]) != BALANCED
    {
      assert text[i] == ')' && text[..i] == a[..i];
    }
  }

  /** A character other than a comma joins the last piece. */
  lemma CutOther(s: Nesting, text: string, c: char)
    requires c != ','
    ensures Cut(s, text + [c]) == Cuts(Cut(s, text).done, Cut(s, text).current + [c])
  {
    assert (text + [c])[..|text|] == text;
  }

  lemma CutFirst(s: Nesting)
    ensures Cut(s, ",") == if s == TOP then Cuts([""], "") else Cuts([], ",")
  {
    assert ","[..0] == "";
  }

  lemma CutTail(s: Nesting)
    ensures Cut(s, ", x") == (if s == TOP then Cuts([""], " x") else Cuts([], ", x"))
  {
    CutFirst(s);
    CutOther(s, ",", ' ');
    CutOther(s, ", ", 'x');
    assert "," + [' '] == ", " && ", " + ['x'] == ", x" && "" + [' '] == " " && " " + ['x'] == " x";
  }

  /** Text that keeps a comma before its last letter is not trimmed to that letter. */
  lemma {:induction false} TrimKeepsComma(s: string)
    ensures Trim(s + ", x") != "x" && |Trim(s + ", x")| > 1
  {
    var t := s + ", x";
    assert t[|t| - 1] == 'x';
    if s != "" {
      assert t[1..] == s[1..] + ", x";
      TrimKeepsComma(s[1..]);
    }
  }

  /** A top-level comma in the text leaves a finished piece behind. */
  lemma CutComma(a: string, i: nat)
    requires i < |a| && a[i] == ',' && RunNesting(TOP, a[..i]) == TOP
    ensures Cut(TOP, a).done != []
  {
    var head := a[..i + 1];
    assert head[..i] == a[..i];
    assert Cut(TOP, head).done != [];
    assert a == head + a[i + 1..];
    CutAppend(TOP, head, a[i + 1..]);
  }

  /** What is left of the printed text behind `a` once it is cut. */
  lemma CutBehind(a: string)
    ensures Cut(TOP, a + ", x") ==
            var cuts := Cut(TOP, a);
            if RunNesting(TOP, a) == TOP then Cuts(cuts.done + [cuts.current], " x") else cuts.(current := cuts.current + ", x")
  {
    CutAppend(TOP, a, ", x");
    CutTail(RunNesting(TOP, a));
    assert Cut(TOP, a).current + "" == Cut(TOP, a).current;
  }

  lemma SurvivorIsWhole(a: string)
    requires Survives(a)
    ensures RunNesting(TOP, a) == TOP
    ensures forall i :: 0 <= i < |a| && a[i] == ',' ==> RunNesting(TOP, a[..i]) != TOP
  {
    var cuts, all := Cut(TOP, a), Cut(TOP, a + ", x");
    CutBehind(a);
    TrimKeepsComma(cuts.current);
    TrimSpace("x");
    assert Trim(all.current) != "";
    assert Arguments(a + ", x") == TrimAll(all.done) + [Trim(all.current)];
    assert [a, "x"][1] == "x" == Trim(all.current);
    assert |all.done| == 1;
    forall i | 0 <= i < |a| && a[i] == ','
      ensures RunNesting(TOP, a[..i]) != TOP
    {
      if RunNesting(TOP, a[..i]) == TOP {
        CutComma(a, i);
      }
    }
  }
}
