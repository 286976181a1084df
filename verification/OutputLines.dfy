/** Incremental line splitting of two output streams: `collectOutputLines` and `flushOutputLineBuffers`. */
module OutputLines {
  import opened Common

  /** `text.split(/\r?\n/u)` */
  function Split(s: string): (parts: seq<string>)
    ensures |parts| >= 1
  {
    if s == "" then [""]
    else if s[0] == '\n' then [""] + Split(s[1..])
    else if |s| >= 2 && s[0] == '\r' && s[1] == '\n' then [""] + Split(s[2..])
    else
      var parts := Split(s[1..]);
      [[s[0]] + parts[0]] + parts[1..]
  }

  /** `collectOutputLines`: the lines and the carry cut the text. */
  function CollectOutputLines(carry: string, chunk: string): (r: (seq<string>, string))
    ensures Cuts(carry + chunk, r.0 + [r.1])
  {
    SplitCuts(carry + chunk);
    var parts := Split(carry + chunk);
    assert parts[..|parts| - 1] + [parts[|parts| - 1]] == parts;
    (parts[..|parts| - 1], parts[|parts| - 1])
  }

  // ---------------------------------------------------------------- what splitting means

  /**
   * `parts` are the lines of `s` and its unfinished rest: every line is ended by a line feed, together with
   * the carriage return before it if there is one, and no part contains a line feed.
   */
  ghost predicate Cuts(s: string, parts: seq<string>)
    decreases |parts|
  {
    && parts != [] && '\n' !in parts[0]
    && if |parts| == 1 then s == parts[0]
       else
         var line := parts[0];
         || (line + "\r\n" <= s && Cuts(s[|line| + 2..], parts[1..]))
         || (line + "\n" <= s && (line == "" || line[|line| - 1] != '\r') && Cuts(s[|line| + 1..], parts[1..]))
  }

  lemma {:induction false} SplitCuts(s: string)
    ensures Cuts(s, Split(s))
  {
    var parts := Split(s);
    if s == "" {
    } else if s[0] == '\n' {
      SplitCuts(s[1..]);
      assert parts[1..] == Split(s[1..]);
      assert "" + "\n" <= s && s[0 + 1..] == s[1..];
    } else if |s| >= 2 && s[0] == '\r' && s[1] == '\n' {
      SplitCuts(s[2..]);
      assert parts[1..] == Split(s[2..]);
      assert "" + "\r\n" <= s;
    } else {
      SplitCuts(s[1..]);
      PushChar(s[0], s[1..], Split(s[1..]));
      assert [s[0]] + s[1..] == s;
    }
  }

  /** A character in front of a text goes to its first line, unless it completes a line ending. */
  lemma PushChar(c: char, s: string, parts: seq<string>)
    requires Cuts(s, parts) && c != '\n' && !(c == '\r' && s != "" && s[0] == '\n')
    ensures Cuts([c] + s, [[c] + parts[0]] + parts[1..])
  {
    var line, longer := parts[0], [c] + parts[0];
    var t, q := [c] + s, [[c] + parts[0]] + parts[1..];
    assert q[1..] == parts[1..];
    assert '\n' !in longer;
    if |parts| > 1 {
      PushEnding(c, line, s);
      if line + "\r\n" <= s && Cuts(s[|line| + 2..], parts[1..]) {
        assert longer + "\r\n" <= t;
      } else {
        assert line == "" ==> s[0] == '\n';
        assert longer + "\n" <= t && longer[|longer| - 1] != '\r';
      }
    }
  }

  lemma PushEnding(c: char, line: string, s: string)
    ensures line + "\r\n" <= s ==> [c] + line + "\r\n" <= [c] + s && ([c] + s)[|[c] + line| + 2..] == s[|line| + 2..]
    ensures line + "\n" <= s ==> [c] + line + "\n" <= [c] + s && ([c] + s)[|[c] + line| + 1..] == s[|line| + 1..]
    ensures ([c] + line)[|line|] == if line == "" then c else line[|line| - 1]
  {
    assert [c] + line + "\r\n" == [c] + (line + "\r\n");
    assert [c] + line + "\n" == [c] + (line + "\n");
  }

  /** There is only one way to cut a text into lines. */
  lemma {:induction false} CutsUnique(s: string, p: seq<string>, q: seq<string>)
    requires Cuts(s, p) && Cuts(s, q)
    ensures p == q
    decreases |p|
  {
    FirstFeed(s, p);
    FirstFeed(s, q);
    if |p| > 1 {
      assert '\n' in s;
      var n := |p[0]|;
      assert p[0] == q[0];
      if p[0] + "\r\n" <= s && Cuts(s[n + 2..], p[1..]) {
        assert s[n] == '\r' && s[n + 1] == '\n';
        assert !(q[0] + "\n" <= s);
        CutsUnique(s[n + 2..], p[1..], q[1..]);
      } else {
        assert s[n] == '\n';
        assert !(q[0] + "\r\n" <= s);
        CutsUnique(s[n + 1..], p[1..], q[1..]);
      }
      assert p == [p[0]] + p[1..] && q == [q[0]] + q[1..];
    }
  }

  /** The position of the first line feed, or the length of the text. */
  ghost function Feed(s: string): (n: nat)
    ensures n <= |s| && '\n' !in s[..n] && (n < |s| ==> s[n] == '\n')
  {
    if s == "" then 0
    else if s[0] == '\n' then 0
    else
      assert s == [s[0]] + s[1..];
      var n := Feed(s[1..]);
      assert s[..n + 1] == [s[0]] + s[1..][..n];
      n + 1
  }

  /** The first line feed determines the first line. */
  lemma FirstFeed(s: string, parts: seq<string>)
    requires Cuts(s, parts)
    ensures |parts| > 1 <==> '\n' in s
    ensures '\n' in s ==>
              var n := Feed(s);
              parts[0] == if n > 0 && s[n - 1] == '\r' then s[..n - 1] else s[..n]
  {
    var n := Feed(s);
    var line := parts[0];
    if |parts| > 1 {
      if line + "\r\n" <= s && Cuts(s[|line| + 2..], parts[1..]) {
        assert s[|line|] == '\r' && s[|line| + 1] == '\n' && s[..|line|] == line;
        FeedAt(s, |line| + 1);
      } else {
        assert s[|line|] == '\n' && s[..|line|] == line;
        FeedAt(s, |line|);
      }
    }
  }

  lemma FeedAt(s: string, n: nat)
    requires n < |s| && s[n] == '\n' && forall i :: 0 <= i < n ==> s[i] != '\n'
    ensures Feed(s) == n
  {
    var m := Feed(s);
    assert forall i :: 0 <= i < m ==> s[..m][i] == s[i] && s[..m][i] in s[..m];
  }

  // ---------------------------------------------------------------- chunking does not matter

  /** A list of parts continued: its last part is split again together with more text. */
  ghost function Continue(parts: seq<string>, b: string): seq<string>
    requires parts != []
  {
    parts[..|parts| - 1] + Split(parts[|parts| - 1] + b)
  }

  lemma ContinueTail(head: string, rest: seq<string>, b: string)
    requires rest != []
    ensures Continue([head] + rest, b) == [head] + Continue(rest, b)
  {
    assert ([head] + rest)[..|rest|] == [head] + rest[..|rest| - 1];
  }

  /** Splitting a text in two steps: the unfinished rest of the first part is split with the second. */
  lemma {:induction false} SplitAppend(a: string, b: string)
    ensures Split(a + b) == Continue(Split(a), b)
    decreases |a|
  {
    if |Split(a)| == 1 {
      SplitCuts(a);
      assert Split(a)[..0] == [];
    } else if a[0] == '\n' {
      SplitAppend(a[1..], b);
      SplitAppendFeed(a, b, 1);
    } else if |a| >= 2 && a[0] == '\r' && a[1] == '\n' {
      SplitAppend(a[2..], b);
      SplitAppendFeed(a, b, 2);
    } else {
      SplitAppend(a[1..], b);
      SplitAppendPlain(a, b);
    }
  }

  /** A line feed of `n` characters, with or without carriage return, ends the first line. */
  ghost predicate FeedFirst(a: string, n: nat) {
    n <= |a| && ((n == 1 && a[0] == '\n') || (n == 2 && a[0] == '\r' && a[1] == '\n'))
  }

  lemma SplitFeed(a: string, n: nat)
    requires FeedFirst(a, n)
    ensures Split(a) == [""] + Split(a[n..])
  {
  }

  lemma SplitAppendFeed(a: string, b: string, n: nat)
    requires FeedFirst(a, n)
    requires Split(a[n..] + b) == Continue(Split(a[n..]), b)
    ensures Split(a + b) == Continue(Split(a), b)
  {
    assert (a + b)[n..] == a[n..] + b;
    assert FeedFirst(a + b, n);
    SplitFeed(a, n);
    SplitFeed(a + b, n);
    ContinueTail("", Split(a[n..]), b);
  }

  lemma SplitAppendPlain(a: string, b: string)
    requires |a| >= 2 && a[0] != '\n' && !(a[0] == '\r' && a[1] == '\n')
    requires Split(a[1..] + b) == Continue(Split(a[1..]), b) && |Split(a[1..])| > 1
    ensures Split(a + b) == Continue(Split(a), b)
  {
    var rest := Split(a[1..]);
    assert (a + b)[1..] == a[1..] + b;
    assert rest == [rest[0]] + rest[1..];
    ContinueTail(rest[0], rest[1..], b);
    ContinueTail([a[0]] + rest[0], rest[1..], b);
    var all := Continue(rest, b);
    assert all[0] == rest[0] && all[1..] == Continue(rest[1..], b);
  }

  /** Feed the chunks one after the other: all lines, and the final carry. */
  ghost function FeedAll(chunks: seq<string>): (seq<string>, string) {
    if chunks == [] then ([], "")
    else
      var (lines, carry) := FeedAll(chunks[..|chunks| - 1]);
      var (more, rest) := CollectOutputLines(carry, chunks[|chunks| - 1]);
      (lines + more, rest)
  }

  /** However a text is cut into chunks, even between \r and \n, all lines and the last carry cut the whole text. */
  lemma {:induction false} ChunkingDoesNotMatter(chunks: seq<string>)
    ensures Cuts(Concat(chunks), FeedAll(chunks).0 + [FeedAll(chunks).1])
  {
    if chunks != [] {
      var init, last := chunks[..|chunks| - 1], chunks[|chunks| - 1];
      var (lines, carry) := FeedAll(init);
      ChunkingDoesNotMatter(init);
      OneMoreChunk(Concat(init), lines, carry, last);
    }
  }

  /** Lines that cut a text with a carry, and those of the carry and one more chunk, cut the longer text. */
  lemma OneMoreChunk(text: string, lines: seq<string>, carry: string, chunk: string)
    requires Cuts(text, lines + [carry])
    ensures var (more, rest) := CollectOutputLines(carry, chunk);
            Cuts(text + chunk, lines + more + [rest])
  {
    var (more, rest) := CollectOutputLines(carry, chunk);
    SplitCuts(text);
    CutsUnique(text, Split(text), lines + [carry]);
    SplitCuts(carry + chunk);
    CutsUnique(carry + chunk, Split(carry + chunk), more + [rest]);
    SplitAppend(text, chunk);
    SplitCuts(text + chunk);
    assert Split(text)[..|lines|] == lines;
    assert lines + (more + [rest]) == lines + more + [rest];
  }

  // ---------------------------------------------------------------- the two buffers

  datatype Stream = Stdout | Stderr

  /** What happens to the buffers: a chunk arrives, or the buffers are flushed. */
  datatype Event = Chunk(stream: Stream, text: string) | Flush(partial: bool)

  ghost function LinesOf(log: seq<(Stream, string)>, stream: Stream): seq<string> {
    if log == [] then []
    else LinesOf(log[..|log| - 1], stream) + if log[|log| - 1].0 == stream then [log[|log| - 1].1] else []
  }

  lemma {:induction false} LinesOfAppend(a: seq<(Stream, string)>, b: seq<(Stream, string)>, stream: Stream)
    ensures LinesOf(a + b, stream) == LinesOf(a, stream) + LinesOf(b, stream)
  {
    if b == [] {
      assert a + b == a;
    } else {
      assert (a + b)[..|a + b| - 1] == a + b[..|b| - 1];
      LinesOfAppend(a, b[..|b| - 1], stream);
    }
  }

  /** The only cut of a text. */
  ghost function CutOf(text: string): (parts: seq<string>)
    ensures Cuts(text, parts)
  {
    SplitCuts(text);
    Split(text)
  }

  /** The lines of a text and its rest, if there is one: what a partial flush has handed on in the end. */
  ghost function Flushed(text: string): seq<string> {
    var parts := CutOf(text);
    if parts[|parts| - 1] == "" then parts[..|parts| - 1] else parts
  }

  /** The lines of the texts that were flushed, and the text received since. */
  datatype Received = Received(flushed: seq<string>, text: string)

  ghost function ReceivedBy(trace: seq<Event>, stream: Stream): Received {
    if trace == [] then Received([], "")
    else
      var before := ReceivedBy(trace[..|trace| - 1], stream);
      match trace[|trace| - 1]
      case Chunk(s, text) => if s == stream then before.(text := before.text + text) else before
      case Flush(partial) =>
        if !partial then before
        else Received(before.flushed + Flushed(before.text), "")
  }

  /**
   * One stream has emitted what was flushed before, and then the lines of its own text: together with the
   * buffer they cut it.
   */
  ghost predicate StreamOk(trace: seq<Event>, log: seq<(Stream, string)>, stream: Stream, buffer: string) {
    Emitted(ReceivedBy(trace, stream), LinesOf(log, stream), buffer)
  }

  ghost predicate Emitted(r: Received, lines: seq<string>, buffer: string) {
    r.flushed <= lines && Cuts(r.text, lines[|r.flushed|..] + [buffer])
  }

  /** One more chunk of the stream. */
  lemma EmittedMore(r: Received, lines: seq<string>, buffer: string, text: string)
    requires Emitted(r, lines, buffer)
    ensures var parsed := CollectOutputLines(buffer, text);
            Emitted(r.(text := r.text + text), lines + parsed.0, parsed.1)
  {
    var parsed := CollectOutputLines(buffer, text);
    OneMoreChunk(r.text, lines[|r.flushed|..], buffer, text);
    assert (lines + parsed.0)[|r.flushed|..] == lines[|r.flushed|..] + parsed.0;
  }

  /** A partial flush. */
  lemma EmittedFlush(r: Received, lines: seq<string>, buffer: string)
    requires Emitted(r, lines, buffer)
    ensures Emitted(Received(r.flushed + Flushed(r.text), ""), lines + if buffer == "" then [] else [buffer], "")
  {
    var since := lines[|r.flushed|..];
    CutsUnique(r.text, CutOf(r.text), since + [buffer]);
    assert lines == r.flushed + since;
    var all := lines + if buffer == "" then [] else [buffer];
    assert all == r.flushed + Flushed(r.text);
    assert all[|all|..] + [""] == [""];
  }

  ghost predicate BothOk(trace: seq<Event>, log: seq<(Stream, string)>, stdout: string, stderr: string) {
    StreamOk(trace, log, Stdout, stdout) && StreamOk(trace, log, Stderr, stderr)
  }

  /** The line buffers of a child and the lines handed on so far. */
  class OutputBuffers {
    var stdout: string
    var stderr: string
    var log: seq<(Stream, string)>
    ghost var trace: seq<Event>

    /** Whatever the chunks and however the two streams interleave, each stream is split by itself. */
    ghost predicate Valid()
      reads this
    {
      BothOk(trace, log, stdout, stderr)
    }

    constructor ()
      ensures Valid() && trace == [] && log == []
    {
      stdout, stderr, log, trace := "", "", [], [];
      assert [] + [""] == [""];
    }

    /** `onChunk` */
    method OnChunk(stream: Stream, text: string)
      requires Valid()
      modifies this
      ensures Valid() && trace == old(trace) + [Chunk(stream, text)] && old(log) <= log
    {
      ChunkDone(trace, log, stream, text, stdout, stderr);
      if stream == Stdout {
        var parsed := CollectOutputLines(stdout, text);
        stdout := parsed.1;
        HandOn(Stdout, parsed.0);
      } else {
        var parsed := CollectOutputLines(stderr, text);
        stderr := parsed.1;
        HandOn(Stderr, parsed.0);
      }
      trace := trace + [Chunk(stream, text)];
    }

    /** Call `onLine` for every line. */
    method HandOn(stream: Stream, lines: seq<string>)
      modifies this`log
      ensures log == old(log) + Tagged(stream, lines)
    {
      for i := 0 to |lines|
        invariant log == old(log) + Tagged(stream, lines[..i])
      {
        assert Tagged(stream, lines[..i + 1]) == Tagged(stream, lines[..i]) + [(stream, lines[i])];
        log := log + [(stream, lines[i])];
      }
      assert lines[..|lines|] == lines;
    }

    /** `flushOutputLineBuffers`: a partial flush hands on what is left, stdout first. */
    method FlushBuffers(flushPartial: bool)
      requires Valid()
      modifies this
      ensures Valid() && trace == old(trace) + [Flush(flushPartial)]
      ensures log == if !flushPartial then old(log)
                     else old(log) + Leftover(Stdout, old(stdout)) + Leftover(Stderr, old(stderr))
      ensures flushPartial ==> stdout == "" && stderr == ""
    {
      FlushBoth(trace, log, stdout, stderr);
      trace := trace + [Flush(flushPartial)];
      if !flushPartial {
        return;
      }
      FlushStream(Stdout);
      FlushStream(Stderr);
    }

    /** The loop body for one stream. */
    method FlushStream(stream: Stream)
      modifies this`stdout, this`stderr, this`log
      ensures log == old(log) + Leftover(stream, if stream == Stdout then old(stdout) else old(stderr))
      ensures stdout == if stream == Stdout then "" else old(stdout)
      ensures stderr == if stream == Stderr then "" else old(stderr)
    {
      var line := if stream == Stdout then stdout else stderr;
      if line == "" {
        return;
      }
      if stream == Stdout {
        stdout := "";
      } else {
        stderr := "";
      }
      log := log + [(stream, line)];
    }
  }

  ghost function Leftover(stream: Stream, rest: string): seq<(Stream, string)> {
    if rest == "" then [] else [(stream, rest)]
  }

  ghost function Tagged(stream: Stream, lines: seq<string>): seq<(Stream, string)> {
    seq(|lines|, i requires 0 <= i < |lines| => (stream, lines[i]))
  }

  lemma {:induction false} TaggedLines(stream: Stream, lines: seq<string>, other: Stream)
    ensures LinesOf(Tagged(stream, lines), other) == if other == stream then lines else []
  {
    if lines != [] {
      var init := lines[..|lines| - 1];
      TaggedLines(stream, init, other);
      assert Tagged(stream, lines)[..|lines| - 1] == Tagged(stream, init);
      assert lines == init + [lines[|lines| - 1]];
    }
  }

  /** A chunk adds the lines it completes to its own stream and leaves the other stream alone. */
  lemma ChunkDone(trace: seq<Event>, log: seq<(Stream, string)>, stream: Stream, text: string, stdout: string, stderr: string)
    requires StreamOk(trace, log, Stdout, stdout) && StreamOk(trace, log, Stderr, stderr)
    ensures stream == Stdout ==>
              var parsed := CollectOutputLines(stdout, text);
              && StreamOk(trace + [Chunk(Stdout, text)], log + Tagged(Stdout, parsed.0), Stdout, parsed.1)
              && StreamOk(trace + [Chunk(Stdout, text)], log + Tagged(Stdout, parsed.0), Stderr, stderr)
    ensures stream == Stderr ==>
              var parsed := CollectOutputLines(stderr, text);
              && StreamOk(trace + [Chunk(Stderr, text)], log + Tagged(Stderr, parsed.0), Stdout, stdout)
              && StreamOk(trace + [Chunk(Stderr, text)], log + Tagged(Stderr, parsed.0), Stderr, parsed.1)
  {
    ChunkStream(trace, log, stream, text, Stdout, stdout, if stream == Stdout then stdout else stderr);
    ChunkStream(trace, log, stream, text, Stderr, stderr, if stream == Stdout then stdout else stderr);
  }

  lemma ChunkStream(trace: seq<Event>, log: seq<(Stream, string)>, stream: Stream, text: string, other: Stream, buffer: string, own: string)
    requires StreamOk(trace, log, other, buffer) && (other == stream ==> own == buffer)
    ensures var parsed := CollectOutputLines(own, text);
            StreamOk(trace + [Chunk(stream, text)], log + Tagged(stream, parsed.0), other, if other == stream then parsed.1 else buffer)
  {
    var lines := CollectOutputLines(own, text).0;
    var before := ReceivedBy(trace, other);
    assert ReceivedBy(trace + [Chunk(stream, text)], other) ==
           if other == stream then before.(text := before.text + text) else before by {
      assert (trace + [Chunk(stream, text)])[..|trace|] == trace;
    }
    assert LinesOf(log + Tagged(stream, lines), other) == if other == stream then LinesOf(log, other) + lines else LinesOf(log, other) by {
      LinesOfAppend(log, Tagged(stream, lines), other);
      TaggedLines(stream, lines, other);
    }
    if other == stream {
      EmittedMore(before, LinesOf(log, other), buffer, text);
    }
  }

  lemma LeftoverLines(stream: Stream, rest: string, other: Stream)
    ensures LinesOf(Leftover(stream, rest), other) == if other == stream && rest != "" then [rest] else []
  {
    if rest != "" {
      assert [(stream, rest)][..0] == [];
    }
  }

  lemma FlushLines(log: seq<(Stream, string)>, stream: Stream, stdout: string, stderr: string)
    ensures var buffer := if stream == Stdout then stdout else stderr;
            LinesOf(log + Leftover(Stdout, stdout) + Leftover(Stderr, stderr), stream) ==
            LinesOf(log, stream) + if buffer == "" then [] else [buffer]
  {
    LinesOfAppend(log, Leftover(Stdout, stdout), stream);
    LinesOfAppend(log + Leftover(Stdout, stdout), Leftover(Stderr, stderr), stream);
    LeftoverLines(Stdout, stdout, stream);
    LeftoverLines(Stderr, stderr, stream);
  }

  /** What either kind of flush leaves behind. */
  lemma FlushBoth(trace: seq<Event>, log: seq<(Stream, string)>, stdout: string, stderr: string)
    requires BothOk(trace, log, stdout, stderr)
    ensures BothOk(trace + [Flush(false)], log, stdout, stderr)
    ensures BothOk(trace + [Flush(true)], log + Leftover(Stdout, stdout) + Leftover(Stderr, stderr), "", "")
  {
    FlushNothing(trace, log, Stdout, stdout);
    FlushNothing(trace, log, Stderr, stderr);
    FlushDone(trace, log, Stdout, stdout, stdout, stderr);
    FlushDone(trace, log, Stderr, stderr, stdout, stderr);
  }

  lemma FlushNothing(trace: seq<Event>, log: seq<(Stream, string)>, stream: Stream, buffer: string)
    requires StreamOk(trace, log, stream, buffer)
    ensures StreamOk(trace + [Flush(false)], log, stream, buffer)
  {
    assert (trace + [Flush(false)])[..|trace|] == trace;
  }

  lemma FlushDone(trace: seq<Event>, log: seq<(Stream, string)>, stream: Stream, buffer: string, stdout: string, stderr: string)
    requires StreamOk(trace, log, stream, buffer) && buffer == (if stream == Stdout then stdout else stderr)
    ensures StreamOk(trace + [Flush(true)], log + Leftover(Stdout, stdout) + Leftover(Stderr, stderr), stream, "")
  {
    assert (trace + [Flush(true)])[..|trace|] == trace;
    FlushLines(log, stream, stdout, stderr);
    EmittedFlush(ReceivedBy(trace, stream), LinesOf(log, stream), buffer);
  }
}
