/** The stream that stands in for stdout and stderr: it buffers what is written to it, and
    logs whole lines. */
module StreamLogger {
  // ---------------------------------------------------------------- strings

  predicate IsBreak(c: char) { c == '\r' || c == '\n' }

  predicate IsSpace(c: char) { IsBreak(c) || c == ' ' || c == '\t' || c == 11 as char || c == 12 as char }

  predicate Plain(s: string) { forall i :: 0 <= i < |s| ==> !IsBreak(s[i]) }

  function RStrip(s: string): string {
    if s != "" && IsSpace(s[|s| - 1]) then RStrip(s[..|s| - 1]) else s
  }

  /** How far `s` goes without a break. */
  function PlainLength(s: string): (n: nat)
    ensures n <= |s| && (n < |s| ==> IsBreak(s[n]))
    ensures forall i :: 0 <= i < n ==> !IsBreak(s[i])
  {
    if s == "" || IsBreak(s[0]) then 0 else 1 + PlainLength(s[1..])
  }

  /** An `\r` and the `\n` after it are one break. */
  function BreakLength(s: string, n: nat): (m: nat)
    requires n < |s| ==> IsBreak(s[n])
    ensures n <= |s| ==> n + m <= |s| && (n < |s| ==> m > 0)
  {
    if n >= |s| then 0 else if s[n] == '\r' && n + 1 < |s| && s[n + 1] == '\n' then 2 else 1
  }

  /** The end of the first line of `s`. */
  function LineEnd(s: string): (n: nat)
    requires s != ""
    ensures 0 < n <= |s|
  {
    PlainLength(s) + BreakLength(s, PlainLength(s))
  }

  /** `splitlines(True)`. */
  function SplitLines(s: string): seq<string> {
    if s == "" then [] else [s[..LineEnd(s)]] + SplitLines(s[LineEnd(s)..])
  }

  function Join(parts: seq<string>): string { if parts == [] then "" else parts[0] + Join(parts[1..]) }

  // ---------------------------------------------------------------- what is logged

  /** What a line adds to the log: nothing when it is blank. */
  function Shown(tag: string, line: string): seq<string> {
    var s := RStrip(line);
    if s == "" then [] else if tag != "" then ["[" + tag + "] " + s] else [s]
  }

  datatype Stream = Stream(buf: string, log: seq<string>)

  /** One character at a time: a break of either kind ends the line. */
  function Feed(tag: string, st: Stream, s: string): Stream
    decreases |s|
  {
    if s == "" then st
    else if IsBreak(s[0]) then Feed(tag, Stream("", st.log + Shown(tag, st.buf)), s[1..])
    else Feed(tag, Stream(st.buf + [s[0]], st.log), s[1..])
  }

  function Flushed(tag: string, st: Stream): Stream { Stream("", st.log + Shown(tag, st.buf)) }

  class StreamLogger {
    const tag: string
    var buf: string
    var log: seq<string>

    function Value(): Stream
      reads this
    {
      Stream(buf, log)
    }

    predicate Valid()
      reads this
    {
      Plain(buf)
    }

    constructor (tag: string)
      ensures Valid() && Value() == Stream("", []) && this.tag == tag
    {
      this.tag, buf, log := tag, "", [];
    }

    method Writeln(line: string)
      modifies this`log
      ensures log == old(log) + Shown(tag, line)
    {
      var s := RStrip(line);
      if s == "" {
        return;
      }
      if tag != "" {
        s := "[" + tag + "] " + s;
      }
      log := log + [s];
    }

    method Write(chunk: string)
      requires Valid()
      modifies this
      ensures Valid() && Value() == Feed(tag, old(Value()), chunk)
    {
      hide LineEnd, BreakLength;
      var text := buf + chunk;
      FeedPlain(tag, Stream("", log), buf, chunk);
      buf := "";
      var lines := SplitLines(text);
      SplitLinesSound(text);
      hide Feed, IsLine, Shown, SplitLines, PlainLength, RStrip, IsBreakText;
      assert "" + old(buf) == old(buf) && lines[0..] == lines;
      for n := 0 to |lines|
        invariant buf == "" || n == |lines|
        invariant Plain(buf)
        invariant Feed(tag, old(Value()), chunk) == Feed(tag, Value(), Join(lines[n..]))
      {
        var line := lines[n];
        assert lines[n..] == [line] + lines[n + 1..];
        EndsInBreak(line, n == |lines| - 1);
        if !(line[|line| - 1] == '\r') && !(line[|line| - 1] == '\n') {
          FeedPlain(tag, Value(), line, "");
          assert Join(lines[n..]) == line + "" == line;
          buf := buf + line;
        } else {
          FeedLine(tag, log, line, Join(lines[n + 1..]));
          Writeln(line);
        }
      }
    }

    method Flush()
      requires Valid()
      modifies this
      ensures Valid() && Value() == Flushed(tag, old(Value()))
    {
      Writeln(buf);
      buf := "";
    }

    method Close()
      requires Valid()
      modifies this
      ensures Valid() && Value() == Flushed(tag, old(Value()))
    {
      Flush();
    }
  }

  // ---------------------------------------------------------------- lines and characters

  predicate IsBreakText(s: string) { s == "\r" || s == "\n" || s == "\r\n" }

  /** Text without a break, then one break; only the last line may lack it. */
  predicate IsLine(line: string, last: bool) {
    var n := PlainLength(line);
    line != "" && (IsBreakText(line[n..]) || (last && n == |line|))
  }

  lemma {:induction false} PrefixLength(s: string, end: nat)
    requires PlainLength(s) <= end <= |s|
    ensures PlainLength(s[..end]) == PlainLength(s)
  {
    if PlainLength(s) > 0 {
      PrefixLength(s[1..], end - 1);
      assert s[..end][1..] == s[1..][..end - 1];
    }
  }

  lemma FirstLine(s: string)
    requires s != ""
    ensures IsLine(s[..LineEnd(s)], LineEnd(s) == |s|)
  {
    var n := PlainLength(s);
    PrefixLength(s, LineEnd(s));
    var brk := s[..LineEnd(s)][n..];
    assert |brk| == BreakLength(s, n);
    hide PlainLength;
    assert |brk| == 2 ==> brk == "\r\n";
    assert |brk| == 1 ==> brk[0] == s[n];
  }

  ghost predicate AreLines(lines: seq<string>) {
    forall i :: 0 <= i < |lines| ==> IsLine(lines[i], i == |lines| - 1)
  }

  lemma OneMoreLine(line: string, lines: seq<string>)
    requires IsLine(line, lines == []) && AreLines(lines)
    ensures AreLines([line] + lines) && Join([line] + lines) == line + Join(lines)
  {
    hide IsLine;
    var all := [line] + lines;
    assert all[1..] == lines;
    forall i | 0 <= i < |all| ensures IsLine(all[i], i == |all| - 1) {
      assert i > 0 ==> all[i] == lines[i - 1];
    }
  }

  lemma NoLines()
    ensures AreLines([]) && Join([]) == ""
  {
  }

  lemma {:induction false} SplitLinesSound(s: string)
    ensures Join(SplitLines(s)) == s && AreLines(SplitLines(s))
  {
    hide PlainLength, BreakLength, LineEnd, IsLine, AreLines, Join;
    if s == "" {
      NoLines();
    } else {
      var line, rest := s[..LineEnd(s)], s[LineEnd(s)..];
      var more := SplitLines(rest);
      FirstLine(s);
      SplitLinesSound(rest);
      assert more == [] <==> LineEnd(s) == |s|;
      OneMoreLine(line, more);
      assert SplitLines(s) == [line] + more && s == line + rest;
    }
  }

  lemma EndsInBreak(line: string, last: bool)
    requires IsLine(line, last)
    ensures IsBreak(line[|line| - 1]) <==> IsBreakText(line[PlainLength(line)..])
    ensures !IsBreak(line[|line| - 1]) ==> last && Plain(line)
  {
    var n := PlainLength(line);
    if n < |line| {
      assert line[n..][|line[n..]| - 1] == line[|line| - 1];
    }
  }

  /** Text without a break is only buffered. */
  lemma {:induction false} FeedPlain(tag: string, st: Stream, s: string, more: string)
    requires Plain(s)
    ensures Feed(tag, st, s + more) == Feed(tag, Stream(st.buf + s, st.log), more)
    decreases |s|
  {
    if s == "" {
      assert s + more == more && st.buf + s == st.buf;
    } else {
      assert (s + more)[1..] == s[1..] + more;
      FeedPlain(tag, Stream(st.buf + [s[0]], st.log), s[1..], more);
      assert st.buf + [s[0]] + s[1..] == st.buf + s;
    }
  }

  lemma RStripBreak(s: string, c: char)
    requires IsBreak(c)
    ensures RStrip(s + [c]) == RStrip(s)
  {
    assert (s + [c])[..|s|] == s;
  }

  lemma ShownBreak(tag: string, s: string, brk: string)
    requires IsBreakText(brk)
    ensures Shown(tag, s + brk) == Shown(tag, s)
  {
    if brk == "\r\n" {
      RStripBreak(s, '\r');
      RStripBreak(s + "\r", '\n');
      assert s + "\r" + "\n" == s + brk;
    } else {
      RStripBreak(s, brk[0]);
      assert s + [brk[0]] == s + brk;
    }
  }

  /** A break logs what is buffered; its second character only ends an empty line, which is
      not logged. */
  lemma FeedBreak(tag: string, st: Stream, brk: string, more: string)
    requires IsBreakText(brk)
    ensures Feed(tag, st, brk + more) == Feed(tag, Flushed(tag, st), more)
  {
    if brk == "\r\n" {
      assert (brk + more)[1..] == "\n" + more && ("\n" + more)[1..] == more;
      assert Flushed(tag, st).log + Shown(tag, "") == Flushed(tag, st).log;
    } else {
      assert (brk + more)[1..] == more;
    }
  }

  /** A line and its break log what `Writeln` makes of both. */
  lemma FeedLine(tag: string, log: seq<string>, line: string, more: string)
    requires IsBreakText(line[PlainLength(line)..])
    ensures Feed(tag, Stream("", log), line + more) == Feed(tag, Stream("", log + Shown(tag, line)), more)
  {
    var s, brk := line[..PlainLength(line)], line[PlainLength(line)..];
    assert Plain(s);
    hide PlainLength, Feed, Shown, IsBreakText;
    assert line == s + brk && line + more == s + (brk + more) && "" + s == s;
    FeedPlain(tag, Stream("", log), s, brk + more);
    FeedBreak(tag, Stream(s, log), brk, more);
    ShownBreak(tag, s, brk);
  }

  // ---------------------------------------------------------------- chunks do not matter

  lemma {:induction false} FeedTwice(tag: string, st: Stream, s: string, more: string)
    ensures Feed(tag, st, s + more) == Feed(tag, Feed(tag, st, s), more)
    decreases |s|
  {
    if s == "" {
      assert s + more == more;
    } else {
      assert (s + more)[1..] == s[1..] + more;
      var st' := if IsBreak(s[0]) then Stream("", st.log + Shown(tag, st.buf)) else Stream(st.buf + [s[0]], st.log);
      FeedTwice(tag, st', s[1..], more);
    }
  }

  /** Writing chunk after chunk. */
  function FeedAll(tag: string, st: Stream, chunks: seq<string>): Stream
    decreases |chunks|
  {
    if chunks == [] then st else FeedAll(tag, Feed(tag, st, chunks[0]), chunks[1..])
  }

  /** However a text is cut into chunks, even between the two characters of a line break,
      writing them one by one is writing the text as a whole. */
  lemma {:induction false} ChunksDoNotMatter(tag: string, st: Stream, chunks: seq<string>)
    ensures FeedAll(tag, st, chunks) == Feed(tag, st, Join(chunks))
    decreases |chunks|
  {
    if chunks != [] {
      ChunksDoNotMatter(tag, Feed(tag, st, chunks[0]), chunks[1..]);
      FeedTwice(tag, st, chunks[0], Join(chunks[1..]));
    }
  }

  /** The pieces of a text between its breaks. */
  function Pieces(s: string, piece: string): seq<string> {
    if s == "" then [piece]
    else if IsBreak(s[0]) then [piece] + Pieces(s[1..], "")
    else Pieces(s[1..], piece + [s[0]])
  }

  function ShownAll(tag: string, pieces: seq<string>): seq<string> {
    if pieces == [] then [] else Shown(tag, pieces[0]) + ShownAll(tag, pieces[1..])
  }

  /** After a flush, the log shows each piece that is not blank, in order. */
  lemma {:induction false} FlushedLog(tag: string, st: Stream, s: string)
    ensures Flushed(tag, Feed(tag, st, s)) == Stream("", st.log + ShownAll(tag, Pieces(s, st.buf)))
    decreases |s|
  {
    if s == "" {
      assert ShownAll(tag, [st.buf]) == Shown(tag, st.buf);
    } else if IsBreak(s[0]) {
      var st' := Stream("", st.log + Shown(tag, st.buf));
      FlushedLog(tag, st', s[1..]);
      assert ([st.buf] + Pieces(s[1..], ""))[1..] == Pieces(s[1..], "");
      assert st'.log + ShownAll(tag, Pieces(s[1..], "")) == st.log + ShownAll(tag, Pieces(s, st.buf));
    } else {
      FlushedLog(tag, Stream(st.buf + [s[0]], st.log), s[1..]);
    }
  }

  // ---------------------------------------------------------------- blanks, tags and breaks, spelt out

  /** Line breaks, blanks, tabs, and the vertical tab and form feed. */
  predicate Blank(c: char) { c in {'\r', '\n', ' ', '\t', 11 as char, 12 as char} }

  /** A line is shown without the blanks at its end, and with the tag, if any, in brackets
      before it; a blank line is not shown. */
  lemma {:induction false} ShownIs(tag: string, line: string, n: nat)
    requires n <= |line| && (n > 0 ==> !Blank(line[n - 1])) && forall i :: n <= i < |line| ==> Blank(line[i])
    ensures Shown(tag, line) == if n == 0 then [] else [(if tag == "" then "" else "[" + tag + "] ") + line[..n]]
    decreases |line|
  {
    if n < |line| {
      ShownIs(tag, line[..|line| - 1], n);
      assert line[..|line| - 1][..n] == line[..n];
    } else {
      assert line[..n] == line && "" + line == line;
    }
  }

  lemma {:induction false} PiecesPlain(s: string, piece: string)
    requires forall i :: 0 <= i < |s| ==> s[i] != '\r' && s[i] != '\n'
    ensures Pieces(s, piece) == [piece + s]
    decreases |s|
  {
    if s == "" {
      assert piece + s == piece;
    } else {
      PiecesPlain(s[1..], piece + [s[0]]);
      assert piece + [s[0]] + s[1..] == piece + s;
    }
  }

  /** A text is cut at every `\r` and every `\n`, and nowhere else. */
  lemma {:induction false} PiecesAre(s: string, piece: string, c: char, more: string)
    requires forall i :: 0 <= i < |s| ==> s[i] != '\r' && s[i] != '\n'
    ensures Pieces(s, piece) == [piece + s]
    ensures c == '\r' || c == '\n' ==> Pieces(s + [c] + more, piece) == [piece + s] + Pieces(more, "")
    decreases |s|
  {
    PiecesPlain(s, piece);
    if s == "" {
      assert (s + [c] + more)[1..] == more && piece + s == piece;
    } else {
      assert (s + [c] + more)[1..] == s[1..] + [c] + more;
      PiecesAre(s[1..], piece + [s[0]], c, more);
      assert piece + [s[0]] + s[1..] == piece + s;
    }
  }
}
