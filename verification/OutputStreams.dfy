/** Live output of a child process: the line splitter that carries a tail from chunk to chunk, and the
    capture buffer with a byte limit (agent/src/command-executor.ts:468-495, 600-625, 676-687). */
module OutputStreams {
  import opened Common
  import opened LegacyPool

  // ---------------------------------------------------------------- line splitting

  const MAX_LINE_LEN: nat := 4000

  predicate AnsiParameter(c: char) { '0' <= c <= '9' || c == ';' }

  function ParameterRun(s: string): (n: nat)
    ensures n <= |s|
  {
    if s == "" || !AnsiParameter(s[0]) then 0 else 1 + ParameterRun(s[1..])
  }

  /** Length of a colour sequence at the start of s, or 0. */
  function AnsiLength(s: string): (n: nat)
    ensures n <= |s|
  {
    if |s| < 2 || s[0] != '\U{001b}' || s[1] != '[' then 0
    else
      var run := ParameterRun(s[2..]);
      if run + 2 < |s| && s[run + 2] == 'm' then run + 3 else 0
  }

  function StripAnsi(s: string): (r: string)
    ensures |r| <= |s|
    decreases |s|
  {
    if s == "" then ""
    else
      var n := AnsiLength(s);
      if n > 0 then StripAnsi(s[n..]) else [s[0]] + StripAnsi(s[1..])
  }

  function DropReturn(line: string): string {
    if line != "" && line[|line| - 1] == '\r' then line[..|line| - 1] else line
  }

  function Take<T>(s: seq<T>, n: nat): seq<T> { if |s| <= n then s else s[..n] }

  /** What one complete raw line hands to the listener: nothing when it is blank. */
  function Shown(rawLine: string): seq<string> {
    var clean := Take(StripAnsi(DropReturn(rawLine)), MAX_LINE_LEN);
    if Trim(clean) != "" then [clean] else []
  }

  function Front(lines: seq<string>): seq<string>
    requires lines != []
  {
    lines[..|lines| - 1]
  }

  function LastOf(lines: seq<string>): string
    requires lines != []
  {
    lines[|lines| - 1]
  }

  function ShownAll(rawLines: seq<string>): seq<string> { Concat(rawLines, Shown) }

  /** flushChunk: the lines completed by a chunk, and the tail it leaves. */
  function Flushed(tail: string, chunk: string): (seq<string>, string) {
    var lines := Lines(tail + chunk);
    (ShownAll(Front(lines)), LastChars(LastOf(lines), MAX_LINE_LEN))
  }

  /** Everything shown while chunks arrive, and the final tail. */
  function Streamed(chunks: seq<string>): (seq<string>, string) {
    if chunks == [] then ([], "")
    else
      var (shown, tail) := Streamed(chunks[..|chunks| - 1]);
      var (more, rest) := Flushed(tail, chunks[|chunks| - 1]);
      (shown + more, rest)
  }

  function Joined(chunks: seq<string>): string {
    if chunks == [] then "" else Joined(chunks[..|chunks| - 1]) + chunks[|chunks| - 1]
  }

  /** No line of the whole stream is longer than the limit. */
  ghost predicate ShortLines(text: string) {
    forall line <- Lines(text) :: |line| <= MAX_LINE_LEN
  }

  lemma {:induction false} StreamedStep(chunks: seq<string>, chunk: string)
    ensures var (shown, tail) := Streamed(chunks);
            var (more, rest) := Flushed(tail, chunk);
            Streamed(chunks + [chunk]) == (shown + more, rest)
  {
    assert (chunks + [chunk])[..|chunks|] == chunks;
  }

  /** What the close of a stream shows of its tail: the trimmed text, colour codes and all. */
  function CloseLine(tail: string): seq<string> { if Trim(tail) != "" then [Trim(tail)] else [] }

  /** Everything shown of a stream that has been closed. */
  function Closed(chunks: seq<string>): seq<string> { Streamed(chunks).0 + CloseLine(Streamed(chunks).1) }

  method FlushChunk(chunk: string, tail: string) returns (shown: seq<string>, newTail: string)
    ensures (shown, newTail) == Flushed(tail, chunk)
  {
    var lines := Lines(tail + chunk);
    shown := [];
    for i := 0 to |lines| - 1
      invariant shown == ShownAll(lines[..i])
    {
      NextPrefix(lines, i);
      ConcatOne(lines[..i], lines[i], Shown);
      var more := ShowLine(lines[i]);
      shown := shown + more;
    }
    var rest := lines[|lines| - 1];
    newTail := if |rest| > MAX_LINE_LEN then rest[|rest| - MAX_LINE_LEN..] else rest;
  }

  method ShowLine(rawLine: string) returns (shown: seq<string>)
    ensures shown == Shown(rawLine)
  {
    var line := DropReturn(rawLine);
    if line == "" {
      assert Trim("") == "";
      return [];
    }
    var clean := StripAnsi(line);
    if |clean| > MAX_LINE_LEN { clean := clean[..MAX_LINE_LEN]; }
    shown := if Trim(clean) != "" then [clean] else [];
  }

  class LineStreamer {
    var tail: string
    ghost var received: seq<string>
    ghost var shown: seq<string>

    ghost predicate Valid()
      reads this
    {
      (shown, tail) == Streamed(received)
    }

    constructor ()
      ensures Valid() && received == []
    {
      tail, received, shown := "", [], [];
    }

    /** The data callback. */
    method OnData(chunk: string) returns (lines: seq<string>)
      requires Valid()
      modifies this
      ensures Valid()
      ensures received == old(received) + [chunk] && shown == old(shown) + lines
    {
      StreamedStep(received, chunk);
      lines, tail := FlushChunk(chunk, tail);
      received, shown := received + [chunk], shown + lines;
    }

    /** The close callback shows what is left. */
    method OnClose() returns (lines: seq<string>)
      requires Valid()
      ensures shown + lines == Closed(received)
    {
      lines := if Trim(tail) != "" then [Trim(tail)] else [];
    }
  }

  // --------------------------------------------------------------- chunk independence

  lemma {:induction false} FrontedPrefix(d: char, x: string, lines: seq<string>)
    requires lines != [] && x <= lines[0]
    ensures [d] + x <= Fronted(d, lines)[0]
  {
  }

  lemma {:induction false} LinesOfFirst(x: string, rest: string)
    requires '\n' !in x
    ensures x <= Lines(x + rest)[0]
    decreases |x|
  {
    if x != "" {
      var d, y := x[0], x[1..];
      LinesOfFirst(y, rest);
      FirstSplit(d, y, rest);
      assert x == [d] + y;
      LinesFromFront(d, y + rest);
      FrontedPrefix(d, y, Lines(y + rest));
    }
  }

  lemma {:induction false} FirstSplit(d: char, y: string, rest: string)
    ensures [d] + y + rest == [d] + (y + rest)
  {
  }

  /** Splitting a longer text only splits the last line of the shorter one again. */
  lemma {:induction false} LinesExtend(a: string, b: string)
    ensures Lines(a + b) == Front(Lines(a)) + Lines(LastOf(Lines(a)) + b)
    decreases |a|
  {
    if a == "" {
      assert a + b == b;
      assert Lines(a) == [""];
      assert "" + b == b;
    } else {
      var d, rest := a[0], a[1..];
      LinesExtend(rest, b);
      assert a == [d] + rest && a + b == [d] + (rest + b);
      LinesFromFront(d, rest);
      LinesFromFront(d, rest + b);
      if d == '\n' {
        NewlineExtends(Lines(rest), Lines(LastOf(Lines(rest)) + b));
      } else {
        LinesHaveNoBreaks(rest);
        FrontedExtends(d, Lines(rest), b);
      }
    }
  }

  lemma {:induction false} NewlineExtends(lines: seq<string>, tail: seq<string>)
    requires lines != []
    ensures [""] + (Front(lines) + tail) == Front([""] + lines) + tail && LastOf([""] + lines) == LastOf(lines)
  {
  }

  lemma {:induction false} FrontedExtends(d: char, lines: seq<string>, b: string)
    requires d != '\n' && lines != []
    ensures Fronted(d, Front(lines) + Lines(LastOf(lines) + b)) == Front(Fronted(d, lines)) + Lines(LastOf(Fronted(d, lines)) + b)
  {
    if |lines| == 1 {
      assert Front(lines) == [] && Front(Fronted(d, lines)) == [];
      assert LastOf(Fronted(d, lines)) + b == [d] + (lines[0] + b);
      LinesFromFront(d, lines[0] + b);
      assert [] + Lines(lines[0] + b) == Lines(lines[0] + b);
    } else {
      var more := Lines(LastOf(lines) + b);
      assert Front(Fronted(d, lines)) == Fronted(d, Front(lines));
      assert Fronted(d, Front(lines) + more) == Fronted(d, Front(lines)) + more;
      assert LastOf(Fronted(d, lines)) == LastOf(lines);
    }
  }

  /** A tail in the middle of a stream of short lines is itself short. */
  lemma {:induction false} TailIsShort(a: string, b: string)
    requires ShortLines(a + b)
    ensures |LastOf(Lines(a))| <= MAX_LINE_LEN && ShortLines(a)
  {
    LinesExtend(a, b);
    LinesHaveNoBreaks(a);
    var last := LastOf(Lines(a));
    LinesOfFirst(last, b);
    ShortParts(Lines(a), Lines(last + b));
  }

  lemma {:induction false} ShortParts(lines: seq<string>, more: seq<string>)
    requires lines != [] && more != [] && LastOf(lines) <= more[0]
    requires forall line <- Front(lines) + more :: |line| <= MAX_LINE_LEN
    ensures forall line <- lines :: |line| <= MAX_LINE_LEN
  {
    assert more[0] in Front(lines) + more;
    forall line <- lines ensures |line| <= MAX_LINE_LEN {
      var i :| 0 <= i < |lines| && lines[i] == line;
      if i < |lines| - 1 {
        assert (Front(lines) + more)[i] == line;
      }
    }
  }

  /** However a stream is cut into chunks, the lines shown and the tail left are those of the whole stream
      taken at once, as long as no line exceeds the limit. */
  lemma {:induction false} ChunkingIsInvisible(chunks: seq<string>)
    requires ShortLines(Joined(chunks))
    ensures Streamed(chunks) == (ShownAll(Front(Lines(Joined(chunks)))), LastOf(Lines(Joined(chunks))))
    decreases |chunks|
  {
    if chunks != [] {
      var most, last := chunks[..|chunks| - 1], chunks[|chunks| - 1];
      var before := Joined(most);
      TailIsShort(before, last);
      ChunkingIsInvisible(most);
      LinesExtend(before, last);
      var tail := LastOf(Lines(before));
      var more := Lines(tail + last);
      FrontOfSum(Front(Lines(before)), more);
      ConcatAppend(Front(Lines(before)), Front(more), Shown);
      assert LastOf(more) in Lines(before + last);
    }
  }

  lemma {:induction false} FrontOfSum(a: seq<string>, b: seq<string>)
    requires b != []
    ensures Front(a + b) == a + Front(b) && LastOf(a + b) == LastOf(b) && LastOf(b) in a + b
  {
  }

  /** Two ways of cutting one stream show the same. */
  lemma {:induction false} CutsAgree(chunks: seq<string>, others: seq<string>)
    requires Joined(chunks) == Joined(others) && ShortLines(Joined(chunks))
    ensures Streamed(chunks) == Streamed(others)
  {
    ChunkingIsInvisible(chunks);
    ChunkingIsInvisible(others);
  }

  /** The carried tail is bounded whatever arrives, and every line shown is bounded and not blank. */
  lemma {:induction false} JoinedOnce(text: string)
    ensures Joined([text]) == text
  {
    assert [text][..0] == [] && "" + text == text;
  }

  /** A closed stream has shown what the whole text shows when it arrives in one chunk: each complete line
      cleaned, and the rest trimmed. */
  lemma {:induction false} CloseIsInvisible(chunks: seq<string>)
    requires ShortLines(Joined(chunks))
    ensures var text := Joined(chunks);
            && Closed(chunks) == ShownAll(Front(Lines(text))) + CloseLine(LastOf(Lines(text)))
            && Closed(chunks) == Closed([text])
  {
    JoinedOnce(Joined(chunks));
    ChunkingIsInvisible(chunks);
    ChunkingIsInvisible([Joined(chunks)]);
  }

  /** The same text shows its colour codes when the stream closes on it, and loses them before a break. */
  lemma {:induction false} CloseKeepsColours()
    ensures Shown("\U{001b}[31mx") == ["x"] && CloseLine("\U{001b}[31mx") == ["\U{001b}[31mx"]
  {
    var text := "\U{001b}[31mx";
    assert text[2..] == "31mx" && "31mx"[1..] == "1mx" && "1mx"[1..] == "mx";
    assert AnsiLength(text) == 5 && text[5..] == "x";
    PlainText("x");
    assert DropReturn(text) == text;
    TrimmedLine("x");
    TrimmedLine(text);
  }

  lemma {:induction false} StreamIsBounded(chunks: seq<string>)
    ensures |Streamed(chunks).1| <= MAX_LINE_LEN
    ensures forall line <- Streamed(chunks).0 :: |line| <= MAX_LINE_LEN && Trim(line) != ""
    decreases |chunks|
  {
    if chunks != [] {
      StreamIsBounded(chunks[..|chunks| - 1]);
      var tail := Streamed(chunks[..|chunks| - 1]).1;
      ShownIsBounded(Front(Lines(tail + chunks[|chunks| - 1])));
    }
  }

  lemma {:induction false} ShownIsBounded(rawLines: seq<string>)
    ensures forall line <- ShownAll(rawLines) :: |line| <= MAX_LINE_LEN && Trim(line) != ""
  {
    forall line <- ShownAll(rawLines) ensures |line| <= MAX_LINE_LEN && Trim(line) != "" {
      var raw := PieceOf(rawLines, Shown, line);
    }
  }

  // ------------------------------------------------------------ what a line shows

  /** A carriage return before the break is not part of the line. */
  lemma {:induction false} ReturnIsDropped(line: string)
    requires line == "" || line[|line| - 1] != '\r'
    ensures Shown(line + "\r") == Shown(line)
  {
    assert (line + "\r")[..|line|] == line;
  }

  /** A line without colour codes is shown as it is, cut to 4000 characters, unless it is blank. */
  lemma {:induction false} PlainLineIsShown(line: string)
    requires '\U{001b}' !in line && (line == "" || line[|line| - 1] != '\r')
    ensures var cut := if |line| <= 4000 then line else line[..4000];
            Shown(line) == if Trim(cut) == "" then [] else [cut]
  {
    PlainText(line);
  }

  lemma {:induction false} ParametersEnd(parameters: string, rest: string)
    requires forall i | 0 <= i < |parameters| :: AnsiParameter(parameters[i])
    requires rest == "" || !AnsiParameter(rest[0])
    ensures ParameterRun(parameters + rest) == |parameters|
  {
    if parameters != "" {
      assert (parameters + rest)[1..] == parameters[1..] + rest;
      ParametersEnd(parameters[1..], rest);
    }
  }

  lemma {:induction false} CodeIsStripped(parameters: string, after: string)
    requires forall i | 0 <= i < |parameters| :: '0' <= parameters[i] <= '9' || parameters[i] == ';'
    ensures StripAnsi("\U{001b}[" + (parameters + ("m" + after))) == StripAnsi(after)
  {
    var code := "\U{001b}[" + (parameters + ("m" + after));
    ParametersEnd(parameters, "m" + after);
    assert code[2..] == parameters + ("m" + after) && code[|parameters| + 2] == 'm';
    assert AnsiLength(code) == |parameters| + 3 && code[|parameters| + 3..] == after;
  }

  lemma {:induction false} PlainStep(c: char, s: string)
    requires c != '\U{001b}'
    ensures StripAnsi([c] + s) == [c] + StripAnsi(s)
  {
    assert AnsiLength([c] + s) == 0 && ([c] + s)[1..] == s;
  }

  lemma {:induction false} PlainFront(before: string, rest: string)
    requires '\U{001b}' !in before
    ensures StripAnsi(before + rest) == before + StripAnsi(rest)
    decreases |before|
  {
    if before == "" {
      EmptyFront(rest);
      EmptyFront(StripAnsi(rest));
    } else {
      PlainFront(before[1..], rest);
      assert before[0] in before;
      PlainStep(before[0], before[1..] + rest);
      FrontSplits(before, rest);
      FrontSplits(before, StripAnsi(rest));
    }
  }

  lemma {:induction false} EmptyFront(s: string)
    ensures "" + s == s
  {
  }

  lemma {:induction false} FrontSplits(front: string, rest: string)
    requires front != ""
    ensures front + rest == [front[0]] + (front[1..] + rest)
  {
  }

  /** Colour codes, digits and semicolons between the escape's bracket and an m, vanish from what is shown. */
  lemma {:induction false} ColourIsStripped(before: string, parameters: string, after: string)
    requires '\U{001b}' !in before && forall i | 0 <= i < |parameters| :: '0' <= parameters[i] <= '9' || parameters[i] == ';'
    ensures StripAnsi(before + ("\U{001b}[" + (parameters + ("m" + after)))) == before + StripAnsi(after)
  {
    CodeIsStripped(parameters, after);
    PlainFront(before, "\U{001b}[" + (parameters + ("m" + after)));
  }

  // --------------------------------------------------- a line beyond the limit

  lemma {:induction false} PlainText(s: string)
    requires '\U{001b}' !in s
    ensures StripAnsi(s) == s
    decreases |s|
  {
    if s != "" {
      PlainText(s[1..]);
      assert s == [s[0]] + s[1..];
    }
  }

  lemma {:induction false} UnbrokenLine(s: string)
    requires '\n' !in s
    ensures Lines(s) == [s]
  {
    LinesPrefix(s, "");
  }

  lemma {:induction false} JoinedAlike(a: string, b: string)
    ensures Joined([a + b]) == a + b && Joined([a, b]) == a + b
  {
    assert [a + b][..0] == [];
    assert [a, b][..1] == [a] && [a][..0] == [];
    assert "" + a == a && "" + (a + b) == a + b;
  }

  lemma {:induction false} StreamedOnce(chunk: string)
    ensures Streamed([chunk]) == Flushed("", chunk)
  {
    StreamedStep([], chunk);
    assert [] + [chunk] == [chunk];
    assert [] + Flushed("", chunk).0 == Flushed("", chunk).0;
  }

  /** A tail whose break arrives shows what the whole line shows. */
  lemma {:induction false} BreakArrives(tail: string, rest: string)
    requires '\n' !in tail + rest
    ensures Flushed(tail, rest + "\n") == (Shown(tail + rest), "")
  {
    var line := tail + rest;
    LinesPrefix(line, "");
    assert line + "\n" + "" == tail + (rest + "\n");
    assert Lines("") == [""];
    assert Front([line] + [""]) == [line];
    ConcatOne([], line, Shown);
    assert [] + [line] == [line] && [] + Shown(line) == Shown(line);
  }

  /** A line without its break waits in the tail, reduced to its last 4000 characters. */
  lemma {:induction false} BreakIsMissing(line: string)
    requires '\n' !in line
    ensures Flushed("", line) == ([], LastChars(line, MAX_LINE_LEN))
  {
    UnbrokenLine(line);
    assert "" + line == line;
    assert Front([line]) == [];
  }

  /** What is left of a line that was cut after k characters when its break arrives. */
  function Remembered(line: string, k: nat): string
    requires k <= |line|
  {
    if k <= MAX_LINE_LEN then line else line[k - MAX_LINE_LEN..]
  }

  lemma {:induction false} WholeLine(line: string)
    requires '\n' !in line
    ensures Streamed([line + "\n"]).0 == Shown(line)
  {
    StreamedOnce(line + "\n");
    BreakArrives("", line);
    assert "" + line == line;
  }

  lemma {:induction false} TailRemembers(line: string, k: nat)
    requires k <= |line|
    ensures LastChars(line[..k], MAX_LINE_LEN) + line[k..] == Remembered(line, k)
  {
    assert line == line[..k] + line[k..];
  }

  lemma {:induction false} CutLine(first: string, rest: string)
    requires '\n' !in first && '\n' !in rest
    ensures Streamed([first, rest + "\n"]).0 == Shown(LastChars(first, MAX_LINE_LEN) + rest)
  {
    var tail := LastChars(first, MAX_LINE_LEN);
    StreamedOnce(first);
    BreakIsMissing(first);
    StreamedStep([first], rest + "\n");
    assert [first] + [rest + "\n"] == [first, rest + "\n"];
    BreakArrives(tail, rest);
    assert [] + Shown(tail + rest) == Shown(tail + rest);
  }

  /** The text a line shows unless it is blank: without carriage return and colour codes, cut to 4000 characters. */
  function Head(line: string): string { Take(StripAnsi(DropReturn(line)), MAX_LINE_LEN) }

  predicate Blank(text: string) { Trim(text) == "" }

  /** Exactly when a cut shows. A line that arrives in one chunk shows its head; cut after k characters it
      shows the head of what the tail remembered. The two agree exactly when nothing was forgotten, or
      the two heads are equal, or both are blank. */
  lemma {:induction false} LongLineShowsTheCut(line: string, k: nat)
    requires '\n' !in line && k <= |line|
    ensures Joined([line + "\n"]) == Joined([line[..k], line[k..] + "\n"])
    ensures Streamed([line + "\n"]).0 == Streamed([line[..k], line[k..] + "\n"]).0
       <==> k <= MAX_LINE_LEN
            || Head(line) == Head(line[k - MAX_LINE_LEN..])
            || (Blank(Head(line)) && Blank(Head(line[k - MAX_LINE_LEN..])))
  {
    assert line + "\n" == line[..k] + (line[k..] + "\n");
    JoinedAlike(line[..k], line[k..] + "\n");
    WholeLine(line);
    CutLine(line[..k], line[k..]);
    TailRemembers(line, k);
  }

  // ------------------------------------------------------------ the capture buffer

  datatype Stream = Stdout | Stderr

  /** What arrived on one stream, in order. */
  function Seen(history: seq<(Stream, string)>, s: Stream): string {
    if history == [] then ""
    else Seen(history[..|history| - 1], s) + if history[|history| - 1].0 == s then history[|history| - 1].1 else ""
  }

  /** The first stream to pass the limit, if any did. */
  function FirstOver(history: seq<(Stream, string)>, limit: nat): Option<Stream> {
    if history == [] then None
    else
      var before := FirstOver(history[..|history| - 1], limit);
      var s := history[|history| - 1].0;
      if before.Some? then before else if |Seen(history, s)| > limit then Some(s) else None
  }

  /** The chunks hold exactly the first `limit` characters of what was seen. */
  ghost predicate Captured(limit: nat, chunks: seq<string>, bytes: nat, seen: string) {
    Joined(chunks) == Take(seen, limit) && bytes == |Take(seen, limit)|
  }

  lemma {:induction false} StillCaptured(limit: nat, chunks: seq<string>, bytes: nat, seen: string, chunk: string, chunks': seq<string>, bytes': nat)
    requires Captured(limit, chunks, bytes, seen)
    requires Joined(chunks') == Joined(chunks) + Take(chunk, limit - bytes) && bytes' == bytes + |Take(chunk, limit - bytes)|
    ensures Captured(limit, chunks', bytes', seen + chunk)
  {
    TakeMore(seen, chunk, limit);
  }

  /** One more chunk on stream s, seen by both streams and by the overflow flag. */
  lemma {:induction false} CaptureStep(history: seq<(Stream, string)>, s: Stream, other: Stream, chunk: string, limit: nat, chunks: seq<string>, bytes: nat)
    requires s != other && Captured(limit, chunks, bytes, Seen(history, s))
    ensures var longer := history + [(s, chunk)];
            && Seen(longer, s) == Seen(history, s) + chunk
            && Seen(longer, other) == Seen(history, other)
            && FirstOver(longer, limit) == if FirstOver(history, limit) == None && |chunk| > limit - bytes then Some(s)
                                           else FirstOver(history, limit)
  {
    HistoryStep(history, s, chunk, limit);
    OverflowMeansOver(history, limit);
  }

  /** What both collectors hold after a history: `s` is one stream and `other` the other. */
  ghost predicate Holds(limit: nat, history: seq<(Stream, string)>, s: Stream, chunks: seq<string>, bytes: nat,
                        other: Stream, otherChunks: seq<string>, otherBytes: nat, overflow: Option<Stream>) {
    && Captured(limit, chunks, bytes, Seen(history, s)) && Captured(limit, otherChunks, otherBytes, Seen(history, other))
    && overflow == FirstOver(history, limit)
  }

  /** One chunk of one stream: its collector keeps what fits, and the other stream sees nothing of it. */
  lemma {:induction false} Received(history: seq<(Stream, string)>, s: Stream, other: Stream, chunk: string, limit: nat,
                                    chunks: seq<string>, bytes: nat, chunks': seq<string>, bytes': nat,
                                    otherChunks: seq<string>, otherBytes: nat, overflow: Option<Stream>)
    requires s != other && Holds(limit, history, s, chunks, bytes, other, otherChunks, otherBytes, overflow)
    requires Joined(chunks') == Joined(chunks) + Take(chunk, limit - bytes) && bytes' == bytes + |Take(chunk, limit - bytes)|
    ensures Holds(limit, history + [(s, chunk)], s, chunks', bytes', other, otherChunks, otherBytes,
                  if overflow == None && |chunk| > limit - bytes then Some(s) else overflow)
  {
    CaptureStep(history, s, other, chunk, limit, chunks, bytes);
    StillCaptured(limit, chunks, bytes, Seen(history, s), chunk, chunks', bytes');
  }

  /** The two collectors of execute, with MAX_BUFFER_BYTES as a constructor argument. */
  class OutputCapture {
    const limit: nat
    var stdoutChunks: seq<string>
    var stderrChunks: seq<string>
    var stdoutBytes: nat
    var stderrBytes: nat
    var overflow: Option<Stream>
    ghost var history: seq<(Stream, string)>

    ghost predicate Valid()
      reads this
    {
      Holds(limit, history, Stdout, stdoutChunks, stdoutBytes, Stderr, stderrChunks, stderrBytes, overflow)
    }

    constructor (limit: nat)
      ensures Valid() && this.limit == limit && history == []
    {
      this.limit := limit;
      stdoutChunks, stderrChunks, stdoutBytes, stderrBytes := [], [], 0, 0;
      overflow, history := None, [];
    }

    /** collect: keeps what still fits, and flags the first stream that does not fit. */
    method Collect(chunk: string, chunks: seq<string>, currentBytes: nat, stream: Stream)
      returns (chunks': seq<string>, bytes: nat)
      requires currentBytes <= limit
      modifies this`overflow
      ensures Joined(chunks') == Joined(chunks) + Take(chunk, limit - currentBytes)
      ensures bytes == currentBytes + |Take(chunk, limit - currentBytes)|
      ensures overflow == if old(overflow) == None && |chunk| > limit - currentBytes then Some(stream) else old(overflow)
    {
      var remaining := limit - currentBytes;
      chunks' := chunks;
      if remaining > 0 {
        chunks' := chunks + [Take(chunk, remaining)];
        assert chunks'[..|chunks|] == chunks;
      } else {
        assert Joined(chunks) + "" == Joined(chunks);
      }
      if |chunk| > remaining && overflow == None { overflow := Some(stream); }
      bytes := if currentBytes + |chunk| < limit then currentBytes + |chunk| else limit;
    }

    method OnStdout(chunk: string)
      requires Valid()
      modifies this
      ensures Valid() && history == old(history) + [(Stdout, chunk)]
    {
      ghost var before := overflow;
      var chunks, bytes := Collect(chunk, stdoutChunks, stdoutBytes, Stdout);
      Received(history, Stdout, Stderr, chunk, limit, stdoutChunks, stdoutBytes, chunks, bytes, stderrChunks, stderrBytes, before);
      stdoutChunks, stdoutBytes := chunks, bytes;
      history := history + [(Stdout, chunk)];
    }

    method OnStderr(chunk: string)
      requires Valid()
      modifies this
      ensures Valid() && history == old(history) + [(Stderr, chunk)]
    {
      ghost var before := overflow;
      var chunks, bytes := Collect(chunk, stderrChunks, stderrBytes, Stderr);
      Received(history, Stderr, Stdout, chunk, limit, stderrChunks, stderrBytes, chunks, bytes, stdoutChunks, stdoutBytes, before);
      stderrChunks, stderrBytes := chunks, bytes;
      history := history + [(Stderr, chunk)];
    }
  }

  lemma {:induction false} HistoryStep(history: seq<(Stream, string)>, s: Stream, chunk: string, limit: nat)
    ensures forall r :: Seen(history + [(s, chunk)], r) == if r == s then Seen(history, r) + chunk else Seen(history, r)
    ensures FirstOver(history + [(s, chunk)], limit)
         == if FirstOver(history, limit).Some? then FirstOver(history, limit)
            else if |Seen(history, s)| + |chunk| > limit then Some(s) else None
  {
    assert (history + [(s, chunk)])[..|history|] == history;
    forall r ensures Seen(history, r) + "" == Seen(history, r) {}
  }

  lemma {:induction false} TakeMore(seen: string, chunk: string, limit: nat)
    ensures Take(seen + chunk, limit) == Take(seen, limit) + Take(chunk, limit - |Take(seen, limit)|)
  {
  }

  /** The flag is raised exactly when some stream passed the limit, and it names one that did. */
  lemma {:induction false} OverflowMeansOver(history: seq<(Stream, string)>, limit: nat)
    ensures FirstOver(history, limit) == None <==> |Seen(history, Stdout)| <= limit && |Seen(history, Stderr)| <= limit
    ensures FirstOver(history, limit).Some? ==> |Seen(history, FirstOver(history, limit).value)| > limit
  {
    if history != [] {
      OverflowMeansOver(history[..|history| - 1], limit);
    }
  }
}
