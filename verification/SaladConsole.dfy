/** The two consoles of SALAD (salad/console.py): a byte-at-a-time serial port and a chunked TCP socket. */
module SaladConsole {
  import opened Common
  import opened LineCutting

  /** Length of a match of `\r?\n` at `i`, 0 when there is none. */
  function MatchLength(s: Bytes, i: nat): nat
    requires i < |s|
  {
    if s[i] == LF then 1
    else if s[i] == CR && i + 1 < |s| && s[i + 1] == LF then 2
    else 0
  }

  /** Where the leftmost match at or after `i` starts, `|s|` when there is none. */
  function FirstMatch(s: Bytes, i: nat): (k: nat)
    requires i <= |s|
    ensures i <= k <= |s| && (k < |s| ==> MatchLength(s, k) > 0)
    ensures LF !in s[i..k] && (i < k ==> MatchLength(s, k - 1) == 0)
    decreases |s| - i
  {
    if i == |s| || MatchLength(s, i) > 0 then i else FirstMatch(s, i + 1)
  }

  /** `re.split(rb'\r?\n', s)`. */
  function Split(s: Bytes): (pieces: seq<Bytes>)
    ensures pieces != []
    decreases |s|
  {
    var i := FirstMatch(s, 0);
    if i == |s| then [s] else [s[..i]] + Split(s[i + MatchLength(s, i)..])
  }

  /** A line without its terminator. */
  function Strip(line: Bytes): Bytes {
    if |line| == 0 || line[|line| - 1] != LF then line
    else if |line| >= 2 && line[|line| - 2] == CR then line[..|line| - 2]
    else line[..|line| - 1]
  }

  /** Exactly the terminator goes: a newline and at most one carriage return before it. */
  lemma StripExactly(line: Bytes)
    requires IsLine(line)
    ensures if |line| >= 2 && line[|line| - 2] == CR then line == Strip(line) + [CR, LF] else line == Strip(line) + [LF]
  {
    LastOf(line);
  }

  function StripAll(lines: seq<Bytes>): (r: seq<Bytes>)
    ensures |r| == |lines| && forall i :: 0 <= i < |lines| ==> r[i] == Strip(lines[i])
  {
    seq(|lines|, i requires 0 <= i < |lines| => Strip(lines[i]))
  }

  lemma StripAllConcat(a: seq<Bytes>, b: seq<Bytes>)
    ensures StripAll(a + b) == StripAll(a) + StripAll(b)
  {
  }

  lemma CutOneLine(line: Bytes)
    requires IsLine(line)
    ensures Cut(line) == Cutting([line], [])
  {
    var text := line[..|line| - 1];
    CutNoNewline(text);
    assert line == text + [LF] && [] + [line] == [line];
  }

  lemma CutLine(line: Bytes, s: Bytes)
    requires IsLine(line)
    ensures Cut(line + s) == Cutting([line] + Cut(s).lines, Cut(s).rest)
  {
    CutOneLine(line);
    CutAppend(line, s);
    assert [] + s == s;
  }

  /** A piece and the match that ends it make a line. */
  lemma LineAtMatch(s: Bytes, i: nat)
    requires i < |s| && MatchLength(s, i) > 0
    requires LF !in s[..i] && (i > 0 ==> MatchLength(s, i - 1) == 0)
    ensures var line := s[..i + MatchLength(s, i)]; IsLine(line) && Strip(line) == s[..i]
  {
    var line := s[..i + MatchLength(s, i)];
    if s[i] == LF {
      assert line[..i] == s[..i];
      assert i > 0 ==> line[i - 1] != CR;
    } else {
      assert line[..i + 1] == s[..i] + [CR];
      assert line[..i] == s[..i];
    }
  }

  /** Splitting with a regular expression finds the lines of the stream, terminators removed, then the rest. */
  lemma {:induction false} SplitIsCut(s: Bytes)
    ensures Split(s) == StripAll(Cut(s).lines) + [Cut(s).rest]
    decreases |s|
  {
    var i := FirstMatch(s, 0);
    if i == |s| {
      CutNoNewline(s);
    } else {
      var k := i + MatchLength(s, i);
      SplitIsCut(s[k..]);
      LineAtMatch(s, i);
      CutLine(s[..k], s[k..]);
      assert s[..k] + s[k..] == s;
      StripAllConcat([s[..k]], Cut(s[k..]).lines);
      assert StripAll([s[..k]]) == [s[..i]];
    }
  }

  /** One `recv`: `lines` are the lines processed so far and `rest` is the line buffer. */
  function TcpStep(c: Cutting, data: Bytes): Cutting {
    var pieces := Split(c.rest + data);
    Cutting(c.lines + pieces[..|pieces| - 1], pieces[|pieces| - 1])
  }

  class TcpConsoleStream {
    var lineBuffer: Bytes
    ghost var processed: seq<Bytes>  // the lines handed to process_input_line, in order

    constructor ()
      ensures lineBuffer == [] && processed == []
    {
      lineBuffer, processed := [], [];
    }

    method Recv(data: Bytes)
      modifies this
      ensures Cutting(processed, lineBuffer) == TcpStep(old(Cutting(processed, lineBuffer)), data)
    {
      var lines := Split(lineBuffer + data);
      lineBuffer := lines[|lines| - 1];
      lines := lines[..|lines| - 1];
      for i := 0 to |lines|
        invariant processed == old(processed) + lines[..i]
        invariant lineBuffer == TcpStep(old(Cutting(processed, lineBuffer)), data).rest
      {
        processed := processed + [lines[i]];
      }
    }
  }

  class SerialConsoleStream {
    var lineBuffer: Bytes
    ghost var processed: seq<Bytes>

    constructor ()
      ensures lineBuffer == [] && processed == []
    {
      lineBuffer, processed := [], [];
    }

    /** Reads what the device holds, one byte at a time. */
    method Recv(available: Bytes) returns (buf: Bytes)
      modifies this
      ensures buf == available
      ensures old(LF !in lineBuffer) ==>
                && lineBuffer == Cut(old(lineBuffer) + available).rest
                && processed == old(processed) + Cut(old(lineBuffer) + available).lines
    {
      buf := [];
      ghost var from := lineBuffer;
      if LF !in from {
        CutNoNewline(from);
        assert from + [] == from;
      }
      for i := 0 to |available|
        invariant buf == available[..i]
        invariant LF !in from ==>
                    && lineBuffer == Cut(from + available[..i]).rest
                    && processed == old(processed) + Cut(from + available[..i]).lines
      {
        var b := available[i];
        CutByte(from + available[..i], b);
        Associative(from, available[..i], [b]);
        assert available[..i + 1] == available[..i] + [b];
        buf := buf + [b];
        lineBuffer := lineBuffer + [b];
        if b == LF {
          processed := processed + [lineBuffer];
          lineBuffer := [];
        }
      }
      assert available[..|available|] == available;
    }
  }

  // ---------------------------------------------------------------------------
  // Whole streams

  function TcpRun(chunks: seq<Bytes>): Cutting {
    if |chunks| == 0 then Cutting([], [])
    else TcpStep(TcpRun(chunks[..|chunks| - 1]), chunks[|chunks| - 1])
  }

  /**
   However the TCP stream is cut, even between a carriage return and its newline, the socket console
   processes the lines that the serial console would read from the same bytes, without terminators.
   */
  lemma {:induction false} TcpReadsSerialLines(chunks: seq<Bytes>)
    ensures TcpRun(chunks) == Cutting(StripAll(Cut(Concat(chunks)).lines), Cut(Concat(chunks)).rest)
  {
    if |chunks| > 0 {
      var front, last := chunks[..|chunks| - 1], chunks[|chunks| - 1];
      TcpReadsSerialLines(front);
      var s := Concat(front);
      var next := Cut(Cut(s).rest + last);
      CutAppend(s, last);
      SplitIsCut(Cut(s).rest + last);
      StripAllConcat(Cut(s).lines, next.lines);
      assert Split(Cut(s).rest + last)[..|next.lines|] == StripAll(next.lines);
    }
  }

  // `SALAD.ping` in the regular expressions: any byte but a newline stands between the two words.
  const SALAD: Bytes := [83, 65, 76, 65, 68]
  const PING: Bytes := [112, 105, 110, 103]

  predicate EndsWithPing(s: Bytes) {
    |s| >= 10 && s[|s| - 10..|s| - 5] == SALAD && s[|s| - 5] != LF && s[|s| - 4..] == PING
  }

  /** `SALAD.ping\r?\n$` searched in a serial line, which holds its only newline at the end. */
  predicate SerialPing(line: Bytes)
    requires IsLine(line)
  {
    EndsWithPing(line[..|line| - 1]) ||
    (|line| >= 2 && line[|line| - 2] == CR && EndsWithPing(line[..|line| - 2]))
  }

  /** Both consoles answer the same lines with a pong. */
  lemma SamePings(line: Bytes)
    requires IsLine(line)
    ensures SerialPing(line) == EndsWithPing(Strip(line))
  {
    var text := line[..|line| - 1];
    assert |text| >= 4 ==> text[|text| - 4..][3] == text[|text| - 1];
  }
}
