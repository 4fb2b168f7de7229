/**
 * The DATA phase of an SMTP session: `readData` pulls slices of at most
 * `size` bytes out of a buffered reader and undoes dot-stuffing on the fly
 * (section 4.5.2 of RFC 5321).  The reference is a reading of the stream line
 * by line in which no buffer appears.
 */
module DataReader {
  import opened Bytes
  import opened Seqs
  import opened Text

  // ----- the reference: the stream, line by line -----

  /** Length of the first line, its line feed included; all of `s` without one. */
  function LineLength(s: seq<byte>): (n: nat)
    ensures n <= |s|
    ensures s != [] ==> n > 0
  {
    if s == [] then 0 else if s[0] == LF then 1 else 1 + LineLength(s[1..])
  }

  ghost predicate IsLine(s: seq<byte>) {
    s != [] && s[|s| - 1] == LF && LF !in s[..|s| - 1]
  }

  predicate IsTerminator(line: seq<byte>) {
    || (|line| == 3 && line[0] == DOT && line[1] == CR && line[2] == LF)
    || (|line| == 2 && line[0] == DOT && line[1] == LF)
  }

  function Unstuff(line: seq<byte>): seq<byte> {
    if line != [] && line[0] == DOT then line[1..] else line
  }

  /** What a complete transmission carries and what follows it on the wire. */
  datatype Reading = Reading(body: seq<byte>, rest: seq<byte>)

  function Prepend(front: seq<byte>, r: Option<Reading>): Option<Reading> {
    match r
    case None => None
    case Some(x) => Some(Reading(front + x.body, x.rest))
  }

  /** The reading from a line start; None when the stream ends too early. */
  function FromLineStart(s: seq<byte>): Option<Reading>
    decreases |s|
  {
    if LF !in s then None
    else
      var n := LineLength(s);
      if IsTerminator(s[..n]) then Some(Reading([], s[n..]))
      else Prepend(Unstuff(s[..n]), FromLineStart(s[n..]))
  }

  /** The reading from inside a line whose start was already consumed. */
  function FromMidLine(s: seq<byte>): Option<Reading> {
    if LF !in s then None
    else
      var n := LineLength(s);
      Prepend(s[..n], FromLineStart(s[n..]))
  }

  datatype Result = Body(bytes: seq<byte>) | TooLarge | Failed

  function Verdict(r: Option<Reading>, max: nat): Result {
    match r
    case None => Failed
    case Some(x) => if |x.body| > max then TooLarge else Body(x.body)
  }

  // ----- the buffered reader -----

  datatype SliceOutcome = Line | Full | Broken

  /** `bufio.Reader` over the bytes the peer will ever send. */
  class Reader {
    const size: nat
    var unread: seq<byte>

    constructor (size: nat, stream: seq<byte>)
      ensures this.size == size && unread == stream
    {
      this.size := size;
      unread := stream;
    }

    /** `ReadSlice('\n')`: a whole line if it fits the buffer, else a full buffer. */
    method ReadSlice() returns (chunk: seq<byte>, outcome: SliceOutcome)
      modifies this
      ensures chunk + unread == old(unread)
      ensures outcome == Line ==> IsLine(chunk) && |chunk| <= size
      ensures outcome == Full ==> |chunk| == size && LF !in chunk
      ensures outcome == Broken ==> unread == [] && LF !in chunk && |chunk| < size
    {
      var n := 0;
      while n < size && n < |unread| && unread[n] != LF
        invariant n <= size && n <= |unread|
        invariant LF !in unread[..n]
      {
        n := n + 1;
      }
      if n == size {
        outcome := Full;
      } else if n == |unread| {
        outcome := Broken;
      } else {
        n := n + 1;
        outcome := Line;
      }
      chunk := unread[..n];
      unread := unread[n..];
    }
  }

  // ----- how one slice moves the reading forward -----

  lemma {:induction false} LineLengthOfLine(line: seq<byte>, rest: seq<byte>)
    requires IsLine(line)
    ensures LF in line + rest
    ensures LineLength(line + rest) == |line|
    ensures (line + rest)[..|line|] == line && (line + rest)[|line|..] == rest
  {
    assert (line + rest)[|line| - 1] == LF;
    if |line| > 1 {
      assert line[0] in line[..|line| - 1];
      assert line[1..][..|line| - 2] == line[..|line| - 1][1..];
      LineLengthOfLine(line[1..], rest);
      assert (line + rest)[1..] == line[1..] + rest;
    }
  }

  lemma PrependTwice(a: seq<byte>, b: seq<byte>, r: Option<Reading>)
    ensures Prepend(a, Prepend(b, r)) == Prepend(a + b, r)
  {
    if r.Some? {
      assert a + (b + r.value.body) == (a + b) + r.value.body;
    }
  }

  lemma WholeLine(line: seq<byte>, rest: seq<byte>)
    requires IsLine(line)
    ensures FromLineStart(line + rest)
         == if IsTerminator(line) then Some(Reading([], rest)) else Prepend(Unstuff(line), FromLineStart(rest))
    ensures FromMidLine(line + rest) == Prepend(line, FromLineStart(rest))
  {
    LineLengthOfLine(line, rest);
  }

  lemma {:induction false} LineSplit(s: seq<byte>)
    requires LF in s
    ensures IsLine(s[..LineLength(s)])
  {
    if s[0] != LF {
      assert s == [s[0]] + s[1..];
      LineSplit(s[1..]);
      var n := LineLength(s[1..]);
      assert s[..1 + n] == [s[0]] + s[1..][..n];
      assert s[..1 + n][..n] == [s[0]] + s[1..][..n - 1];
    }
  }

  lemma NoShortTerminator(line: seq<byte>)
    requires |line| > 3 || (|line| > 1 && line[1] == DOT) || (|line| > 0 && line[0] != DOT)
    ensures !IsTerminator(line)
  {
  }

  /** A piece without line feed followed by a line is one longer line. */
  lemma Glue(piece: seq<byte>, line: seq<byte>)
    requires LF !in piece && IsLine(line)
    ensures IsLine(piece + line)
  {
    assert (piece + line)[..|piece + line| - 1] == piece + line[..|line| - 1];
  }

  lemma UnstuffFront(piece: seq<byte>, line: seq<byte>)
    requires piece != []
    ensures Unstuff(piece + line) == Unstuff(piece) + line
  {
    assert (piece + line)[1..] == piece[1..] + line;
  }

  lemma FirstPieceOfLine(piece: seq<byte>, line: seq<byte>, tail: seq<byte>)
    requires LF !in piece && |piece| >= 3 && IsLine(line)
    ensures FromLineStart(piece + line + tail) == Prepend(Unstuff(piece), FromMidLine(line + tail))
  {
    Glue(piece, line);
    NoShortTerminator(piece + line);
    UnstuffFront(piece, line);
    WholeLine(piece + line, tail);
    WholeLine(line, tail);
    PrependTwice(Unstuff(piece), line, FromLineStart(tail));
  }

  lemma NextPieceOfLine(piece: seq<byte>, line: seq<byte>, tail: seq<byte>)
    requires LF !in piece && IsLine(line)
    ensures FromMidLine(piece + line + tail) == Prepend(piece, FromMidLine(line + tail))
  {
    Glue(piece, line);
    WholeLine(piece + line, tail);
    WholeLine(line, tail);
    PrependTwice(piece, line, FromLineStart(tail));
  }

  lemma FirstLine(s: seq<byte>) returns (line: seq<byte>, tail: seq<byte>)
    requires LF in s
    ensures IsLine(line) && s == line + tail
  {
    LineSplit(s);
    line, tail := s[..LineLength(s)], s[LineLength(s)..];
  }

  /**
   * A slice that is not a whole line: at a line start only its leading dot is
   * dropped, and with three bytes or more it cannot hide a terminator.
   */
  lemma Piece(atLineStart: bool, piece: seq<byte>, rest: seq<byte>)
    requires LF !in piece && |piece| >= 3
    ensures From(atLineStart, piece + rest)
         == Prepend(if atLineStart then Unstuff(piece) else piece, FromMidLine(rest))
  {
    if LF in rest {
      var line, tail := FirstLine(rest);
      assert piece + rest == piece + line + tail;
      FirstPieceOfLine(piece, line, tail);
      NextPieceOfLine(piece, line, tail);
    } else {
      assert LF !in piece + rest;
    }
  }

  function From(atLineStart: bool, s: seq<byte>): Option<Reading> {
    if atLineStart then FromLineStart(s) else FromMidLine(s)
  }

  /** One turn of the loop, for either kind of slice and either position. */
  lemma SliceMoves(atLineStart: bool, chunk: seq<byte>, rest: seq<byte>, complete: bool)
    requires complete ==> IsLine(chunk)
    requires !complete ==> LF !in chunk && |chunk| >= 3
    requires !(atLineStart && complete && IsTerminator(chunk))
    ensures From(atLineStart, chunk + rest)
         == Prepend(if atLineStart then Unstuff(chunk) else chunk, From(complete, rest))
  {
    if complete {
      WholeLine(chunk, rest);
    } else {
      Piece(atLineStart, chunk, rest);
    }
  }

  /**
   * `readData`.  Whatever the buffer size (three bytes or more), the result is
   * the verdict of the line-by-line reading, and when that reading ends at a
   * terminator the reader is left right behind it.
   */
  method ReadData(r: Reader, max: nat) returns (result: Result)
    requires r.size >= 3
    modifies r
    ensures result == Verdict(FromLineStart(old(r.unread)), max)
    ensures FromLineStart(old(r.unread)).Some? ==> r.unread == FromLineStart(old(r.unread)).value.rest
  {
    var buf: seq<byte> := [];
    var tooLarge := false;
    var atLineStart := true;
    ghost var stream := r.unread;
    ghost var taken: seq<byte> := [];
    assert FromLineStart(stream) == Prepend([], FromLineStart(stream)) by {
      if FromLineStart(stream).Some? {
        assert [] + FromLineStart(stream).value.body == FromLineStart(stream).value.body;
      }
    }
    while true
      invariant FromLineStart(stream) == Prepend(taken, From(atLineStart, r.unread))
      invariant tooLarge <==> |taken| > max
      invariant !tooLarge ==> buf == taken
      decreases |r.unread|
    {
      ghost var before := r.unread;
      var chunk, outcome := r.ReadSlice();
      if outcome == Broken {
        assert before == chunk;
        return Failed;
      }
      var complete := outcome == Line;
      if atLineStart && complete && IsTerminator(chunk) {
        WholeLine(chunk, r.unread);
        break;
      }
      SliceMoves(atLineStart, chunk, r.unread, complete);
      if atLineStart {
        chunk := Unstuff(chunk);
      }
      PrependTwice(taken, chunk, From(complete, r.unread));
      if !tooLarge {
        if |buf| + |chunk| > max {
          tooLarge := true;
          buf := [];
        } else {
          buf := buf + chunk;
        }
      }
      taken := taken + chunk;
      atLineStart := complete;
    }
    assert taken + [] == taken;
    result := if tooLarge then TooLarge else Body(buf);
  }

  // ----- what the reading means, without recursion over the stream -----

  function Concat(lines: seq<seq<byte>>): seq<byte> {
    if lines == [] then [] else lines[0] + Concat(lines[1..])
  }

  function UnstuffAll(lines: seq<seq<byte>>): seq<seq<byte>>
    decreases |lines|
  {
    if lines == [] then [] else [Unstuff(lines[0])] + UnstuffAll(lines[1..])
  }

  /** `s` is a run of ordinary lines, then a terminator, then `rest`. */
  ghost predicate Framed(s: seq<byte>, lines: seq<seq<byte>>, end: seq<byte>, rest: seq<byte>) {
    && s == Concat(lines) + end + rest
    && IsTerminator(end)
    && forall line <- lines :: IsLine(line) && !IsTerminator(line)
  }

  lemma {:induction false} FramedReads(s: seq<byte>, lines: seq<seq<byte>>, end: seq<byte>, rest: seq<byte>)
    requires Framed(s, lines, end, rest)
    ensures FromLineStart(s) == Some(Reading(Concat(UnstuffAll(lines)), rest))
    decreases |lines|
  {
    if lines == [] {
      assert s == end + rest;
      WholeLine(end, rest);
    } else {
      var tail := Concat(lines[1..]) + end + rest;
      assert s == lines[0] + tail;
      assert Framed(tail, lines[1..], end, rest);
      FramedReads(tail, lines[1..], end, rest);
      WholeLine(lines[0], tail);
    }
  }

  lemma FrameMore(line: seq<byte>, s: seq<byte>, lines: seq<seq<byte>>, end: seq<byte>, rest: seq<byte>)
    requires Framed(s, lines, end, rest) && IsLine(line) && !IsTerminator(line)
    ensures Framed(line + s, [line] + lines, end, rest)
  {
    assert ([line] + lines)[1..] == lines;
    assert line + (Concat(lines) + end + rest) == (line + Concat(lines)) + end + rest;
  }

  lemma {:induction false} ReadsFramed(s: seq<byte>) returns (lines: seq<seq<byte>>, end: seq<byte>)
    requires FromLineStart(s).Some?
    ensures Framed(s, lines, end, FromLineStart(s).value.rest)
    decreases |s|
  {
    var n := LineLength(s);
    LineSplit(s);
    var line, tail := s[..n], s[n..];
    assert s == line + tail;
    if IsTerminator(line) {
      lines, end := [], line;
      assert s == Concat(lines) + end + tail;
    } else {
      lines, end := ReadsFramed(tail);
      FrameMore(line, tail, lines, end, FromLineStart(s).value.rest);
      lines := [line] + lines;
    }
  }

  /**
   * The reading exists exactly when the stream is ordinary lines followed by a
   * terminator; the body is then those lines unstuffed, and the bytes behind
   * the terminator are untouched.  No other split of the stream is possible.
   */
  lemma ReadingIsFraming(s: seq<byte>, body: seq<byte>, rest: seq<byte>)
    ensures FromLineStart(s) == Some(Reading(body, rest))
       <==> exists lines, end :: Framed(s, lines, end, rest) && body == Concat(UnstuffAll(lines))
  {
    if FromLineStart(s) == Some(Reading(body, rest)) {
      var lines, end := ReadsFramed(s);
      FramedReads(s, lines, end, rest);
    }
    forall lines, end | Framed(s, lines, end, rest)
      ensures FromLineStart(s) == Some(Reading(Concat(UnstuffAll(lines)), rest))
    {
      FramedReads(s, lines, end, rest);
    }
  }

  // ----- the sender's side and the round trip -----

  /** What a client sends for `body`: every line that starts with a dot gets another one. */
  function Stuff(body: seq<byte>): seq<byte>
    decreases |body|
  {
    if body == [] then []
    else
      var n := LineLength(body);
      (if body[0] == DOT then [DOT] else []) + body[..n] + Stuff(body[n..])
  }

  /** One line on the wire: never a terminator, and it reads back as the line itself. */
  lemma StuffedLine(line: seq<byte>, rest: seq<byte>)
    requires IsLine(line)
    ensures var wire := (if line[0] == DOT then [DOT] else []) + line;
            FromLineStart(wire + rest) == Prepend(line, FromLineStart(rest))
  {
    var dots := if line[0] == DOT then [DOT] else [];
    Glue(dots, line);
    NoShortTerminator(dots + line);
    assert Unstuff(dots + line) == line;
    WholeLine(dots + line, rest);
  }

  /** The stuffed form of a body that starts with `line`. */
  lemma StuffFirst(line: seq<byte>, more: seq<byte>)
    requires IsLine(line)
    ensures Stuff(line + more) == (if line[0] == DOT then [DOT] else []) + line + Stuff(more)
  {
    LineLengthOfLine(line, more);
  }

  lemma RoundTripStep(line: seq<byte>, more: seq<byte>, back: seq<byte>, rest: seq<byte>, behind: seq<byte>)
    requires IsLine(line)
    requires FromLineStart(Stuff(more) + behind) == Some(Reading(back, rest))
    ensures FromLineStart(Stuff(line + more) + behind) == Some(Reading(line + back, rest))
  {
    StuffFirst(line, more);
    WireThen(line, (if line[0] == DOT then [DOT] else []) + line, Stuff(more), behind);
  }

  lemma WireThen(line: seq<byte>, wire: seq<byte>, more: seq<byte>, behind: seq<byte>)
    requires IsLine(line) && wire == (if line[0] == DOT then [DOT] else []) + line
    ensures FromLineStart(wire + more + behind) == Prepend(line, FromLineStart(more + behind))
  {
    Associative(wire, more, behind);
    StuffedLine(line, more + behind);
  }

  /** Any body of whole lines comes back unchanged, and pipelined bytes stay unread. */
  lemma {:induction false} RoundTrip(body: seq<byte>, end: seq<byte>, pipelined: seq<byte>)
    requires body != [] ==> body[|body| - 1] == LF
    requires IsTerminator(end)
    ensures FromLineStart(Stuff(body) + (end + pipelined)) == Some(Reading(body, pipelined))
    decreases |body|
  {
    if body == [] {
      assert Stuff(body) + (end + pipelined) == end + pipelined;
      WholeLine(end, pipelined);
    } else {
      var line, more := FirstLine(body);
      RoundTrip(more, end, pipelined);
      RoundTripStep(line, more, more, pipelined, end + pipelined);
    }
  }

  // ----- the bytes themselves -----

  /** ".\r\n" and ".\n" end the data at once, and nothing else does. */
  lemma TerminatorsAre(end: seq<byte>)
    ensures IsTerminator(end) <==> end == [46, 13, 10] || end == [46, 10]
  {
  }

  /**
   * One line of text on the wire.  With a dot in front it loses just that dot,
   * unless it was the terminator; without one it is taken as it stands.
   */
  lemma LineOnTheWire(text: seq<byte>, rest: seq<byte>)
    requires 10 !in text
    ensures text == [] || text[0] != 46 ==>
              FromLineStart(text + [10] + rest) == Prepend(text + [10], FromLineStart(rest))
    ensures FromLineStart([46] + text + [10] + rest)
         == if text == [] || text == [13] then Some(Reading([], rest)) else Prepend(text + [10], FromLineStart(rest))
  {
    PlainLine(text, text + [10], rest);
    DottedLine(text, [46] + text + [10], rest);
  }

  lemma PlainLine(text: seq<byte>, line: seq<byte>, rest: seq<byte>)
    requires 10 !in text && line == text + [10]
    ensures text == [] || text[0] != 46 ==> FromLineStart(line + rest) == Prepend(line, FromLineStart(rest))
  {
    assert IsLine(line);
    WholeLine(line, rest);
  }

  lemma DottedLine(text: seq<byte>, line: seq<byte>, rest: seq<byte>)
    requires 10 !in text && line == [46] + text + [10]
    ensures FromLineStart(line + rest)
         == if text == [] || text == [13] then Some(Reading([], rest)) else Prepend(text + [10], FromLineStart(rest))
  {
    assert IsLine(line) && line[1..] == text + [10];
    WholeLine(line, rest);
    TerminatorsAre(line);
    assert line == [46, 10] <==> text == [] by {
      assert |line| == |text| + 2;
    }
    assert line == [46, 13, 10] <==> text == [13] by {
      assert |text| == 1 ==> text == [line[1]];
    }
  }

  /** What is sent for a line: a dot more, exactly if it starts with one. */
  lemma StuffedOnTheWire(text: seq<byte>, more: seq<byte>)
    requires 10 !in text
    ensures Stuff(text + [10] + more)
         == (if text != [] && text[0] == 46 then [46] else []) + text + [10] + Stuff(more)
  {
    var line := text + [10];
    assert IsLine(line);
    StuffFirst(line, more);
    assert text != [] ==> line[0] == text[0];
    Associative(if text != [] && text[0] == 46 then [46] else [], text, [10]);
  }

  /** The round trip as the bytes travel. */
  lemma RoundTripOnTheWire(body: seq<byte>, pipelined: seq<byte>)
    requires body != [] ==> body[|body| - 1] == 10
    ensures FromLineStart(Stuff(body) + ([46, 13, 10] + pipelined)) == Some(Reading(body, pipelined))
    ensures FromLineStart(Stuff(body) + ([46, 10] + pipelined)) == Some(Reading(body, pipelined))
  {
    RoundTrip(body, [46, 13, 10], pipelined);
    RoundTrip(body, [46, 10], pipelined);
  }
}
