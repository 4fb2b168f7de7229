/**
 * The SMTP session on its connection: one stream of bytes from which the
 * buffered reader takes command lines, AUTH answers and message data in turn,
 * and which STARTTLS replaces by another one.  The reference says what each
 * command takes from the stream; the session object, with its fields and its
 * reader, is proved to do just that.
 */
module Connection {
  import opened Bytes
  import opened Text
  import opened Session
  import DataReader

  /** The size of the session's reader; a command line must fit it. */
  const LINE_SIZE := 4096

  /** What is decided neither by the session nor by the bytes that arrive. */
  datatype Outside = Outside(
    sent: bool,           // the reply (for DATA and STARTTLS the first one) goes through
    sentLast: bool,       // the reply after DATA goes through
    firstPrompt: bool,    // AUTH's prompts go through
    secondPrompt: bool,
    handshake: bool,      // the TLS handshake succeeds
    rejects: bool,        // the failure rules refuse this recipient or message
    closing: bool,        // the server is shutting down when the command is over
    secured: seq<byte>)   // what the peer sends over TLS, if that is now switched on

  /** base64 and the server's check of a user and a password. */
  datatype Library = Library(decode: string -> Option<string>, valid: (string, string) -> bool)

  // ----- command lines -----

  function Chars(s: seq<byte>): string { seq(|s|, i requires 0 <= i < |s| => s[i] as int as char) }

  function TrimLineEnd(s: string): string {
    if s != [] && (s[|s| - 1] == '\r' || s[|s| - 1] == '\n') then TrimLineEnd(s[..|s| - 1]) else s
  }

  datatype Piece = Piece(input: Input, rest: seq<byte>)

  /** The next command line and what follows it; a line that does not fit the reader is skipped whole. */
  function CutLine(s: seq<byte>): Piece {
    if LF !in s then Piece(Broken, [])
    else
      var n := DataReader.LineLength(s);
      Piece(if n > LINE_SIZE then TooLong else Line(TrimLineEnd(Chars(s[..n]))), s[n..])
  }

  lemma CutFirst(line: seq<byte>, rest: seq<byte>)
    requires DataReader.IsLine(line)
    ensures CutLine(line + rest) == Piece(if |line| > LINE_SIZE then TooLong else Line(TrimLineEnd(Chars(line))), rest)
  {
    DataReader.LineLengthOfLine(line, rest);
  }

  /** `readCommand` */
  method ReadCommand(r: DataReader.Reader) returns (input: Input)
    requires r.size == LINE_SIZE
    modifies r
    ensures input == CutLine(old(r.unread)).input
    ensures input != Broken ==> r.unread == CutLine(old(r.unread)).rest
  {
    var chunk, outcome := r.ReadSlice();
    if outcome == DataReader.Line {
      CutFirst(chunk, r.unread);
      return Line(TrimLineEnd(Chars(chunk)));
    }
    ghost var taken := chunk;
    var tooLong := outcome == DataReader.Full;
    while outcome == DataReader.Full
      invariant taken + r.unread == old(r.unread)
      invariant tooLong <==> |taken| >= LINE_SIZE
      invariant outcome == DataReader.Line ==> tooLong && DataReader.IsLine(taken) && |taken| > LINE_SIZE
      invariant outcome != DataReader.Line ==> LF !in taken
      invariant outcome == DataReader.Broken ==> r.unread == []
      decreases |r.unread|, outcome == DataReader.Full
    {
      chunk, outcome := r.ReadSlice();
      assert taken + (chunk + r.unread) == taken + chunk + r.unread;
      if outcome == DataReader.Line {
        DataReader.Glue(taken, chunk);
      }
      taken := taken + chunk;
    }
    if outcome == DataReader.Broken {
      assert taken == old(r.unread);
      return Broken;
    }
    CutFirst(taken, r.unread);
    return TooLong;
  }

  // ----- the exchange of AUTH -----

  datatype Answer = Got(data: string) | Gave(up: Exchange)

  datatype Heard = Heard(answer: Answer, rest: seq<byte>)

  datatype Dialogue = Dialogue(exchange: Exchange, rest: seq<byte>)

  function Decoded(lib: Library, line: string): Answer {
    if line == "*" then Gave(Cancelled)
    else if line == "=" then Got("")
    else
      match lib.decode(line)
      case None => Gave(BadBase64)
      case Some(data) => Got(data)
  }

  /** `challenge`: an initial response needs no prompt. */
  function Challenged(lib: Library, initial: string, prompted: bool, s: seq<byte>): Heard {
    if initial != "" then Heard(Decoded(lib, initial), s)
    else if !prompted then Heard(Gave(Cut), s)
    else
      var p := CutLine(s);
      Heard(if p.input.Line? then Decoded(lib, p.input.text) else Gave(Cut), p.rest)
  }

  datatype Login = Login(user: string, password: string)

  /** PLAIN: an identity, a user and a password with a zero byte between them. */
  function PlainLogin(data: string): Login {
    var i := IndexOf(data, '\0');
    if i == |data| then Login("", "")
    else
      var tail := data[i + 1..];
      var j := IndexOf(tail, '\0');
      if j == |tail| then Login("", "") else Login(tail[..j], tail[j + 1..])
  }

  function Initial(arg: string): string {
    var at := IndexOf(arg, ' ');
    if at < |arg| then arg[at + 1..] else ""
  }

  function Checked(lib: Library, login: Login): Exchange { Credentials(lib.valid(login.user, login.password)) }

  /** What AUTH hears, and what it leaves unread. */
  function Exchanged(lib: Library, arg: string, s: seq<byte>, o: Outside): Dialogue {
    var first := Challenged(lib, Initial(arg), o.firstPrompt, s);
    if first.answer.Gave? then Dialogue(first.answer.up, first.rest)
    else if Mechanism(arg) == "LOGIN" then
      var second := Challenged(lib, "", o.secondPrompt, first.rest);
      if second.answer.Gave? then Dialogue(second.answer.up, second.rest)
      else Dialogue(Checked(lib, Login(first.answer.data, second.answer.data)), second.rest)
    else Dialogue(Checked(lib, PlainLogin(first.answer.data)), first.rest)
  }

  // ----- the reference: the history of a stream -----

  /** Everything outside the session's control, once the bytes are known. */
  function WorldOf(lib: Library, arg: string, s: seq<byte>, o: Outside): World {
    World(o.sent, o.sentLast, o.handshake, Exchanged(lib, arg, s, o).exchange, o.rejects, s, o.closing)
  }

  /** The world of a command, but for what depends on the bytes. */
  predicate SameOutside(w: World, o: Outside) {
    w.sent == o.sent && w.sentLast == o.sentLast && w.handshake == o.handshake && w.rejects == o.rejects
  }

  function TurnOn(lib: Library, p: Piece, o: Outside): Turn {
    Turn(p.input, WorldOf(lib, if p.input.Line? then Argument(p.input.text) else "", p.rest, o))
  }

  predicate TakesData(m: Memory, o: Outside) {
    m.txn.Open? && m.txn.rcpts != [] && o.sent
  }

  predicate Secures(c: Config, m: Memory, verb: Verb, arg: string, o: Outside) {
    verb == STARTTLS && c.tlsOffered && !m.tls && arg == "" && o.sent && o.handshake
  }

  /** What a command leaves of the bytes behind its line. */
  function Unread(lib: Library, m: Memory, verb: Verb, arg: string, s: seq<byte>, o: Outside): seq<byte> {
    if verb == DATA && TakesData(m, o) then
      var r := DataReader.FromLineStart(s);
      if r.Some? then r.value.rest else []
    else if verb == AUTH && Negotiates(m, arg) then Exchanged(lib, arg, s, o).rest
    else s
  }

  /** The stream after a command: what was buffered in plain text is gone once TLS is on. */
  function Ahead(c: Config, lib: Library, m: Memory, verb: Verb, arg: string, s: seq<byte>, o: Outside): seq<byte> {
    if Secures(c, m, verb, arg, o) then o.secured else Unread(lib, m, verb, arg, s, o)
  }

  datatype Conn = Conn(log: seq<Act>, rest: seq<byte>)

  /** What the session, as it remembers its history, does about the next command in the stream. */
  function Answered(c: Config, lib: Library, m: Memory, s: seq<byte>, o: Outside): Reaction {
    React(c, m, TurnOn(lib, CutLine(s), o))
  }

  /** What it leaves of the stream. */
  function LeftOf(c: Config, lib: Library, m: Memory, p: Piece, o: Outside): seq<byte> {
    if p.input.Line? then Ahead(c, lib, m, Word(p.input.text), Argument(p.input.text), p.rest, o) else p.rest
  }

  function ReactionTo(c: Config, lib: Library, conn: Conn, o: Outside): Reaction {
    Answered(c, lib, Recall(conn.log), conn.rest, o)
  }

  /** One turn of serve() on the stream. */
  function OnStream(c: Config, lib: Library, conn: Conn, o: Outside): Conn {
    Conn(Extend(conn.log, ReactionTo(c, lib, conn, o)), LeftOf(c, lib, Recall(conn.log), CutLine(conn.rest), o))
  }

  function Talk(c: Config, lib: Library, conn: Conn, outs: seq<Outside>): Conn
    decreases |outs|
  {
    if outs == [] || Ended in conn.log then conn else Talk(c, lib, OnStream(c, lib, conn, outs[0]), outs[1..])
  }

  /** The commands, as they were cut out of the stream. */
  function Turns(c: Config, lib: Library, conn: Conn, outs: seq<Outside>): seq<Turn>
    decreases |outs|
  {
    if outs == [] || Ended in conn.log then []
    else [TurnOn(lib, CutLine(conn.rest), outs[0])] + Turns(c, lib, OnStream(c, lib, conn, outs[0]), outs[1..])
  }

  lemma {:induction false} TalkContinues(c: Config, lib: Library, conn: Conn, outs: seq<Outside>)
    ensures Talk(c, lib, conn, outs).log == Continued(c, conn.log, Turns(c, lib, conn, outs))
    decreases |outs|
  {
    if outs != [] && Ended !in conn.log {
      var turn, next := TurnOn(lib, CutLine(conn.rest), outs[0]), OnStream(c, lib, conn, outs[0]);
      TalkContinues(c, lib, next, outs[1..]);
      assert ([turn] + Turns(c, lib, next, outs[1..]))[1..] == Turns(c, lib, next, outs[1..]);
    }
  }

  /** A connection's history is that of its commands: what is proved of histories holds of every stream of bytes. */
  lemma TalkIsHistory(c: Config, lib: Library, stream: seq<byte>, outs: seq<Outside>)
    ensures Talk(c, lib, Conn([], stream), outs).log == History(c, Turns(c, lib, Conn([], stream), outs))
  {
    var turns := Turns(c, lib, Conn([], stream), outs);
    TalkContinues(c, lib, Conn([], stream), outs);
    HistoryContinues(c, turns, 0);
    assert turns[..0] == [] && turns[0..] == turns;
  }

  // ----- pipelining -----

  lemma CutLineMore(s: seq<byte>, tail: seq<byte>)
    requires LF in s
    ensures CutLine(s + tail) == CutLine(s).(rest := CutLine(s).rest + tail)
  {
    var line, more := DataReader.FirstLine(s);
    assert s + tail == line + (more + tail);
    CutFirst(line, more);
    CutFirst(line, more + tail);
  }

  lemma ReadingMore(s: seq<byte>, tail: seq<byte>)
    requires DataReader.FromLineStart(s).Some?
    ensures var r := DataReader.FromLineStart(s).value;
            DataReader.FromLineStart(s + tail) == Some(r.(rest := r.rest + tail))
  {
    var rest := DataReader.FromLineStart(s).value.rest;
    var lines, end := DataReader.ReadsFramed(s);
    DataReader.FramedReads(s, lines, end, rest);
    assert s + tail == DataReader.Concat(lines) + end + (rest + tail);
    DataReader.FramedReads(s + tail, lines, end, rest + tail);
  }

  /** A challenge that needs no more bytes than there are. */
  predicate Answers(initial: string, prompted: bool, s: seq<byte>) { initial != "" || !prompted || LF in s }

  /** The same for a whole exchange. */
  predicate Fed(lib: Library, arg: string, s: seq<byte>, o: Outside) {
    && Answers(Initial(arg), o.firstPrompt, s)
    && var first := Challenged(lib, Initial(arg), o.firstPrompt, s);
       first.answer.Got? && Mechanism(arg) == "LOGIN" ==> Answers("", o.secondPrompt, first.rest)
  }

  /** The same for a command: its message or its AUTH answers are all there. */
  predicate Complete(lib: Library, m: Memory, verb: Verb, arg: string, s: seq<byte>, o: Outside) {
    && (verb == DATA && TakesData(m, o) ==> DataReader.FromLineStart(s).Some?)
    && (verb == AUTH && Negotiates(m, arg) ==> Fed(lib, arg, s, o))
  }

  lemma ChallengedMore(lib: Library, initial: string, prompted: bool, s: seq<byte>, tail: seq<byte>)
    requires Answers(initial, prompted, s)
    ensures var h := Challenged(lib, initial, prompted, s);
            Challenged(lib, initial, prompted, s + tail) == h.(rest := h.rest + tail)
  {
    if initial == "" && prompted {
      CutLineMore(s, tail);
    }
  }

  lemma ExchangedMore(lib: Library, arg: string, s: seq<byte>, o: Outside, tail: seq<byte>)
    requires Fed(lib, arg, s, o)
    ensures var d := Exchanged(lib, arg, s, o); Exchanged(lib, arg, s + tail, o) == d.(rest := d.rest + tail)
  {
    var first := Challenged(lib, Initial(arg), o.firstPrompt, s);
    ChallengedMore(lib, Initial(arg), o.firstPrompt, s, tail);
    if first.answer.Got? && Mechanism(arg) == "LOGIN" {
      ChallengedMore(lib, "", o.secondPrompt, first.rest, tail);
    }
  }

  lemma DataMore(c: Config, lib: Library, m: Memory, arg: string, s: seq<byte>, o: Outside, tail: seq<byte>)
    requires Complete(lib, m, DATA, arg, s, o)
    ensures OnData(c, m, WorldOf(lib, arg, s + tail, o)) == OnData(c, m, WorldOf(lib, arg, s, o))
    ensures Unread(lib, m, DATA, arg, s + tail, o) == Unread(lib, m, DATA, arg, s, o) + tail
  {
    if TakesData(m, o) {
      ReadingMore(s, tail);
    }
  }

  lemma AuthMore(c: Config, lib: Library, m: Memory, arg: string, s: seq<byte>, o: Outside, tail: seq<byte>)
    requires Complete(lib, m, AUTH, arg, s, o)
    ensures OnAuth(c, m, arg, WorldOf(lib, arg, s + tail, o)) == OnAuth(c, m, arg, WorldOf(lib, arg, s, o))
    ensures Unread(lib, m, AUTH, arg, s + tail, o) == Unread(lib, m, AUTH, arg, s, o) + tail
  {
    if Negotiates(m, arg) {
      ExchangedMore(lib, arg, s, o, tail);
    }
  }

  /** More bytes behind a complete command do not change what it does, and stay unread. */
  lemma CommandMore(
    c: Config, lib: Library, m: Memory, verb: Verb, arg: string, s: seq<byte>, o: Outside, tail: seq<byte>)
    requires Complete(lib, m, verb, arg, s, o)
    ensures OnCommand(c, m, verb, arg, WorldOf(lib, arg, s + tail, o))
         == OnCommand(c, m, verb, arg, WorldOf(lib, arg, s, o))
    ensures Unread(lib, m, verb, arg, s + tail, o) == Unread(lib, m, verb, arg, s, o) + tail
  {
    if verb == DATA {
      DataMore(c, lib, m, arg, s, o, tail);
    } else if verb == AUTH {
      AuthMore(c, lib, m, arg, s, o, tail);
    }
  }

  /** `frame` is one command with everything that belongs to it and nothing else. */
  predicate Whole(lib: Library, log: seq<Act>, frame: seq<byte>, o: Outside) {
    && LF in frame
    && var p := CutLine(frame);
       if p.input.Line? then
         && Complete(lib, Recall(log), Word(p.input.text), Argument(p.input.text), p.rest, o)
         && Unread(lib, Recall(log), Word(p.input.text), Argument(p.input.text), p.rest, o) == []
       else p.rest == []
  }

  predicate SwitchesToTls(c: Config, log: seq<Act>, frame: seq<byte>, o: Outside) {
    var p := CutLine(frame);
    p.input.Line? && Secures(c, Recall(log), Word(p.input.text), Argument(p.input.text), o)
  }

  lemma FrameMore(c: Config, lib: Library, log: seq<Act>, frame: seq<byte>, o: Outside, tail: seq<byte>)
    requires Whole(lib, log, frame, o)
    ensures OnStream(c, lib, Conn(log, frame + tail), o)
         == OnStream(c, lib, Conn(log, frame), o).(rest := if SwitchesToTls(c, log, frame, o) then o.secured else tail)
  {
    var p := CutLine(frame);
    CutLineMore(frame, tail);
    if p.input.Line? {
      CommandMore(c, lib, Recall(log), Word(p.input.text), Argument(p.input.text), p.rest, o, tail);
    }
    assert [] + tail == tail;
  }

  /** The history when every frame is sent alone, after the reply to the one before, until the session ends. */
  function LockStep(c: Config, lib: Library, log: seq<Act>, frames: seq<seq<byte>>, outs: seq<Outside>): seq<Act>
    requires |frames| == |outs|
    decreases |frames|
  {
    if frames == [] || Ended in log then log
    else LockStep(c, lib, OnStream(c, lib, Conn(log, frames[0]), outs[0]).log, frames[1..], outs[1..])
  }

  /**
   * The stream holds these frames one behind the other; behind a STARTTLS that
   * goes through it may hold anything, and the others come over TLS.  Behind
   * a frame that ends the session it may hold anything too.
   */
  ghost predicate Carries(
    c: Config, lib: Library, log: seq<Act>, stream: seq<byte>, frames: seq<seq<byte>>, outs: seq<Outside>)
    requires |frames| == |outs|
    decreases |frames|
  {
    frames != [] && Ended !in log ==>
      && Whole(lib, log, frames[0], outs[0])
      && frames[0] <= stream
      && Carries(c, lib, OnStream(c, lib, Conn(log, frames[0]), outs[0]).log,
                 if SwitchesToTls(c, log, frames[0], outs[0]) then outs[0].secured else stream[|frames[0]|..],
                 frames[1..], outs[1..])
  }

  /**
   * Pipelining changes nothing: a client that sends its commands, AUTH answers
   * and messages all at once, up to a QUIT or whatever else ends the session,
   * gets the history of one that waits for every reply; and plain text sent
   * ahead of the TLS handshake has no effect.
   */
  lemma {:induction false} PipeliningChangesNothing(
    c: Config, lib: Library, log: seq<Act>, stream: seq<byte>, frames: seq<seq<byte>>, outs: seq<Outside>)
    requires |frames| == |outs| && Carries(c, lib, log, stream, frames, outs)
    ensures Talk(c, lib, Conn(log, stream), outs).log == LockStep(c, lib, log, frames, outs)
    decreases |frames|
  {
    if frames != [] && Ended !in log {
      var tail := stream[|frames[0]|..];
      assert stream == frames[0] + tail;
      FrameMore(c, lib, log, frames[0], outs[0], tail);
      var next := OnStream(c, lib, Conn(log, stream), outs[0]);
      PipeliningChangesNothing(c, lib, next.log, next.rest, frames[1..], outs[1..]);
    }
  }

  /** A message of whole lines, within the limit, and something to end it with. */
  predicate Sendable(c: Config, body: seq<byte>, end: seq<byte>) {
    (body != [] ==> body[|body| - 1] == LF) && |body| <= c.maxSize && DataReader.IsTerminator(end)
  }

  /** The session is ready for a message and nothing gets in its way. */
  predicate Delivering(m: Memory, o: Outside) {
    TakesData(m, o) && o.sentLast && !o.rejects && !o.closing
  }

  lemma MessageIsTaken(c: Config, m: Memory, body: seq<byte>, end: seq<byte>, w: World)
    requires Sendable(c, body, end) && m.txn.Open? && m.txn.rcpts != [] && w.sent && w.sentLast && !w.rejects
    ensures w.stream == DataReader.Stuff(body) + end ==>
              && OnData(c, m, w) == Reaction(Some(Handed(Envelope(m.txn.from, m.txn.rcpts, m.tls), body)), true)
              && DataReader.FromLineStart(w.stream) == Some(DataReader.Reading(body, []))
  {
    if w.stream == DataReader.Stuff(body) + end {
      assert DataReader.Stuff(body) + (end + []) == w.stream;
      DataReader.RoundTrip(body, end, []);
    }
  }

  /** How one command line is met. */
  lemma LineIsMet(c: Config, lib: Library, log: seq<Act>, line: seq<byte>, s: seq<byte>, o: Outside)
    requires DataReader.IsLine(line) && |line| <= LINE_SIZE && !o.closing
    ensures var text := TrimLineEnd(Chars(line));
            var r := OnCommand(c, Recall(log), Word(text), Argument(text), WorldOf(lib, Argument(text), s, o));
            && ReactionTo(c, lib, Conn(log, line + s), o) == r
            && (Complete(lib, Recall(log), Word(text), Argument(text), s, o) ==>
                  Unread(lib, Recall(log), Word(text), Argument(text), s, o) == [] ==> Whole(lib, log, line + s, o))
  {
    CutFirst(line, s);
    assert (line + s)[|line| - 1] == LF;
  }

  /** A DATA line with a dot-stuffed message behind it is a whole frame, and the Handler gets the message as it was. */
  lemma MessageIsWhole(
    c: Config, lib: Library, log: seq<Act>, line: seq<byte>, body: seq<byte>, end: seq<byte>, o: Outside, s: seq<byte>)
    requires DataReader.IsLine(line) && |line| <= LINE_SIZE && Sendable(c, body, end) && Delivering(Recall(log), o)
    ensures Word(TrimLineEnd(Chars(line))) == DATA && s == DataReader.Stuff(body) + end ==>
              var m := Recall(log);
              && Whole(lib, log, line + s, o)
              && ReactionTo(c, lib, Conn(log, line + s), o).act
              == Some(Handed(Envelope(m.txn.from, m.txn.rcpts, m.tls), body))
  {
    var text := TrimLineEnd(Chars(line));
    MessageIsTaken(c, Recall(log), body, end, WorldOf(lib, Argument(text), s, o));
    LineIsMet(c, lib, log, line, s, o);
  }

  // ----- the session object -----

  /** What is remembered after a reaction. */
  function Learned(m: Memory, r: Reaction): Memory { if r.act.Some? then Next(m, r.act.value) else m }

  lemma LearnedAll(log: seq<Act>, r: Reaction)
    ensures Recall(Extend(log, r)) == Learned(Recall(log), r)
  {
    if r.act.Some? {
      RecallMore(log, r.act.value);
    }
    if !r.alive {
      RecallMore(if r.act.Some? then log + [r.act.value] else log, Ended);
    }
  }

  /** `session`: its fields remember just enough of the history. */
  class SmtpSession {
    const config: Config
    const lib: Library
    var r: DataReader.Reader
    var helo: string
    var authed: bool
    var tls: bool
    var hasFrom: bool
    var from: string
    var rcpts: seq<string>
    var errCount: nat
    var handed: seq<Delivery>  // the calls of the Handler

    ghost function Fields(): Memory
      reads this
    {
      Memory(helo, authed, tls, if hasFrom then Open(from, rcpts) else Closed, errCount, handed)
    }

    ghost predicate Tidy()
      reads this
    {
      (!hasFrom ==> from == "" && rcpts == []) && r.size == LINE_SIZE
    }

    /** The fields are what looking back at the history would show. */
    ghost predicate Remembers(log: seq<Act>)
      reads this
    {
      Tidy() && Fields() == Recall(log)
    }

    /** `newSession` */
    constructor (config: Config, lib: Library, stream: seq<byte>)
      ensures Remembers([]) && fresh(r) && r.unread == stream
      ensures this.config == config && this.lib == lib
    {
      this.config := config;
      this.lib := lib;
      r := new DataReader.Reader(LINE_SIZE, stream);
      helo, authed, tls, hasFrom, from, rcpts, errCount, handed := "", false, false, false, "", [], 0, [];
    }

    method Reset()
      modifies this`hasFrom, this`from, this`rcpts
      ensures !hasFrom && from == "" && rcpts == []
    {
      hasFrom, from, rcpts := false, "", [];
    }

    /** `fail` */
    method Fail(o: Outside) returns (alive: bool)
      requires Tidy()
      modifies this`errCount
      ensures Fields() == Next(old(Fields()), Failure) && alive == (old(errCount) < MAX_ERRORS && o.sent)
    {
      errCount := errCount + 1;
      alive := !(errCount > MAX_ERRORS) && o.sent;
    }

    /** `hello` */
    method Hello(arg: string, o: Outside, ghost w: World) returns (alive: bool)
      requires Tidy() && SameOutside(w, o)
      modifies this
      ensures Tidy() && r == old(r)
      ensures var re := OnHello(old(Fields()), arg, w); Fields() == Learned(old(Fields()), re) && alive == re.alive
    {
      if arg == "" {
        alive := Fail(o);
        return;
      }
      Reset();
      helo := arg;
      alive := o.sent;
    }

    /** `startTLS`: a new reader, so that nothing buffered in plain text is left. */
    method StartTls(arg: string, o: Outside, ghost w: World) returns (alive: bool)
      requires Tidy() && SameOutside(w, o)
      modifies this
      ensures Tidy()
      ensures var re := OnStartTls(config, old(Fields()), arg, w);
              Fields() == Learned(old(Fields()), re) && alive == re.alive
      ensures if Secures(config, old(Fields()), STARTTLS, arg, o) then fresh(r) && r.unread == o.secured
              else r == old(r)
    {
      if !config.tlsOffered || tls || arg != "" {
        alive := Fail(o);
        return;
      }
      if !o.sent || !o.handshake {
        return false;
      }
      r := new DataReader.Reader(LINE_SIZE, o.secured);
      Secure();
      alive := true;
    }

    /** After the handshake the client has to greet and log in again. */
    method Secure()
      requires Tidy()
      modifies this
      ensures Tidy() && r == old(r) && Fields() == Next(old(Fields()), Secured)
    {
      tls := true;
      helo, authed := "", false;
      Reset();
    }

    /** `mail` */
    method Mail(arg: string, o: Outside, ghost w: World) returns (alive: bool)
      requires Tidy() && SameOutside(w, o)
      modifies this
      ensures Tidy() && r == old(r)
      ensures var re := OnMail(config, old(Fields()), arg, w);
              Fields() == Learned(old(Fields()), re) && alive == re.alive
    {
      var path := ParsePath(arg, "FROM:");
      var bad := CheckSender(config, path);
      if helo == "" || (config.authRequired && !authed) || hasFrom || bad {
        alive := Fail(o);
        return;
      }
      OpenFor(path.addr);
      alive := o.sent;
    }

    method OpenFor(sender: string)
      requires Tidy() && !hasFrom
      modifies this
      ensures Tidy() && r == old(r) && Fields() == Next(old(Fields()), MailOk(sender))
    {
      hasFrom, from := true, sender;
    }

    /** `rcpt` */
    method Rcpt(arg: string, o: Outside, ghost w: World) returns (alive: bool)
      requires Tidy() && SameOutside(w, o)
      modifies this
      ensures Tidy() && r == old(r)
      ensures var re := OnRcpt(config, old(Fields()), arg, w);
              Fields() == Learned(old(Fields()), re) && alive == re.alive
    {
      var path := ParsePath(arg, "TO:");
      if !hasFrom || path.BadPath? || path.addr == "" {
        alive := Fail(o);
        return;
      }
      if |rcpts| >= config.maxRecipients || o.rejects {
        return o.sent;
      }
      rcpts := rcpts + [path.addr];
      alive := o.sent;
    }

    /** `data` */
    method Data(arg: string, o: Outside, ghost w: World) returns (alive: bool)
      requires Tidy() && SameOutside(w, o) && w.stream == r.unread
      modifies this, r
      ensures Tidy() && r == old(r)
      ensures var re := OnData(config, old(Fields()), w);
              Fields() == Learned(old(Fields()), re) && alive == re.alive
      ensures alive ==> r.unread == Unread(lib, old(Fields()), DATA, arg, old(r.unread), o)
    {
      if |rcpts| == 0 {
        alive := Fail(o);
        return;
      }
      if !o.sent {
        return false;
      }
      var result := DataReader.ReadData(r, config.maxSize);
      if result.Failed? {
        return false;
      }
      Conclude(result, o.rejects);
      alive := o.sentLast;
    }

    /** The transaction is over whatever becomes of the message; the Handler sees its envelope. */
    method Conclude(result: DataReader.Result, rejects: bool)
      requires Tidy() && !result.Failed?
      modifies this
      ensures Tidy() && r == old(r)
      ensures Fields() == Next(old(Fields()), if result.TooLarge? then Cleared else if rejects then Rejected
                                              else Handed(Envelope(old(from), old(rcpts), old(tls)), result.bytes))
    {
      var env := Envelope(from, rcpts, tls);
      Reset();
      if !result.TooLarge? && !rejects {
        handed := handed + [Delivery(env, result.bytes)];
      }
    }

    /** `challenge` */
    method Challenge(initial: string, prompted: bool) returns (answer: Answer)
      requires r.size == LINE_SIZE
      modifies r
      ensures answer == Challenged(lib, initial, prompted, old(r.unread)).answer
      ensures answer != Gave(Cut) ==> r.unread == Challenged(lib, initial, prompted, old(r.unread)).rest
    {
      var line := initial;
      if line == "" {
        if !prompted {
          return Gave(Cut);
        }
        var input := ReadCommand(r);
        if !input.Line? {
          return Gave(Cut);
        }
        line := input.text;
      }
      answer := Decoded(lib, line);
    }

    method Converse(arg: string, o: Outside) returns (exchange: Exchange)
      requires r.size == LINE_SIZE
      modifies r
      ensures exchange == Exchanged(lib, arg, old(r.unread), o).exchange
      ensures exchange != Cut ==> r.unread == Exchanged(lib, arg, old(r.unread), o).rest
    {
      var first := Challenge(Initial(arg), o.firstPrompt);
      if first.Gave? {
        return first.up;
      }
      if Mechanism(arg) == "LOGIN" {
        var second := Challenge("", o.secondPrompt);
        if second.Gave? {
          return second.up;
        }
        return Checked(lib, Login(first.data, second.data));
      }
      return Checked(lib, PlainLogin(first.data));
    }

    /** `auth` */
    method Auth(arg: string, o: Outside, ghost w: World) returns (alive: bool)
      requires Tidy() && SameOutside(w, o) && w.exchange == Exchanged(lib, arg, r.unread, o).exchange
      modifies this, r
      ensures Tidy() && r == old(r)
      ensures var re := OnAuth(config, old(Fields()), arg, w);
              Fields() == Learned(old(Fields()), re) && alive == re.alive
      ensures alive ==> r.unread == Unread(lib, old(Fields()), AUTH, arg, old(r.unread), o)
    {
      if helo == "" || authed || !(Mechanism(arg) == "PLAIN" || Mechanism(arg) == "LOGIN") {
        alive := Fail(o);
      } else {
        alive := Negotiate(arg, o, w);
      }
    }

    method Negotiate(arg: string, o: Outside, ghost w: World) returns (alive: bool)
      requires Tidy() && SameOutside(w, o) && w.exchange == Exchanged(lib, arg, r.unread, o).exchange
      modifies this, r
      ensures Tidy() && r == old(r)
      ensures var re := AfterExchange(config, old(Fields()), w);
              Fields() == Learned(old(Fields()), re) && alive == re.alive
      ensures alive ==> r.unread == Exchanged(lib, arg, old(r.unread), o).rest
    {
      var exchange := Converse(arg, o);
      if exchange.Cut? {
        alive := false;
      } else {
        alive := Admit(exchange, o);
      }
    }

    /** The end of the exchange. */
    method Admit(exchange: Exchange, o: Outside) returns (alive: bool)
      requires Tidy() && !exchange.Cut?
      modifies this
      ensures Tidy() && r == old(r)
      ensures if exchange.Credentials? && (config.authRequired ==> exchange.valid)
              then Fields() == Next(old(Fields()), LoggedIn) && alive == o.sent
              else Fields() == Next(old(Fields()), Failure) && alive == (old(errCount) < MAX_ERRORS && o.sent)
    {
      if exchange.Cancelled? || exchange.BadBase64? || (config.authRequired && !exchange.valid) {
        alive := Fail(o);
        return;
      }
      authed := true;
      alive := o.sent;
    }

    /** `handle` */
    method Handle(verb: Verb, arg: string, o: Outside) returns (alive: bool)
      requires Tidy()
      modifies this, r
      ensures Tidy() && (r == old(r) || fresh(r))
      ensures var re := OnCommand(config, old(Fields()), verb, arg, WorldOf(lib, arg, old(r.unread), o));
              Fields() == Learned(old(Fields()), re) && alive == re.alive
      ensures alive ==> r.unread == Ahead(config, lib, old(Fields()), verb, arg, old(r.unread), o)
    {
      ghost var w := WorldOf(lib, arg, r.unread, o);
      match verb {
        case HELLO => alive := Hello(arg, o, w);
        case MAIL => alive := Mail(arg, o, w);
        case RCPT => alive := Rcpt(arg, o, w);
        case DATA => alive := Data(arg, o, w);
        case RSET =>
          Reset();
          alive := o.sent;
        case POLITE => alive := o.sent;
        case QUIT => alive := false;
        case AUTH => alive := Auth(arg, o, w);
        case STARTTLS => alive := StartTls(arg, o, w);
        case UNKNOWN => alive := Fail(o);
      }
    }

    /** One turn of `serve`, once the line is read. */
    method Respond(input: Input, o: Outside, ghost p: Piece) returns (alive: bool)
      requires Tidy() && p.input == input && (input != Broken ==> r.unread == p.rest)
      modifies this, r
      ensures Tidy() && (r == old(r) || fresh(r))
      ensures var re := React(config, old(Fields()), TurnOn(lib, p, o));
              Fields() == Learned(old(Fields()), re) && alive == re.alive
      ensures alive ==> r.unread == LeftOf(config, lib, old(Fields()), p, o)
    {
      match input {
        case Broken => alive := false;
        case TooLong => alive := Fail(o);
        case Line(text) =>
          alive := Handle(Word(text), Argument(text), o);
          alive := alive && !o.closing;
      }
    }

    method Turn(o: Outside) returns (alive: bool)
      requires Tidy()
      modifies this, r
      ensures Tidy() && (r == old(r) || fresh(r))
      ensures var re := Answered(config, lib, old(Fields()), old(r.unread), o);
              Fields() == Learned(old(Fields()), re) && alive == re.alive
      ensures alive ==> r.unread == LeftOf(config, lib, old(Fields()), CutLine(old(r.unread)), o)
    {
      ghost var p := CutLine(r.unread);
      var input := ReadCommand(r);
      alive := Respond(input, o, p);
    }

    /** `serve`: the object goes through exactly the history that the stream prescribes. */
    method Serve(outs: seq<Outside>) returns (ghost log: seq<Act>)
      requires Remembers([])
      modifies this, r
      ensures log == Talk(config, lib, Conn([], old(r.unread)), outs).log
      ensures Remembers(log) && handed == Deliveries(log)
    {
      log := [];
      var alive := true;
      var i := 0;
      ghost var start := Conn([], r.unread);
      while alive && i < |outs|
        invariant 0 <= i <= |outs| && Remembers(log) && (r == old(r) || fresh(r))
        invariant alive ==> Ended !in log
        invariant Talk(config, lib, start, outs).log
               == if alive then Talk(config, lib, Conn(log, r.unread), outs[i..]).log else log
      {
        ghost var before := Conn(log, r.unread);
        alive := Turn(outs[i]);
        TalkStep(config, lib, before, outs, i);
        LearnedAll(log, ReactionTo(config, lib, before, outs[i]));
        log := OnStream(config, lib, before, outs[i]).log;
        i := i + 1;
      }
    }
  }

  lemma TalkStep(c: Config, lib: Library, conn: Conn, outs: seq<Outside>, i: nat)
    requires i < |outs| && Ended !in conn.log
    ensures var next := OnStream(c, lib, conn, outs[i]);
            && (ReactionTo(c, lib, conn, outs[i]).alive <==> Ended !in next.log)
            && Talk(c, lib, conn, outs[i..]) == Talk(c, lib, next, outs[i + 1..])
            && (Ended in next.log ==> Talk(c, lib, next, outs[i + 1..]) == next)
  {
    assert outs[i..][1..] == outs[i + 1..];
    TurnExplains(c, conn.log, TurnOn(lib, CutLine(conn.rest), outs[i]));
  }
}
