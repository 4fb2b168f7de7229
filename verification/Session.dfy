/**
 * The SMTP command session.  The reference keeps no state but the history of
 * what was accepted: every reply is decided by looking back at it.
 */
module Session {
  import opened Bytes
  import opened Text
  import DataReader

  datatype Envelope = Envelope(from: string, to: seq<string>, tls: bool)

  /** What a session leaves behind; replies that change nothing leave nothing. */
  datatype Act =
    | Hello(name: string)
    | Secured
    | LoggedIn
    | MailOk(from: string)
    | RcptOk(to: string)
    | Cleared                                  // RSET, or a message that was too large
    | Rejected                                 // refused at the data stage
    | Handed(env: Envelope, body: seq<byte>)   // the Handler was called
    | Failure                                  // counted by fail()
    | Ended

  const MAX_ERRORS := 10

  datatype Config = Config(maxRecipients: nat, maxSize: nat, authRequired: bool, tlsOffered: bool)

  /** How the credential exchange of AUTH goes; `valid` is what the server's check says. */
  datatype Exchange = Cancelled | BadBase64 | Cut | Credentials(valid: bool)

  /** Everything outside the session's control during one command. */
  datatype World = World(
    sent: bool,            // the reply (for DATA and STARTTLS the first one) goes through
    sentLast: bool,        // the reply after DATA goes through
    handshake: bool,       // the TLS handshake succeeds
    exchange: Exchange,
    rejects: bool,         // the failure rules refuse this recipient or message
    stream: seq<byte>,     // what the peer sends after DATA
    closing: bool)         // the server is shutting down when the command is over

  datatype Input = Line(text: string) | TooLong | Broken

  datatype Turn = Turn(input: Input, world: World)

  // ----- looking back -----

  function Helo(log: seq<Act>): string {
    if log == [] then ""
    else
      match log[|log| - 1]
      case Hello(name) => name
      case Secured => ""
      case _ => Helo(log[..|log| - 1])
  }

  predicate Authed(log: seq<Act>) {
    log != [] &&
    match log[|log| - 1]
    case LoggedIn => true
    case Secured => false
    case _ => Authed(log[..|log| - 1])
  }

  predicate OnTls(log: seq<Act>) { Secured in log }

  datatype Txn = Closed | Open(from: string, rcpts: seq<string>)

  predicate EndsTxn(a: Act) { a.Hello? || a.Secured? || a.Cleared? || a.Rejected? || a.Handed? }

  function NextTxn(before: Txn, a: Act): Txn {
    if EndsTxn(a) then Closed
    else if a.MailOk? then Open(a.from, [])
    else if a.RcptOk? && before.Open? then before.(rcpts := before.rcpts + [a.to])
    else before
  }

  /** The mail transaction in progress. */
  function Transaction(log: seq<Act>): Txn {
    if log == [] then Closed else NextTxn(Transaction(log[..|log| - 1]), log[|log| - 1])
  }

  function Failures(log: seq<Act>): nat {
    if log == [] then 0 else Failures(log[..|log| - 1]) + if log[|log| - 1].Failure? then 1 else 0
  }

  datatype Delivery = Delivery(env: Envelope, body: seq<byte>)

  /** The Handler calls of a history. */
  function Deliveries(log: seq<Act>): seq<Delivery> {
    if log == [] then []
    else
      var a := log[|log| - 1];
      Deliveries(log[..|log| - 1]) + if a.Handed? then [Delivery(a.env, a.body)] else []
  }

  /** What looking back at a history shows. */
  datatype Memory = Memory(helo: string, authed: bool, tls: bool, txn: Txn, failures: nat, handed: seq<Delivery>)

  function Recall(log: seq<Act>): Memory {
    Memory(Helo(log), Authed(log), OnTls(log), Transaction(log), Failures(log), Deliveries(log))
  }

  function Next(m: Memory, a: Act): Memory {
    Memory(if a.Hello? then a.name else if a.Secured? then "" else m.helo,
           a.LoggedIn? || (!a.Secured? && m.authed),
           a.Secured? || m.tls,
           NextTxn(m.txn, a),
           m.failures + if a.Failure? then 1 else 0,
           m.handed + if a.Handed? then [Delivery(a.env, a.body)] else [])
  }

  // ----- parsing -----

  datatype Path = BadPath | Path(addr: string, params: seq<string>)

  /** `parsePath` */
  function ParsePath(arg: string, prefix: string): Path {
    if |arg| < |prefix| || !EqualFold(arg[..|prefix|], prefix) then BadPath else PathOf(TrimSpace(arg[|prefix|..]))
  }

  function PathOf(rest: string): Path {
    if rest != [] && rest[0] == '<' then
      var end := IndexOf(rest, '>');
      if end == |rest| || end == 0 then BadPath else Route(rest[1..end], Fields(rest[end + 1..]))
    else
      var fields := Fields(rest);
      if fields == [] then BadPath else Route(fields[0], Fields(JoinSpaced(fields[1..])))
  }

  /** A source route "@a,b:user@host" is dropped; white space in an address is not allowed. */
  function Route(addr: string, params: seq<string>): Path {
    var plain := Unrouted(addr);
    if exists c <- plain :: c == ' ' || c == '\t' || c == '\r' || c == '\n' then BadPath else Path(plain, params)
  }

  lemma {:induction false} BracketEnd(before: string)
    requires '>' !in before
    ensures IndexOf(before + ['>'], '>') == |before|
  {
    if before != [] {
      assert before[0] in before;
      BracketEnd(before[1..]);
      assert (before + ['>'])[1..] == before[1..] + ['>'];
    }
  }

  predicate Clean(addr: string) { forall c <- addr :: c != ' ' && c != '\t' && c != '\r' && c != '\n' && c != '>' }

  function Unrouted(addr: string): string { if HasPrefix(addr, "@") then addr[PastLast(addr, ':')..] else addr }

  lemma {:induction false} BracketsAreStripped(addr: string)
    requires Clean(addr)
    ensures PathOf(['<'] + addr + ['>']) == Path(Unrouted(addr), [])
  {
    var rest := ['<'] + addr + ['>'];
    BracketEnd(['<'] + addr);
    assert rest[1..|addr| + 1] == addr && rest[|addr| + 2..] == "";
    RouteOfClean(addr);
  }

  lemma {:induction false} RouteOfClean(addr: string)
    requires Clean(addr)
    ensures Route(addr, Fields("")) == Path(Unrouted(addr), [])
  {
    var plain := Unrouted(addr);
    forall c | c in plain ensures c in addr {
    }
  }

  /** An address in angle brackets is understood as it stands, but for a source route in front. */
  lemma {:induction false} BracketedPathIsUnderstood(prefix: string, addr: string)
    requires Clean(addr)
    ensures ParsePath(prefix + (['<'] + addr + ['>']), prefix) == Path(Unrouted(addr), [])
  {
    var rest := ['<'] + addr + ['>'];
    var arg := prefix + rest;
    assert arg[..|prefix|] == prefix && arg[|prefix|..] == rest;
    assert TrimSpace(rest) == rest;
    BracketsAreStripped(addr);
  }

  /** The announced size of a MAIL parameter is over the limit. */
  predicate Oversized(param: string, maxSize: nat) {
    var at := IndexOf(param, '=');
    && EqualFold(param[..at], "SIZE")
    && var n := ParseInt64(if at < |param| then param[at + 1..] else "");
       n.Some? && n.value > maxSize
  }

  /** The argument of MAIL is malformed or announces too large a message. */
  predicate BadSender(c: Config, path: Path) {
    path.BadPath? || exists p <- path.params :: Oversized(p, c.maxSize)
  }

  // ----- the reference: what each command does, decided by what it remembers of the history -----

  /** What is added to the history and whether the session goes on. */
  datatype Reaction = Reaction(act: Option<Act>, alive: bool)

  /** fail(): the eleventh failure ends the session. */
  function Fail(m: Memory, w: World): Reaction {
    Reaction(Some(Failure), m.failures < MAX_ERRORS && w.sent)
  }

  function OnHello(m: Memory, arg: string, w: World): Reaction {
    if arg == "" then Fail(m, w) else Reaction(Some(Hello(arg)), w.sent)
  }

  function OnStartTls(c: Config, m: Memory, arg: string, w: World): Reaction {
    if !c.tlsOffered || m.tls || arg != "" then Fail(m, w)
    else if !w.sent || !w.handshake then Reaction(None, false)
    else Reaction(Some(Secured), true)
  }

  function OnMail(c: Config, m: Memory, arg: string, w: World): Reaction {
    var path := ParsePath(arg, "FROM:");
    if m.helo == "" || (c.authRequired && !m.authed) || m.txn.Open? || BadSender(c, path) then Fail(m, w)
    else Reaction(Some(MailOk(path.addr)), w.sent)
  }

  function OnRcpt(c: Config, m: Memory, arg: string, w: World): Reaction {
    var path := ParsePath(arg, "TO:");
    if m.txn.Closed? || path.BadPath? || path.addr == "" then Fail(m, w)
    else if |m.txn.rcpts| >= c.maxRecipients || w.rejects then Reaction(None, w.sent)
    else Reaction(Some(RcptOk(path.addr)), w.sent)
  }

  function OnData(c: Config, m: Memory, w: World): Reaction {
    var txn := m.txn;
    if txn.Closed? || txn.rcpts == [] then Fail(m, w)
    else if !w.sent then Reaction(None, false)
    else
      match Transmitted(c, w)
      case Failed => Reaction(None, false)
      case TooLarge => Reaction(Some(Cleared), w.sentLast)
      case Body(body) =>
        if w.rejects then Reaction(Some(Rejected), w.sentLast)
        else Reaction(Some(Handed(Envelope(txn.from, txn.rcpts, m.tls), body)), w.sentLast)
  }

  function Mechanism(arg: string): string { ToUpper(arg[..IndexOf(arg, ' ')]) }

  /** AUTH gets as far as asking for credentials. */
  predicate Negotiates(m: Memory, arg: string) {
    m.helo != "" && !m.authed && (Mechanism(arg) == "PLAIN" || Mechanism(arg) == "LOGIN")
  }

  function AfterExchange(c: Config, m: Memory, w: World): Reaction {
    match w.exchange
    case Cancelled => Fail(m, w)
    case BadBase64 => Fail(m, w)
    case Cut => Reaction(None, false)
    case Credentials(valid) => if c.authRequired && !valid then Fail(m, w) else Reaction(Some(LoggedIn), w.sent)
  }

  function OnAuth(c: Config, m: Memory, arg: string, w: World): Reaction {
    if Negotiates(m, arg) then AfterExchange(c, m, w) else Fail(m, w)
  }

  datatype Verb = HELLO | MAIL | RCPT | DATA | RSET | POLITE | QUIT | AUTH | STARTTLS | UNKNOWN

  function VerbOf(word: string): Verb {
    if word == "HELO" || word == "EHLO" then HELLO
    else if word == "MAIL" then MAIL
    else if word == "RCPT" then RCPT
    else if word == "DATA" then DATA
    else if word == "RSET" then RSET
    else if word == "NOOP" || word == "VRFY" || word == "HELP" then POLITE
    else if word == "QUIT" then QUIT
    else if word == "AUTH" then AUTH
    else if word == "STARTTLS" then STARTTLS
    else UNKNOWN
  }

  function OnCommand(c: Config, m: Memory, verb: Verb, arg: string, w: World): Reaction {
    match verb
    case HELLO => OnHello(m, arg, w)
    case MAIL => OnMail(c, m, arg, w)
    case RCPT => OnRcpt(c, m, arg, w)
    case DATA => OnData(c, m, w)
    case RSET => Reaction(Some(Cleared), w.sent)
    case POLITE => Reaction(None, w.sent)
    case QUIT => Reaction(None, false)
    case AUTH => OnAuth(c, m, arg, w)
    case STARTTLS => OnStartTls(c, m, arg, w)
    case UNKNOWN => Fail(m, w)
  }

  /** A command line: the verb up to the first space, the rest trimmed. */
  function Word(text: string): Verb { VerbOf(ToUpper(text[..IndexOf(text, ' ')])) }

  function Argument(text: string): string {
    var at := IndexOf(text, ' ');
    TrimSpace(if at < |text| then text[at + 1..] else "")
  }

  /** One turn of serve(). */
  function React(c: Config, m: Memory, turn: Turn): Reaction {
    var w := turn.world;
    match turn.input
    case Broken => Reaction(None, false)
    case TooLong => Fail(m, w)
    case Line(text) =>
      var r := OnCommand(c, m, Word(text), Argument(text), w);
      if w.closing then r.(alive := false) else r
  }

  function OnTurn(c: Config, log: seq<Act>, turn: Turn): Reaction { React(c, Recall(log), turn) }

  function Extend(log: seq<Act>, r: Reaction): seq<Act> {
    var log' := if r.act.Some? then log + [r.act.value] else log;
    if r.alive then log' else log' + [Ended]
  }

  /** The history of a whole session. */
  function History(c: Config, turns: seq<Turn>): seq<Act> {
    if turns == [] then []
    else
      var log := History(c, turns[..|turns| - 1]);
      if Ended in log then log else Extend(log, OnTurn(c, log, turns[|turns| - 1]))
  }

  lemma HistoryMore(c: Config, turns: seq<Turn>, turn: Turn)
    ensures var log := History(c, turns);
            History(c, turns + [turn]) == if Ended in log then log else Extend(log, OnTurn(c, log, turn))
  {
    assert (turns + [turn])[..|turns|] == turns;
  }

  /** The same, from the first turn on. */
  function Continued(c: Config, log: seq<Act>, turns: seq<Turn>): seq<Act>
    decreases |turns|
  {
    if turns == [] || Ended in log then log else Continued(c, Extend(log, OnTurn(c, log, turns[0])), turns[1..])
  }

  /** A whole history, read off from any point on. */
  lemma {:induction false} HistoryContinues(c: Config, all: seq<Turn>, n: nat)
    requires n <= |all|
    ensures Continued(c, History(c, all[..n]), all[n..]) == History(c, all)
    decreases |all| - n
  {
    if n == |all| {
      assert all[..n] == all && all[n..] == [];
    } else {
      assert all[..n + 1] == all[..n] + [all[n]] && all[n..][1..] == all[n + 1..];
      HistoryMore(c, all[..n], all[n]);
      HistoryContinues(c, all, n + 1);
    }
  }

  /** How one more act changes what looking back shows. */
  lemma LookBack(log: seq<Act>, a: Act)
    ensures Helo(log + [a]) == if a.Hello? then a.name else if a.Secured? then "" else Helo(log)
    ensures Authed(log + [a]) == (a.LoggedIn? || (!a.Secured? && Authed(log)))
    ensures OnTls(log + [a]) == (a.Secured? || OnTls(log))
    ensures Transaction(log + [a]) == NextTxn(Transaction(log), a)
    ensures Failures(log + [a]) == Failures(log) + if a.Failure? then 1 else 0
  {
    assert (log + [a])[..|log|] == log;
  }

  // ----- what holds of every history -----

  /** An open transaction was opened by a greeted and, where required, authenticated client. */
  ghost predicate Sound(c: Config, log: seq<Act>) {
    Transaction(log).Open? ==>
      Helo(log) != "" && (c.authRequired ==> Authed(log)) && |Transaction(log).rcpts| <= c.maxRecipients
  }

  /** The Handler may be called with this envelope and body after this history. */
  ghost predicate Entitled(c: Config, log: seq<Act>, env: Envelope, body: seq<byte>) {
    && Transaction(log) == Open(env.from, env.to) && env.tls == OnTls(log)
    && 1 <= |env.to| <= c.maxRecipients && |body| <= c.maxSize
    && Helo(log) != "" && (c.authRequired ==> Authed(log))
  }

  /** What an act presupposes. */
  ghost predicate Admissible(c: Config, log: seq<Act>, a: Act) {
    match a
    case Hello(name) => name != ""
    case MailOk(_) => Helo(log) != "" && (c.authRequired ==> Authed(log)) && Transaction(log).Closed?
    case RcptOk(_) => Transaction(log).Open? && |Transaction(log).rcpts| < c.maxRecipients
    case Handed(env, body) => Entitled(c, log, env, body)
    case _ => true
  }

  /** Every act of the history was admissible when it happened. */
  ghost predicate Lawful(c: Config, log: seq<Act>) {
    forall i | 0 <= i < |log| :: Admissible(c, log[..i], log[i])
  }

  lemma LawfulMore(c: Config, log: seq<Act>, a: Act)
    requires Lawful(c, log) && Sound(c, log) && Admissible(c, log, a)
    ensures Lawful(c, log + [a]) && Sound(c, log + [a])
  {
    LookBack(log, a);
    forall i | 0 <= i < |log + [a]| ensures Admissible(c, (log + [a])[..i], (log + [a])[i]) {
      assert (log + [a])[..i] == log[..i];
      assert log[..|log|] == log;
    }
  }

  /** A reaction adds at most one act, an admissible one, and ends the session at the eleventh failure. */
  ghost predicate Proper(c: Config, log: seq<Act>, r: Reaction) {
    r.act.Some? ==>
      var a := r.act.value;
      && Admissible(c, log, a) && a != Ended
      && (a == Failure && Failures(log) >= MAX_ERRORS ==> !r.alive)
  }

  lemma MailIsProper(c: Config, log: seq<Act>, arg: string, w: World)
    ensures Proper(c, log, OnMail(c, Recall(log), arg, w))
  {
  }

  lemma RcptIsProper(c: Config, log: seq<Act>, arg: string, w: World)
    ensures Proper(c, log, OnRcpt(c, Recall(log), arg, w))
  {
  }

  lemma DataIsProper(c: Config, log: seq<Act>, w: World)
    requires Sound(c, log)
    ensures Proper(c, log, OnData(c, Recall(log), w))
  {
  }

  lemma AuthIsProper(c: Config, log: seq<Act>, arg: string, w: World)
    ensures Proper(c, log, OnAuth(c, Recall(log), arg, w))
  {
  }

  lemma CommandIsProper(c: Config, log: seq<Act>, verb: Verb, arg: string, w: World)
    requires Sound(c, log)
    ensures Proper(c, log, OnCommand(c, Recall(log), verb, arg, w))
  {
    match verb {
      case MAIL => MailIsProper(c, log, arg, w);
      case RCPT => RcptIsProper(c, log, arg, w);
      case DATA => DataIsProper(c, log, w);
      case AUTH => AuthIsProper(c, log, arg, w);
      case _ =>
    }
  }

  lemma TurnIsProper(c: Config, log: seq<Act>, turn: Turn)
    requires Sound(c, log)
    ensures Proper(c, log, OnTurn(c, log, turn))
  {
    if turn.input.Line? {
      CommandIsProper(c, log, Word(turn.input.text), Argument(turn.input.text), turn.world);
    }
  }

  lemma {:induction false} HistoryIsLawful(c: Config, turns: seq<Turn>)
    ensures Lawful(c, History(c, turns)) && Sound(c, History(c, turns))
  {
    if turns != [] {
      var init, turn := turns[..|turns| - 1], turns[|turns| - 1];
      HistoryIsLawful(c, init);
      var log := History(c, init);
      if Ended !in log {
        TurnIsProper(c, log, turn);
        TurnKeeps(c, log, OnTurn(c, log, turn));
      }
    }
  }

  lemma TurnKeeps(c: Config, log: seq<Act>, r: Reaction)
    requires Lawful(c, log) && Sound(c, log) && Proper(c, log, r)
    ensures Lawful(c, Extend(log, r)) && Sound(c, Extend(log, r))
  {
    var log' := log;
    if r.act.Some? {
      LawfulMore(c, log, r.act.value);
      log' := log + [r.act.value];
    }
    if !r.alive {
      LawfulMore(c, log', Ended);
    }
  }

  // ----- the same, said by pointing into the history -----

  function Rcpts(log: seq<Act>): seq<string> {
    if log == [] then []
    else Rcpts(log[..|log| - 1]) + if log[|log| - 1].RcptOk? then [log[|log| - 1].to] else []
  }

  lemma {:induction false} TransactionMeans(log: seq<Act>) returns (m: nat)
    requires Transaction(log).Open?
    ensures m < |log| && log[m] == MailOk(Transaction(log).from)
    ensures forall j | m < j < |log| :: !EndsTxn(log[j]) && !log[j].MailOk?
    ensures Rcpts(log[m + 1..]) == Transaction(log).rcpts
  {
    var init, a := log[..|log| - 1], log[|log| - 1];
    if a.MailOk? {
      m := |log| - 1;
      assert log[m + 1..] == [];
    } else {
      m := TransactionMeans(init);
      assert log[m + 1..][..|log| - m - 2] == init[m + 1..];
    }
  }

  lemma {:induction false} HeloMeans(log: seq<Act>) returns (g: nat)
    requires Helo(log) != ""
    ensures g < |log| && log[g] == Hello(Helo(log)) && forall j | g < j < |log| :: !log[j].Secured?
  {
    if log[|log| - 1].Hello? {
      g := |log| - 1;
    } else {
      g := HeloMeans(log[..|log| - 1]);
    }
  }

  lemma {:induction false} AuthedMeans(log: seq<Act>) returns (g: nat)
    requires Authed(log)
    ensures g < |log| && log[g] == LoggedIn && forall j | g < j < |log| :: !log[j].Secured?
  {
    if log[|log| - 1].LoggedIn? {
      g := |log| - 1;
    } else {
      g := AuthedMeans(log[..|log| - 1]);
    }
  }

  /** `m` is the last accepted MAIL before `i`, with no reset of the transaction in between. */
  ghost predicate OpenedAt(log: seq<Act>, m: nat, i: nat, from: string)
    requires i <= |log|
  {
    m < i && log[m] == MailOk(from) && forall j | m < j < i :: !EndsTxn(log[j]) && !log[j].MailOk?
  }

  /** `a` happened at `g`, and no STARTTLS has undone it before `i`. */
  ghost predicate HoldsSince(log: seq<Act>, g: nat, i: nat, a: Act)
    requires i <= |log|
  {
    g < i && log[g] == a && forall j | g < j < i :: !log[j].Secured?
  }

  /**
   * The delivered envelope equals the history.  In every session, each call of
   * the Handler gets the sender of the last accepted MAIL and, in order,
   * exactly the recipients accepted since, one to the limit of them; a body
   * within the size limit; after a HELO or EHLO and, where required, a login,
   * both later than any STARTTLS.
   */
  lemma DeliveredEnvelopeEqualsHistory(c: Config, turns: seq<Turn>, i: nat)
    requires i < |History(c, turns)| && History(c, turns)[i].Handed?
    ensures var (log, env) := (History(c, turns), History(c, turns)[i].env);
            && (exists m :: OpenedAt(log, m, i, env.from) && Rcpts(log[m + 1..i]) == env.to)
            && 1 <= |env.to| <= c.maxRecipients && |log[i].body| <= c.maxSize
            && (exists g, name :: name != "" && HoldsSince(log, g, i, Hello(name)))
            && (c.authRequired ==> exists g :: HoldsSince(log, g, i, LoggedIn))
            && (env.tls <==> Secured in log[..i])
  {
    HistoryIsLawful(c, turns);
    var log := History(c, turns);
    assert Admissible(c, log[..i], log[i]);
    TransactionPoints(log, i);
    GreetingPoints(log, i);
    if c.authRequired {
      LoginPoints(log, i);
    }
  }

  lemma TransactionPoints(log: seq<Act>, i: nat)
    requires i <= |log| && Transaction(log[..i]).Open?
    ensures var txn := Transaction(log[..i]);
            exists m :: OpenedAt(log, m, i, txn.from) && Rcpts(log[m + 1..i]) == txn.rcpts
  {
    var m := TransactionMeans(log[..i]);
    assert log[..i][m + 1..] == log[m + 1..i];
    assert OpenedAt(log, m, i, Transaction(log[..i]).from);
  }

  lemma GreetingPoints(log: seq<Act>, i: nat)
    requires i <= |log| && Helo(log[..i]) != ""
    ensures exists g, name :: name != "" && HoldsSince(log, g, i, Hello(name))
  {
    var g := HeloMeans(log[..i]);
    assert HoldsSince(log, g, i, Hello(Helo(log[..i])));
  }

  lemma LoginPoints(log: seq<Act>, i: nat)
    requires i <= |log| && Authed(log[..i])
    ensures exists g :: HoldsSince(log, g, i, LoggedIn)
  {
    var g := AuthedMeans(log[..i]);
    assert HoldsSince(log, g, i, LoggedIn);
  }

  // ----- every act goes back to what the client sent -----

  /** `a` is what the command with this verb and argument says, and what the world then allowed. */
  ghost predicate Says(c: Config, verb: Verb, arg: string, w: World, a: Act) {
    match a
    case Hello(name) => verb == HELLO && name == arg
    case Secured => verb == STARTTLS && c.tlsOffered && w.handshake
    case LoggedIn => verb == AUTH && w.exchange.Credentials? && (c.authRequired ==> w.exchange.valid)
    case MailOk(from) => verb == MAIL && IsPathOf(ParsePath(arg, "FROM:"), from)
    case RcptOk(to) => verb == RCPT && IsPathOf(ParsePath(arg, "TO:"), to) && !w.rejects
    case Cleared => verb == RSET || (verb == DATA && Transmitted(c, w) == DataReader.TooLarge)
    case Rejected => verb == DATA && Transmitted(c, w).Body? && w.rejects
    case Handed(_, body) => verb == DATA && Transmitted(c, w) == DataReader.Body(body) && !w.rejects
    case Failure => true
    case Ended => false
  }

  /** What the peer sends after DATA comes to. */
  function Transmitted(c: Config, w: World): DataReader.Result {
    DataReader.Verdict(DataReader.FromLineStart(w.stream), c.maxSize)
  }

  predicate IsPathOf(p: Path, addr: string) { p.Path? && p.addr == addr }

  /** Acts other than failures and the end need a command that says them. */
  ghost predicate Explains(c: Config, turn: Turn, a: Act) {
    || a == Ended
    || if turn.input.Line? then Says(c, Word(turn.input.text), Argument(turn.input.text), turn.world, a)
       else a == Failure
  }

  lemma MailExplains(c: Config, m: Memory, arg: string, w: World)
    ensures var r := OnMail(c, m, arg, w); r.act.Some? ==> Says(c, MAIL, arg, w, r.act.value)
  {
  }

  lemma RcptExplains(c: Config, m: Memory, arg: string, w: World)
    ensures var r := OnRcpt(c, m, arg, w); r.act.Some? ==> Says(c, RCPT, arg, w, r.act.value)
  {
  }

  lemma DataExplains(c: Config, m: Memory, arg: string, w: World)
    ensures var r := OnData(c, m, w); r.act.Some? ==> Says(c, DATA, arg, w, r.act.value)
  {
  }

  lemma AuthExplains(c: Config, m: Memory, arg: string, w: World)
    ensures var r := OnAuth(c, m, arg, w); r.act.Some? ==> Says(c, AUTH, arg, w, r.act.value)
  {
  }

  lemma CommandExplains(c: Config, m: Memory, verb: Verb, arg: string, w: World)
    ensures var r := OnCommand(c, m, verb, arg, w); r.act.Some? ==> Says(c, verb, arg, w, r.act.value)
  {
    match verb {
      case MAIL => MailExplains(c, m, arg, w);
      case RCPT => RcptExplains(c, m, arg, w);
      case DATA => DataExplains(c, m, arg, w);
      case AUTH => AuthExplains(c, m, arg, w);
      case _ =>
    }
  }

  lemma TurnExplains(c: Config, log: seq<Act>, turn: Turn)
    ensures var r := OnTurn(c, log, turn); r.act.Some? ==> r.act.value != Ended && Explains(c, turn, r.act.value)
  {
    if turn.input.Line? {
      CommandExplains(c, Recall(log), Word(turn.input.text), Argument(turn.input.text), turn.world);
    }
  }

  /** `at` says which turn each act of the history comes from: each from its own, but for the end of the session. */
  ghost predicate Traced(c: Config, turns: seq<Turn>, log: seq<Act>, at: seq<nat>) {
    && |at| == |log|
    && (forall i | 0 <= i < |at| :: at[i] < |turns| && Explains(c, turns[at[i]], log[i]))
    && (forall i, j | 0 <= i < j < |at| :: at[i] < at[j] || (at[i] == at[j] && log[j] == Ended))
  }

  lemma TracedMore(c: Config, turns: seq<Turn>, log: seq<Act>, at: seq<nat>, n: nat, a: Act)
    requires n < |turns| && Traced(c, turns, log, at)
    requires Explains(c, turns[n], a) && forall i | 0 <= i < |at| :: at[i] < n || (at[i] == n && a == Ended)
    ensures Traced(c, turns, log + [a], at + [n])
  {
  }

  /** Every act of a history comes from a turn of the client's, in the order of the turns, no two from the same one. */
  lemma {:induction false} ActsComeFromTurns(c: Config, turns: seq<Turn>) returns (at: seq<nat>)
    ensures Traced(c, turns, History(c, turns), at)
  {
    at := [];
    if turns != [] {
      var n := |turns| - 1;
      at := ActsComeFromTurns(c, turns[..n]);
      var log := History(c, turns[..n]);
      assert Traced(c, turns, log, at) && forall i | 0 <= i < |at| :: at[i] < n;
      if Ended !in log {
        at := TurnTraced(c, turns, n, log, at);
      }
    }
  }

  lemma TurnTraced(c: Config, turns: seq<Turn>, n: nat, log: seq<Act>, at: seq<nat>) returns (at': seq<nat>)
    requires n < |turns| && Traced(c, turns, log, at) && forall i | 0 <= i < |at| :: at[i] < n
    ensures Traced(c, turns, Extend(log, OnTurn(c, log, turns[n])), at')
  {
    var r := OnTurn(c, log, turns[n]);
    TurnExplains(c, log, turns[n]);
    at' := at;
    var log' := log;
    if r.act.Some? {
      TracedMore(c, turns, log', at', n, r.act.value);
      at', log' := at' + [n], log' + [r.act.value];
    }
    if !r.alive {
      TracedMore(c, turns, log', at', n, Ended);
      at' := at' + [n];
    }
  }

  /** The turn is a DATA command whose message was transmitted, was not too large and was not rejected. */
  ghost predicate Delivers(c: Config, turn: Turn, body: seq<byte>) {
    && turn.input.Line? && Word(turn.input.text) == DATA
    && Transmitted(c, turn.world) == DataReader.Body(body) && !turn.world.rejects
  }

  /** `at` says which turn each delivery comes from, each from its own and in order. */
  ghost predicate DeliveredBy(c: Config, turns: seq<Turn>, handed: seq<Delivery>, at: seq<nat>) {
    && |at| == |handed|
    && (forall i | 0 <= i < |at| :: at[i] < |turns| && Delivers(c, turns[at[i]], handed[i].body))
    && (forall i, j | 0 <= i < j < |at| :: at[i] < at[j])
  }

  /**
   * A data-stage rejection never reaches the Handler.  In every session the
   * calls of the Handler belong, in order, to different DATA commands, none of
   * which was rejected, and each gets the body that was transmitted for it.
   */
  lemma DeliveriesAreUnrejected(c: Config, turns: seq<Turn>) returns (at: seq<nat>)
    ensures DeliveredBy(c, turns, Deliveries(History(c, turns)), at)
  {
    var all := ActsComeFromTurns(c, turns);
    at := DeliveryTurns(c, turns, History(c, turns), all);
  }

  lemma {:induction false} DeliveryTurns(c: Config, turns: seq<Turn>, log: seq<Act>, all: seq<nat>)
    returns (at: seq<nat>)
    requires Traced(c, turns, log, all)
    ensures DeliveredBy(c, turns, Deliveries(log), at) && forall x <- at :: x in all
  {
    at := [];
    if log != [] {
      var n := |log| - 1;
      at := DeliveryTurns(c, turns, log[..n], all[..n]);
      if log[n].Handed? {
        HandedDelivers(c, turns[all[n]], log[n]);
        DeliveredMore(c, turns, Deliveries(log[..n]), at, Delivery(log[n].env, log[n].body), all[n]);
        at := at + [all[n]];
      }
    }
  }

  lemma HandedDelivers(c: Config, turn: Turn, a: Act)
    requires Explains(c, turn, a) && a.Handed?
    ensures Delivers(c, turn, a.body)
  {
  }

  lemma DeliveredMore(c: Config, turns: seq<Turn>, handed: seq<Delivery>, at: seq<nat>, d: Delivery, n: nat)
    requires DeliveredBy(c, turns, handed, at) && n < |turns| && Delivers(c, turns[n], d.body)
    requires forall x <- at :: x < n
    ensures DeliveredBy(c, turns, handed + [d], at + [n])
  {
    forall i | 0 <= i < |at| ensures at[i] < n {
      assert at[i] in at;
    }
  }

  // ----- the eleventh failure -----

  /** Nothing follows the end, and the eleventh failure is followed by it. */
  ghost predicate EndsWell(log: seq<Act>) {
    && (log != [] ==> Ended !in log[..|log| - 1])
    && (Ended !in log ==> Failures(log) <= MAX_ERRORS)
    && Failures(log) <= MAX_ERRORS + 1
    && (Failures(log) == MAX_ERRORS + 1 ==> |log| >= 2 && log[|log| - 2] == Failure && log[|log| - 1] == Ended)
  }

  lemma {:induction false} HistoryEndsWell(c: Config, turns: seq<Turn>)
    ensures EndsWell(History(c, turns))
  {
    if turns != [] {
      var init, turn := turns[..|turns| - 1], turns[|turns| - 1];
      HistoryEndsWell(c, init);
      var log := History(c, init);
      if Ended !in log {
        HistoryIsLawful(c, init);
        TurnIsProper(c, log, turn);
        EndStep(c, log, OnTurn(c, log, turn));
      }
    }
  }

  lemma EndStep(c: Config, log: seq<Act>, r: Reaction)
    requires Ended !in log && Failures(log) <= MAX_ERRORS && Proper(c, log, r)
    ensures EndsWell(Extend(log, r))
  {
    var log' := log;
    if r.act.Some? {
      LookBack(log, r.act.value);
      log' := log + [r.act.value];
      assert log'[..|log|] == log;
    }
    if !r.alive {
      LookBack(log', Ended);
      assert (log' + [Ended])[..|log'|] == log';
    }
  }

  // ----- what a session has to remember -----

  lemma DeliveriesMore(log: seq<Act>, a: Act)
    ensures Deliveries(log + [a]) == Deliveries(log) + if a.Handed? then [Delivery(a.env, a.body)] else []
  {
    assert (log + [a])[..|log|] == log;
  }

  /** One more act makes memory and history agree again. */
  lemma RecallMore(log: seq<Act>, a: Act)
    ensures Recall(log + [a]) == Next(Recall(log), a)
  {
    LookBack(log, a);
    DeliveriesMore(log, a);
  }

  method CheckSender(c: Config, path: Path) returns (bad: bool)
    ensures bad == BadSender(c, path)
  {
    if path.BadPath? {
      return true;
    }
    for i := 0 to |path.params|
      invariant forall j | 0 <= j < i :: !Oversized(path.params[j], c.maxSize)
    {
      if Oversized(path.params[i], c.maxSize) {
        return true;
      }
    }
    return false;
  }
}
