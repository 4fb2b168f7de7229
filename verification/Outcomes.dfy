/**
 * What every command of an SMTP session does, said of the whole history by
 * pointing into it: when it is accepted, when it fails, when it ends the mail
 * transaction, when it ends the session.
 */
module Outcomes {
  import opened Bytes
  import opened Text
  import opened Session
  import DataReader

  // ----- the state of a session, by pointing into its history -----

  /** A greeting stands: no STARTTLS has come after it. */
  ghost predicate Greeted(log: seq<Act>) {
    exists g, name :: name != "" && HoldsSince(log, g, |log|, Hello(name))
  }

  ghost predicate LoggedOn(log: seq<Act>) {
    exists g :: HoldsSince(log, g, |log|, LoggedIn)
  }

  /** A MAIL stands: nothing has ended its transaction. */
  ghost predicate InTransaction(log: seq<Act>) {
    exists m, from :: OpenedAt(log, m, |log|, from)
  }

  ghost predicate NamesGiven(log: seq<Act>) { forall a <- log :: a.Hello? ==> a.name != "" }

  lemma {:induction false} HoldsMeansGreeted(log: seq<Act>, g: nat, name: string)
    requires NamesGiven(log) && HoldsSince(log, g, |log|, Hello(name))
    ensures Helo(log) != ""
  {
    var init, a := log[..|log| - 1], log[|log| - 1];
    assert a in log && log[g] in log;
    if !a.Hello? {
      assert g < |init| && HoldsSince(init, g, |init|, Hello(name));
      HoldsMeansGreeted(init, g, name);
    }
  }

  lemma GreetedIff(log: seq<Act>)
    requires NamesGiven(log)
    ensures Greeted(log) <==> Helo(log) != ""
  {
    assert log[..|log|] == log;
    if Helo(log) != "" {
      GreetingPoints(log, |log|);
    }
    if g, name :| name != "" && HoldsSince(log, g, |log|, Hello(name)) {
      HoldsMeansGreeted(log, g, name);
    }
  }

  lemma {:induction false} HoldsMeansAuthed(log: seq<Act>, g: nat)
    requires HoldsSince(log, g, |log|, LoggedIn)
    ensures Authed(log)
  {
    var init, a := log[..|log| - 1], log[|log| - 1];
    if !a.LoggedIn? {
      assert g < |init| && HoldsSince(init, g, |init|, LoggedIn);
      HoldsMeansAuthed(init, g);
    }
  }

  lemma LoggedOnIff(log: seq<Act>)
    ensures LoggedOn(log) <==> Authed(log)
  {
    assert log[..|log|] == log;
    if Authed(log) {
      LoginPoints(log, |log|);
    }
    if g :| HoldsSince(log, g, |log|, LoggedIn) {
      HoldsMeansAuthed(log, g);
    }
  }

  lemma {:induction false} OpenedMeansOpen(log: seq<Act>, m: nat, from: string)
    requires OpenedAt(log, m, |log|, from)
    ensures Transaction(log).Open?
  {
    var init, a := log[..|log| - 1], log[|log| - 1];
    if m < |init| {
      assert OpenedAt(init, m, |init|, from);
      OpenedMeansOpen(init, m, from);
    }
  }

  lemma InTransactionIff(log: seq<Act>)
    ensures InTransaction(log) <==> Transaction(log).Open?
  {
    assert log[..|log|] == log;
    if Transaction(log).Open? {
      TransactionPoints(log, |log|);
    }
    if m, from :| OpenedAt(log, m, |log|, from) {
      OpenedMeansOpen(log, m, from);
    }
  }

  lemma LawfulNames(c: Config, log: seq<Act>)
    requires Lawful(c, log)
    ensures NamesGiven(log)
  {
    forall a | a in log && a.Hello? ensures a.name != "" {
      var i :| 0 <= i < |log| && log[i] == a;
      assert Admissible(c, log[..i], log[i]);
    }
  }

  /** Looking back shows just what stands in the history. */
  lemma LooksBack(log: seq<Act>)
    requires NamesGiven(log)
    ensures Greeted(log) <==> Helo(log) != ""
    ensures LoggedOn(log) <==> Authed(log)
    ensures InTransaction(log) <==> Transaction(log).Open?
  {
    GreetedIff(log);
    LoggedOnIff(log);
    InTransactionIff(log);
  }

  /** The recipients accepted since the MAIL that stands. */
  function SoFar(log: seq<Act>): seq<string> { if Transaction(log).Open? then Transaction(log).rcpts else [] }

  lemma {:induction false} SoFarIs(log: seq<Act>, m: nat, from: string)
    requires OpenedAt(log, m, |log|, from)
    ensures Transaction(log) == Open(from, Rcpts(log[m + 1..]))
  {
    var init, a := log[..|log| - 1], log[|log| - 1];
    if m < |init| {
      assert OpenedAt(init, m, |init|, from);
      SoFarIs(init, m, from);
      assert log[m + 1..][..|log| - m - 2] == init[m + 1..];
    } else {
      assert log[m + 1..] == [];
    }
  }

  // ----- verbs -----

  /** The verb of a command line, as the client may have typed it. */
  function FirstWord(text: string): string { ToUpper(text[..IndexOf(text, ' ')]) }

  lemma VerbsAreNamed(word: string)
    ensures VerbOf(word) == HELLO <==> word == "HELO" || word == "EHLO"
    ensures VerbOf(word) == MAIL <==> word == "MAIL"
    ensures VerbOf(word) == RCPT <==> word == "RCPT"
    ensures VerbOf(word) == DATA <==> word == "DATA"
    ensures VerbOf(word) == RSET <==> word == "RSET"
    ensures VerbOf(word) == POLITE <==> word == "NOOP" || word == "VRFY" || word == "HELP"
    ensures VerbOf(word) == QUIT <==> word == "QUIT"
    ensures VerbOf(word) == AUTH <==> word == "AUTH"
    ensures VerbOf(word) == STARTTLS <==> word == "STARTTLS"
  {
  }

  /** A command line is handled by its first word, with what follows it; in a shutdown the session ends then. */
  lemma LinesAreDispatched(c: Config, m: Memory, turn: Turn)
    requires turn.input.Line?
    ensures var (text, w, r) := (turn.input.text, turn.world, React(c, m, turn));
            var did := OnCommand(c, m, VerbOf(FirstWord(text)), Argument(text), w);
            r.act == did.act && r.alive == (did.alive && !w.closing)
  {
  }

  // ----- the commands -----

  /** A failure is counted; the session goes on if the reply goes through and it is not the eleventh. */
  predicate Fails(log: seq<Act>, w: World, r: Reaction) {
    r.act == Some(Failure) && r.alive == (w.sent && Failures(log) + 1 <= 10)
  }

  predicate Adds(a: Option<Act>, w: World, r: Reaction) { r.act == a && r.alive == w.sent }

  /** Greetings: accepted with an argument, at any time. */
  lemma HelloOutcome(c: Config, log: seq<Act>, arg: string, w: World, r: Reaction)
    requires r == OnCommand(c, Recall(log), HELLO, arg, w)
    ensures if arg == "" then Fails(log, w, r) else Adds(Some(Hello(arg)), w, r)
  {
  }

  /** MAIL: accepted if and only if greeted, logged in where required, with no open transaction and a good sender. */
  lemma MailOutcome(c: Config, log: seq<Act>, arg: string, w: World, r: Reaction)
    requires NamesGiven(log) && r == OnCommand(c, Recall(log), MAIL, arg, w)
    ensures var path := ParsePath(arg, "FROM:");
            if Greeted(log) && (c.authRequired ==> LoggedOn(log)) && !InTransaction(log) && !BadSender(c, path)
            then Adds(Some(MailOk(path.addr)), w, r)
            else Fails(log, w, r)
  {
    LooksBack(log);
  }

  /** RCPT: without an open transaction or an address it fails; above the limit or when refused it changes nothing. */
  lemma RcptOutcome(c: Config, log: seq<Act>, arg: string, w: World, r: Reaction)
    requires NamesGiven(log) && r == OnCommand(c, Recall(log), RCPT, arg, w)
    ensures var path := ParsePath(arg, "TO:");
            if !InTransaction(log) || path.BadPath? || path.addr == "" then Fails(log, w, r)
            else if |SoFar(log)| >= c.maxRecipients || w.rejects then Adds(None, w, r)
            else Adds(Some(RcptOk(path.addr)), w, r)
  {
    LooksBack(log);
  }

  /** DATA: fails without recipients; otherwise the message decides, and only a broken connection leaves nothing. */
  lemma DataOutcome(c: Config, log: seq<Act>, arg: string, w: World, r: Reaction)
    requires NamesGiven(log) && r == OnCommand(c, Recall(log), DATA, arg, w)
    ensures var got := Transmitted(c, w);
            if SoFar(log) == [] then Fails(log, w, r)
            else if !w.sent || got.Failed? then r == Reaction(None, false)
            else r.alive == w.sentLast
                 && if got.TooLarge? then r.act == Some(Cleared) else if w.rejects then r.act == Some(Rejected)
                    else r.act == Some(Handed(Envelope(Transaction(log).from, SoFar(log), Secured in log), got.bytes))
  {
    LooksBack(log);
  }

  /** AUTH: once, after a greeting, by a known mechanism, with credentials that are valid where that matters. */
  lemma AuthOutcome(c: Config, log: seq<Act>, arg: string, w: World, r: Reaction)
    requires NamesGiven(log) && r == OnCommand(c, Recall(log), AUTH, arg, w)
    ensures if !Greeted(log) || LoggedOn(log) || (FirstWord(arg) != "PLAIN" && FirstWord(arg) != "LOGIN")
            then Fails(log, w, r)
            else if w.exchange == Cut then r == Reaction(None, false)
            else if w.exchange.Credentials? && (c.authRequired ==> w.exchange.valid) then Adds(Some(LoggedIn), w, r)
            else Fails(log, w, r)
  {
    LooksBack(log);
  }

  /** STARTTLS: once, where it is offered, without an argument. */
  lemma StartTlsOutcome(c: Config, log: seq<Act>, arg: string, w: World, r: Reaction)
    requires r == OnCommand(c, Recall(log), STARTTLS, arg, w)
    ensures if !c.tlsOffered || Secured in log || arg != "" then Fails(log, w, r)
            else if !w.sent || !w.handshake then r == Reaction(None, false)
            else r == Reaction(Some(Secured), true)
  {
  }

  /** RSET always resets; the polite commands change nothing; QUIT ends the session; anything else fails. */
  lemma OtherOutcomes(c: Config, log: seq<Act>, arg: string, w: World)
    ensures Adds(Some(Cleared), w, OnCommand(c, Recall(log), RSET, arg, w))
    ensures Adds(None, w, OnCommand(c, Recall(log), POLITE, arg, w))
    ensures OnCommand(c, Recall(log), QUIT, arg, w) == Reaction(None, false)
    ensures Fails(log, w, OnCommand(c, Recall(log), UNKNOWN, arg, w))
  {
  }

  /** A line that is too long is a failure; a broken connection ends the session and changes nothing else. */
  lemma NoLineOutcome(c: Config, log: seq<Act>, turn: Turn)
    requires !turn.input.Line?
    ensures if turn.input == Broken then OnTurn(c, log, turn) == Reaction(None, false)
            else Fails(log, turn.world, OnTurn(c, log, turn))
  {
  }

  // ----- what ends a transaction -----

  lemma NextLog(log: seq<Act>, r: Reaction, a: Act)
    requires r.act == Some(a)
    ensures Transaction(Extend(log, r)) == NextTxn(Transaction(log), a)
  {
    LookBack(log, a);
    LookBack(log + [a], Ended);
  }

  /** The command ends the transaction, if any: it resets, greets, switches to TLS, or a message was read. */
  ghost predicate Resets(c: Config, log: seq<Act>, verb: Verb, arg: string, w: World) {
    || verb == RSET
    || (verb == HELLO && arg != "")
    || (verb == STARTTLS && c.tlsOffered && Secured !in log && arg == "" && w.sent && w.handshake)
    || (verb == DATA && SoFar(log) != [] && w.sent && !Transmitted(c, w).Failed?)
  }

  lemma ResettingAct(c: Config, log: seq<Act>, verb: Verb, arg: string, w: World, r: Reaction)
    requires NamesGiven(log) && Resets(c, log, verb, arg, w) && r == OnCommand(c, Recall(log), verb, arg, w)
    ensures r.act.Some? && EndsTxn(r.act.value)
  {
    if verb == DATA {
      DataOutcome(c, log, arg, w, r);
    }
  }

  /** Behind such a command no transaction is open, so that the next RCPT or DATA fails. */
  lemma ResetsClose(c: Config, log: seq<Act>, turn: Turn)
    requires NamesGiven(log) && turn.input.Line?
    requires Resets(c, log, VerbOf(FirstWord(turn.input.text)), Argument(turn.input.text), turn.world)
    ensures var after := Extend(log, OnTurn(c, log, turn)); !InTransaction(after) && SoFar(after) == []
  {
    var verb, arg := VerbOf(FirstWord(turn.input.text)), Argument(turn.input.text);
    var r := OnTurn(c, log, turn);
    LinesAreDispatched(c, Recall(log), turn);
    ResettingAct(c, log, verb, arg, turn.world, OnCommand(c, Recall(log), verb, arg, turn.world));
    NextLog(log, r, r.act.value);
    InTransactionIff(Extend(log, r));
  }

  /** MAIL opens a transaction without recipients; RCPT adds its recipient at the end. */
  lemma MailAndRcptBuild(log: seq<Act>, r: Reaction)
    ensures r.act.Some? && r.act.value.MailOk? ==>
              Transaction(Extend(log, r)) == Open(r.act.value.from, []) && SoFar(Extend(log, r)) == []
    ensures r.act.Some? && r.act.value.RcptOk? && InTransaction(log) ==>
              SoFar(Extend(log, r)) == SoFar(log) + [r.act.value.to]
  {
    InTransactionIff(log);
    if r.act.Some? {
      NextLog(log, r, r.act.value);
    }
  }

  /** All of this holds of the history of every session. */
  lemma HistoriesHaveNames(c: Config, turns: seq<Turn>, turn: Turn)
    ensures NamesGiven(History(c, turns))
    ensures Ended !in History(c, turns) ==>
              History(c, turns + [turn]) == Extend(History(c, turns), OnTurn(c, History(c, turns), turn))
  {
    HistoryIsLawful(c, turns);
    LawfulNames(c, History(c, turns));
    HistoryMore(c, turns, turn);
  }
}
