/**
 * What clients type and what the session understands: command lines, paths
 * with their parameters, announced sizes, and the answers of AUTH.
 */
module Wire {
  import opened Bytes
  import opened Seqs
  import opened Text
  import opened Session
  import opened Connection
  import opened Outcomes
  import DataReader

  // ----- lines -----

  /** Characters that are one byte each. */
  predicate Narrow(text: string) { forall c <- text :: c as int < 256 }

  function Sent(text: string): (s: seq<byte>)
    requires Narrow(text)
    ensures |s| == |text|
  {
    seq(|text|, i requires 0 <= i < |text| => (assert text[i] in text; text[i] as int as byte))
  }

  /** One line of text. */
  predicate OneLine(text: string) { Narrow(text) && '\n' !in text && (text != [] ==> text[|text| - 1] != '\r') }

  lemma CharsBack(text: string, end: seq<byte>, tail: string)
    requires Narrow(text) && Chars(end) == tail
    ensures Chars(Sent(text) + end) == text + tail
  {
    forall i | 0 <= i < |text| ensures Chars(Sent(text) + end)[i] == text[i] {
      assert text[i] in text;
    }
    forall i | |text| <= i < |text| + |end| ensures Chars(Sent(text) + end)[i] == (text + tail)[i] {
      assert Chars(end)[i - |text|] == tail[i - |text|];
    }
  }

  lemma EndGoes(text: string, c: char)
    requires c == '\r' || c == '\n'
    ensures TrimLineEnd(text + [c]) == TrimLineEnd(text)
  {
    assert (text + [c])[..|text|] == text;
  }

  lemma EndsGo(text: string)
    requires text != [] ==> text[|text| - 1] != '\r' && text[|text| - 1] != '\n'
    ensures TrimLineEnd(text + ['\n']) == text && TrimLineEnd(text + ['\r', '\n']) == text
  {
    EndGoes(text, '\n');
    EndGoes(text, '\r');
    EndGoes(text + ['\r'], '\n');
    assert text + ['\r'] + ['\n'] == text + ['\r', '\n'];
  }

  lemma NoFeed(text: string)
    requires Narrow(text) && '\n' !in text
    ensures 10 !in Sent(text)
  {
    forall i | 0 <= i < |text| ensures Sent(text)[i] != 10 {
      assert text[i] in text;
    }
  }

  /** A line of up to 4096 bytes, its line end included, is taken as it was sent; a longer one is skipped whole. */
  lemma LineIsTaken(text: string, rest: seq<byte>)
    requires OneLine(text)
    ensures CutLine(Sent(text) + [13, 10] + rest) == Piece(if |text| + 2 <= 4096 then Line(text) else TooLong, rest)
    ensures CutLine(Sent(text) + [10] + rest) == Piece(if |text| + 1 <= 4096 then Line(text) else TooLong, rest)
  {
    EndedIsTaken(text, [13, 10], ['\r', '\n'], rest);
    EndedIsTaken(text, [10], ['\n'], rest);
  }

  lemma EndedIsTaken(text: string, end: seq<byte>, tail: string, rest: seq<byte>)
    requires OneLine(text) && ((end == [13, 10] && tail == ['\r', '\n']) || (end == [10] && tail == ['\n']))
    ensures CutLine(Sent(text) + end + rest) == Piece(if |text| + |end| <= 4096 then Line(text) else TooLong, rest)
  {
    var line := Sent(text) + end;
    NoFeed(text);
    assert line[..|line| - 1] == Sent(text) + end[..|end| - 1];
    assert DataReader.IsLine(line);
    CutFirst(line, rest);
    assert text != [] ==> text[|text| - 1] in text;
    assert Chars(end) == tail;
    CharsBack(text, end, tail);
    EndsGo(text);
  }

  // ----- commands -----

  lemma {:induction false} IndexIs(before: string, c: char, behind: string)
    requires c !in before
    ensures IndexOf(before + [c] + behind, c) == |before|
    ensures IndexOf(before, c) == |before|
  {
    if before != [] {
      assert before[0] in before;
      IndexIs(before[1..], c, behind);
      assert (before + [c] + behind)[1..] == before[1..] + [c] + behind;
    }
  }

  lemma TightIsTrimmed(s: string)
    requires Tight(s)
    ensures TrimSpace(s) == s
  {
  }

  /** A verb in any case, a space and an argument with white space around it or none; or the verb alone. */
  lemma CommandIs(verb: string, space: string, arg: string, more: string)
    requires ' ' !in verb && Tight(arg) && AllSpace(space) && AllSpace(more)
    ensures FirstWord(verb + " " + (space + (arg + more))) == ToUpper(verb)
    ensures Argument(verb + " " + (space + (arg + more))) == arg
    ensures FirstWord(verb) == ToUpper(verb) && Argument(verb) == ""
  {
    var rest := space + (arg + more);
    IndexIs(verb, ' ', rest);
    var text := verb + [' '] + rest;
    assert text[..|verb|] == verb && text[|verb| + 1..] == rest;
    assert verb[..|verb|] == verb;
    BothTrimmed(space, arg, more);
  }

  // ----- paths -----

  lemma KeyIsCut(key: string, prefix: string, space: string, path: string)
    requires EqualFold(key, prefix) && AllSpace(space) && Tight(path)
    ensures ParsePath(key + (space + path), prefix) == PathOf(path)
  {
    var arg := key + (space + path);
    assert arg[..|prefix|] == key && arg[|prefix|..] == space + path;
    BothTrimmed(space, path, "");
    assert path + "" == path;
  }

  /** What may follow a path: parameters, each with a space in front. */
  function Tail(params: seq<string>): string { if params == [] then "" else " " + JoinSpaced(params) }

  /** The path is understood as this address with these parameters, unless white space is left in it. */
  predicate Understood(path: Session.Path, addr: string, params: seq<string>) {
    if Spotless(Unrouted(addr)) then path == Session.Path(Unrouted(addr), params) else path == BadPath
  }

  predicate Spotless(s: string) { forall c <- s :: c as int != 9 && c as int != 10 && c as int != 13 && c as int != 32 }

  lemma RouteIs(addr: string, params: seq<string>)
    ensures Understood(Route(addr, params), addr, params)
  {
  }

  /** "FROM:<address> parameters", the keyword in any case, white space in front of the bracket or none. */
  lemma BracketedPath(key: string, prefix: string, space: string, addr: string, params: seq<string>)
    requires EqualFold(key, prefix) && AllSpace(space) && '>' !in addr && forall w <- params :: IsWord(w)
    ensures Understood(ParsePath(key + (space + (['<'] + addr + ['>'] + Tail(params))), prefix), addr, params)
  {
    var path := ['<'] + addr + ['>'] + Tail(params);
    BracketedIsTight(addr, params, path);
    KeyIsCut(key, prefix, space, path);
    BracketsOpen(addr, Tail(params));
    FieldsRoundTrip(params);
    RouteIs(addr, params);
  }

  lemma BracketsOpen(addr: string, tail: string)
    requires '>' !in addr
    ensures PathOf(['<'] + addr + ['>'] + tail) == Route(addr, Fields(tail))
  {
    var path := ['<'] + addr + ['>'] + tail;
    IndexIs(['<'] + addr, '>', tail);
    assert path[1..|addr| + 1] == addr && path[|addr| + 2..] == tail;
  }

  lemma {:induction false} WordsEnd(words: seq<string>)
    requires words != [] && forall w <- words :: IsWord(w)
    ensures var s := JoinSpaced(words); words[0] != [] && s != [] && s[0] == words[0][0] && !White(s[|s| - 1])
  {
    assert words[0] in words;
    if |words| > 1 {
      WordsEnd(words[1..]);
    } else {
      assert words[0][|words[0]| - 1] in words[0];
    }
  }

  lemma BracketedIsTight(addr: string, params: seq<string>, path: string)
    requires path == ['<'] + addr + ['>'] + Tail(params) && forall w <- params :: IsWord(w)
    ensures Tight(path)
  {
    if params != [] {
      WordsEnd(params);
    }
  }

  /** "FROM:address parameters", without brackets. */
  lemma PlainPath(key: string, prefix: string, space: string, addr: string, params: seq<string>)
    requires EqualFold(key, prefix) && AllSpace(space)
    requires IsWord(addr) && addr[0] != '<' && forall w <- params :: IsWord(w)
    ensures Understood(ParsePath(key + (space + JoinSpaced([addr] + params)), prefix), addr, params)
  {
    var words := [addr] + params;
    var path := JoinSpaced(words);
    WordsEnd(words);
    assert Tight(path) by {
      assert addr[0] in addr;
    }
    KeyIsCut(key, prefix, space, path);
    FieldsRoundTrip(words);
    FieldsRoundTrip(params);
    assert words[1..] == params;
    RouteIs(addr, params);
  }

  /** Without the keyword, without an address or without the closing bracket there is no path. */
  lemma NoPath(arg: string, prefix: string, addr: string)
    ensures !(|prefix| <= |arg| && EqualFold(arg[..|prefix|], prefix)) ==> ParsePath(arg, prefix) == BadPath
    ensures PathOf("") == BadPath
    ensures '>' !in addr ==> PathOf(['<'] + addr) == BadPath
  {
    if '>' !in addr {
      IndexIs(['<'] + addr, '>', "");
    }
  }

  /** A source route goes up to its last colon, and only an address that starts with an at sign has one. */
  lemma RoutesAreDropped(route: string, addr: string)
    requires ':' !in addr
    ensures Unrouted("@" + route + ":" + addr) == addr
    ensures addr == "" || addr[0] != '@' ==> Unrouted(addr) == addr
  {
    var whole := "@" + route + ":" + addr;
    assert whole[|route| + 1] == ':' && whole[|route| + 2..] == addr;
    LastIsAt(whole, ':', |route| + 2);
    assert whole[0] == '@' && whole[..1] == "@";
  }

  lemma {:induction false} LastIsAt(s: string, c: char, n: nat)
    requires 0 < n <= |s| && s[n - 1] == c && c !in s[n..]
    ensures PastLast(s, c) == n
  {
    if n < |s| {
      assert s[|s| - 1] == s[n..][|s| - 1 - n];
      assert s[..|s| - 1][n..] == s[n..][..|s| - 1 - n];
      LastIsAt(s[..|s| - 1], c, n);
    }
  }

  // ----- sizes -----

  /** An announced size counts if it is a number over the limit, whatever the case of its key. */
  lemma OversizedIff(key: string, n: nat, maxSize: nat)
    requires '=' !in key && n <= INT64_MAX
    ensures Oversized(key + "=" + Itoa(n), maxSize) <==> ToUpper(key) == "SIZE" && n > maxSize
  {
    var param := key + ['='] + Itoa(n);
    IndexIs(key, '=', Itoa(n));
    assert param[..|key|] == key && param[|key| + 1..] == Itoa(n);
    ItoaReads(n);
    assert Itoa(n)[0] in Itoa(n);
    assert ParseInt64(Itoa(n)) == Some(n);
    UpperIffFold(key, "SIZE");
  }

  /** One size over the limit is enough, wherever it stands among the parameters. */
  lemma AnySizeCounts(c: Config, addr: string, before: seq<string>, p: string, behind: seq<string>)
    ensures BadSender(c, Session.Path(addr, before + [p] + behind))
       <==> Oversized(p, c.maxSize) || BadSender(c, Session.Path(addr, before + behind))
    ensures !BadSender(c, Session.Path(addr, [])) && BadSender(c, BadPath)
  {
    assert forall x :: x in before + [p] + behind <==> x in before + behind || x == p;
  }

  lemma UpperIffFold(a: string, b: string)
    requires forall c <- b :: IsUpper(c)
    ensures EqualFold(a, b) <==> ToUpper(a) == b
  {
    if |a| == |b| {
      forall i | 0 <= i < |a| ensures LowerChar(a[i]) == LowerChar(b[i]) <==> ToUpper(a)[i] == b[i] {
        assert b[i] in b;
      }
    }
  }

  // ----- AUTH -----

  /** An asterisk cancels and an equals sign is empty; all else is base64. */
  lemma AnswersAre(lib: Library, line: string)
    ensures Decoded(lib, "*") == Gave(Cancelled) && Decoded(lib, "=") == Got("")
    ensures line != "*" && line != "=" && lib.decode(line).Some? ==> Decoded(lib, line) == Got(lib.decode(line).value)
    ensures line != "*" && line != "=" && lib.decode(line).None? ==> Decoded(lib, line) == Gave(BadBase64)
  {
  }

  /** PLAIN takes the user and the password behind the first two zero bytes, and nothing if there are fewer. */
  lemma PlainLoginIs(identity: string, user: string, password: string)
    requires '\0' !in identity && '\0' !in user
    ensures PlainLogin(identity + ['\0'] + (user + ['\0'] + password)) == Login(user, password)
    ensures PlainLogin(identity) == Login("", "") && PlainLogin(identity + ['\0'] + user) == Login("", "")
  {
    var tail := user + ['\0'] + password;
    IndexIs(identity, '\0', tail);
    IndexIs(identity, '\0', user);
    IndexIs(user, '\0', password);
    assert (identity + ['\0'] + tail)[|identity| + 1..] == tail;
    assert tail[..|user|] == user && tail[|user| + 1..] == password;
    assert (identity + ['\0'] + user)[|identity| + 1..] == user;
  }

  /** An answer on its line. */
  predicate Answer(lib: Library, line: string, data: string) {
    OneLine(line) && |line| <= 4094 && line != "" && line != "*" && line != "=" && lib.decode(line) == Some(data)
  }

  /** The client gives its answer along with the command or, when asked for it, on a line of its own. */
  ghost predicate Replies(lib: Library, initial: string, s: seq<byte>, data: string, rest: seq<byte>) {
    if initial != "" then Answer(lib, initial, data) && s == rest
    else exists line :: Answer(lib, line, data) && s == Sent(line) + [13, 10] + rest
  }

  lemma ReplyIsHeard(lib: Library, initial: string, s: seq<byte>, data: string, rest: seq<byte>)
    requires Replies(lib, initial, s, data, rest)
    ensures Challenged(lib, initial, true, s) == Heard(Got(data), rest)
  {
    if initial == "" {
      var line :| Answer(lib, line, data) && s == Sent(line) + [13, 10] + rest;
      LineIsTaken(line, rest);
    }
  }

  /** The argument of AUTH. */
  predicate Asks(arg: string, mechanism: string, initial: string) {
    && ' ' !in mechanism
    && arg == if initial == "" then mechanism else mechanism + " " + initial
  }

  lemma MechanismIs(arg: string, mechanism: string, initial: string)
    requires Asks(arg, mechanism, initial)
    ensures Mechanism(arg) == ToUpper(mechanism) && Initial(arg) == initial
  {
    IndexIs(mechanism, ' ', initial);
    var long := mechanism + [' '] + initial;
    assert long[..|mechanism|] == mechanism && long[|mechanism| + 1..] == initial;
    assert mechanism[..|mechanism|] == mechanism;
  }

  /** AUTH LOGIN hears a user and a password, and the server checks them; what follows them stays unread. */
  lemma LoginConversation(lib: Library, mechanism: string, initial: string, arg: string, s: seq<byte>, u: string,
                          mid: seq<byte>, p: string, rest: seq<byte>, o: Outside)
    requires ToUpper(mechanism) == "LOGIN" && Asks(arg, mechanism, initial) && o.firstPrompt && o.secondPrompt
    requires Replies(lib, initial, s, u, mid) && Replies(lib, "", mid, p, rest)
    ensures Exchanged(lib, arg, s, o) == Dialogue(Credentials(lib.valid(u, p)), rest)
  {
    MechanismIs(arg, mechanism, initial);
    ReplyIsHeard(lib, initial, s, u, mid);
    ReplyIsHeard(lib, "", mid, p, rest);
    LoginHears(lib, arg, s, u, mid, p, rest, o);
  }

  lemma LoginHears(
    lib: Library, arg: string, s: seq<byte>, u: string, mid: seq<byte>, p: string, rest: seq<byte>, o: Outside)
    requires Mechanism(arg) == "LOGIN" && o.firstPrompt && o.secondPrompt
    requires Challenged(lib, Initial(arg), true, s) == Heard(Got(u), mid)
    requires Challenged(lib, "", true, mid) == Heard(Got(p), rest)
    ensures Exchanged(lib, arg, s, o) == Dialogue(Credentials(lib.valid(u, p)), rest)
  {
  }

  lemma PlainHears(lib: Library, arg: string, s: seq<byte>, data: string, rest: seq<byte>, o: Outside)
    requires Mechanism(arg) == "PLAIN" && o.firstPrompt
    requires Challenged(lib, Initial(arg), true, s) == Heard(Got(data), rest)
    ensures Exchanged(lib, arg, s, o) == Dialogue(Checked(lib, PlainLogin(data)), rest)
  {
  }

  /** AUTH PLAIN takes user and password from one answer. */
  lemma PlainConversation(lib: Library, mechanism: string, initial: string, arg: string, s: seq<byte>, identity: string,
                          user: string, password: string, rest: seq<byte>, o: Outside)
    requires ToUpper(mechanism) == "PLAIN" && Asks(arg, mechanism, initial) && o.firstPrompt
    requires '\0' !in identity && '\0' !in user
    requires Replies(lib, initial, s, identity + ['\0'] + (user + ['\0'] + password), rest)
    ensures Exchanged(lib, arg, s, o) == Dialogue(Credentials(lib.valid(user, password)), rest)
  {
    var data := identity + ['\0'] + (user + ['\0'] + password);
    MechanismIs(arg, mechanism, initial);
    ReplyIsHeard(lib, initial, s, data, rest);
    PlainLoginIs(identity, user, password);
    PlainHears(lib, arg, s, data, rest, o);
  }

  predicate Garbled(lib: Library, input: Input) {
    input.Line? && input.text != "*" && input.text != "=" && lib.decode(input.text).None?
  }

  /** A prompt that does not go through and an answer that is cut off or too long end the session; others say why. */
  lemma ExchangeStops(lib: Library, arg: string, s: seq<byte>, o: Outside)
    requires Initial(arg) == ""
    ensures !o.firstPrompt || !CutLine(s).input.Line? ==> Exchanged(lib, arg, s, o).exchange == Cut
    ensures o.firstPrompt && CutLine(s).input == Line("*") ==> Exchanged(lib, arg, s, o).exchange == Cancelled
    ensures o.firstPrompt && Garbled(lib, CutLine(s).input) ==> Exchanged(lib, arg, s, o).exchange == BadBase64
  {
  }

  /** The same for the second answer of LOGIN. */
  lemma SecondAnswerStops(
    lib: Library, mechanism: string, initial: string, arg: string, s: seq<byte>, u: string, mid: seq<byte>, o: Outside)
    requires ToUpper(mechanism) == "LOGIN" && Asks(arg, mechanism, initial) && o.firstPrompt
    requires Replies(lib, initial, s, u, mid)
    ensures !o.secondPrompt || !CutLine(mid).input.Line? ==> Exchanged(lib, arg, s, o).exchange == Cut
    ensures o.secondPrompt && CutLine(mid).input == Line("*") ==> Exchanged(lib, arg, s, o).exchange == Cancelled
  {
    MechanismIs(arg, mechanism, initial);
    ReplyIsHeard(lib, initial, s, u, mid);
  }

  // ----- what a command takes from the stream -----

  /** The stream is replaced exactly if the session is secured, and by what comes over TLS alone. */
  lemma ReplacedIffSecured(c: Config, lib: Library, m: Memory, verb: Verb, arg: string, s: seq<byte>, o: Outside)
    ensures var act := OnCommand(c, m, verb, arg, WorldOf(lib, arg, s, o)).act;
            && (act == Some(Secured) <==> Secures(c, m, verb, arg, o))
            && (act == Some(Secured) ==> Ahead(c, lib, m, verb, arg, s, o) == o.secured)
  {
  }

  /** A login leaves just what stands behind its last answer; what is not a message or a login leaves all. */
  lemma LoginLeaves(c: Config, lib: Library, m: Memory, arg: string, s: seq<byte>, d: Dialogue, o: Outside)
    requires d == Exchanged(lib, arg, s, o) && d.exchange.Credentials? && (c.authRequired ==> d.exchange.valid)
    requires m.helo != "" && !m.authed && (Mechanism(arg) == "PLAIN" || Mechanism(arg) == "LOGIN")
    ensures OnCommand(c, m, AUTH, arg, WorldOf(lib, arg, s, o)) == Reaction(Some(LoggedIn), o.sent)
    ensures Ahead(c, lib, m, AUTH, arg, s, o) == d.rest
  {
    AuthReacts(c, m, arg, WorldOf(lib, arg, s, o));
    AuthLeaves(c, lib, m, arg, s, d, o);
  }

  lemma AuthReacts(c: Config, m: Memory, arg: string, w: World)
    requires Negotiates(m, arg) && w.exchange.Credentials? && (c.authRequired ==> w.exchange.valid)
    ensures OnCommand(c, m, AUTH, arg, w) == Reaction(Some(LoggedIn), w.sent)
  {
  }

  lemma AuthLeaves(c: Config, lib: Library, m: Memory, arg: string, s: seq<byte>, d: Dialogue, o: Outside)
    requires d == Exchanged(lib, arg, s, o) && Negotiates(m, arg)
    ensures Ahead(c, lib, m, AUTH, arg, s, o) == d.rest
  {
  }

  lemma OthersLeaveAll(c: Config, lib: Library, m: Memory, verb: Verb, arg: string, s: seq<byte>, o: Outside)
    requires verb != DATA && verb != AUTH
    ensures OnCommand(c, m, verb, arg, WorldOf(lib, arg, s, o)).act != Some(Secured) ==>
              Ahead(c, lib, m, verb, arg, s, o) == s
  {
  }
}
