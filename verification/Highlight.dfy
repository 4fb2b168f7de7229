/**
 * The MIME source view: the raw text cut into lines and the lines into
 * coloured tokens (`web/src/lib/mimeHighlight.ts`), for ASCII text.  The set
 * of boundary names, found by a regular expression, is a parameter.
 */
module Highlight {
  import opened Seqs
  import opened Text

  datatype Kind = Name | Value | Encoded | Boundary | Base64 | Body
  datatype RawToken = RawToken(kind: Kind, text: string)
  datatype Token = Token(kind: Kind, text: string, start: nat)
  datatype Line = Line(offset: nat, tokens: seq<Token>)

  function Texts(tokens: seq<RawToken>): string {
    if tokens == [] then "" else Texts(tokens[..|tokens| - 1]) + tokens[|tokens| - 1].text
  }

  lemma {:induction false} TextsAppend(a: seq<RawToken>, b: seq<RawToken>)
    ensures Texts(a + b) == Texts(a) + Texts(b)
  {
    if b == [] {
      assert a + b == a;
    } else {
      var init, last := b[..|b| - 1], b[|b| - 1];
      TextsAppend(a, init);
      assert (a + b)[..|a + b| - 1] == a + init;
      Associative(Texts(a), Texts(init), last.text);
    }
  }

  lemma TextsOne(t: RawToken)
    ensures Texts([t]) == t.text
  {
    assert [t][..0] == [];
    assert Texts([t][..0]) == "";
  }

  // ----- encoded words in header values -----

  /** Length of the longest start of `s` without question marks and white space. */
  function WordRun(s: string): (n: nat)
    ensures n <= |s|
  {
    if s == [] || s[0] == '?' || IsSpace(s[0]) then 0 else 1 + WordRun(s[1..])
  }

  /** Length of an encoded word "=?charset?Q?text?=" at the start of `s`; 0 when there is none. */
  function EncodedLength(s: string): (n: nat)
    ensures n <= |s|
  {
    if !HasPrefix(s, "=?") then 0
    else
      var a := 2 + WordRun(s[2..]);
      if a == 2 || |s| < a + 3 || s[a] != '?' || s[a + 1] !in "BbQq" || s[a + 2] != '?' then 0
      else
        var b := a + 3 + WordRun(s[a + 3..]);
        if HasPrefix(s[b..], "?=") then b + 2 else 0
  }

  /** A regular expression as its users see it: the length of the match at the start of a text, 0 for none. */
  type Matcher = f: string -> nat | forall s :: f(s) <= |s| witness (s: string) => 0

  /** Where the leftmost match starts; the length of `s` when there is none. */
  function FirstMatch(word: Matcher, s: string): (at: nat)
    ensures at <= |s|
  {
    if s == [] || word(s) > 0 then 0 else 1 + FirstMatch(word, s[1..])
  }

  lemma {:induction false} FirstMatchIsLeftmost(word: Matcher, s: string)
    ensures var at := FirstMatch(word, s);
            && (at < |s| ==> word(s[at..]) > 0)
            && forall i | 0 <= i < at :: word(s[i..]) == 0
  {
    assert s[0..] == s;
    if s != [] && word(s) == 0 {
      FirstMatchIsLeftmost(word, s[1..]);
      assert forall i | 0 < i <= |s| :: s[i..] == s[1..][i - 1..];
    }
  }

  /** A piece of a text. */
  datatype Hit = Hit(at: nat, end: nat)

  /** A search for something that is not empty. */
  type Finder = f: string -> Option<Hit> | forall s :: f(s).Some? ==> f(s).value.at < f(s).value.end <= |s|
    witness (s: string) => None

  function FindFirst(word: Matcher, s: string): Option<Hit> {
    var at := FirstMatch(word, s);
    if at == |s| then None else Some(Hit(at, at + word(s[at..])))
  }

  lemma FindFirstFinds(word: Matcher)
    ensures forall s :: FindFirst(word, s).Some? ==> FindFirst(word, s).value.at < FindFirst(word, s).value.end <= |s|
  {
    forall s ensures FindFirst(word, s).Some? ==> FindFirst(word, s).value.at < FindFirst(word, s).value.end <= |s| {
      FirstMatchIsLeftmost(word, s);
    }
  }

  /** Searching with a regular expression finds its leftmost match. */
  function Leftmost(word: Matcher): Finder {
    FindFirstFinds(word);
    (s: string) => FindFirst(word, s)
  }

  const ENCODED_WORD: Finder := Leftmost(EncodedLength)

  /** What lies before a match, if anything, and the match. */
  function Front(s: string, at: nat, end: nat): seq<RawToken>
    requires at <= end <= |s|
  {
    if at > 0 then [RawToken(Value, s[..at]), RawToken(Encoded, s[at..end])] else [RawToken(Encoded, s[at..end])]
  }

  /** A header value: its encoded words, one after the other, and what lies between them. */
  function Pieces(word: Finder, s: string): seq<RawToken>
    decreases |s|
  {
    match word(s)
    case None => if s == [] then [] else [RawToken(Value, s)]
    case Some(hit) => Front(s, hit.at, hit.end) + Pieces(word, s[hit.end..])
  }

  predicate Solid(tokens: seq<RawToken>) { forall t <- tokens :: t.text != "" }

  /** The tokens spell the line; none is empty unless it is the only one. */
  predicate Lossless(tokens: seq<RawToken>, line: string) {
    Texts(tokens) == line && (Solid(tokens) || |tokens| == 1)
  }

  lemma {:induction false} SpellBoth(a: seq<RawToken>, b: seq<RawToken>, s: string, n: nat)
    requires n <= |s| && Texts(a) == s[..n] && Texts(b) == s[n..] && Solid(a) && Solid(b)
    ensures Texts(a + b) == s && Solid(a + b)
  {
    TextsAppend(a, b);
    assert s == s[..n] + s[n..];
  }

  lemma {:induction false} FrontSpells(s: string, at: nat, end: nat)
    requires at < end <= |s|
    ensures Texts(Front(s, at, end)) == s[..end] && Solid(Front(s, at, end))
  {
    var hit := RawToken(Encoded, s[at..end]);
    TextsOne(hit);
    if at > 0 {
      var before := RawToken(Value, s[..at]);
      TextsOne(before);
      TextsAppend([before], [hit]);
      assert [before] + [hit] == Front(s, at, end);
      assert s[..at] + s[at..end] == s[..end];
    }
  }

  lemma {:induction false} PiecesAreLossless(word: Finder, s: string)
    ensures Texts(Pieces(word, s)) == s && Solid(Pieces(word, s))
    decreases |s|
  {
    match word(s) {
      case None =>
        if s != [] {
          TextsOne(RawToken(Value, s));
        }
      case Some(hit) =>
        PiecesAreLossless(word, s[hit.end..]);
        FrontThen(s, hit.at, hit.end, Pieces(word, s[hit.end..]), Pieces(word, s));
    }
  }

  lemma {:induction false} FrontThen(s: string, at: nat, end: nat, more: seq<RawToken>, all: seq<RawToken>)
    requires at < end <= |s| && Texts(more) == s[end..] && Solid(more) && all == Front(s, at, end) + more
    ensures Texts(all) == s && Solid(all)
  {
    FrontSpells(s, at, end);
    SpellBoth(Front(s, at, end), more, s, end);
  }

  /** `valueTokens`, with `rest` for what is not yet cut. */
  method ValueTokens(word: Finder, text: string) returns (out: seq<RawToken>)
    ensures out == Pieces(word, text)
  {
    out := [];
    var rest := text;
    var found := word(rest);
    assert out + Pieces(word, rest) == Pieces(word, text);
    while found.Some?
      invariant out + Pieces(word, rest) == Pieces(word, text) && found == word(rest)
      decreases |rest|
    {
      var hit := found.value;
      Associative(out, Front(rest, hit.at, hit.end), Pieces(word, rest[hit.end..]));
      out := PushFront(out, rest, hit.at, hit.end);
      rest := rest[hit.end..];
      found := word(rest);
    }
    if rest != [] {
      out := out + [RawToken(Value, rest)];
    }
  }

  method PushFront(out: seq<RawToken>, s: string, at: nat, end: nat) returns (out': seq<RawToken>)
    requires at <= end <= |s|
    ensures out' == out + Front(s, at, end)
  {
    out' := out;
    if at > 0 {
      out' := out' + [RawToken(Value, s[..at])];
    }
    out' := out' + [RawToken(Encoded, s[at..end])];
  }

  // ----- one line -----

  function TrimEnd(s: string): string { TrimRight(s) }

  /** The name in a line that starts with two hyphens; a closing pair does not belong to it. */
  function BoundaryName(line: string): string
    requires HasPrefix(line, "--")
  {
    var rest := line[2..];
    var cut := TrimEnd(rest);
    TrimSpace(if HasSuffix(cut, "--") then cut[..|cut| - 2] else rest)
  }

  predicate IsBoundary(boundaries: set<string>, line: string) {
    HasPrefix(line, "--") && BoundaryName(line) in boundaries
  }

  /** Length of the field name of a header line, or None. */
  function FieldName(line: string): (r: Option<nat>)
    ensures r.Some? ==> 0 < r.value < |line| && line[r.value] == ':'
  {
    var colon := IndexOf(line, ':');
    if 0 < colon < |line| && (forall c <- line[..colon] :: '!' <= c <= '~') && '\r' !in line[colon..] then Some(colon)
    else None
  }

  predicate IsBase64Char(c: char) { IsUpper(c) || IsLower(c) || IsDigit(c) || c == '+' || c == '/' }

  /** At least 40 characters of the alphabet and at most two equals signs. */
  predicate IsBase64(line: string) {
    var n := IndexOf(line, '=');
    && n >= 40 && |line| - n <= 2
    && (forall c <- line[..n] :: IsBase64Char(c)) && (forall c <- line[n..] :: c == '=')
  }

  /** How a line is cut, given whether it stands among headers. */
  function LineTokens(boundaries: set<string>, line: string, inHeaders: bool): seq<RawToken> {
    if IsBoundary(boundaries, line) then [RawToken(Boundary, line)]
    else if inHeaders && line == "" then []
    else if inHeaders && FieldName(line).Some? then
      var n := FieldName(line).value;
      [RawToken(Name, line[..n + 1])] + Pieces(ENCODED_WORD, line[n + 1..])
    else if inHeaders && (line[0] == ' ' || line[0] == '\t') then Pieces(ENCODED_WORD, line)
    else [RawToken(if IsBase64(line) then Base64 else Body, line)]
  }

  /** A boundary starts headers unless it closes; an empty line ends them; other lines change nothing. */
  function Switch(boundaries: set<string>, line: string): Option<bool> {
    if IsBoundary(boundaries, line) then Some(!HasSuffix(TrimEnd(line), "--"))
    else if line == "" then Some(false)
    else None
  }

  /** How lines are cut and when headers begin and end. */
  datatype Grammar = Grammar(cut: (string, bool) -> seq<RawToken>, switch: string -> Option<bool>)

  function Mime(boundaries: set<string>): Grammar {
    Grammar((line, inHeaders) => LineTokens(boundaries, line, inHeaders), line => Switch(boundaries, line))
  }

  /** Whether line `i` stands among headers: what the last switching line before it said. */
  predicate InHeaders(g: Grammar, lines: seq<string>, i: nat)
    requires i <= |lines|
  {
    if i == 0 then true
    else
      match g.switch(lines[i - 1])
      case Some(b) => b
      case None => InHeaders(g, lines, i - 1)
  }

  lemma LineIsLossless(boundaries: set<string>, line: string, inHeaders: bool)
    ensures Lossless(LineTokens(boundaries, line, inHeaders), line)
  {
    OneTokenIsLossless(Boundary, line);
    OneTokenIsLossless(Base64, line);
    OneTokenIsLossless(Body, line);
    PiecesAreLossless(ENCODED_WORD, line);
    if FieldName(line).Some? {
      HeaderIsLossless(line, FieldName(line).value);
    }
  }

  lemma OneTokenIsLossless(kind: Kind, line: string)
    ensures Lossless([RawToken(kind, line)], line)
  {
    TextsOne(RawToken(kind, line));
  }

  lemma HeaderIsLossless(line: string, n: nat)
    requires n < |line|
    ensures Lossless([RawToken(Name, line[..n + 1])] + Pieces(ENCODED_WORD, line[n + 1..]), line)
  {
    var name := RawToken(Name, line[..n + 1]);
    PiecesAreLossless(ENCODED_WORD, line[n + 1..]);
    TextsOne(name);
    SpellBoth([name], Pieces(ENCODED_WORD, line[n + 1..]), line, n + 1);
  }

  // ----- lines -----

  function Chomp(s: string): string { if s != [] && s[|s| - 1] == '\r' then s[..|s| - 1] else s }

  /** Splitting at line feeds, each with the carriage return before it, if any. */
  function SplitLines(raw: string): (lines: seq<string>)
    ensures lines != []
    decreases |raw|
  {
    var at := IndexOf(raw, '\n');
    if at == |raw| then [raw] else [Chomp(raw[..at])] + SplitLines(raw[at + 1..])
  }

  function JoinLines(lines: seq<string>): string
    requires lines != []
  {
    if |lines| == 1 then lines[0] else lines[0] + ['\n'] + JoinLines(lines[1..])
  }

  predicate StartsWithCrLf(raw: string) { |raw| >= 2 && raw[0] == '\r' && raw[1] == '\n' }

  /** The text with every CRLF turned into LF, character by character. */
  function Normalize(raw: string): string {
    if raw == [] then []
    else if StartsWithCrLf(raw) then ['\n'] + Normalize(raw[2..])
    else [raw[0]] + Normalize(raw[1..])
  }

  lemma {:induction false} NormalizeLine(s: string)
    requires '\n' !in s
    ensures Normalize(s) == s
  {
    if s != [] {
      assert |s| > 1 ==> s[1] in s;
      NormalizeLine(s[1..]);
    }
  }

  lemma {:induction false} NormalizeFirst(s: string, rest: string)
    requires '\n' !in s
    ensures Normalize(s + ['\n'] + rest) == Chomp(s) + ['\n'] + Normalize(rest)
  {
    var raw := s + ['\n'] + rest;
    if s == [] {
      assert raw[1..] == rest && raw[0] == '\n';
    } else if s == ['\r'] {
      assert StartsWithCrLf(raw) && raw[2..] == rest && Chomp(s) == [];
    } else {
      assert |s| > 1 ==> s[1] in s;
      assert !StartsWithCrLf(raw) by {
        assert |s| == 1 ==> s == [s[0]];
      }
      assert raw[1..] == s[1..] + ['\n'] + rest;
      NormalizeFirst(s[1..], rest);
      ChompTail(s);
    }
  }

  lemma ChompTail(s: string)
    requires s != [] && s != ['\r']
    ensures Chomp(s) == [s[0]] + Chomp(s[1..])
  {
    if |s| == 1 {
      assert s == [s[0]];
    }
  }

  lemma JoinFirst(line: string, lines: seq<string>, all: seq<string>)
    requires lines != [] && all == [line] + lines
    ensures JoinLines(all) == line + ['\n'] + JoinLines(lines)
  {
    assert all[1..] == lines;
  }

  lemma NormalizeSplit(raw: string, at: nat)
    requires at < |raw| && raw[at] == '\n' && '\n' !in raw[..at]
    ensures Normalize(raw) == Chomp(raw[..at]) + ['\n'] + Normalize(raw[at + 1..])
  {
    assert raw == raw[..at] + ['\n'] + raw[at + 1..];
    NormalizeFirst(raw[..at], raw[at + 1..]);
  }

  lemma {:induction false} SplitJoins(raw: string)
    ensures JoinLines(SplitLines(raw)) == Normalize(raw)
    decreases |raw|
  {
    var at := IndexOf(raw, '\n');
    var line := raw[..at];
    if at == |raw| {
      assert line == raw;
      NormalizeLine(raw);
    } else {
      var rest := raw[at + 1..];
      SplitJoins(rest);
      NormalizeSplit(raw, at);
      JoinFirst(Chomp(line), SplitLines(rest), SplitLines(raw));
    }
  }

  /** No line feed is left in a line: every one has split the text. */
  lemma {:induction false} LinesAreSplit(raw: string)
    ensures forall line <- SplitLines(raw) :: '\n' !in line
    decreases |raw|
  {
    var at := IndexOf(raw, '\n');
    if at < |raw| {
      LinesAreSplit(raw[at + 1..]);
    } else {
      assert raw[..at] == raw;
    }
  }

  /** Where line `i` starts in the joined text. */
  function Offset(lines: seq<string>, i: nat): nat
    requires i <= |lines|
  {
    if i == 0 then 0 else Offset(lines, i - 1) + |lines[i - 1]| + 1
  }

  lemma {:induction false} OffsetOfTail(lines: seq<string>, i: nat)
    requires 0 < i <= |lines|
    ensures Offset(lines, i) == |lines[0]| + 1 + Offset(lines[1..], i - 1)
  {
    if i > 1 {
      OffsetOfTail(lines, i - 1);
    }
  }

  lemma {:induction false} LineInText(lines: seq<string>, i: nat)
    requires i < |lines|
    ensures var (text, at) := (JoinLines(lines), Offset(lines, i));
            at + |lines[i]| <= |text| && text[at..at + |lines[i]|] == lines[i]
    decreases |lines|
  {
    if i > 0 {
      OffsetOfTail(lines, i);
      LineInText(lines[1..], i - 1);
      var (tail, at) := (JoinLines(lines[1..]), Offset(lines[1..], i - 1));
      Shifted(lines[0] + ['\n'], tail, at, at + |lines[i]|);
    }
  }

  lemma Shifted(a: string, b: string, from: nat, to: nat)
    requires from <= to <= |b|
    ensures (a + b)[|a| + from..|a| + to] == b[from..to]
  {
  }

  // ----- the two loops -----

  /** The tokens of the first `n` lines. */
  function AllTokens(g: Grammar, lines: seq<string>, n: nat): (r: seq<seq<RawToken>>)
    requires n <= |lines|
    ensures |r| == n
  {
    if n == 0 then [] else AllTokens(g, lines, n - 1) + [g.cut(lines[n - 1], InHeaders(g, lines, n - 1))]
  }

  /** `tokenize` */
  method Tokenize(boundaries: set<string>, raw: string) returns (out: seq<seq<RawToken>>)
    ensures out == AllTokens(Mime(boundaries), SplitLines(raw), |SplitLines(raw)|)
  {
    out := CutLines(boundaries, SplitLines(raw), Mime(boundaries));
  }

  method CutLines(boundaries: set<string>, lines: seq<string>, ghost g: Grammar) returns (out: seq<seq<RawToken>>)
    requires Follows(g, boundaries)
    ensures out == AllTokens(g, lines, |lines|)
  {
    out := [];
    var inHeaders := true;
    for i := 0 to |lines|
      invariant out == AllTokens(g, lines, i) && inHeaders == InHeaders(g, lines, i)
    {
      var tokens, after := CutLine(boundaries, lines[i], inHeaders, g);
      OneLineMore(g, lines, i, tokens, after);
      out, inHeaders := out + [tokens], after;
    }
  }

  lemma OneLineMore(g: Grammar, lines: seq<string>, i: nat, tokens: seq<RawToken>, after: bool)
    requires i < |lines| && tokens == g.cut(lines[i], InHeaders(g, lines, i))
    requires after == match g.switch(lines[i]) case Some(b) => b case None => InHeaders(g, lines, i)
    ensures AllTokens(g, lines, i + 1) == AllTokens(g, lines, i) + [tokens] && after == InHeaders(g, lines, i + 1)
  {
  }

  ghost predicate Follows(g: Grammar, boundaries: set<string>) { g == Mime(boundaries) }

  /** The body of the loop: the state is a flag, the reference looks back instead. */
  method CutLine(boundaries: set<string>, line: string, inHeaders: bool, ghost g: Grammar)
    returns (tokens: seq<RawToken>, after: bool)
    requires Follows(g, boundaries)
    ensures tokens == g.cut(line, inHeaders)
    ensures after == match g.switch(line) case Some(b) => b case None => inHeaders
  {
    after := inHeaders;
    if HasPrefix(line, "--") && BoundaryName(line) in boundaries {
      return [RawToken(Boundary, line)], !HasSuffix(TrimEnd(line), "--");
    }
    if inHeaders {
      if line == "" {
        return [], false;
      }
      var name := FieldName(line);
      if name.Some? {
        var value := ValueTokens(ENCODED_WORD, line[name.value + 1..]);
        return [RawToken(Name, line[..name.value + 1])] + value, after;
      }
      if line[0] == ' ' || line[0] == '\t' {
        tokens := ValueTokens(ENCODED_WORD, line);
        return;
      }
    }
    tokens := [RawToken(if IsBase64(line) then Base64 else Body, line)];
  }

  /** The tokens of a line with their starts, and where the line ends. */
  method Place(raws: seq<RawToken>) returns (tokens: seq<Token>, end: nat)
    ensures Placed(raws, tokens) && end == |Texts(raws)|
  {
    tokens, end := [], 0;
    for i := 0 to |raws|
      invariant Placed(raws[..i], tokens) && end == |Texts(raws[..i])|
    {
      assert raws[..i + 1][..i] == raws[..i];
      PlacedMore(raws[..i], raws[i], tokens);
      tokens := tokens + [Token(raws[i].kind, raws[i].text, end)];
      end := end + |raws[i].text|;
      assert raws[..i] + [raws[i]] == raws[..i + 1];
    }
    assert raws[..|raws|] == raws;
  }

  ghost predicate Placed(raws: seq<RawToken>, tokens: seq<Token>) {
    && |tokens| == |raws|
    && forall i | 0 <= i < |raws| :: tokens[i] == Token(raws[i].kind, raws[i].text, |Texts(raws[..i])|)
  }

  lemma PlacedMore(raws: seq<RawToken>, t: RawToken, tokens: seq<Token>)
    requires Placed(raws, tokens)
    ensures Placed(raws + [t], tokens + [Token(t.kind, t.text, |Texts(raws)|)])
  {
    forall i | 0 <= i < |raws + [t]|
      ensures (tokens + [Token(t.kind, t.text, |Texts(raws)|)])[i]
           == Token((raws + [t])[i].kind, (raws + [t])[i].text, |Texts((raws + [t])[..i])|)
    {
      assert (raws + [t])[..i] == raws[..i];
      assert raws[..|raws|] == raws;
    }
  }

  /** Where line `i` starts when the lines are cut like this. */
  function Start(cut: seq<seq<RawToken>>, i: nat): nat
    requires i <= |cut|
  {
    if i == 0 then 0 else Start(cut, i - 1) + |Texts(cut[i - 1])| + 1
  }

  ghost predicate LineLaid(cut: seq<seq<RawToken>>, i: nat, line: Line)
    requires i < |cut|
  {
    line.offset == Start(cut, i) && Placed(cut[i], line.tokens)
  }

  ghost predicate LaidOut(cut: seq<seq<RawToken>>, out: seq<Line>) {
    |out| == |cut| && forall i | 0 <= i < |cut| :: LineLaid(cut, i, out[i])
  }

  /** The loop of `highlightMime`: offsets and starts. */
  method LayOut(cut: seq<seq<RawToken>>) returns (out: seq<Line>)
    ensures LaidOut(cut, out)
  {
    out := [];
    var offset := 0;
    for i := 0 to |cut|
      invariant |out| == i && offset == Start(cut, i)
      invariant forall k | 0 <= k < i :: LineLaid(cut, k, out[k])
    {
      var tokens, end := Place(cut[i]);
      var line := Line(offset, tokens);
      assert LineLaid(cut, i, line);
      out := out + [line];
      offset := offset + end + 1;
    }
  }

  // ----- the theorem -----

  /** The tokens of one line are its text, side by side, at distinct places. */
  ghost predicate Covers(tokens: seq<Token>, line: string) {
    && (forall i | 0 <= i < |tokens| :: Within(tokens[i], line))
    && (tokens == [] ==> line == "")
    && (tokens != [] ==> tokens[0].start == 0 && EndOf(tokens[|tokens| - 1]) == |line|)
    && (forall i | 0 < i < |tokens| :: tokens[i].start == EndOf(tokens[i - 1]))
    && (forall i, j | 0 <= i < j < |tokens| :: tokens[i].start < tokens[j].start)
  }

  function EndOf(t: Token): nat { t.start + |t.text| }

  predicate Within(t: Token, line: string) { EndOf(t) <= |line| && line[t.start..EndOf(t)] == t.text }

  lemma {:induction false} TextsPrefix(raws: seq<RawToken>, i: nat)
    requires i < |raws|
    ensures var (from, to) := (|Texts(raws[..i])|, |Texts(raws[..i + 1])|);
            from <= to <= |Texts(raws)| && to == from + |raws[i].text| && Texts(raws)[from..to] == raws[i].text
  {
    assert raws == raws[..i] + [raws[i]] + raws[i + 1..] && raws[..i + 1] == raws[..i] + [raws[i]];
    TextsAppend(raws[..i] + [raws[i]], raws[i + 1..]);
    TextsAppend(raws[..i], [raws[i]]);
    TextsOne(raws[i]);
  }

  lemma {:induction false} StartsGrow(raws: seq<RawToken>, i: nat, j: nat)
    requires i < j < |raws| && Solid(raws)
    ensures |Texts(raws[..i])| < |Texts(raws[..j])|
    decreases j
  {
    TextsPrefix(raws, j - 1);
    assert raws[j - 1] in raws;
    if i < j - 1 {
      StartsGrow(raws, i, j - 1);
    }
  }

  lemma {:induction false} TokenWithin(raws: seq<RawToken>, tokens: seq<Token>, i: nat)
    requires Placed(raws, tokens) && i < |raws|
    ensures Within(tokens[i], Texts(raws)) && EndOf(tokens[i]) == |Texts(raws[..i + 1])|
    ensures tokens[i].start == |Texts(raws[..i])|
  {
    TextsPrefix(raws, i);
  }

  lemma TokensApart(raws: seq<RawToken>, tokens: seq<Token>, i: nat, j: nat)
    requires Placed(raws, tokens) && i < j < |raws| && Solid(raws)
    ensures tokens[i].start < tokens[j].start
  {
    StartsGrow(raws, i, j);
  }

  lemma {:induction false} PlacedCovers(raws: seq<RawToken>, tokens: seq<Token>)
    requires Placed(raws, tokens) && (Solid(raws) || |raws| == 1)
    ensures Covers(tokens, Texts(raws))
  {
    forall i | 0 <= i < |raws|
      ensures Within(tokens[i], Texts(raws))
      ensures EndOf(tokens[i]) == |Texts(raws[..i + 1])| && tokens[i].start == |Texts(raws[..i])|
    {
      TokenWithin(raws, tokens, i);
    }
    if Solid(raws) {
      forall i, j | 0 <= i < j < |raws| ensures tokens[i].start < tokens[j].start {
        TokensApart(raws, tokens, i, j);
      }
    }
    assert raws[..|raws|] == raws && raws[..0] == [];
  }

  lemma {:induction false} OffsetsGrow(lines: seq<string>, i: nat, j: nat)
    requires i < j <= |lines|
    ensures Offset(lines, i) + |lines[i]| < Offset(lines, j)
    decreases j
  {
    if i < j - 1 {
      OffsetsGrow(lines, i, j - 1);
    }
  }

  /** `cut` spells `lines`, line by line. */
  ghost predicate Spells(cut: seq<seq<RawToken>>, lines: seq<string>) {
    |cut| == |lines| && forall i | 0 <= i < |lines| :: Lossless(cut[i], lines[i])
  }

  lemma {:induction false} TokensSpell(g: Grammar, lines: seq<string>, n: nat)
    requires n <= |lines| && forall line, h :: Lossless(g.cut(line, h), line)
    ensures Spells(AllTokens(g, lines, n), lines[..n])
  {
    if n > 0 {
      TokensSpell(g, lines, n - 1);
      var (line, h) := (lines[n - 1], InHeaders(g, lines, n - 1));
      SpellsMore(AllTokens(g, lines, n - 1), lines[..n - 1], g.cut(line, h), line);
      assert lines[..n - 1] + [line] == lines[..n];
    }
  }

  lemma SpellsMore(cut: seq<seq<RawToken>>, lines: seq<string>, tokens: seq<RawToken>, line: string)
    requires Spells(cut, lines) && Lossless(tokens, line)
    ensures Spells(cut + [tokens], lines + [line])
  {
  }

  lemma {:induction false} StartIsOffset(cut: seq<seq<RawToken>>, lines: seq<string>, i: nat)
    requires Spells(cut, lines) && i <= |lines|
    ensures Start(cut, i) == Offset(lines, i)
  {
    if i > 0 {
      StartIsOffset(cut, lines, i - 1);
      assert Lossless(cut[i - 1], lines[i - 1]);
    }
  }

  lemma MimeSpells(boundaries: set<string>, lines: seq<string>)
    ensures Spells(AllTokens(Mime(boundaries), lines, |lines|), lines)
  {
    forall line, h ensures Lossless(Mime(boundaries).cut(line, h), line) {
      LineIsLossless(boundaries, line, h);
    }
    TokensSpell(Mime(boundaries), lines, |lines|);
    assert lines[..|lines|] == lines;
  }

  predicate LineAt(text: string, at: nat, line: string) { at + |line| <= |text| && text[at..at + |line|] == line }

  /** Every line of the view shows its line of the text, at its place in the text. */
  ghost predicate Shows(out: seq<Line>, lines: seq<string>, text: string) {
    && |out| == |lines|
    && (forall i | 0 <= i < |out| :: Covers(out[i].tokens, lines[i]) && LineAt(text, out[i].offset, lines[i]))
    && (forall i, j | 0 <= i < j < |out| :: out[i].offset + |lines[i]| < out[j].offset)
  }

  /** The text has every line in its place. */
  ghost predicate Holds(text: string, lines: seq<string>) {
    forall i | 0 <= i < |lines| :: LineAt(text, Offset(lines, i), lines[i])
  }

  lemma JoinedHolds(lines: seq<string>)
    requires lines != []
    ensures Holds(JoinLines(lines), lines)
  {
    forall i | 0 <= i < |lines| ensures LineAt(JoinLines(lines), Offset(lines, i), lines[i]) {
      LineInText(lines, i);
    }
  }

  lemma LineCovered(cut: seq<seq<RawToken>>, i: nat, shown: Line, line: string)
    requires i < |cut| && LineLaid(cut, i, shown) && Lossless(cut[i], line)
    ensures Covers(shown.tokens, line) && shown.offset == Start(cut, i)
  {
    PlacedCovers(cut[i], shown.tokens);
  }

  /** Every line's tokens cover it, and it is where its offset says. */
  ghost predicate Covered(out: seq<Line>, lines: seq<string>) {
    && |out| == |lines|
    && forall i | 0 <= i < |out| :: Covers(out[i].tokens, lines[i]) && out[i].offset == Offset(lines, i)
  }

  lemma LayoutCovers(cut: seq<seq<RawToken>>, lines: seq<string>, out: seq<Line>)
    requires Spells(cut, lines) && LaidOut(cut, out)
    ensures Covered(out, lines)
  {
    forall i | 0 <= i < |lines| ensures Covers(out[i].tokens, lines[i]) && out[i].offset == Offset(lines, i) {
      assert Lossless(cut[i], lines[i]) && LineLaid(cut, i, out[i]);
      LineCovered(cut, i, out[i], lines[i]);
      StartIsOffset(cut, lines, i);
    }
  }

  lemma CoveredShows(out: seq<Line>, lines: seq<string>, text: string)
    requires Covered(out, lines) && Holds(text, lines)
    ensures Shows(out, lines, text)
  {
    forall i, j | 0 <= i < j < |lines| ensures out[i].offset + |lines[i]| < out[j].offset {
      OffsetsGrow(lines, i, j);
    }
  }

  /**
   * `highlightMime` is lossless: its lines joined by line feeds are the text
   * with CRLF turned into LF; every line's tokens cover it side by side at
   * strictly increasing starts; every line's offset is where it starts in
   * that text, and offsets strictly increase, so that the pair of offset and
   * start, which the view uses as a key, is unique.
   */
  method HighlightMime(boundaries: set<string>, raw: string) returns (out: seq<Line>)
    ensures JoinLines(SplitLines(raw)) == Normalize(raw)
    ensures Shows(out, SplitLines(raw), Normalize(raw))
    ensures LaidOut(AllTokens(Mime(boundaries), SplitLines(raw), |SplitLines(raw)|), out)
  {
    var cut := Tokenize(boundaries, raw);
    out := LayOut(cut);
    ghost var lines := SplitLines(raw);
    SplitJoins(raw);
    MimeSpells(boundaries, lines);
    JoinedHolds(lines);
    LayoutCovers(cut, lines, out);
    CoveredShows(out, lines, JoinLines(lines));
  }
}
