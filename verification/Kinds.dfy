/**
 * What the colours of the MIME source view mean: where headers begin and end,
 * which lines are header fields, boundaries and base64 data, and which parts
 * of a value are encoded words.
 */
module Kinds {
  import opened Seqs
  import opened Text
  import opened Highlight

  // ----- where headers stand -----

  /** A boundary line that a part follows. */
  predicate Begins(boundaries: set<string>, line: string) {
    IsBoundary(boundaries, line) && !HasSuffix(TrimRight(line), "--")
  }

  /** A boundary line that closes its multipart, or an empty line. */
  predicate Ends(boundaries: set<string>, line: string) {
    line == "" || (IsBoundary(boundaries, line) && HasSuffix(TrimRight(line), "--"))
  }

  /** From line `k`, which begins the text or stands behind a boundary, to line `i` nothing ends the headers. */
  ghost predicate SameHeaders(boundaries: set<string>, lines: seq<string>, k: nat, i: nat) {
    && k <= i <= |lines|
    && (k == 0 || Begins(boundaries, lines[k - 1]))
    && forall j | k <= j < i :: !Ends(boundaries, lines[j])
  }

  ghost predicate AmongHeaders(boundaries: set<string>, lines: seq<string>, i: nat) {
    exists k: nat :: SameHeaders(boundaries, lines, k, i)
  }

  /** The same of any grammar. */
  ghost predicate Unbroken(g: Grammar, lines: seq<string>, k: nat, i: nat) {
    && k <= i <= |lines|
    && (k == 0 || g.switch(lines[k - 1]) == Some(true))
    && forall j | k <= j < i :: g.switch(lines[j]) != Some(false)
  }

  lemma {:induction false} HeadersBegan(g: Grammar, lines: seq<string>, i: nat) returns (k: nat)
    requires i <= |lines| && InHeaders(g, lines, i)
    ensures Unbroken(g, lines, k, i)
  {
    if i == 0 {
      k := 0;
    } else if g.switch(lines[i - 1]) == Some(true) {
      k := i;
    } else {
      k := HeadersBegan(g, lines, i - 1);
    }
  }

  lemma {:induction false} HeadersLast(g: Grammar, lines: seq<string>, k: nat, i: nat)
    requires Unbroken(g, lines, k, i)
    ensures InHeaders(g, lines, i)
  {
    if k < i && g.switch(lines[i - 1]) != Some(true) {
      HeadersLast(g, lines, k, i - 1);
    }
  }

  /** Headers stand where the text or a part begins, up to the first empty line or closing boundary. */
  lemma HeadersAre(boundaries: set<string>, lines: seq<string>, i: nat)
    requires i <= |lines|
    ensures InHeaders(Mime(boundaries), lines, i) <==> AmongHeaders(boundaries, lines, i)
  {
    if InHeaders(Mime(boundaries), lines, i) {
      var k := HeadersBegan(Mime(boundaries), lines, i);
      UnbrokenIff(boundaries, lines, k, i);
    }
    if AmongHeaders(boundaries, lines, i) {
      var k: nat :| SameHeaders(boundaries, lines, k, i);
      UnbrokenIff(boundaries, lines, k, i);
      HeadersLast(Mime(boundaries), lines, k, i);
    }
  }

  lemma UnbrokenIff(boundaries: set<string>, lines: seq<string>, k: nat, i: nat)
    ensures Unbroken(Mime(boundaries), lines, k, i) <==> SameHeaders(boundaries, lines, k, i)
  {
    forall line
      ensures Mime(boundaries).switch(line)
           == if Begins(boundaries, line) then Some(true) else if Ends(boundaries, line) then Some(false) else None
    {
      SwitchIs(boundaries, line);
    }
    forall line ensures !(Begins(boundaries, line) && Ends(boundaries, line)) {
    }
  }

  lemma SwitchIs(boundaries: set<string>, line: string)
    ensures Mime(boundaries).switch(line)
         == if Begins(boundaries, line) then Some(true) else if Ends(boundaries, line) then Some(false) else None
  {
  }

  lemma HeadersGoOn(boundaries: set<string>, lines: seq<string>, i: nat)
    requires i < |lines|
    ensures AmongHeaders(boundaries, lines, i + 1)
       <==> Begins(boundaries, lines[i]) || (!Ends(boundaries, lines[i]) && AmongHeaders(boundaries, lines, i))
  {
    if Begins(boundaries, lines[i]) {
      assert SameHeaders(boundaries, lines, i + 1, i + 1);
    } else if !Ends(boundaries, lines[i]) {
      if AmongHeaders(boundaries, lines, i) {
        var k: nat :| SameHeaders(boundaries, lines, k, i);
        assert SameHeaders(boundaries, lines, k, i + 1);
      }
      if AmongHeaders(boundaries, lines, i + 1) {
        var k: nat :| SameHeaders(boundaries, lines, k, i + 1);
        assert SameHeaders(boundaries, lines, k, i);
      }
    }
  }

  // ----- boundary lines -----

  lemma {:induction false} TightStays(s: string, more: string)
    requires AllSpace(more) && Tight(s)
    ensures TrimRight(s + more) == s
    decreases |more|
  {
    if more == [] {
      assert s + more == s;
    } else {
      var init := more[..|more| - 1];
      assert more[|more| - 1] in more && (s + more)[..|s + more| - 1] == s + init;
      TightStays(s, init);
    }
  }

  lemma TrimTight(s: string)
    requires Tight(s)
    ensures TrimSpace(s) == s && TrimRight(s) == s
  {
  }

  /** A name that hyphens around it leave recognisable; "---" would look closed. */
  predicate IsName(name: string) { name != [] && name != "-" && Tight(name) && !HasSuffix(name, "--") }

  /** "--name" starts a part; "--name--", with or without white space behind it, closes the multipart. */
  lemma BoundariesAre(boundaries: set<string>, name: string, space: string)
    requires name in boundaries && IsName(name) && AllSpace(space)
    ensures Begins(boundaries, "--" + name)
    ensures Ends(boundaries, "--" + name + "--" + space)
  {
    OpeningLine(boundaries, name, "--" + name);
    ClosingLine(boundaries, name, name + "--", space, "--" + name + "--" + space);
  }

  lemma OpeningLine(boundaries: set<string>, name: string, line: string)
    requires name in boundaries && IsName(name) && line == "--" + name
    ensures Begins(boundaries, line)
  {
    assert line[..2] == "--" && line[2..] == name;
    TrimTight(name);
    assert Tight(line);
    TrimTight(line);
    assert |name| == 1 ==> line[|line| - 2..] == ['-', name[0]] && name == [name[0]];
    assert |name| > 1 ==> line[|line| - 2..] == name[|name| - 2..];
  }

  lemma ClosingLine(boundaries: set<string>, name: string, closed: string, space: string, line: string)
    requires name in boundaries && IsName(name) && AllSpace(space)
    requires closed == name + "--" && line == "--" + name + "--" + space
    ensures Ends(boundaries, line)
  {
    assert line[..2] == "--" && line[2..] == closed + space;
    assert closed[|closed| - 2..] == "--" && closed[..|closed| - 2] == name;
    TightStays(closed, space);
    TrimTight(name);
    assert line == ("--" + closed) + space;
    TightStays("--" + closed, space);
    assert ("--" + closed)[|closed|..] == "--";
  }

  /** No other line is one: two hyphens, a known name, perhaps two hyphens more, and white space around these. */
  lemma BoundaryLooksLike(boundaries: set<string>, line: string)
    returns (a: string, name: string, b: string, close: string, d: string)
    requires IsBoundary(boundaries, line)
    ensures line == "--" + (a + name + b) + close + d && name in boundaries
    ensures AllSpace(a) && AllSpace(b) && AllSpace(d) && (close == "" || close == "--")
  {
    var inner;
    inner, close, d := Stripped(line);
    a, b := TrimMeans(inner);
    name := TrimSpace(inner);
  }

  lemma Stripped(line: string) returns (inner: string, close: string, d: string)
    requires HasPrefix(line, "--")
    ensures line == "--" + inner + close + d && BoundaryName(line) == TrimSpace(inner)
    ensures AllSpace(d) && (close == "" || close == "--")
  {
    var rest := line[2..];
    var n := RightPart(rest);
    var cut := TrimRight(rest);
    if HasSuffix(cut, "--") {
      inner, close, d := cut[..|cut| - 2], "--", rest[n..];
      Reassemble(line, rest, cut, n);
    } else {
      inner, close, d := rest, "", "";
    }
  }

  lemma Reassemble(line: string, rest: string, cut: string, n: nat)
    requires HasPrefix(line, "--") && rest == line[2..] && n <= |rest| && cut == rest[..n] && HasSuffix(cut, "--")
    ensures line == "--" + cut[..|cut| - 2] + "--" + rest[n..]
  {
    assert cut == cut[..|cut| - 2] + "--";
    assert line == "--" + (cut + rest[n..]);
  }

  // ----- the kinds of the lines -----

  const BASE64_ALPHABET := UPPER + LOWER + "0123456789+/"

  lemma InAlphabet(c: char)
    ensures IsBase64Char(c) <==> c in BASE64_ALPHABET
  {
    InUpper(c);
    InLower(c);
    if IsDigit(c) {
      assert "0123456789"[c as int - 48] == c;
    }
  }

  lemma InUpper(c: char)
    ensures c in UPPER <==> IsUpper(c)
  {
    if IsUpper(c) {
      AlphabetIs(c as int - 65);
      assert UPPER[c as int - 65] == c;
    }
  }

  lemma InLower(c: char)
    ensures c in LOWER <==> IsLower(c)
  {
    if IsLower(c) {
      AlphabetIs(c as int - 97);
      assert LOWER[c as int - 97] == c;
    }
  }

  predicate Encodes(line: string, n: nat) {
    && 40 <= n <= |line| <= n + 2
    && (forall i | 0 <= i < n :: line[i] in BASE64_ALPHABET)
    && (forall i | n <= i < |line| :: line[i] == '=')
  }

  lemma IndexIs(s: string, c: char, n: nat)
    requires n <= |s| && c !in s[..n] && (n < |s| ==> s[n] == c)
    ensures IndexOf(s, c) == n
  {
    var at := IndexOf(s, c);
    assert forall i | 0 <= i < n :: s[..n][i] == s[i];
    assert forall i | 0 <= i < at :: s[..at][i] == s[i];
  }

  ghost predicate IsData(line: string) { exists n: nat :: Encodes(line, n) }

  /** Base64 data: forty or more characters of its alphabet, then up to two equals signs. */
  lemma Base64Iff(line: string)
    ensures IsBase64(line) <==> IsData(line)
  {
    forall c ensures IsBase64Char(c) <==> c in BASE64_ALPHABET {
      InAlphabet(c);
    }
    var at := IndexOf(line, '=');
    if IsBase64(line) {
      forall i | at <= i < |line| ensures line[i] == '=' {
        assert line[at..][i - at] in line[at..];
      }
      assert Encodes(line, at);
    }
    if n: nat :| Encodes(line, n) {
      assert '=' !in BASE64_ALPHABET;
      IndexIs(line, '=', n);
    }
  }

  /** A field name and its colon, then the value up to the end of the line. */
  predicate IsField(name: string, line: string) {
    && name != [] && (forall c <- name :: 33 <= c as int <= 126 && c != ':')
    && |name| < |line| && line[..|name|] == name && line[|name|] == ':'
    && '\r' !in line[|name| + 1..]
  }

  lemma FieldIff(name: string, line: string)
    ensures IsField(name, line) <==> FieldName(line).Some? && line[..FieldName(line).value] == name
  {
    var colon := IndexOf(line, ':');
    if IsField(name, line) {
      IndexIs(line, ':', |name|);
    }
    if colon < |line| {
      assert line[colon..] == [':'] + line[colon + 1..];
    }
  }

  // ----- encoded words -----

  predicate IsPlain(s: string) { forall c <- s :: c != '?' && !White(c) }

  /** "=?charset?Q?text?=", whose second question mark is at `a`. */
  predicate EncodedAs(w: string, a: nat) {
    && 3 <= a && a + 5 <= |w|
    && w[..2] == "=?" && IsPlain(w[2..a]) && w[a] == '?'
    && w[a + 1] in "BbQq" && w[a + 2] == '?'
    && IsPlain(w[a + 3..|w| - 2]) && w[|w| - 2..] == "?="
  }

  ghost predicate IsEncodedWord(w: string) { exists a: nat :: EncodedAs(w, a) }

  lemma {:induction false} RunIsPlain(s: string)
    ensures var n := WordRun(s); IsPlain(s[..n]) && (n < |s| ==> s[n] == '?' || White(s[n]))
  {
    if s != [] && s[0] != '?' && !IsSpace(s[0]) {
      RunIsPlain(s[1..]);
      var n := WordRun(s[1..]);
      assert s[..n + 1] == [s[0]] + s[1..][..n];
    }
  }

  lemma {:induction false} RunEndsAt(s: string, n: nat)
    requires n <= |s| && IsPlain(s[..n]) && (n < |s| ==> s[n] == '?')
    ensures WordRun(s) == n
  {
    if n > 0 {
      assert s[0] == s[..n][0] && s[0] in s[..n] && s[1..][..n - 1] == s[..n][1..];
      RunEndsAt(s[1..], n - 1);
    }
  }

  lemma WordIsEncoded(s: string, n: nat, a: nat)
    requires n == EncodedLength(s) > 0 && a == 2 + WordRun(s[2..])
    ensures n <= |s| && EncodedAs(s[..n], a)
  {
    RunIsPlain(s[2..]);
    RunIsPlain(s[a + 3..]);
    var w := s[..n];
    SliceOfTake(s, n, 2, a);
    SliceOfTake(s, n, a + 3, n - 2);
    SliceOfTake(s, n, n - 2, n);
    SliceOfTake(s, n, 0, 2);
  }

  lemma EncodedIsWord(s: string, n: nat, a: nat)
    requires n <= |s| && EncodedAs(s[..n], a)
    ensures EncodedLength(s) == n
  {
    var w := s[..n];
    SliceOfTake(s, n, 0, 2);
    SliceOfTake(s, n, 2, a);
    RunEndsAt(s[2..], a - 2);
    SliceOfTake(s, n, a + 3, n - 2);
    SliceOfTake(s, n, n - 2, n);
    assert w[n - 2..][0] == s[n - 2];
    RunEndsAt(s[a + 3..], n - 2 - (a + 3));
  }

  /** The search finds a word of `n` characters at the start of a text exactly when one stands there. */
  lemma EncodedIff(s: string, n: nat)
    requires n > 0
    ensures EncodedLength(s) == n <==> n <= |s| && IsEncodedWord(s[..n])
  {
    if EncodedLength(s) == n {
      WordIsEncoded(s, n, 2 + WordRun(s[2..]));
    }
    if n <= |s| && IsEncodedWord(s[..n]) {
      var a: nat :| EncodedAs(s[..n], a);
      EncodedIsWord(s, n, a);
    }
  }

  /** A match with its length, or a text up to the next match or to the end. */
  ghost predicate Marked(word: Matcher, s: string, t: RawToken) {
    && 0 < |t.text| <= |s| && t.text == s[..|t.text|]
    && match t.kind
       case Encoded => word(s) == |t.text|
       case Value => (forall k | 0 <= k < |t.text| :: word(s[k..]) == 0) && (t.text == s || word(s[|t.text|..]) > 0)
       case _ => false
  }

  /** The tokens of `s` are its matches, as they follow each other from the left, and what lies between them. */
  ghost predicate Marks(word: Matcher, s: string, tokens: seq<RawToken>)
    decreases |tokens|
  {
    if tokens == [] then s == ""
    else Marked(word, s, tokens[0]) && Marks(word, s[|tokens[0].text|..], tokens[1..])
  }

  ghost predicate Finds(f: Finder, word: Matcher) { forall s :: f(s) == FindFirst(word, s) }

  lemma LeftmostFinds(word: Matcher)
    ensures Finds(Leftmost(word), word)
  {
  }

  lemma {:induction false} PiecesMark(word: Matcher, f: Finder, s: string, pieces: seq<RawToken>)
    requires Finds(f, word) && pieces == Pieces(f, s)
    ensures Marks(word, s, pieces)
    decreases |s|
  {
    FirstMatchIsLeftmost(word, s);
    assert f(s) == FindFirst(word, s);
    match f(s) {
      case None => NoMatchMarks(word, s, pieces);
      case Some(hit) =>
        var more := Pieces(f, s[hit.end..]);
        PiecesMark(word, f, s[hit.end..], more);
        PieceMarks(word, s, hit.at, hit.end, s[hit.at..], more, pieces);
    }
  }

  lemma PieceMarks(word: Matcher, s: string, at: nat, end: nat, from: string, more: seq<RawToken>, all: seq<RawToken>)
    requires at < end <= |s| && from == s[at..] && word(from) == end - at && forall i | 0 <= i < at :: word(s[i..]) == 0
    requires Marks(word, s[end..], more) && all == Front(s, at, end) + more
    ensures Marks(word, s, all)
  {
    assert from[end - at..] == s[end..] && from[..end - at] == s[at..end];
    HitMarks(word, from, end - at, s[end..], more);
    ValueMarks(word, s, at, end, [RawToken(Encoded, s[at..end])] + more, all);
  }

  lemma NoMatchMarks(word: Matcher, s: string, pieces: seq<RawToken>)
    requires (forall i | 0 <= i < |s| :: word(s[i..]) == 0) && pieces == if s == [] then [] else [RawToken(Value, s)]
    ensures Marks(word, s, pieces)
  {
    if s != [] {
      assert pieces[1..] == [] && s[|s|..] == "";
    }
  }

  lemma HitMarks(word: Matcher, s: string, n: nat, rest: string, more: seq<RawToken>)
    requires 0 < n == word(s) && rest == s[n..] && Marks(word, rest, more)
    ensures Marks(word, s, [RawToken(Encoded, s[..n])] + more)
  {
    assert ([RawToken(Encoded, s[..n])] + more)[1..] == more;
  }

  lemma ValueMarks(word: Matcher, s: string, at: nat, end: nat, fromHit: seq<RawToken>, all: seq<RawToken>)
    requires at < end <= |s| && word(s[at..]) > 0 && forall i | 0 <= i < at :: word(s[i..]) == 0
    requires fromHit != [] && fromHit[0] == RawToken(Encoded, s[at..end]) && all == Front(s, at, end) + fromHit[1..]
    requires Marks(word, s[at..], fromHit)
    ensures Marks(word, s, all)
  {
    if at > 0 {
      assert all[1..] == fromHit && Marked(word, s, all[0]);
    } else {
      assert all == fromHit && s[0..] == s;
    }
  }

  // ----- the theorem -----

  /** A line as a whole. */
  ghost predicate Whole(tokens: seq<RawToken>, line: string, kind: Kind) { tokens == [RawToken(kind, line)] }

  /** A value: its encoded words, and plain text between them. */
  ghost predicate ValueOf(tokens: seq<RawToken>, value: string) { Marks(EncodedLength, value, tokens) }

  ghost predicate FieldOf(tokens: seq<RawToken>, name: string, line: string) {
    && IsField(name, line) && tokens != [] && tokens[0] == RawToken(Name, name + ":")
    && ValueOf(tokens[1..], line[|name| + 1..])
  }

  ghost predicate IsHeaderField(line: string) { exists name :: IsField(name, line) }

  ghost predicate HeaderField(tokens: seq<RawToken>, line: string) { exists name :: FieldOf(tokens, name, line) }

  predicate Continues(line: string) { line != [] && line[0] in " \t" }

  /** What there is to know of a line. */
  datatype Facts = Facts(boundary: bool, headers: bool, field: bool, data: bool)

  ghost function FactsOf(boundaries: set<string>, line: string, headers: bool): Facts {
    Facts(IsBoundary(boundaries, line), headers, IsHeaderField(line), IsData(line))
  }

  /** How a line is coloured. */
  ghost predicate Coloured(tokens: seq<RawToken>, line: string, f: Facts) {
    if f.boundary then Whole(tokens, line, Boundary)
    else if f.headers && line == "" then tokens == []
    else if f.headers && f.field then HeaderField(tokens, line)
    else if f.headers && Continues(line) then ValueOf(tokens, line)
    else Whole(tokens, line, if f.data then Base64 else Body)
  }

  lemma ValueIsMarked(value: string)
    ensures ValueOf(Pieces(ENCODED_WORD, value), value)
  {
    LeftmostFinds(EncodedLength);
    PiecesMark(EncodedLength, ENCODED_WORD, value, Pieces(ENCODED_WORD, value));
  }

  lemma HeaderFieldIff(line: string)
    ensures IsHeaderField(line) <==> FieldName(line).Some?
    ensures FieldName(line).Some? ==> IsField(line[..FieldName(line).value], line)
  {
    if name :| IsField(name, line) {
      FieldIff(name, line);
    }
    if FieldName(line).Some? {
      FieldIff(line[..FieldName(line).value], line);
    }
  }

  lemma FieldIsColoured(line: string, n: nat)
    requires FieldName(line) == Some(n)
    ensures FieldOf([RawToken(Name, line[..n + 1])] + Pieces(ENCODED_WORD, line[n + 1..]), line[..n], line)
  {
    var tokens := [RawToken(Name, line[..n + 1])] + Pieces(ENCODED_WORD, line[n + 1..]);
    HeaderFieldIff(line);
    ValueIsMarked(line[n + 1..]);
    assert line[..n + 1] == line[..n] + ":" && tokens[1..] == Pieces(ENCODED_WORD, line[n + 1..]);
  }

  /** The cutting of a line, case by case. */
  lemma TokensAre(boundaries: set<string>, line: string, headers: bool, tokens: seq<RawToken>, n: Option<nat>)
    requires tokens == LineTokens(boundaries, line, headers) && !IsBoundary(boundaries, line) && n == FieldName(line)
    ensures headers && line == "" ==> tokens == []
    ensures headers && n.Some? ==>
              tokens == [RawToken(Name, line[..n.value + 1])] + Pieces(ENCODED_WORD, line[n.value + 1..])
    ensures headers && n.None? && Continues(line) ==> tokens == Pieces(ENCODED_WORD, line)
    ensures headers ==> line == "" || n.Some? || Continues(line) || Plain(line, tokens)
    ensures !headers ==> Plain(line, tokens)
  {
  }

  ghost predicate Plain(line: string, tokens: seq<RawToken>) {
    Whole(tokens, line, if IsBase64(line) then Base64 else Body)
  }

  lemma FieldLine(line: string, n: nat, tokens: seq<RawToken>)
    requires FieldName(line) == Some(n)
    requires tokens == [RawToken(Name, line[..n + 1])] + Pieces(ENCODED_WORD, line[n + 1..])
    ensures HeaderField(tokens, line)
  {
    FieldIsColoured(line, n);
  }

  lemma LineIsColoured(boundaries: set<string>, line: string, headers: bool, tokens: seq<RawToken>, n: Option<nat>)
    requires tokens == LineTokens(boundaries, line, headers) && n == FieldName(line)
    ensures Coloured(tokens, line, Facts(IsBoundary(boundaries, line), headers, n.Some?, IsBase64(line)))
  {
    if !IsBoundary(boundaries, line) {
      TokensAre(boundaries, line, headers, tokens, n);
      if headers && n.Some? {
        FieldLine(line, n.value, tokens);
      } else if headers && Continues(line) {
        ValueIsMarked(line);
      }
    }
  }

  lemma FactsAre(boundaries: set<string>, line: string, headers: bool)
    ensures FactsOf(boundaries, line, headers)
         == Facts(IsBoundary(boundaries, line), headers, FieldName(line).Some?, IsBase64(line))
  {
    HeaderFieldIff(line);
    Base64Iff(line);
  }

  lemma {:induction false} LineOfAll(g: Grammar, lines: seq<string>, n: nat, i: nat)
    requires i < n <= |lines|
    ensures AllTokens(g, lines, n)[i] == g.cut(lines[i], InHeaders(g, lines, i))
  {
    if i < n - 1 {
      LineOfAll(g, lines, n - 1, i);
    }
  }

  /**
   * Every line is coloured for what it is: boundary lines and, among headers,
   * fields, their continuations and empty lines; all else is base64 data or
   * body.  Headers stand where the text or a part begins.
   */
  lemma LinesAreColoured(boundaries: set<string>, lines: seq<string>, i: nat)
    requires i < |lines|
    ensures var tokens := AllTokens(Mime(boundaries), lines, |lines|)[i];
            Coloured(tokens, lines[i], FactsOf(boundaries, lines[i], AmongHeaders(boundaries, lines, i)))
  {
    var (line, headers) := (lines[i], AmongHeaders(boundaries, lines, i));
    HeadersAre(boundaries, lines, i);
    LineOfAll(Mime(boundaries), lines, |lines|, i);
    LineIsColoured(boundaries, line, headers, LineTokens(boundaries, line, headers), FieldName(line));
    FactsAre(boundaries, line, headers);
  }
}
