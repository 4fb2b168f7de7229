/** The string operations the program relies on, for ASCII text. */
module Text {
  datatype Option<T> = None | Some(value: T)

  predicate IsSpace(c: char) { c == ' ' || '\t' <= c <= '\r' }

  function TrimLeft(s: string): (r: string)
    ensures |r| <= |s|
  {
    if s != [] && IsSpace(s[0]) then TrimLeft(s[1..]) else s
  }

  function TrimRight(s: string): (r: string)
    ensures |r| <= |s|
  {
    if s != [] && IsSpace(s[|s| - 1]) then TrimRight(s[..|s| - 1]) else s
  }

  function TrimSpace(s: string): string { TrimRight(TrimLeft(s)) }

  predicate IsUpper(c: char) { 'A' <= c <= 'Z' }
  predicate IsLower(c: char) { 'a' <= c <= 'z' }

  function LowerChar(c: char): char { if IsUpper(c) then (c as int + 32) as char else c }
  function UpperChar(c: char): char { if IsLower(c) then (c as int - 32) as char else c }

  function ToLower(s: string): (r: string)
    ensures |r| == |s|
  {
    seq(|s|, i requires 0 <= i < |s| => LowerChar(s[i]))
  }

  function ToUpper(s: string): (r: string)
    ensures |r| == |s|
  {
    seq(|s|, i requires 0 <= i < |s| => UpperChar(s[i]))
  }

  /** `strings.EqualFold`: position by position, ignoring case. */
  predicate EqualFold(a: string, b: string) {
    |a| == |b| && forall i | 0 <= i < |a| :: LowerChar(a[i]) == LowerChar(b[i])
  }

  /** Folding both sides and comparing exactly is the same test. */
  lemma EqualFoldIsLowerEquality(a: string, b: string)
    ensures EqualFold(a, b) <==> ToLower(a) == ToLower(b)
  {
    if ToLower(a) == ToLower(b) {
      forall i | 0 <= i < |a| ensures LowerChar(a[i]) == LowerChar(b[i]) {
        assert ToLower(a)[i] == ToLower(b)[i];
      }
    }
  }

  predicate HasPrefix(s: string, p: string) { |p| <= |s| && s[..|p|] == p }
  predicate HasSuffix(s: string, p: string) { |p| <= |s| && s[|s| - |p|..] == p }

  predicate Contains(s: string, sub: string) {
    exists i | 0 <= i <= |s| :: HasPrefix(s[i..], sub)
  }

  /** Index of the first `c`, or the length of `s`. */
  function IndexOf(s: string, c: char): (n: nat)
    ensures n <= |s|
    ensures n < |s| ==> s[n] == c
    ensures c !in s[..n]
  {
    if s == [] || s[0] == c then 0
    else
      var n := 1 + IndexOf(s[1..], c);
      assert s[..n] == [s[0]] + s[1..][..n - 1];
      n
  }

  /** Index just past the last `c`, or 0. */
  function PastLast(s: string, c: char): (n: nat)
    ensures n <= |s|
  {
    if s == [] then 0 else if s[|s| - 1] == c then |s| else PastLast(s[..|s| - 1], c)
  }

  function FirstSpace(s: string): (n: nat)
    ensures n <= |s|
  {
    if s == [] || IsSpace(s[0]) then 0 else 1 + FirstSpace(s[1..])
  }

  /** `strings.Fields`: the maximal runs of non-space characters. */
  function Fields(s: string): seq<string>
    decreases |s|
  {
    var t := TrimLeft(s);
    var n := FirstSpace(t);
    if n == 0 then [] else [t[..n]] + Fields(t[n..])
  }

  function JoinSpaced(fields: seq<string>): string {
    if fields == [] then "" else if |fields| == 1 then fields[0] else fields[0] + " " + JoinSpaced(fields[1..])
  }

  // ----- what these mean -----

  const UPPER := "ABCDEFGHIJKLMNOPQRSTUVWXYZ"
  const LOWER := "abcdefghijklmnopqrstuvwxyz"

  lemma AlphabetIs(i: nat)
    requires i < 26
    ensures UPPER[i] as int == 65 + i && LOWER[i] as int == 97 + i
  {
  }

  /** Each letter goes to its partner in the other alphabet, and no other character changes. */
  lemma LettersFold(c: char)
    ensures forall i | 0 <= i < 26 :: LowerChar(UPPER[i]) == LOWER[i] && UpperChar(LOWER[i]) == UPPER[i]
    ensures c !in UPPER ==> LowerChar(c) == c
    ensures c !in LOWER ==> UpperChar(c) == c
  {
    forall i | 0 <= i < 26 ensures LowerChar(UPPER[i]) == LOWER[i] && UpperChar(LOWER[i]) == UPPER[i] {
      AlphabetIs(i);
    }
    if IsUpper(c) {
      AlphabetIs(c as int - 65);
      assert UPPER[c as int - 65] == c;
    }
    if IsLower(c) {
      AlphabetIs(c as int - 97);
      assert LOWER[c as int - 97] == c;
    }
  }

  predicate White(c: char) { c as int == 32 || 9 <= c as int <= 13 }

  predicate AllSpace(s: string) { forall c <- s :: White(c) }

  /** Neither the first nor the last character is white space. */
  predicate Tight(s: string) { s != [] ==> !White(s[0]) && !White(s[|s| - 1]) }

  lemma {:induction false} LeftPart(s: string) returns (n: nat)
    ensures n <= |s| && AllSpace(s[..n]) && TrimLeft(s) == s[n..] && (n < |s| ==> !IsSpace(s[n]))
  {
    if s != [] && IsSpace(s[0]) {
      var m := LeftPart(s[1..]);
      n := m + 1;
      assert s[..n] == [s[0]] + s[1..][..m];
    } else {
      n := 0;
    }
  }

  lemma {:induction false} RightPart(s: string) returns (n: nat)
    ensures n <= |s| && AllSpace(s[n..]) && TrimRight(s) == s[..n] && (n > 0 ==> !IsSpace(s[n - 1]))
  {
    if s != [] && IsSpace(s[|s| - 1]) {
      var init := s[..|s| - 1];
      n := RightPart(init);
      assert s[n..] == init[n..] + [s[|s| - 1]] && s[..n] == init[..n];
    } else {
      n := |s|;
    }
  }

  lemma InThree(s: string, n: nat, rest: string, k: nat)
    requires n <= |s| && rest == s[n..] && k <= |rest|
    ensures s == s[..n] + rest[..k] + rest[k..]
  {
  }

  /** Trimming takes white space off both ends, and all of it. */
  lemma TrimMeans(s: string) returns (a: string, b: string)
    ensures s == a + TrimSpace(s) + b && AllSpace(a) && AllSpace(b) && Tight(TrimSpace(s))
  {
    var n := LeftPart(s);
    var k := RightPart(s[n..]);
    a, b := s[..n], s[n..][k..];
    InThree(s, n, s[n..], k);
  }

  /** White space around a text is trimmed away, and nothing of the text. */
  lemma BothTrimmed(space: string, s: string, more: string)
    requires AllSpace(space) && Tight(s) && AllSpace(more)
    ensures TrimSpace(space + (s + more)) == s
  {
    LeftTrimmed(space, s + more);
    if s == "" {
      AllTrimmed(s + more);
    } else {
      assert !White((s + more)[0]);
      RightTrimmed(s, more);
    }
  }

  lemma {:induction false} LeftTrimmed(space: string, s: string)
    requires AllSpace(space)
    ensures TrimLeft(space + s) == TrimLeft(s)
    decreases |space|
  {
    if space == [] {
      assert space + s == s;
    } else {
      assert space[0] in space;
      LeftTrimmed(space[1..], s);
      assert (space + s)[1..] == space[1..] + s;
    }
  }

  lemma {:induction false} RightTrimmed(s: string, more: string)
    requires AllSpace(more) && s != [] && !White(s[|s| - 1])
    ensures TrimRight(s + more) == s
    decreases |more|
  {
    if more == [] {
      assert s + more == s;
    } else {
      var init := more[..|more| - 1];
      assert more[|more| - 1] in more && (s + more)[..|s + more| - 1] == s + init;
      RightTrimmed(s, init);
    }
  }

  lemma {:induction false} AllTrimmed(s: string)
    requires AllSpace(s)
    ensures TrimLeft(s) == ""
  {
    if s != [] {
      assert s[0] in s;
      AllTrimmed(s[1..]);
    }
  }

  lemma {:induction false} LastIs(s: string, c: char)
    ensures var n := PastLast(s, c); (if n == 0 then c !in s else s[n - 1] == c) && c !in s[n..]
  {
    if s != [] && s[|s| - 1] != c {
      var init := s[..|s| - 1];
      LastIs(init, c);
      var n := PastLast(s, c);
      assert s[n..] == init[n..] + [s[|s| - 1]] && s == init + [s[|s| - 1]];
    }
  }

  // ----- words -----

  predicate IsWord(s: string) { s != [] && forall c <- s :: !White(c) }

  lemma {:induction false} FirstWordEnds(w: string, more: string)
    requires forall c <- w :: !White(c)
    requires more != [] ==> more[0] == ' '
    ensures FirstSpace(w + more) == |w|
  {
    if w == [] {
      assert w + more == more;
    } else {
      assert w[0] in w;
      FirstWordEnds(w[1..], more);
      assert (w + more)[1..] == w[1..] + more;
    }
  }

  lemma FieldsStep(w: string, more: string)
    requires IsWord(w) && (more != [] ==> more[0] == ' ')
    ensures Fields(w + more) == [w] + Fields(more)
  {
    assert w[0] in w;
    FirstWordEnds(w, more);
    assert (w + more)[..|w|] == w && (w + more)[|w|..] == more;
  }

  lemma SpaceInFront(s: string)
    ensures Fields(" " + s) == Fields(s)
  {
    assert (" " + s)[1..] == s;
  }

  lemma JoinedStep(w: string, more: seq<string>, words: seq<string>)
    requires IsWord(w) && words == [w] + more && Fields(" " + JoinSpaced(more)) == more
    ensures Fields(JoinSpaced(words)) == words
  {
    if more == [] {
      FieldsStep(w, "");
      assert w + "" == w && Fields("") == [];
    } else {
      FieldsStep(w, " " + JoinSpaced(more));
      assert w + (" " + JoinSpaced(more)) == w + " " + JoinSpaced(more) && words[1..] == more;
    }
  }

  /** Words joined by spaces are found again. */
  lemma {:induction false} FieldsRoundTrip(words: seq<string>)
    requires forall w <- words :: IsWord(w)
    ensures Fields(JoinSpaced(words)) == words && Fields(" " + JoinSpaced(words)) == words
  {
    SpaceInFront(JoinSpaced(words));
    if words != [] {
      assert words[0] in words && words == [words[0]] + words[1..];
      FieldsRoundTrip(words[1..]);
      JoinedStep(words[0], words[1..], words);
    }
  }

  // ----- decimal numbers -----

  predicate IsDigit(c: char) { '0' <= c <= '9' }

  function Digit(n: nat): char
    requires n < 10
  {
    ('0' as int + n) as char
  }

  /** `strconv.Itoa` of a number that is not negative. */
  function Itoa(n: nat): (s: string)
    ensures s != []
  {
    if n < 10 then [Digit(n)] else Itoa(n / 10) + [Digit(n % 10)]
  }

  predicate AllDigits(s: string) { forall c <- s :: IsDigit(c) }

  function DigitsValue(s: string): (n: int)
    requires AllDigits(s)
    ensures n >= 0
  {
    if s == [] then 0
    else
      assert s[|s| - 1] in s;
      DigitsValue(s[..|s| - 1]) * 10 + (s[|s| - 1] as int - '0' as int)
  }

  lemma {:induction false} ItoaReads(n: nat)
    ensures AllDigits(Itoa(n)) && DigitsValue(Itoa(n)) == n
  {
    if n >= 10 {
      ItoaReads(n / 10);
      var s := Itoa(n);
      assert s[..|s| - 1] == Itoa(n / 10);
    }
  }

  lemma ItoaInjective(a: nat, b: nat)
    requires Itoa(a) == Itoa(b)
    ensures a == b
  {
    ItoaReads(a);
    ItoaReads(b);
  }

  const INT64_MAX: int := 0x7FFF_FFFF_FFFF_FFFF

  /** `strconv.ParseInt(s, 10, 64)`; None stands for a syntax or range error. */
  function ParseInt64(s: string): (r: Option<int>)
    ensures r.Some? ==> -INT64_MAX - 1 <= r.value <= INT64_MAX
  {
    var negative := s != [] && s[0] == '-';
    var digits := if s != [] && (s[0] == '-' || s[0] == '+') then s[1..] else s;
    if digits == [] || !AllDigits(digits) then None
    else
      var v := if negative then -DigitsValue(digits) else DigitsValue(digits);
      if -INT64_MAX - 1 <= v <= INT64_MAX then Some(v) else None
  }

  // ----- order on strings (strings.Compare) -----

  predicate Less(a: string, b: string) {
    b != [] && (a == [] || a[0] < b[0] || (a[0] == b[0] && Less(a[1..], b[1..])))
  }

  /** `a` stops short of `b`, or is smaller where they first differ. */
  ghost predicate ComesFirst(a: string, b: string) {
    exists k: nat :: k <= |a| && k < |b| && a[..k] == b[..k] && (k == |a| || a[k] < b[k])
  }

  lemma {:induction false} LessIff(a: string, b: string)
    ensures Less(a, b) <==> ComesFirst(a, b)
  {
    if a != [] && b != [] && a[0] == b[0] {
      LessIff(a[1..], b[1..]);
      if k: nat :| && k <= |a[1..]| && k < |b[1..]| && a[1..][..k] == b[1..][..k]
                   && (k == |a[1..]| || a[1..][k] < b[1..][k]) {
        assert a[..k + 1] == [a[0]] + a[1..][..k] && b[..k + 1] == [b[0]] + b[1..][..k];
      }
      if k: nat :| k <= |a| && k < |b| && a[..k] == b[..k] && (k == |a| || a[k] < b[k]) {
        assert a[..k][0] == a[0];
        assert a[1..][..k - 1] == a[..k][1..] && b[1..][..k - 1] == b[..k][1..];
      }
    } else if b != [] && (a == [] || a[0] < b[0]) {
      assert a[..0] == b[..0];
    }
  }

  lemma {:induction false} LessTotal(a: string, b: string)
    ensures Less(a, b) || a == b || Less(b, a)
  {
    if a != [] && b != [] && a[0] == b[0] {
      LessTotal(a[1..], b[1..]);
      assert a == [a[0]] + a[1..] && b == [b[0]] + b[1..];
    }
  }

  lemma {:induction false} LessTransitive(a: string, b: string, c: string)
    requires Less(a, b) && Less(b, c)
    ensures Less(a, c)
  {
    if a != [] && a[0] == b[0] && b[0] == c[0] {
      LessTransitive(a[1..], b[1..], c[1..]);
    }
  }

  lemma {:induction false} LessIrreflexive(a: string)
    ensures !Less(a, a)
  {
    if a != [] {
      LessIrreflexive(a[1..]);
    }
  }
}
