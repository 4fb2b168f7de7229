/** `ParseSize` and `FormatSize`: byte limits as people write them. */
module Sizes {
  import opened Text

  datatype Unit = Unit(suffix: string, mult: int)

  const KB := 1024
  const MB := 1024 * 1024
  const GB := 1024 * 1024 * 1024

  /** Searched in this order, so "GB" is tried before "B". */
  const UNITS: seq<Unit> :=
    [Unit("GB", GB), Unit("MB", MB), Unit("KB", KB), Unit("G", GB), Unit("M", MB), Unit("K", KB), Unit("B", 1)]

  /** Go's int64 product: it wraps around. */
  function Wrap64(n: int): (r: int)
    ensures -INT64_MAX - 1 <= r <= INT64_MAX
    ensures -INT64_MAX - 1 <= n <= INT64_MAX ==> r == n
  {
    var m := n % 0x1_0000_0000_0000_0000;
    if m > INT64_MAX then m - 0x1_0000_0000_0000_0000 else m
  }

  /** The first of `units[i..]` whose suffix ends `v`; no suffix and factor 1 if none does. */
  function UnitOf(units: seq<Unit>, v: string, i: nat): (u: Unit)
    requires i <= |units|
    ensures HasSuffix(v, u.suffix)
    decreases |units| - i
  {
    if i == |units| then Unit("", 1)
    else if HasSuffix(v, units[i].suffix) then units[i]
    else UnitOf(units, v, i + 1)
  }

  function Checked(number: Option<int>, mult: int): Option<(int, int)> {
    if number.None? || number.value < 0 then None else Some((number.value, mult))
  }

  /** The number and the multiplier that a size text spells; None if it is malformed. */
  function Spelled(units: seq<Unit>, s: string): Option<(int, int)> {
    var v := ToUpper(TrimSpace(s));
    var u := UnitOf(units, v, 0);
    Checked(ParseInt64(TrimSpace(v[..|v| - |u.suffix|])), u.mult)
  }

  function Parsed(s: string): Option<int> {
    match Spelled(UNITS, s)
    case None => None
    case Some(p) => Some(Wrap64(p.0 * p.1))
  }

  method ParseSize(s: string) returns (r: Option<int>)
    ensures r == Parsed(s)
  {
    var v := ToUpper(TrimSpace(s));
    var mult := 1;
    var units := UNITS;
    ghost var whole := v;
    var i := 0;
    while i < |units|
      invariant 0 <= i <= |units|
      invariant v == whole && mult == 1
      invariant UnitOf(units, whole, 0) == UnitOf(units, whole, i)
    {
      if HasSuffix(v, units[i].suffix) {
        v, mult := TrimSpace(v[..|v| - |units[i].suffix|]), units[i].mult;
        break;
      }
      i := i + 1;
    }
    TrimTwice(s);
    assert i == |units| ==> whole[..|whole|] == whole;
    var n := ParseInt64(v);
    if n.None? || n.value < 0 {
      return None;
    }
    return Some(Wrap64(n.value * mult));
  }

  function FormatSize(n: nat): string {
    if n >= GB && n % GB == 0 then Itoa(n / GB) + "GB"
    else if n >= MB && n % MB == 0 then Itoa(n / MB) + "MB"
    else if n >= KB && n % KB == 0 then Itoa(n / KB) + "KB"
    else Itoa(n) + "B"
  }

  // ----- trimming -----

  predicate Trimmed(s: string) { s != [] ==> !IsSpace(s[0]) && !IsSpace(s[|s| - 1]) }

  lemma {:induction false} TrimLeftStart(s: string)
    ensures var t := TrimLeft(s); t != [] ==> !IsSpace(t[0])
  {
    if s != [] && IsSpace(s[0]) {
      TrimLeftStart(s[1..]);
    }
  }

  lemma {:induction false} TrimRightEnds(s: string)
    requires s != [] ==> !IsSpace(s[0])
    ensures Trimmed(TrimRight(s))
  {
    if s != [] && IsSpace(s[|s| - 1]) {
      TrimRightEnds(s[..|s| - 1]);
    }
  }

  /** Trimming and upper-casing leaves nothing more to trim. */
  lemma TrimTwice(s: string)
    ensures var v := ToUpper(TrimSpace(s)); TrimSpace(v) == v
  {
    TrimLeftStart(s);
    TrimRightEnds(TrimLeft(s));
  }

  /** A text without lower-case letters or spaces is left alone. */
  lemma Untouched(v: string)
    requires v != [] && forall c <- v :: !IsSpace(c) && !IsLower(c)
    ensures TrimSpace(v) == v && ToUpper(v) == v
  {
    assert v[0] in v && v[|v| - 1] in v;
    forall i | 0 <= i < |v| ensures ToUpper(v)[i] == v[i] {
      assert v[i] in v;
    }
  }

  // ----- printing, then parsing -----

  lemma PlainNumber(digits: string)
    requires digits != [] && AllDigits(digits) && DigitsValue(digits) <= INT64_MAX
    ensures ParseInt64(digits) == Some(DigitsValue(digits))
  {
    assert digits[0] in digits;
  }

  lemma PlainParts(digits: string, suffix: string)
    requires digits != [] && AllDigits(digits)
    requires forall c <- suffix :: IsUpper(c)
    ensures ToUpper(TrimSpace(digits + suffix)) == digits + suffix
    ensures TrimSpace((digits + suffix)[..|digits|]) == digits
  {
    Untouched(digits + suffix);
    Untouched(digits);
    assert (digits + suffix)[..|digits|] == digits;
  }

  lemma SpelledDigits(units: seq<Unit>, digits: string, u: Unit)
    requires digits != [] && AllDigits(digits) && DigitsValue(digits) <= INT64_MAX
    requires forall c <- u.suffix :: IsUpper(c)
    requires UnitOf(units, digits + u.suffix, 0) == u
    ensures Spelled(units, digits + u.suffix) == Some((DigitsValue(digits), u.mult))
  {
    PlainParts(digits, u.suffix);
    PlainNumber(digits);
  }

  lemma {:induction false} UnitFound(units: seq<Unit>, v: string, i: nat, k: nat)
    requires i <= k < |units| && HasSuffix(v, units[k].suffix)
    requires forall j | i <= j < k :: !HasSuffix(v, units[j].suffix)
    ensures UnitOf(units, v, i) == units[k]
    decreases k - i
  {
    if i < k {
      UnitFound(units, v, i + 1, k);
    }
  }

  /** The suffixes that `FormatSize` prints are found where they stand in the table. */
  lemma SuffixFound(digits: string, k: nat)
    requires k < 3 || k == 6
    requires digits != [] && AllDigits(digits)
    ensures UnitOf(UNITS, digits + UNITS[k].suffix, 0) == UNITS[k]
  {
    var v := digits + UNITS[k].suffix;
    assert digits[|digits| - 1] in digits;
    assert v[|v| - 1] == 'B';
    assert v[|v| - 2] == if k == 0 then 'G' else if k == 1 then 'M' else if k == 2 then 'K' else digits[|digits| - 1];
    UnitFound(UNITS, v, 0, k);
  }

  /** A printed count with a printed unit is spelled back as that count and unit. */
  lemma SpelledPrinted(count: nat, k: nat)
    requires count <= INT64_MAX && (k < 3 || k == 6)
    ensures Spelled(UNITS, Itoa(count) + UNITS[k].suffix) == Some((count, UNITS[k].mult))
  {
    ItoaReads(count);
    SuffixFound(Itoa(count), k);
    SpelledDigits(UNITS, Itoa(count), UNITS[k]);
  }

  lemma FormattedAs(n: nat) returns (count: nat, k: nat)
    ensures (k < 3 || k == 6) && count * UNITS[k].mult == n && count <= n
    ensures FormatSize(n) == Itoa(count) + UNITS[k].suffix
  {
    if n >= GB && n % GB == 0 {
      k, count := 0, n / GB;
    } else if n >= MB && n % MB == 0 {
      k, count := 1, n / MB;
    } else if n >= KB && n % KB == 0 {
      k, count := 2, n / KB;
    } else {
      k, count := 6, n;
    }
  }

  /** Every size up to the largest int64 survives printing and parsing, without overflow. */
  lemma SizeRoundTrip(n: nat)
    requires n <= INT64_MAX
    ensures Parsed(FormatSize(n)) == Some(n)
  {
    var count, k := FormattedAs(n);
    SpelledPrinted(count, k);
  }

  /** A wrapped product is right exactly when it did not have to wrap. */
  lemma WrapExactIff(n: nat)
    ensures Wrap64(n) == n <==> n <= INT64_MAX
  {
  }

  lemma ParsedPrinted(count: nat, k: nat)
    requires count <= INT64_MAX && (k < 3 || k == 6)
    ensures Parsed(Itoa(count) + UNITS[k].suffix) == Some(Wrap64(count * UNITS[k].mult))
  {
    SpelledPrinted(count, k);
  }

  lemma UnitIsPositive(v: string, i: nat)
    requires i <= |UNITS|
    ensures UnitOf(UNITS, v, i).mult >= 1
    decreases |UNITS| - i
  {
    if i < |UNITS| {
      UnitIsPositive(v, i + 1);
    }
  }

  /**
   * For every text: a number and a factor that it spells are accepted, and
   * the value is their product if and only if that fits an int64.
   */
  lemma ParsedExactIff(s: string)
    ensures match Spelled(UNITS, s)
            case None => Parsed(s) == None
            case Some(p) => p.0 * p.1 >= 0 && (Parsed(s) == Some(p.0 * p.1) <==> p.0 * p.1 <= INT64_MAX)
  {
    var u := UnitOf(UNITS, ToUpper(TrimSpace(s)), 0);
    UnitIsPositive(ToUpper(TrimSpace(s)), 0);
    if Spelled(UNITS, s).Some? {
      var p := Spelled(UNITS, s).value;
      ProductIsNatural(p.0, p.1);
      WrapExactIff(p.0 * p.1);
    }
  }

  lemma ProductIsNatural(n: int, mult: int)
    requires n >= 0 && mult >= 1
    ensures n * mult >= 0
  {
  }

  /**
   * A printed count whose product runs past the int64 maximum, by less than a
   * factor of two, is accepted and comes out negative.
   */
  lemma OverflowIsNegative(count: nat, k: nat)
    requires count <= INT64_MAX && k < 3
    requires INT64_MAX < count * UNITS[k].mult < 0x1_0000_0000_0000_0000
    ensures var r := Parsed(Itoa(count) + UNITS[k].suffix); r.Some? && r.value < 0
  {
    ParsedPrinted(count, k);
    WrapsNegative(count * UNITS[k].mult);
  }

  lemma WrapsNegative(n: nat)
    requires INT64_MAX < n < 0x1_0000_0000_0000_0000
    ensures Wrap64(n) < 0
  {
  }

  /** 2^33 gigabytes is such a count. */
  lemma TooManyGigabytes(count: nat)
    requires count == 0x2_0000_0000
    ensures var r := Parsed(Itoa(count) + UNITS[0].suffix); r.Some? && r.value < 0
  {
    // Not written as a literal 0, which would make the verifier evaluate the whole parse.
    var k: nat :| k == 0;
    OverflowIsNegative(count, k);
  }

  // ----- the units -----

  /** The units in bytes, longer suffixes first. */
  lemma UnitsAre()
    ensures UNITS[..3] == [Unit("GB", 0x4000_0000), Unit("MB", 0x10_0000), Unit("KB", 0x400)]
    ensures UNITS[3..] == [Unit("G", 0x4000_0000), Unit("M", 0x10_0000), Unit("K", 0x400), Unit("B", 1)]
  {
  }

  /** A count and a unit are read as that many bytes, as far as they fit. */
  lemma CountsAreRead(count: nat, k: nat)
    requires count <= INT64_MAX && (k < 3 || k == 6) && 0 <= count * UNITS[k].mult <= INT64_MAX
    ensures Parsed(Itoa(count) + UNITS[k].suffix) == Some(count * UNITS[k].mult)
  {
    ParsedPrinted(count, k);
  }

  predicate EndsPlain(s: string) { s != [] && !IsUpper(s[|s| - 1]) }

  lemma NoOtherUnit(front: string, k: nat, j: nat)
    requires EndsPlain(front) && j < k < 7
    ensures !HasSuffix(front + UNITS[k].suffix, UNITS[j].suffix)
  {
    var (v, n) := (front + UNITS[k].suffix, |front|);
    assert v[n - 1] == front[n - 1] && v[n..] == UNITS[k].suffix;
    var tail := v[|v| - |UNITS[j].suffix|..];
    assert |UNITS[j].suffix| == 2 ==> tail == [v[|v| - 2], v[|v| - 1]];
    assert |UNITS[j].suffix| == 1 ==> tail == [v[|v| - 1]];
  }

  lemma UnitStands(front: string, k: nat)
    requires EndsPlain(front) && k < 7
    ensures UnitOf(UNITS, front + UNITS[k].suffix, 0) == UNITS[k]
  {
    assert (front + UNITS[k].suffix)[|front|..] == UNITS[k].suffix;
    forall j | 0 <= j < k ensures !HasSuffix(front + UNITS[k].suffix, UNITS[j].suffix) {
      NoOtherUnit(front, k, j);
    }
    UnitFound(UNITS, front + UNITS[k].suffix, 0, k);
  }

  /** A number, white space or none, a unit in any case, and white space around it all. */
  predicate Typed(s: string, a: string, digits: string, b: string, unit: string, c: string) {
    && digits != [] && AllDigits(digits)
    && AllSpace(a) && AllSpace(b) && AllSpace(c) && s == a + (digits + b + unit + c)
  }

  lemma UpperTyped(digits: string, b: string, unit: string, suffix: string)
    requires AllDigits(digits) && AllSpace(b) && ToUpper(unit) == suffix
    ensures ToUpper(digits + b + unit) == digits + b + suffix
  {
    var front := digits + b;
    forall i | 0 <= i < |front| ensures UpperChar(front[i]) == front[i] {
      assert i < |digits| ==> digits[i] in digits;
      assert i >= |digits| ==> b[i - |digits|] in b;
    }
    assert forall i | 0 <= i < |unit| :: UpperChar(unit[i]) == ToUpper(unit)[i];
  }

  lemma FrontIsPlain(digits: string, b: string)
    requires digits != [] && AllDigits(digits) && AllSpace(b)
    ensures EndsPlain(digits + b) && Tight(digits) && TrimSpace("" + (digits + b)) == digits
  {
    assert digits[0] in digits && digits[|digits| - 1] in digits;
    assert b != "" ==> b[|b| - 1] in b;
    BothTrimmed("", digits, b);
  }

  lemma UnitEndsTight(k: nat, unit: string)
    requires k < 7 && ToUpper(unit) == UNITS[k].suffix
    ensures unit != [] && !White(unit[|unit| - 1])
  {
    assert UpperChar(unit[|unit| - 1]) == UNITS[k].suffix[|unit| - 1];
  }

  /** However it is typed, a number with a unit is read as their product, wrapped around if it does not fit. */
  lemma TypedIsRead(s: string, a: string, digits: string, b: string, unit: string, c: string, k: nat)
    requires Typed(s, a, digits, b, unit, c) && DigitsValue(digits) <= INT64_MAX
    requires k < 7 && ToUpper(unit) == UNITS[k].suffix
    ensures Parsed(s) == Some(Wrap64(DigitsValue(digits) * UNITS[k].mult))
  {
    var front := digits + b;
    FrontIsPlain(digits, b);
    UnitEndsTight(k, unit);
    assert Tight(front + unit) by {
      assert digits[0] in digits;
    }
    BothTrimmed(a, front + unit, c);
    UpperTyped(digits, b, unit, UNITS[k].suffix);
    SpelledTyped(s, front, digits, k);
  }

  /** A number alone counts bytes. */
  lemma NumberIsRead(s: string, a: string, digits: string, c: string)
    requires Typed(s, a, digits, "", "", c) && DigitsValue(digits) <= INT64_MAX
    ensures Parsed(s) == Some(DigitsValue(digits))
  {
    assert digits + "" + "" == digits && digits[0] in digits && digits[|digits| - 1] in digits;
    BothTrimmed(a, digits, c);
    Untouched(digits);
    NoUnit(digits, 0);
    PlainNumber(digits);
    assert digits[..|digits| - 0] == digits;
  }

  lemma NoUnit(v: string, i: nat)
    requires v != [] && IsDigit(v[|v| - 1]) && i <= 7
    ensures UnitOf(UNITS, v, i) == Unit("", 1)
    decreases 7 - i
  {
    if i < 7 {
      var suffix := UNITS[i].suffix;
      assert |suffix| <= |v| ==> v[|v| - |suffix|..][|suffix| - 1] == v[|v| - 1];
      NoUnit(v, i + 1);
    }
  }

  lemma SpelledTyped(s: string, front: string, digits: string, k: nat)
    requires k < 7 && ToUpper(TrimSpace(s)) == front + UNITS[k].suffix && EndsPlain(front)
    requires digits != [] && AllDigits(digits) && DigitsValue(digits) <= INT64_MAX && TrimSpace("" + front) == digits
    ensures Spelled(UNITS, s) == Some((DigitsValue(digits), UNITS[k].mult))
  {
    UnitStands(front, k);
    PlainNumber(digits);
    assert "" + front == front && (front + UNITS[k].suffix)[..|front|] == front;
  }

  /** A size is printed in the largest unit that divides it. */
  lemma PrintedInLargest(count: nat, n: nat)
    ensures n == count * 0x4000_0000 > 0 ==> FormatSize(n) == Itoa(count) + "GB"
    ensures n == count * 0x10_0000 && count % 0x400 != 0 ==> FormatSize(n) == Itoa(count) + "MB"
    ensures n == count * 0x400 && count % 0x400 != 0 ==> FormatSize(n) == Itoa(count) + "KB"
    ensures n % 0x400 != 0 || n == 0 ==> FormatSize(n) == Itoa(n) + "B"
  {
    Divided(n);
    assert n > 0 && n % GB == 0 ==> n >= GB;
    if n == count * 0x4000_0000 {
      assert n / GB == count && n % GB == 0;
    } else if n == count * 0x10_0000 {
      assert n / MB == count && n % MB == 0;
    } else if n == count * 0x400 {
      assert n / KB == count && n % KB == 0;
    }
  }

  lemma Divided(n: nat)
    ensures n % MB == 0 <==> n % KB == 0 && n / KB % 0x400 == 0
    ensures n % GB == 0 <==> n % MB == 0 && n / MB % 0x400 == 0
  {
    var (q, p) := (n / KB, n / MB);
    MegabytesLeave(n, q / 0x400, q % 0x400, n % KB);
    GigabytesLeave(n, p / 0x400, p % 0x400, n % MB);
  }

  lemma MegabytesLeave(n: nat, a: nat, b: nat, r: nat)
    requires n == a * 0x10_0000 + b * 0x400 + r && b < 0x400 && r < 0x400
    ensures n % 0x10_0000 == b * 0x400 + r
  {
  }

  lemma GigabytesLeave(n: nat, a: nat, b: nat, r: nat)
    requires n == a * 0x4000_0000 + b * 0x10_0000 + r && b < 0x400 && r < 0x10_0000
    ensures n % 0x4000_0000 == b * 0x10_0000 + r
  {
  }
}
