/** How JSON.stringify writes strings and finite numbers, and that both can be read back.
    Strings follow section 7 of RFC 8259, with lone surrogates escaped; numbers follow
    Number::toString of ECMA-262. */
module JsonText {
  import opened Text

  const LOWER_U: CodeUnit := 0x75

  // ---------------------------------------------------------------- strings

  predicate High(c: CodeUnit) { 0xD800 <= c < 0xDC00 }
  predicate Low(c: CodeUnit) { 0xDC00 <= c < 0xE000 }

  function Hex(n: nat): (r: CodeUnit)
    requires n < 16
    ensures r != QUOTE && r != BACKSLASH
  {
    if n < 10 then 0x30 + n else 0x57 + n
  }

  function Unhex(c: CodeUnit): int {
    if c < 0x3A then c as int - 0x30 else c as int - 0x57
  }

  /** The letter after the backslash in a two-character escape. */
  function Short(c: CodeUnit): (r: Option<CodeUnit>)
    ensures r.Some? ==> r.value != LOWER_U
  {
    if c == 0x08 then Some(0x62)
    else if c == 0x09 then Some(0x74)
    else if c == 0x0A then Some(0x6E)
    else if c == 0x0C then Some(0x66)
    else if c == 0x0D then Some(0x72)
    else if c == QUOTE then Some(QUOTE)
    else if c == BACKSLASH then Some(BACKSLASH)
    else None
  }

  function Unshort(letter: CodeUnit): CodeUnit {
    if letter == 0x62 then 0x08
    else if letter == 0x74 then 0x09
    else if letter == 0x6E then 0x0A
    else if letter == 0x66 then 0x0C
    else if letter == 0x72 then 0x0D
    else letter
  }

  function UnicodeEscape(c: CodeUnit): Str {
    [BACKSLASH, LOWER_U, Hex(c / 4096), Hex(c / 256 % 16), Hex(c / 16 % 16), Hex(c % 16)]
  }

  function EscapedUnit(c: CodeUnit): Str {
    if Short(c).Some? then [BACKSLASH, Short(c).value]
    else if c < 0x20 || High(c) || Low(c) then UnicodeEscape(c)
    else [c]
  }

  function Escape(s: Str): Str {
    if s == [] then []
    else if |s| >= 2 && High(s[0]) && Low(s[1]) then [s[0], s[1]] + Escape(s[2..])
    else EscapedUnit(s[0]) + Escape(s[1..])
  }

  function Quote(s: Str): Str {
    [QUOTE] + Escape(s) + [QUOTE]
  }

  /** The code unit at the head of a string literal's inside, and how long it is written. */
  function Head(text: Str): (r: (int, nat))
    requires text != []
    ensures 0 < r.1 <= |text|
  {
    if text[0] == BACKSLASH && |text| >= 6 && text[1] == LOWER_U then
      (4096 * Unhex(text[2]) + 256 * Unhex(text[3]) + 16 * Unhex(text[4]) + Unhex(text[5]), 6)
    else if text[0] == BACKSLASH && |text| >= 2 then (Unshort(text[1]) as int, 2)
    else (text[0] as int, 1)
  }

  /** Reads the inside of a string literal up to its closing quote. */
  function ReadString(text: Str): Option<(Str, Str)>
    decreases |text|
  {
    if text == [] then None
    else if text[0] == QUOTE then Some(([], text[1..]))
    else
      var (unit, width) := Head(text);
      match ReadString(text[width..])
      case None => None
      case Some((more, end)) => if 0 <= unit < 0x1_0000 then Some(([unit] + more, end)) else None
  }

  lemma HexDigits(c: CodeUnit)
    ensures 4096 * Unhex(Hex(c / 4096)) + 256 * Unhex(Hex(c / 256 % 16)) + 16 * Unhex(Hex(c / 16 % 16)) + Unhex(Hex(c % 16)) == c
  {
    assert forall n | 0 <= n < 16 :: Unhex(Hex(n)) == n;
    assert c == 16 * (c / 16) + c % 16;
    assert c / 16 == 16 * (c / 256) + c / 16 % 16;
    assert c / 256 == 16 * (c / 4096) + c / 256 % 16;
  }

  lemma HeadOfEscaped(c: CodeUnit, text: Str)
    ensures EscapedUnit(c) != [] && (EscapedUnit(c) + text)[0] != QUOTE
    ensures Head(EscapedUnit(c) + text) == (c as int, |EscapedUnit(c)|)
  {
    HexDigits(c);
    var whole := EscapedUnit(c) + text;
    if Short(c).Some? {
      assert whole[0] == BACKSLASH && whole[1] == Short(c).value;
    } else if c < 0x20 || High(c) || Low(c) {
      assert whole[..6] == UnicodeEscape(c);
      assert whole[0] == BACKSLASH && whole[1] == LOWER_U && whole[2] == Hex(c / 4096);
      assert whole[3] == Hex(c / 256 % 16) && whole[4] == Hex(c / 16 % 16) && whole[5] == Hex(c % 16);
    } else {
      assert whole[0] == c;
    }
  }

  /** Reading one written unit. */
  lemma ReadsHead(c: CodeUnit, unit: Str, text: Str, more: Str, end: Str)
    requires unit != [] && unit[0] != QUOTE && Head(unit + text) == (c as int, |unit|)
    requires ReadString(text) == Some((more, end))
    ensures ReadString(unit + text) == Some(([c] + more, end))
  {
    assert (unit + text)[|unit|..] == text;
  }

  /** What was quoted is read back exactly, and reading stops at the closing quote. */
  lemma {:induction false} ReadsQuoted(s: Str, rest: Str)
    ensures ReadString(Escape(s) + [QUOTE] + rest) == Some((s, rest))
    decreases |s|
  {
    if s == [] {
      assert Escape(s) + [QUOTE] + rest == [QUOTE] + rest;
      assert ([QUOTE] + rest)[1..] == rest;
    } else if |s| >= 2 && High(s[0]) && Low(s[1]) {
      ReadsQuoted(s[2..], rest);
      ReadsPair(s, rest);
    } else {
      ReadsQuoted(s[1..], rest);
      ReadsUnit(s, rest);
    }
  }

  lemma ReadsUnit(s: Str, rest: Str)
    requires s != [] && !(|s| >= 2 && High(s[0]) && Low(s[1]))
    requires ReadString(Escape(s[1..]) + [QUOTE] + rest) == Some((s[1..], rest))
    ensures ReadString(Escape(s) + [QUOTE] + rest) == Some((s, rest))
  {
    var text := Escape(s[1..]) + [QUOTE] + rest;
    HeadOfEscaped(s[0], text);
    ReadsHead(s[0], EscapedUnit(s[0]), text, s[1..], rest);
    UnitRegroup(s, rest);
    assert [s[0]] + s[1..] == s;
  }

  lemma UnitRegroup(s: Str, rest: Str)
    requires s != [] && !(|s| >= 2 && High(s[0]) && Low(s[1]))
    ensures Escape(s) + [QUOTE] + rest == EscapedUnit(s[0]) + (Escape(s[1..]) + [QUOTE] + rest)
  {
    UnitThenRest(EscapedUnit(s[0]), Escape(s[1..]), rest);
  }

  lemma UnitThenRest(unit: Str, e: Str, rest: Str)
    ensures (unit + e) + [QUOTE] + rest == unit + (e + [QUOTE] + rest)
  {
  }

  lemma ReadsPair(s: Str, rest: Str)
    requires |s| >= 2 && High(s[0]) && Low(s[1])
    requires ReadString(Escape(s[2..]) + [QUOTE] + rest) == Some((s[2..], rest))
    ensures ReadString(Escape(s) + [QUOTE] + rest) == Some((s, rest))
  {
    var text := Escape(s[2..]) + [QUOTE] + rest;
    PairRegroup(s, rest);
    ReadsHead(s[1], [s[1]], text, s[2..], rest);
    ReadsHead(s[0], [s[0]], [s[1]] + text, [s[1]] + s[2..], rest);
    assert [s[0]] + ([s[1]] + s[2..]) == s;
  }

  lemma PairRegroup(s: Str, rest: Str)
    requires |s| >= 2 && High(s[0]) && Low(s[1])
    ensures Escape(s) + [QUOTE] + rest == [s[0]] + ([s[1]] + (Escape(s[2..]) + [QUOTE] + rest))
  {
    var whole, e := Escape(s), Escape(s[2..]);
    assert whole == [s[0], s[1]] + e;
    PairThenRest(s[0], s[1], e, rest);
  }

  lemma PairThenRest(a: CodeUnit, b: CodeUnit, e: Str, rest: Str)
    ensures [a, b] + e + [QUOTE] + rest == [a] + ([b] + (e + [QUOTE] + rest))
  {
  }

  /** Two quoted strings at the head of equal texts are the same string. */
  lemma QuoteUnique(a: Str, b: Str, restA: Str, restB: Str)
    requires Quote(a) + restA == Quote(b) + restB
    ensures a == b && restA == restB
  {
    assert (Quote(a) + restA)[1..] == Escape(a) + [QUOTE] + restA;
    assert (Quote(b) + restB)[1..] == Escape(b) + [QUOTE] + restB;
    ReadsQuoted(a, restA);
    ReadsQuoted(b, restB);
  }

  // ---------------------------------------------------------------- numbers

  const ZERO: CodeUnit := 0x30
  const MINUS: CodeUnit := 0x2D
  const PLUS: CodeUnit := 0x2B
  const DOT: CodeUnit := 0x2E
  const LOWER_E: CodeUnit := 0x65

  type Digit = d: int | 0 <= d < 10 witness 0

  /** A finite number as Number::toString sees it: zero of either sign, or the shortest
      decimal 0.d1d2... times ten to the `point` that identifies the double. */
  datatype Number = Zero(negative: bool) | Decimal(minus: bool, digits: seq<Digit>, point: int)

  predicate Canonical(n: Number) {
    n.Decimal? ==> |n.digits| > 0 && n.digits[0] != 0 && n.digits[|n.digits| - 1] != 0
  }

  function Zeros(n: nat): (r: Str)
    ensures |r| == n
    ensures forall i | 0 <= i < n :: r[i] == ZERO
  {
    seq(n, _ => ZERO)
  }

  function DigitText(digits: seq<Digit>): (r: Str)
    ensures |r| == |digits|
  {
    seq(|digits|, i requires 0 <= i < |digits| => ZERO + digits[i])
  }

  function NatDigits(n: nat): seq<Digit> {
    if n < 10 then [n] else NatDigits(n / 10) + [n % 10]
  }

  function ExponentText(e: int): Str {
    [LOWER_E] + [if e < 0 then MINUS else PLUS] + DigitText(NatDigits(if e < 0 then -e else e))
  }

  /** The decimal forms by magnitude: plain, with a point inside, with leading zeros, or
      in exponent notation. */
  function Magnitude(digits: seq<Digit>, point: int): Str
    requires |digits| > 0
  {
    var k := |digits|;
    if k <= point <= 21 then DigitText(digits) + Zeros(point - k)
    else if 0 < point <= 21 then DigitText(digits[..point]) + [DOT] + DigitText(digits[point..])
    else if -6 < point <= 0 then [ZERO, DOT] + Zeros(-point) + DigitText(digits)
    else
      var e := point - 1;
      var mantissa := if k == 1 then DigitText(digits) else DigitText(digits[..1]) + [DOT] + DigitText(digits[1..]);
      mantissa + ExponentText(e)
  }

  /** Exponent notation from 1e21 on and below 1e-6, and nowhere else. */
  lemma ExponentExactlyWhen(digits: seq<Digit>, point: int)
    requires |digits| > 0
    ensures LOWER_E in Magnitude(digits, point) <==> point > 21 || point <= -6
  {
    if point > 21 || point <= -6 {
      var mantissa := if |digits| == 1 then DigitText(digits) else DigitText(digits[..1]) + [DOT] + DigitText(digits[1..]);
      var text := mantissa + ExponentText(point - 1);
      assert text[|mantissa|] == LOWER_E && Magnitude(digits, point) == text;
    } else {
      assert forall c | c in DigitText(digits) :: c != LOWER_E;
    }
  }

  function NumberText(n: Number): Str
    requires Canonical(n)
  {
    match n
    case Zero(_) => [ZERO]
    case Decimal(minus, digits, point) => (if minus then [MINUS] else []) + Magnitude(digits, point)
  }

  // ---------------------------------------------------------------- reading numbers

  /** Position of the first `c`, or the length. */
  function Index(text: Str, c: CodeUnit): (i: nat)
    ensures i <= |text|
  {
    if text == [] || text[0] == c then 0 else 1 + Index(text[1..], c)
  }

  function DigitsOf(text: Str): seq<Digit> {
    seq(|text|, i requires 0 <= i < |text| => if ZERO <= text[i] <= 0x39 then text[i] - ZERO else 0)
  }

  function NatOf(digits: seq<Digit>): nat {
    if digits == [] then 0 else 10 * NatOf(digits[..|digits| - 1]) + digits[|digits| - 1]
  }

  function LeadingZeros(digits: seq<Digit>): (n: nat)
    ensures n <= |digits|
  {
    if digits == [] || digits[0] != 0 then 0 else 1 + LeadingZeros(digits[1..])
  }

  function TrimRight(digits: seq<Digit>): seq<Digit> {
    if digits == [] || digits[|digits| - 1] != 0 then digits else TrimRight(digits[..|digits| - 1])
  }

  /** The decimal that mantissa digits and an exponent stand for, freed of needless zeros. */
  function Normalized(whole: seq<Digit>, fraction: seq<Digit>, exponent: int): (seq<Digit>, int) {
    var all := whole + fraction;
    var zeros := LeadingZeros(all);
    (TrimRight(all[zeros..]), |whole| + exponent - zeros)
  }

  /** The value of an exponent part, `e` included; nothing counts as zero. */
  function ExponentOf(part: Str): int {
    if |part| < 2 then 0
    else
      var n: int := NatOf(DigitsOf(part[2..]));
      if part[1] == MINUS then -n else n
  }

  function ReadMantissa(mantissa: Str, exponent: int): (seq<Digit>, int) {
    var dot := Index(mantissa, DOT);
    Normalized(DigitsOf(mantissa[..dot]), if dot < |mantissa| then DigitsOf(mantissa[dot + 1..]) else [], exponent)
  }

  function ReadMagnitude(text: Str): (seq<Digit>, int) {
    var e := Index(text, LOWER_E);
    ReadMantissa(text[..e], ExponentOf(text[e..]))
  }

  lemma {:induction false} IndexAfter(before: Str, c: CodeUnit, rest: Str)
    requires c !in before
    ensures Index(before + [c] + rest, c) == |before|
    ensures Index(before, c) == |before|
  {
    if before == [] {
      assert before + [c] + rest == [c] + rest;
    } else {
      assert (before + [c] + rest)[1..] == before[1..] + [c] + rest;
      IndexAfter(before[1..], c, rest);
    }
  }

  lemma {:induction false} NatRoundTrip(n: nat)
    ensures NatOf(NatDigits(n)) == n
  {
    if n < 10 {
      assert NatOf([n]) == n by { assert [n][..0] == []; }
    } else {
      NatRoundTrip(n / 10);
      var d := NatDigits(n);
      assert d[..|d| - 1] == NatDigits(n / 10);
    }
  }

  lemma {:induction false} ZerosLead(n: nat, digits: seq<Digit>)
    requires digits != [] && digits[0] != 0
    ensures LeadingZeros(Repeat(0 as Digit, n) + digits) == n
  {
    var s := Repeat(0 as Digit, n) + digits;
    if n == 0 {
      assert s == digits;
    } else {
      assert s[0] == 0 && s[1..] == Repeat(0 as Digit, n - 1) + digits;
      ZerosLead(n - 1, digits);
    }
  }

  lemma {:induction false} ZerosTrail(digits: seq<Digit>, n: nat)
    requires digits != [] && digits[|digits| - 1] != 0
    ensures TrimRight(digits + Repeat(0 as Digit, n)) == digits
  {
    var s := digits + Repeat(0 as Digit, n);
    if n == 0 {
      assert s == digits;
    } else {
      assert s[|s| - 1] == 0 && s[..|s| - 1] == digits + Repeat(0 as Digit, n - 1);
      ZerosTrail(digits, n - 1);
    }
  }

  predicate Significant(digits: seq<Digit>) {
    |digits| > 0 && digits[0] != 0 && digits[|digits| - 1] != 0
  }

  lemma NormalizesPadded(whole: seq<Digit>, fraction: seq<Digit>, exponent: int, left: nat, digits: seq<Digit>, right: nat)
    requires Significant(digits)
    requires whole + fraction == Repeat(0 as Digit, left) + digits + Repeat(0 as Digit, right)
    ensures Normalized(whole, fraction, exponent) == (digits, |whole| + exponent - left)
  {
    var tail := digits + Repeat(0 as Digit, right);
    assert whole + fraction == Repeat(0 as Digit, left) + tail;
    ZerosLead(left, tail);
    assert (whole + fraction)[left..] == tail;
    ZerosTrail(digits, right);
  }

  lemma DigitTextBack(digits: seq<Digit>)
    ensures DigitsOf(DigitText(digits)) == digits
    ensures forall c | c in DigitText(digits) :: ZERO <= c <= 0x39
  {
  }

  predicate AllDigits(text: Str) {
    forall i | 0 <= i < |text| :: ZERO <= text[i] <= 0x39
  }

  lemma SplitsExponent(mantissa: Str, exponent: Str)
    requires LOWER_E !in mantissa && (exponent == [] || exponent[0] == LOWER_E)
    ensures ReadMagnitude(mantissa + exponent) == ReadMantissa(mantissa, ExponentOf(exponent))
  {
    var text := mantissa + exponent;
    IndexAfter(mantissa, LOWER_E, if exponent == [] then [] else exponent[1..]);
    if exponent == [] {
      assert text == mantissa;
    } else {
      assert text == mantissa + [LOWER_E] + exponent[1..];
    }
    assert text[..|mantissa|] == mantissa && text[|mantissa|..] == exponent;
  }

  lemma SplitsPoint(whole: Str, fraction: Str, exponent: int)
    requires AllDigits(whole)
    ensures ReadMantissa(whole + [DOT] + fraction, exponent) == Normalized(DigitsOf(whole), DigitsOf(fraction), exponent)
    ensures ReadMantissa(whole, exponent) == Normalized(DigitsOf(whole), [], exponent)
  {
    assert DOT !in whole;
    IndexAfter(whole, DOT, fraction);
    var text := whole + [DOT] + fraction;
    assert text[..|whole|] == whole && text[|whole| + 1..] == fraction;
    assert whole[..|whole|] == whole;
  }

  lemma PaddedRight(digits: seq<Digit>, n: nat)
    ensures var t := DigitText(digits) + Zeros(n);
            AllDigits(t) && DigitsOf(t) == digits + Repeat(0 as Digit, n)
  {
  }

  lemma PaddedLeft(n: nat, digits: seq<Digit>)
    ensures var t := Zeros(n) + DigitText(digits);
            AllDigits(t) && DigitsOf(t) == Repeat(0 as Digit, n) + digits
  {
  }

  lemma NormalizesExact(whole: seq<Digit>, fraction: seq<Digit>, exponent: int, digits: seq<Digit>)
    requires Significant(digits) && whole + fraction == digits
    ensures Normalized(whole, fraction, exponent) == (digits, |whole| + exponent)
  {
    assert Repeat(0 as Digit, 0) + digits + Repeat(0 as Digit, 0) == digits;
    NormalizesPadded(whole, fraction, exponent, 0, digits, 0);
  }

  lemma NormalizesRight(digits: seq<Digit>, n: nat)
    requires Significant(digits)
    ensures Normalized(digits + Repeat(0 as Digit, n), [], 0) == (digits, |digits| + n)
  {
    var whole := digits + Repeat(0 as Digit, n);
    assert whole + [] == Repeat(0 as Digit, 0) + digits + Repeat(0 as Digit, n);
    NormalizesPadded(whole, [], 0, 0, digits, n);
  }

  lemma NormalizesLeft(n: nat, digits: seq<Digit>)
    requires Significant(digits)
    ensures Normalized([0], Repeat(0 as Digit, n) + digits, 0) == (digits, 0 - n)
  {
    var fraction := Repeat(0 as Digit, n) + digits;
    assert [0] + fraction == Repeat(0 as Digit, n + 1) + digits + Repeat(0 as Digit, 0);
    NormalizesPadded([0], fraction, 0, n + 1, digits, 0);
  }

  lemma ReadsPlain(text: Str, digits: seq<Digit>, n: nat, point: int)
    requires Significant(digits) && text == DigitText(digits) + Zeros(n) && point == |digits| + n
    ensures ReadMagnitude(text).0 == digits && ReadMagnitude(text).1 == point
  {
    var whole := PaddedNumber(digits, n);
    ReadsNatural(whole, digits, n);
  }

  lemma PaddedNumber(digits: seq<Digit>, n: nat) returns (whole: Str)
    ensures whole == DigitText(digits) + Zeros(n)
    ensures AllDigits(whole) && DigitsOf(whole) == digits + Repeat(0 as Digit, n)
  {
    whole := DigitText(digits) + Zeros(n);
    PaddedRight(digits, n);
  }

  lemma ReadsNatural(text: Str, digits: seq<Digit>, n: nat)
    requires Significant(digits) && AllDigits(text) && DigitsOf(text) == digits + Repeat(0 as Digit, n)
    ensures ReadMagnitude(text).0 == digits && ReadMagnitude(text).1 == |digits| + n
  {
    ReadsWhole(text, []);
    NormalizesRight(digits, n);
  }

  lemma ReadsFraction(text: Str, fraction: Str, n: nat, digits: seq<Digit>)
    requires Significant(digits) && AllDigits(fraction) && DigitsOf(fraction) == Repeat(0 as Digit, n) + digits
    requires text == [ZERO] + [DOT] + fraction
    ensures ReadMagnitude(text).0 == digits && ReadMagnitude(text).1 == 0 - n
  {
    assert DigitsOf([ZERO]) == [0];
    ReadsSplit([ZERO], fraction, []);
    NormalizesLeft(n, digits);
  }

  /** Text without a point. */
  lemma ReadsWhole(whole: Str, exponent: Str)
    requires AllDigits(whole) && (exponent == [] || exponent[0] == LOWER_E)
    ensures ReadMagnitude(whole + exponent) == Normalized(DigitsOf(whole), [], ExponentOf(exponent))
    ensures exponent == [] ==> ReadMagnitude(whole) == Normalized(DigitsOf(whole), [], 0)
  {
    assert LOWER_E !in whole;
    SplitsExponent(whole, exponent);
    SplitsPoint(whole, [], ExponentOf(exponent));
    assert whole + [] == whole;
  }

  /** Text with a point. */
  lemma ReadsSplit(whole: Str, fraction: Str, exponent: Str)
    requires AllDigits(whole) && AllDigits(fraction) && (exponent == [] || exponent[0] == LOWER_E)
    ensures var text := whole + [DOT] + fraction;
            && ReadMagnitude(text + exponent) == Normalized(DigitsOf(whole), DigitsOf(fraction), ExponentOf(exponent))
            && (exponent == [] ==> ReadMagnitude(text) == Normalized(DigitsOf(whole), DigitsOf(fraction), 0))
  {
    var text := whole + [DOT] + fraction;
    assert LOWER_E !in text;
    SplitsExponent(text, exponent);
    SplitsPoint(whole, fraction, ExponentOf(exponent));
    assert text + [] == text;
  }

  lemma ReadsPointed(text: Str, digits: seq<Digit>, point: int)
    requires Significant(digits) && 0 < point < |digits| && text == DigitText(digits[..point]) + [DOT] + DigitText(digits[point..])
    ensures ReadMagnitude(text).0 == digits && ReadMagnitude(text).1 == point
  {
    var before, after := digits[..point], digits[point..];
    DigitTextBack(before);
    DigitTextBack(after);
    ReadsParts(text, DigitText(before), DigitText(after), before, after, digits);
  }

  lemma ReadsParts(text: Str, whole: Str, fraction: Str, before: seq<Digit>, after: seq<Digit>, digits: seq<Digit>)
    requires AllDigits(whole) && AllDigits(fraction) && DigitsOf(whole) == before && DigitsOf(fraction) == after
    requires Significant(digits) && before + after == digits && text == whole + [DOT] + fraction
    ensures ReadMagnitude(text).0 == digits && ReadMagnitude(text).1 == |before|
  {
    ReadsSplit(whole, fraction, []);
    NormalizesExact(before, after, 0, digits);
  }

  lemma RegroupPoint(text: Str, zeros: Str, digits: Str, fraction: Str)
    requires text == [ZERO, DOT] + zeros + digits && fraction == zeros + digits
    ensures text == [ZERO] + [DOT] + fraction
  {
  }

  lemma ReadsSmall(text: Str, n: nat, digits: seq<Digit>, point: int)
    requires Significant(digits) && text == [ZERO, DOT] + Zeros(n) + DigitText(digits) && point == 0 - n
    ensures ReadMagnitude(text).0 == digits && ReadMagnitude(text).1 == point
  {
    var fraction := PaddedFraction(n, digits);
    RegroupPoint(text, Zeros(n), DigitText(digits), fraction);
    ReadsFraction(text, fraction, n, digits);
  }

  lemma PaddedFraction(n: nat, digits: seq<Digit>) returns (fraction: Str)
    ensures fraction == Zeros(n) + DigitText(digits)
    ensures AllDigits(fraction) && DigitsOf(fraction) == Repeat(0 as Digit, n) + digits
  {
    fraction := Zeros(n) + DigitText(digits);
    PaddedLeft(n, digits);
  }

  lemma ReadsExponentText(e: int)
    ensures ExponentOf(ExponentText(e)) == e && ExponentText(e)[0] == LOWER_E
  {
    var size: nat := if e < 0 then -e else e;
    DigitTextBack(NatDigits(size));
    NatRoundTrip(size);
    assert ExponentText(e)[2..] == DigitText(NatDigits(size));
  }

  lemma ReadsOneDigitExponent(digits: seq<Digit>, e: int)
    requires Significant(digits) && |digits| == 1
    ensures ReadMagnitude(DigitText(digits) + ExponentText(e)) == (digits, e + 1)
  {
    ReadsExponentText(e);
    DigitTextBack(digits);
    ReadsWhole(DigitText(digits), ExponentText(e));
    NormalizesExact(digits, [], e, digits);
  }

  lemma ReadsPointedExponent(digits: seq<Digit>, e: int)
    requires Significant(digits) && |digits| > 1
    ensures ReadMagnitude(DigitText(digits[..1]) + [DOT] + DigitText(digits[1..]) + ExponentText(e)) == (digits, e + 1)
  {
    ReadsExponentText(e);
    DigitTextBack(digits[..1]);
    DigitTextBack(digits[1..]);
    ReadsSplit(DigitText(digits[..1]), DigitText(digits[1..]), ExponentText(e));
    NormalizesExact(digits[..1], digits[1..], e, digits);
  }

  lemma ReadsExponent(text: Str, digits: seq<Digit>, point: int)
    requires Significant(digits)
    requires text == (if |digits| == 1 then DigitText(digits) else DigitText(digits[..1]) + [DOT] + DigitText(digits[1..]))
                     + ExponentText(point - 1)
    ensures ReadMagnitude(text).0 == digits && ReadMagnitude(text).1 == point
  {
    if |digits| == 1 {
      ReadsOneDigitExponent(digits, point - 1);
    } else {
      ReadsPointedExponent(digits, point - 1);
    }
  }

  lemma ReadsMagnitude(digits: seq<Digit>, point: int)
    requires Significant(digits)
    ensures ReadMagnitude(Magnitude(digits, point)) == (digits, point)
  {
    ReadsForm(Magnitude(digits, point), digits, point);
  }

  lemma ReadsForm(text: Str, digits: seq<Digit>, point: int)
    requires Significant(digits) && text == Magnitude(digits, point)
    ensures ReadMagnitude(text).0 == digits && ReadMagnitude(text).1 == point
  {
    if |digits| <= point <= 21 {
      PlainForm(text, digits, point);
    } else if 0 < point <= 21 {
      PointedForm(text, digits, point);
    } else if -6 < point <= 0 {
      SmallForm(text, digits, point);
    } else {
      ExponentForm(text, digits, point);
    }
  }

  lemma PlainForm(text: Str, digits: seq<Digit>, point: int)
    requires Significant(digits) && |digits| <= point <= 21 && text == Magnitude(digits, point)
    ensures ReadMagnitude(text).0 == digits && ReadMagnitude(text).1 == point
  {
    PlainText(digits, point);
    ReadsPlain(text, digits, point - |digits|, point);
  }

  lemma PointedForm(text: Str, digits: seq<Digit>, point: int)
    requires Significant(digits) && 0 < point < |digits| && point <= 21 && text == Magnitude(digits, point)
    ensures ReadMagnitude(text).0 == digits && ReadMagnitude(text).1 == point
  {
    PointedText(digits, point);
    ReadsPointed(text, digits, point);
  }

  lemma SmallForm(text: Str, digits: seq<Digit>, point: int)
    requires Significant(digits) && -6 < point <= 0 && text == Magnitude(digits, point)
    ensures ReadMagnitude(text).0 == digits && ReadMagnitude(text).1 == point
  {
    SmallText(digits, point);
    ReadsSmall(text, -point, digits, point);
  }

  lemma ExponentForm(text: Str, digits: seq<Digit>, point: int)
    requires Significant(digits) && (point > 21 || point <= -6) && text == Magnitude(digits, point)
    ensures ReadMagnitude(text).0 == digits && ReadMagnitude(text).1 == point
  {
    ReadsExponent(text, digits, point);
  }

  lemma PlainText(digits: seq<Digit>, point: int)
    requires 0 < |digits| <= point <= 21
    ensures Magnitude(digits, point) == DigitText(digits) + Zeros(point - |digits|)
  {
  }

  lemma PointedText(digits: seq<Digit>, point: int)
    requires 0 < point < |digits| && point <= 21
    ensures Magnitude(digits, point) == DigitText(digits[..point]) + [DOT] + DigitText(digits[point..])
  {
  }

  lemma SmallText(digits: seq<Digit>, point: int)
    requires |digits| > 0 && -6 < point <= 0
    ensures Magnitude(digits, point) == [ZERO, DOT] + Zeros(-point) + DigitText(digits)
  {
  }

  predicate NumberUnit(c: CodeUnit) {
    ZERO <= c <= 0x39 || c == MINUS || c == PLUS || c == DOT || c == LOWER_E
  }

  predicate NumberUnits(text: Str) {
    forall i | 0 <= i < |text| :: NumberUnit(text[i])
  }

  lemma NumberUnitsAppend(a: Str, b: Str)
    requires NumberUnits(a) && NumberUnits(b)
    ensures NumberUnits(a + b)
  {
  }

  lemma DigitUnits(digits: seq<Digit>)
    ensures NumberUnits(DigitText(digits))
  {
  }

  /** A magnitude starts with a digit, has no other sign than the exponent's, and is never
      the bare zero. */
  lemma MagnitudeUnits(digits: seq<Digit>, point: int)
    requires |digits| > 0
    ensures var m := Magnitude(digits, point);
            |m| > 0 && ZERO <= m[0] <= 0x39 && NumberUnits(m) && (digits[0] != 0 ==> m != [ZERO])
  {
    DigitUnits(digits);
    if |digits| <= point <= 21 {
      NumberUnitsAppend(DigitText(digits), Zeros(point - |digits|));
    } else if 0 < point <= 21 {
      DigitUnits(digits[..point]);
      DigitUnits(digits[point..]);
    } else if -6 < point <= 0 {
      NumberUnitsAppend([ZERO, DOT] + Zeros(-point), DigitText(digits));
    } else {
      var e := point - 1;
      DigitUnits(NatDigits(if e < 0 then -e else e));
      DigitUnits(digits[..1]);
      DigitUnits(digits[1..]);
      NumberUnitsAppend(if |digits| == 1 then DigitText(digits) else DigitText(digits[..1]) + [DOT] + DigitText(digits[1..]),
                        ExponentText(e));
    }
  }

  /** Equal number texts come from equal numbers, the two zeros aside. */
  lemma NumberInjective(a: Number, b: Number)
    requires Canonical(a) && Canonical(b) && NumberText(a) == NumberText(b)
    ensures a == b || (a.Zero? && b.Zero?)
  {
    if a.Decimal? { MagnitudeUnits(a.digits, a.point); }
    if b.Decimal? { MagnitudeUnits(b.digits, b.point); }
    if a.Decimal? && b.Decimal? {
      assert NumberText(a)[0] == MINUS <==> a.minus;
      assert NumberText(b)[0] == MINUS <==> b.minus;
      if a.minus {
        assert NumberText(a)[1..] == Magnitude(a.digits, a.point);
        assert NumberText(b)[1..] == Magnitude(b.digits, b.point);
      } else {
        assert [] + Magnitude(a.digits, a.point) == Magnitude(a.digits, a.point);
        assert [] + Magnitude(b.digits, b.point) == Magnitude(b.digits, b.point);
      }
      ReadsMagnitude(a.digits, a.point);
      ReadsMagnitude(b.digits, b.point);
    }
  }
}
