/**
 The two number grammars of the protocol: the integer tokens canonical JSON admits, and the
 canonical decimals that carry probabilities, masses and moments.
 */
module CanonicalNumbers {
  import opened Basics
  import opened Digits

  const MAXIMUM_SAFE_INTEGER := 9_007_199_254_740_991

  function Unsigned(t: Bytes): Bytes {
    if t != "" && t[0] == '-' then t[1..] else t
  }

  predicate ContainsAny(t: Bytes, letters: Bytes) {
    exists i | 0 <= i < |t| :: t[i] in letters
  }

  // ----- JSON numbers

  /** Number of digits `s` starts with. */
  function DigitRun(s: Bytes): (n: nat)
    ensures n <= |s| && AllDigits(s[..n])
    ensures n < |s| ==> !IsDigit(s[n])
  {
    if s == "" || !IsDigit(s[0]) then 0 else
    var n := DigitRun(s[1..]);
    assert s[..n + 1] == [s[0]] + s[1..][..n];
    n + 1
  }

  predicate ExponentPart(s: Bytes) {
    s == "" ||
    (s[0] in "eE" &&
     var digits := if |s| > 1 && s[1] in "+-" then s[2..] else s[1..];
     digits != "" && AllDigits(digits))
  }

  predicate FractionAndExponent(s: Bytes) {
    if s != "" && s[0] == '.' then
      var n := DigitRun(s[1..]);
      n > 0 && ExponentPart(s[1 + n..])
    else ExponentPart(s)
  }

  /** A number of section 6 of RFC 8259. */
  predicate JsonNumber(t: Bytes) {
    var u := Unsigned(t);
    var n := DigitRun(u);
    NoLeadingZero(u[..n]) && FractionAndExponent(u[n..])
  }

  /** What the decoder asks of a number token. */
  predicate CanonicalInteger(t: Bytes) {
    && !ContainsAny(t, ".eE+") && t != "-0"
    && Unsigned(t) != "" && AllDigits(Unsigned(t))
    && DigitsValue(Unsigned(t)) <= MAXIMUM_SAFE_INTEGER
  }

  predicate IntegerToken(t: Bytes) {
    JsonNumber(t) && CanonicalInteger(t)
  }

  function IntegerValue(t: Bytes): int
    requires IntegerToken(t)
  {
    var magnitude: int := DigitsValue(Unsigned(t));
    if t[0] == '-' then -magnitude else magnitude
  }

  function IntegerText(v: int): Bytes {
    if v < 0 then ['-'] + DigitsText(-v) else DigitsText(v)
  }

  lemma {:induction false} DigitRunOfDigits(s: Bytes)
    requires AllDigits(s)
    ensures DigitRun(s) == |s|
  {
    if s != "" {
      DigitRunOfDigits(s[1..]);
    }
  }

  lemma TokenShape(t: Bytes)
    requires IntegerToken(t)
    ensures NoLeadingZero(Unsigned(t))
    ensures t == if t[0] == '-' then ['-'] + Unsigned(t) else Unsigned(t)
    ensures t[0] == '-' ==> Unsigned(t) != "0"
  {
    var u := Unsigned(t);
    DigitRunOfDigits(u);
    assert u[..|u|] == u;
  }

  /** A token the decoder accepts is the one text of its value. */
  lemma TokenIsTextOfValue(t: Bytes)
    requires IntegerToken(t)
    ensures IntegerText(IntegerValue(t)) == t
    ensures -MAXIMUM_SAFE_INTEGER <= IntegerValue(t) <= MAXIMUM_SAFE_INTEGER
  {
    TokenShape(t);
    TextOfValue(Unsigned(t));
    assert DigitsValue(Unsigned(t)) == 0 ==> Unsigned(t) == "0";
  }

  /** Every integer in range has a token, and the token denotes it. */
  lemma ValueOfTextIsInteger(v: int)
    requires -MAXIMUM_SAFE_INTEGER <= v <= MAXIMUM_SAFE_INTEGER
    ensures IntegerToken(IntegerText(v)) && IntegerValue(IntegerText(v)) == v
  {
    var t := IntegerText(v);
    var u := DigitsText(Magnitude(v));
    ValueOfText(Magnitude(v));
    assert IsDigit(u[0]);
    assert Unsigned(t) == u;
    DigitRunOfDigits(u);
    assert u[..|u|] == u && u[|u|..] == "";
    assert forall i | 0 <= i < |t| :: t[i] == '-' || IsDigit(t[i]);
  }

  /** Integer tokens and the integers of magnitude at most 2^53-1 are in bijection. */
  lemma IntegerTokensAreUnique(t: Bytes, u: Bytes)
    requires IntegerToken(t) && IntegerToken(u)
    ensures IntegerValue(t) == IntegerValue(u) <==> t == u
  {
    TokenIsTextOfValue(t);
    TokenIsTextOfValue(u);
  }

  // ----- canonical decimals

  /** mantissa / 10^scale */
  datatype Decimal = Decimal(mantissa: int, scale: nat)

  const MAXIMUM_DECIMAL_LENGTH := 128

  /** The texts "-0" and "-0." followed by zeros only. */
  predicate NegativeZero(t: Bytes) {
    && |t| >= 2 && t[0] == '-' && t[1] == '0'
    && (|t| == 2 || (t[2] == '.' && forall i | 3 <= i < |t| :: t[i] == '0'))
  }

  function ParseDecimal(t: Bytes): (r: Option<Decimal>) {
    if t == "" || |t| > MAXIMUM_DECIMAL_LENGTH || ContainsAny(t, "+eE/") || NegativeZero(t) then None
    else Assemble(t[0] == '-', Split(Unsigned(t), '.'))
  }

  /** The value of the parts around the point, when they are canonical. */
  function Assemble(negative: bool, parts: seq<Bytes>): (r: Option<Decimal>)
    requires parts != []
  {
    if |parts| > 2 || !NoLeadingZero(parts[0]) then None
    else if |parts| == 2 && (parts[1] == "" || parts[1][|parts[1]| - 1] == '0') then None
    else if !(forall i | 0 <= i < |parts| :: AllDigits(parts[i])) then None
    else
      var fraction := if |parts| == 2 then parts[1] else "";
      Some(Signed(negative, parts[0] + fraction, |fraction|))
  }

  function Signed(negative: bool, digits: Bytes, scale: nat): (d: Decimal)
    requires AllDigits(digits)
    ensures Magnitude(d.mantissa) == DigitsValue(digits)
  {
    var magnitude: int := DigitsValue(digits);
    Decimal(if negative then -magnitude else magnitude, scale)
  }

  function Magnitude(v: int): nat {
    if v < 0 then -v else v
  }

  /** No trailing zero in the fraction. */
  predicate Normal(d: Decimal) {
    d.scale == 0 || Magnitude(d.mantissa) % 10 != 0
  }

  function Body(whole: Bytes, fraction: Bytes): Bytes {
    if fraction == "" then whole else whole + ['.'] + fraction
  }

  function Layout(negative: bool, whole: Bytes, fraction: Bytes): Bytes {
    if negative then ['-'] + Body(whole, fraction) else Body(whole, fraction)
  }

  /** The digits of a decimal around its point: at least one before it. */
  function WholeAndFraction(d: Decimal): (r: (Bytes, Bytes))
    ensures |r.1| == d.scale && r.0 != ""
    ensures r.0 + r.1 == Padded(Magnitude(d.mantissa), d.scale + 1)
  {
    var digits := Padded(Magnitude(d.mantissa), d.scale + 1);
    var point := |digits| - d.scale;
    (digits[..point], digits[point..])
  }

  /** The canonical text of a decimal. */
  function DecimalText(d: Decimal): Bytes {
    var (whole, fraction) := WholeAndFraction(d);
    Layout(d.mantissa < 0, whole, fraction)
  }

  function Real(d: Decimal): real {
    d.mantissa as real / Pow10(d.scale) as real
  }

  /** Digits that can stand around the point of a canonical decimal. */
  predicate Pieces(negative: bool, whole: Bytes, fraction: Bytes) {
    && AllDigits(whole) && NoLeadingZero(whole) && AllDigits(fraction)
    && (fraction != "" ==> fraction[|fraction| - 1] != '0')
    && (negative ==> DigitsValue(whole + fraction) != 0)
  }

  lemma UnsignedOfLayout(negative: bool, whole: Bytes, fraction: Bytes)
    requires AllDigits(whole) && whole != ""
    ensures Unsigned(Layout(negative, whole, fraction)) == Body(whole, fraction)
    ensures Layout(negative, whole, fraction)[0] == '-' <==> negative
  {
    assert Body(whole, fraction)[0] == whole[0];
    assert IsDigit(whole[0]);
  }

  lemma NegativeZeroLayout(whole: Bytes, fraction: Bytes)
    requires AllDigits(whole) && NoLeadingZero(whole) && AllDigits(fraction)
    ensures NegativeZero(Layout(true, whole, fraction)) <==> DigitsValue(whole + fraction) == 0
  {
    var t, digits := Layout(true, whole, fraction), whole + fraction;
    ZerosIffZero(digits);
    assert t[1] == whole[0] == digits[0];
    if |whole| > 1 {
      assert t[2] == whole[1];
    } else if fraction != "" {
      assert t[2] == '.';
      assert forall i | 3 <= i < |t| :: t[i] == digits[i - 2];
      assert forall i | 1 <= i < |digits| :: digits[i] == t[i + 2];
    }
  }

  lemma SplitOfBody(whole: Bytes, fraction: Bytes)
    requires AllDigits(whole) && AllDigits(fraction)
    ensures Split(Body(whole, fraction), '.') == if fraction == "" then [whole] else [whole, fraction]
  {
    var parts := if fraction == "" then [whole] else [whole, fraction];
    if fraction != "" {
      assert parts[1..] == [fraction];
    }
    SplitOfJoin(parts, '.');
  }

  /** An accepted text is laid out from its pieces. */
  lemma PiecesOf(t: Bytes) returns (negative: bool, whole: Bytes, fraction: Bytes)
    requires ParseDecimal(t).Some?
    ensures t == Layout(negative, whole, fraction) && Pieces(negative, whole, fraction)
  {
    var u := Unsigned(t);
    var parts := Split(u, '.');
    JoinOfSplit(u, '.');
    negative, whole, fraction := t[0] == '-', parts[0], if |parts| == 2 then parts[1] else "";
    assert u == Body(whole, fraction);
    if negative {
      assert t == ['-'] + u;
      NegativeZeroLayout(whole, fraction);
    }
  }

  lemma DigitsAndPointOnly(negative: bool, whole: Bytes, fraction: Bytes)
    requires AllDigits(whole) && AllDigits(fraction)
    ensures !ContainsAny(Layout(negative, whole, fraction), "+eE/")
  {
    var b, t := Body(whole, fraction), Layout(negative, whole, fraction);
    assert forall i | 0 <= i < |b| :: b[i] == '.' || IsDigit(b[i]);
    assert forall i | 0 <= i < |t| :: t[i] == '-' || t[i] == '.' || IsDigit(t[i]);
  }

  /** Text laid out from pieces is accepted, and this is its value. */
  lemma LayoutParses(negative: bool, whole: Bytes, fraction: Bytes)
    requires Pieces(negative, whole, fraction) && |Layout(negative, whole, fraction)| <= MAXIMUM_DECIMAL_LENGTH
    ensures ParseDecimal(Layout(negative, whole, fraction)) == Some(Signed(negative, whole + fraction, |fraction|))
  {
    var t := Layout(negative, whole, fraction);
    UnsignedOfLayout(negative, whole, fraction);
    DigitsAndPointOnly(negative, whole, fraction);
    SplitOfBody(whole, fraction);
    assert !NegativeZero(t) by {
      if negative { NegativeZeroLayout(whole, fraction); }
    }
    var parts := if fraction == "" then [whole] else [whole, fraction];
    assert forall i | 0 <= i < |parts| :: AllDigits(parts[i]);
    assert Assemble(negative, parts) == Some(Signed(negative, whole + fraction, |fraction|));
  }

  /** Printing the parsed value gives back the text. */
  lemma DecimalPrints(t: Bytes)
    requires ParseDecimal(t).Some?
    ensures Normal(ParseDecimal(t).value) && DecimalText(ParseDecimal(t).value) == t
  {
    var negative, whole, fraction := PiecesOf(t);
    LayoutParses(negative, whole, fraction);
    var digits := whole + fraction;
    SplitDigits(digits, |whole|, whole, fraction);
    var d := ParseDecimal(t).value;
    assert d == Signed(negative, digits, |fraction|);
    assert negative == (d.mantissa < 0);
  }

  lemma SplitDigits(digits: Bytes, point: nat, whole: Bytes, fraction: Bytes)
    requires AllDigits(whole) && NoLeadingZero(whole) && AllDigits(fraction)
    requires digits == whole + fraction && point == |whole|
    ensures Padded(DigitsValue(digits), |fraction| + 1) == digits
    ensures digits[..point] == whole && digits[point..] == fraction
    ensures fraction != "" ==> DigitsValue(digits) % 10 == DigitValue(fraction[|fraction| - 1])
  {
    assert digits[..point] == whole;
    PaddedOfValue(digits, |fraction| + 1);
  }

  lemma LastDigit(front: Bytes, s: Bytes)
    requires AllDigits(s) && s != ""
    ensures DigitsValue(front + s) % 10 == 0 <==> s[|s| - 1] == '0'
  {
    assert front + s == (front + s[..|s| - 1]) + [s[|s| - 1]];
    ValueOfSnoc(front + s[..|s| - 1], s[|s| - 1]);
  }

  /** The digits of a normal value stand around its point as canonical pieces. */
  lemma PiecesOfNormal(d: Decimal, whole: Bytes, fraction: Bytes)
    requires Normal(d) && (whole, fraction) == WholeAndFraction(d)
    ensures Pieces(d.mantissa < 0, whole, fraction) && DigitsValue(whole + fraction) == Magnitude(d.mantissa)
  {
    ValueOfPadded(Magnitude(d.mantissa), d.scale + 1);
    PaddedStarts(Magnitude(d.mantissa), d.scale + 1);
    if fraction != "" {
      LastDigit(whole, fraction);
    }
  }

  /** Parsing the text of a normal value gives back the value, length permitting. */
  lemma DecimalParses(d: Decimal)
    requires Normal(d) && |DecimalText(d)| <= MAXIMUM_DECIMAL_LENGTH
    ensures ParseDecimal(DecimalText(d)) == Some(d)
  {
    var (whole, fraction) := WholeAndFraction(d);
    PiecesOfNormal(d, whole, fraction);
    LayoutParses(d.mantissa < 0, whole, fraction);
  }

  lemma {:induction false} PowersAdd(a: nat, b: nat)
    ensures Pow10(a + b) == Pow10(a) * Pow10(b)
  {
    if a > 0 {
      PowersAdd(a - 1, b);
    }
  }

  lemma EqualFractions(a: int, p: int, b: int, factor: int)
    requires p > 0 && factor > 0 && p * factor > 0
    requires a as real / p as real == b as real / (p * factor) as real
    ensures b == a * factor
  {
    var x := a as real / p as real;
    assert a as real == x * p as real;
    assert b as real == x * (p * factor) as real;
    assert (p * factor) as real == p as real * factor as real;
    assert b as real == x * p as real * factor as real;
    assert b as real == (a * factor) as real;
  }

  lemma SameRealMeansSameDecimal(d: Decimal, e: Decimal)
    requires Normal(d) && Normal(e) && Real(d) == Real(e) && d.scale <= e.scale
    ensures d == e
  {
    var gap := e.scale - d.scale;
    PowersAdd(d.scale, gap);
    EqualFractions(d.mantissa, Pow10(d.scale), e.mantissa, Pow10(gap));
    if gap > 0 {
      TenDivides(d.mantissa, Pow10(gap - 1));
    }
  }

  lemma TenDivides(a: int, p: int)
    ensures Magnitude(a * (10 * p)) % 10 == 0
  {
    assert a * (10 * p) == 10 * (a * p);
  }

  /** Two accepted decimals denote the same rational only if they are the same text. */
  lemma DecimalsAreUnique(t: Bytes, u: Bytes)
    requires ParseDecimal(t).Some? && ParseDecimal(u).Some?
    ensures Real(ParseDecimal(t).value) == Real(ParseDecimal(u).value) <==> t == u
  {
    DecimalPrints(t);
    DecimalPrints(u);
    var d, e := ParseDecimal(t).value, ParseDecimal(u).value;
    if Real(d) == Real(e) {
      if d.scale <= e.scale {
        SameRealMeansSameDecimal(d, e);
      } else {
        SameRealMeansSameDecimal(e, d);
      }
    }
  }

  // ----- what a decimal denotes, digit by digit

  /** The digits before the point. */
  function WholeReal(s: Bytes): real {
    if s == "" then 0.0 else 10.0 * WholeReal(s[..|s| - 1]) + DigitValue(s[|s| - 1]) as real
  }

  /** The digits after it, each a tenth of the one before. */
  function FractionReal(s: Bytes): real {
    if s == "" then 0.0 else (DigitValue(s[0]) as real + FractionReal(s[1..])) / 10.0
  }

  lemma {:induction false} WholeIsValue(s: Bytes)
    ensures WholeReal(s) == DigitsValue(s) as real
  {
    if s != "" {
      WholeIsValue(s[..|s| - 1]);
    }
  }

  lemma {:induction false} ValueOfBoth(a: Bytes, b: Bytes)
    ensures DigitsValue(a + b) == DigitsValue(a) * Pow10(|b|) + DigitsValue(b)
  {
    if b == "" {
      assert a + b == a;
    } else {
      var front, c := b[..|b| - 1], b[|b| - 1];
      ValueOfBoth(a, front);
      assert a + b == (a + front) + [c];
      ValueOfSnoc(a + front, c);
      TenTimes(DigitsValue(a), Pow10(|front|));
    }
  }

  lemma TenTimes(a: int, p: int)
    ensures 10 * (a * p) == a * (10 * p)
  {
  }

  lemma FirstDigit(s: Bytes)
    requires s != ""
    ensures FractionReal(s) == (DigitValue(s[0]) as real + FractionReal(s[1..])) / 10.0
    ensures Pow10(|s|) == 10 * Pow10(|s[1..]|)
    ensures DigitsValue(s) == DigitValue(s[0]) * Pow10(|s[1..]|) + DigitsValue(s[1..])
  {
    hide FractionReal;
    assert [s[0]] + s[1..] == s;
    ValueOfBoth([s[0]], s[1..]);
    assert [s[0]][..0] == "" && DigitsValue([s[0]]) == DigitValue(s[0]);
    OneTenth(s);
  }

  lemma OneTenth(s: Bytes)
    requires s != ""
    ensures FractionReal(s) == (DigitValue(s[0]) as real + FractionReal(s[1..])) / 10.0
  {
  }

  lemma {:induction false} FractionIsValue(s: Bytes)
    ensures FractionReal(s) * Pow10(|s|) as real == DigitsValue(s) as real
  {
    hide *;
    if s == "" {
      NoFraction(s);
    } else {
      FractionIsValue(s[1..]);
      FirstDigit(s);
      TenthStep(FractionReal(s), Pow10(|s|), DigitsValue(s), DigitValue(s[0]), FractionReal(s[1..]), Pow10(|s[1..]|), DigitsValue(s[1..]));
    }
  }

  lemma NoFraction(s: Bytes)
    requires s == ""
    ensures FractionReal(s) * Pow10(|s|) as real == DigitsValue(s) as real
  {
    assert FractionReal(s) == 0.0 && Pow10(|s|) == 1 && DigitsValue(s) == 0;
  }

  lemma TenthStep(f: real, q: int, w: int, d: int, x: real, p: int, v: int)
    requires f == (d as real + x) / 10.0 && q == 10 * p && w == d * p + v && x * p as real == v as real
    ensures f * q as real == w as real
  {
    assert q as real == 10.0 * p as real;
    Regroup(f, p as real);
    assert f * 10.0 == d as real + x;
    Products(d, p);
    Regrouped(d as real, x, p as real);
  }

  lemma Regroup(y: real, p: real)
    ensures y * (10.0 * p) == (y * 10.0) * p
  {
  }

  lemma Regrouped(d: real, x: real, p: real)
    ensures (d + x) * p == d * p + x * p
  {
  }

  lemma Products(d: int, p: int)
    ensures (d * p) as real == d as real * p as real
  {
  }

  /** An accepted text is a sign, digits, and perhaps a point and more digits, and denotes what these say. */
  lemma DecimalDenotes(t: Bytes) returns (negative: bool, whole: Bytes, fraction: Bytes)
    requires ParseDecimal(t).Some?
    ensures AllDigits(whole) && whole != "" && AllDigits(fraction)
    ensures t == (if negative then "-" else "") + whole + (if fraction == "" then "" else "." + fraction)
    ensures Real(ParseDecimal(t).value) ==
            if negative then -(WholeReal(whole) + FractionReal(fraction)) else WholeReal(whole) + FractionReal(fraction)
  {
    hide ParseDecimal, WholeReal, FractionReal, Real, Signed;
    negative, whole, fraction := PiecesOf(t);
    ParsedIsShort(t);
    LayoutParses(negative, whole, fraction);
    PiecesDenote(negative, whole, fraction);
    assert "." == ['.'] && "-" == ['-'];
  }

  lemma ParsedIsShort(t: Bytes)
    requires ParseDecimal(t).Some?
    ensures |t| <= MAXIMUM_DECIMAL_LENGTH
  {
  }

  lemma PiecesDenote(negative: bool, whole: Bytes, fraction: Bytes)
    requires AllDigits(whole + fraction)
    ensures Real(Signed(negative, whole + fraction, |fraction|)) ==
            if negative then -(WholeReal(whole) + FractionReal(fraction)) else WholeReal(whole) + FractionReal(fraction)
  {
    hide DigitsValue, WholeReal, FractionReal, Pow10;
    WholeIsValue(whole);
    FractionIsValue(fraction);
    ValueOfBoth(whole, fraction);
    Quotient(DigitsValue(whole), FractionReal(fraction), Pow10(|fraction|), DigitsValue(whole + fraction));
  }

  lemma Quotient(a: int, x: real, p: int, v: int)
    requires p >= 1 && v == a * p + (v - a * p) && x * p as real == (v - a * p) as real
    ensures v as real / p as real == a as real + x && (-v) as real / p as real == -(a as real + x)
  {
    Products(a, p);
    Regrouped(a as real, x, p as real);
    Divided(v as real, a as real + x, p as real);
    Divided((-v) as real, -(a as real + x), p as real);
  }

  lemma Divided(v: real, x: real, p: real)
    requires p >= 1.0 && x * p == v
    ensures v / p == x
  {
  }
}
