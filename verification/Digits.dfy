/** Decimal digit strings, fixed-width and free, and splitting text at a separator. */
module Digits {
  import opened Basics

  predicate IsDigit(c: char) {
    '0' <= c <= '9'
  }

  predicate AllDigits(s: Bytes) {
    forall i | 0 <= i < |s| :: IsDigit(s[i])
  }

  predicate NoLeadingZero(s: Bytes) {
    s != "" && (|s| > 1 ==> s[0] != '0')
  }

  function DigitOf(v: int): (c: char)
    requires 0 <= v < 10
    ensures IsDigit(c) && DigitValue(c) == v
  {
    "0123456789"[v]
  }

  /** The value of a digit; other characters count as zero. */
  function DigitValue(c: char): (v: int)
    ensures 0 <= v < 10
  {
    if IsDigit(c) then c as int - '0' as int else 0
  }

  /** The value of a digit string. */
  function DigitsValue(s: Bytes): (v: nat) {
    if s == "" then 0 else 10 * DigitsValue(s[..|s| - 1]) + DigitValue(s[|s| - 1])
  }

  function Pow10(k: nat): (p: nat)
    ensures p >= 1
  {
    if k == 0 then 1 else 10 * Pow10(k - 1)
  }

  /** The digits of `v`, without leading zeros. */
  function DigitsText(v: nat): (s: Bytes)
    ensures AllDigits(s) && s != ""
  {
    if v < 10 then [DigitOf(v)] else DigitsText(v / 10) + [DigitOf(v % 10)]
  }

  lemma {:induction false} ValueOfText(v: nat)
    ensures DigitsValue(DigitsText(v)) == v && NoLeadingZero(DigitsText(v))
    ensures v > 0 ==> DigitsText(v)[0] != '0'
  {
    if v < 10 {
      assert DigitsText(v)[..0] == "";
    } else {
      ValueOfText(v / 10);
      ValueOfSnoc(DigitsText(v / 10), DigitOf(v % 10));
    }
  }

  /** How many digits a number has. */
  lemma {:induction false} DigitsLength(v: nat, k: nat)
    requires k >= 1
    ensures |DigitsText(v)| <= k <==> v < Pow10(k)
  {
    if k == 1 {
      assert Pow10(1) == 10 * Pow10(0);
    } else if v >= 10 {
      DigitsLength(v / 10, k - 1);
    }
  }

  function Zeros(n: nat): (s: Bytes)
    ensures |s| == n && forall i | 0 <= i < n :: s[i] == '0'
  {
    if n == 0 then "" else ['0'] + Zeros(n - 1)
  }

  /** The digits of `v` with at least `width` places, zeros in front. */
  function Padded(v: nat, width: nat): (s: Bytes)
    ensures AllDigits(s) && |s| >= width
  {
    if |DigitsText(v)| >= width then DigitsText(v) else Zeros(width - |DigitsText(v)|) + DigitsText(v)
  }

  lemma {:induction false} ValueAfterZero(s: Bytes)
    ensures DigitsValue(['0'] + s) == DigitsValue(s)
  {
    if s == "" {
      assert (['0'] + s)[..0] == "";
    } else {
      var front := s[..|s| - 1];
      ValueAfterZero(front);
      assert ['0'] + s == (['0'] + front) + [s[|s| - 1]];
      ValueOfSnoc(['0'] + front, s[|s| - 1]);
    }
  }

  lemma {:induction false} ValueAfterZeros(n: nat, s: Bytes)
    ensures DigitsValue(Zeros(n) + s) == DigitsValue(s)
  {
    if n == 0 {
      assert Zeros(0) + s == s;
    } else {
      assert Zeros(n) + s == ['0'] + (Zeros(n - 1) + s);
      ValueAfterZero(Zeros(n - 1) + s);
      ValueAfterZeros(n - 1, s);
    }
  }

  lemma ValueOfPadded(v: nat, width: nat)
    ensures DigitsValue(Padded(v, width)) == v
  {
    ValueOfText(v);
    if |DigitsText(v)| < width {
      ValueAfterZeros(width - |DigitsText(v)|, DigitsText(v));
    }
  }

  lemma PaddedStarts(v: nat, width: nat)
    requires width >= 1
    ensures NoLeadingZero(Padded(v, width)[..|Padded(v, width)| - width + 1])
  {
    ValueOfText(v);
  }

  lemma ValueOfSnoc(front: Bytes, c: char)
    ensures DigitsValue(front + [c]) == 10 * DigitsValue(front) + DigitValue(c)
  {
    assert (front + [c])[..|front|] == front;
  }

  lemma TextOfSnoc(v: nat, d: nat)
    requires d < 10 && v > 0
    ensures DigitsText(10 * v + d) == DigitsText(v) + [DigitOf(d)]
  {
    assert (10 * v + d) / 10 == v && (10 * v + d) % 10 == d;
  }

  lemma {:induction false} TextOfValue(s: Bytes)
    requires AllDigits(s) && NoLeadingZero(s)
    ensures DigitsText(DigitsValue(s)) == s
    ensures s[0] != '0' ==> DigitsValue(s) > 0
  {
    var front, c := s[..|s| - 1], s[|s| - 1];
    assert s == front + [c] && DigitOf(DigitValue(c)) == c;
    var v, d := DigitsValue(front), DigitValue(c);
    assert DigitsValue(s) == 10 * v + d;
    if front == "" {
      assert v == 0;
      assert DigitsText(d) == [c];
    } else {
      TextOfValue(front);
      TextOfSnoc(v, d);
    }
  }

  lemma PaddedAfterZero(v: nat, width: nat)
    requires |DigitsText(v)| <= width
    ensures Padded(v, width + 1) == ['0'] + Padded(v, width)
  {
    var n := width - |DigitsText(v)|;
    assert Zeros(n + 1) == ['0'] + Zeros(n);
    assert n == 0 ==> Zeros(1) == ['0'];
    assert n > 0 ==> ['0'] + (Zeros(n) + DigitsText(v)) == ['0'] + Zeros(n) + DigitsText(v);
  }

  lemma {:induction false} PaddedOfValue(s: Bytes, width: nat)
    requires AllDigits(s) && 1 <= width <= |s| && NoLeadingZero(s[..|s| - width + 1])
    ensures Padded(DigitsValue(s), width) == s
  {
    if |s| == 1 || s[0] != '0' {
      TextOfValue(s);
    } else {
      assert |s| == width by { assert s[..|s| - width + 1][0] == '0'; }
      PaddedOfValue(s[1..], width - 1);
      ValueAfterZero(s[1..]);
      assert s == ['0'] + s[1..];
      PaddedAfterZero(DigitsValue(s), width - 1);
    }
  }

  lemma {:induction false} ZerosIffZero(s: Bytes)
    requires AllDigits(s)
    ensures DigitsValue(s) == 0 <==> forall i | 0 <= i < |s| :: s[i] == '0'
  {
    if s != "" {
      ZerosIffZero(s[..|s| - 1]);
    }
  }

  // ----- splitting at a separator

  /** The parts of `s` between occurrences of `c`; there is always at least one. */
  function Split(s: Bytes, c: char): (parts: seq<Bytes>)
    ensures parts != []
    ensures forall i | 0 <= i < |parts| :: c !in parts[i]
  {
    if s == "" then [""]
    else
      var parts := Split(s[1..], c);
      if s[0] == c then [""] + parts
      else [[s[0]] + parts[0]] + parts[1..]
  }

  function Join(parts: seq<Bytes>, c: char): Bytes
    requires parts != []
  {
    if |parts| == 1 then parts[0] else parts[0] + [c] + Join(parts[1..], c)
  }

  lemma {:induction false} JoinOfSplit(s: Bytes, c: char)
    ensures Join(Split(s, c), c) == s
  {
    if s == "" {
    } else {
      JoinOfSplit(s[1..], c);
      var parts, tail := Split(s, c), Split(s[1..], c);
      if s[0] == c {
        assert parts[1..] == tail;
      } else if |tail| > 1 {
        assert parts[1..] == tail[1..];
        assert parts[0] == [s[0]] + tail[0];
        assert [s[0]] + (tail[0] + [c] + Join(tail[1..], c)) == parts[0] + [c] + Join(tail[1..], c);
      }
      assert s == [s[0]] + s[1..];
    }
  }

  lemma {:induction false} SplitOfJoin(parts: seq<Bytes>, c: char)
    requires parts != [] && forall i | 0 <= i < |parts| :: c !in parts[i]
    ensures Split(Join(parts, c), c) == parts
  {
    if |parts| == 1 {
      SplitOfPlain(parts[0], c);
    } else {
      SplitOfJoin(parts[1..], c);
      assert parts[0] + [c] + Join(parts[1..], c) == parts[0] + ([c] + Join(parts[1..], c));
      SplitAfterPart(parts[0], c, Join(parts[1..], c));
      assert [parts[0]] + parts[1..] == parts;
    }
  }

  lemma {:induction false} SplitOfPlain(part: Bytes, c: char)
    requires c !in part
    ensures Split(part, c) == [part]
  {
    if part != "" {
      SplitOfPlain(part[1..], c);
      assert part == [part[0]] + part[1..];
    }
  }

  lemma {:induction false} SplitAfterPart(part: Bytes, c: char, rest: Bytes)
    requires c !in part
    ensures Split(part + ([c] + rest), c) == [part] + Split(rest, c)
  {
    var s := part + ([c] + rest);
    if part == "" {
      assert s[1..] == rest;
    } else {
      SplitAfterPart(part[1..], c, rest);
      assert s[1..] == part[1..] + ([c] + rest);
      assert [part[0]] + part[1..] == part;
    }
  }
}
