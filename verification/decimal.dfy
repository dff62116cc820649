/** The decimal text JavaScript produces when a number is interpolated into a
    template string (`Number.prototype.toString`), for the numbers the outline
    helper can produce: whole numbers and whole numbers plus one half. Such a
    number is handled as the integer count `t` of halves it holds. A reader of
    that text is the partner that shows the text determines the number. */
module Decimal {
  import opened Wrappers
  import opened TextScan

  predicate IsDigit(c: char) { '0' <= c <= '9' }

  predicate AllDigits(s: string) { forall i :: 0 <= i < |s| ==> IsDigit(s[i]) }

  /** The characters number text is made of. */
  predicate IsNumberChar(c: char) { IsDigit(c) || c == '-' || c == '.' }

  function DigitChar(d: nat): (c: char)
    requires d < 10
    ensures IsDigit(c) && DigitValue(c) == d
  {
    ('0' as int + d) as char
  }

  function DigitValue(c: char): (d: nat)
    requires IsDigit(c)
    ensures d < 10
  {
    c as int - '0' as int
  }

  /** Digits as JavaScript writes a whole number: at least one, and no
      leading zero unless the number is zero itself. */
  predicate CanonicalDigits(s: string)
  {
    |s| >= 1 && AllDigits(s) && (s[0] == '0' ==> |s| == 1)
  }

  /** Canonical decimal digits of `n`. */
  function NatText(n: nat): (s: string)
    ensures CanonicalDigits(s)
    ensures s[0] == '0' ==> n == 0
    decreases n
  {
    if n < 10 then [DigitChar(n)] else NatText(n / 10) + [DigitChar(n % 10)]
  }

  /** The value of a digit string, most significant digit first. */
  function NatValue(s: string): nat
    requires AllDigits(s)
  {
    if s == [] then 0 else NatValue(s[..|s| - 1]) * 10 + DigitValue(s[|s| - 1])
  }

  lemma {:induction false} NatTextRoundTrip(n: nat)
    ensures NatValue(NatText(n)) == n
  {
    if n >= 10 {
      var s := NatText(n);
      assert s[..|s| - 1] == NatText(n / 10);
      NatTextRoundTrip(n / 10);
    }
  }

  /** The text of the number `t / 2`: an optional minus sign, the integer
      part without leading zeros, and ".5" when `t` is odd. */
  function HalvesText(t: int): (s: string)
    ensures |s| >= 1
    ensures forall i :: 0 <= i < |s| ==> IsNumberChar(s[i])
    ensures s[0] == '-' <==> t < 0
  {
    var a := if t < 0 then -t else t;
    (if t < 0 then "-" else "") + NatText(a / 2) + (if a % 2 == 1 then ".5" else "")
  }

  /** A whole non-negative number is written as its plain digits. */
  lemma WholeText(n: nat)
    ensures HalvesText(2 * n) == NatText(n)
  {
    assert (2 * n) / 2 == n;
    var s := NatText(n);
    assert "" + s + "" == s;
  }

  /** Reads the text of a non-negative number of this kind, as a count of halves:
      canonical digits, optionally followed by ".5". */
  function ParseUnsignedHalves(s: string): Option<int>
  {
    var k := Span(s, '.');
    var whole := s[..k];
    if !CanonicalDigits(whole) then None
    else if k == |s| then Some(2 * NatValue(whole))
    else if s[k + 1..] == "5" then Some(2 * NatValue(whole) + 1)
    else None
  }

  /** Reads the text of a number of this kind, with an optional minus sign,
      as a count of halves. Zero is never written with a minus sign. */
  function ParseHalves(s: string): Option<int>
  {
    if |s| > 0 && s[0] == '-' then
      match ParseUnsignedHalves(s[1..])
      case Some(v) => if v == 0 then None else Some(-v)
      case None => None
    else ParseUnsignedHalves(s)
  }

  lemma DigitsHaveNoPoint(digits: string)
    requires AllDigits(digits)
    ensures '.' !in digits
  {
    forall i | 0 <= i < |digits| ensures digits[i] != '.' {
      assert IsDigit(digits[i]);
    }
  }

  /** Reading the digits of `n` followed by ".5" gives `2n + 1` halves. */
  lemma HalfRoundTrip(n: nat)
    ensures ParseUnsignedHalves(NatText(n) + ".5") == Some(2 * n + 1)
  {
    var digits := NatText(n);
    var s := digits + ".5";
    NatTextRoundTrip(n);
    DigitsHaveNoPoint(digits);
    assert s == digits + ['.'] + "5";
    SpanStopsAt(digits, '.', "5");
    assert s[..|digits|] == digits;
    assert s[|digits| + 1..] == "5";
  }

  /** Reading the digits of `n` alone gives `2n` halves. */
  lemma WholeRoundTrip(n: nat)
    ensures ParseUnsignedHalves(NatText(n)) == Some(2 * n)
  {
    var digits := NatText(n);
    NatTextRoundTrip(n);
    DigitsHaveNoPoint(digits);
    SpanRunsOut(digits, '.');
    assert digits[..|digits|] == digits;
  }

  /** Reading the unsigned part of the text of `a / 2` gives back `a`. */
  lemma UnsignedRoundTrip(a: nat)
    ensures ParseUnsignedHalves(NatText(a / 2) + (if a % 2 == 1 then ".5" else "")) == Some(a)
  {
    if a % 2 == 1 {
      HalfRoundTrip(a / 2);
    } else {
      assert NatText(a / 2) + "" == NatText(a / 2);
      WholeRoundTrip(a / 2);
    }
  }

  /** The text of `t / 2` reads back as `t` halves. */
  lemma HalvesTextRoundTrip(t: int)
    ensures ParseHalves(HalvesText(t)) == Some(t)
  {
    var a: nat := if t < 0 then -t else t;
    var unsigned := NatText(a / 2) + (if a % 2 == 1 then ".5" else "");
    UnsignedRoundTrip(a);
    if t < 0 {
      assert HalvesText(t) == "-" + unsigned;
      assert ("-" + unsigned)[1..] == unsigned;
    } else {
      assert HalvesText(t) == "" + unsigned;
      assert "" + unsigned == unsigned;
    }
  }

  /** Different numbers never share their text. */
  lemma HalvesTextInjective(t1: int, t2: int)
    requires HalvesText(t1) == HalvesText(t2)
    ensures t1 == t2
  {
    HalvesTextRoundTrip(t1);
    HalvesTextRoundTrip(t2);
  }

  lemma DigitCharValue(c: char)
    requires IsDigit(c)
    ensures DigitChar(DigitValue(c)) == c
  {
  }

  /** Canonical digits that do not start with a zero denote a positive number. */
  lemma {:induction false} LeadingDigitPositive(s: string)
    requires CanonicalDigits(s) && s[0] != '0'
    ensures NatValue(s) >= 1
  {
    if |s| > 1 {
      var prefix := s[..|s| - 1];
      assert prefix[0] == s[0];
      LeadingDigitPositive(prefix);
    }
  }

  /** Canonical digits are the text of the number they denote. */
  lemma {:induction false} NatTextOfValue(s: string)
    requires CanonicalDigits(s)
    ensures NatText(NatValue(s)) == s
  {
    var last := s[|s| - 1];
    DigitCharValue(last);
    if |s| == 1 {
      assert s[..0] == [];
      assert s == [last];
    } else {
      var prefix := s[..|s| - 1];
      assert prefix[0] == s[0];
      LeadingDigitPositive(prefix);
      NatTextOfValue(prefix);
      var v := NatValue(s);
      assert v / 10 == NatValue(prefix) && v % 10 == DigitValue(last);
      assert s == prefix + [last];
    }
  }

  /** Whatever the unsigned reader accepts is the text of the number it reads. */
  lemma UnsignedCanonical(s: string, a: int)
    requires ParseUnsignedHalves(s) == Some(a)
    ensures a >= 0 && s == NatText(a / 2) + (if a % 2 == 1 then ".5" else "")
  {
    var k := Span(s, '.');
    var whole := s[..k];
    NatTextOfValue(whole);
    if k == |s| {
      assert s == whole + "";
    } else {
      assert s[k + 1..] == "5";
      assert s == whole + ".5";
    }
  }

  /** The reader accepts only the text JavaScript writes: whatever it reads as
      `t` halves is exactly the text of `t / 2`. */
  lemma HalvesTextCanonical(s: string, t: int)
    requires ParseHalves(s) == Some(t)
    ensures s == HalvesText(t)
  {
    if |s| > 0 && s[0] == '-' {
      var a := -t;
      UnsignedCanonical(s[1..], a);
      assert s == "-" + s[1..];
    } else {
      UnsignedCanonical(s, t);
      assert s == "" + s;
    }
  }
}
