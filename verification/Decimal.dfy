/** Decimal text as the Rust standard library reads and writes it. */
module Decimal {
  import opened Base

  const PLUS: byte := 43
  const MINUS: byte := 45

  predicate IsDigit(b: byte) { 48 <= b <= 57 }

  predicate AllDigits(s: bytes) {
    forall i :: 0 <= i < |s| ==> IsDigit(s[i])
  }

  /** Canonical digits of a natural number, most significant first. */
  function Digits(n: nat): (s: bytes)
    ensures |s| >= 1 && AllDigits(s)
  {
    if n < 10 then [48 + n] else Digits(n / 10) + [48 + n % 10]
  }

  /** Value of a digit string, leading zeros allowed. */
  function DigitsValue(s: bytes): nat
    requires AllDigits(s)
  {
    if s == [] then 0 else DigitsValue(s[..|s| - 1]) * 10 + (s[|s| - 1] - 48)
  }

  /** `i64::unsigned_abs`. */
  function Magnitude(v: int): nat { if v < 0 then -v else v }

  /** Canonical text of a signed integer (`itoa`). */
  function Format(v: int): (s: bytes)
    ensures |s| >= 1
  {
    if v < 0 then [MINUS] + Digits(Magnitude(v)) else Digits(Magnitude(v))
  }

  function Body(s: bytes): bytes
    requires s != []
  {
    if s[0] == PLUS || s[0] == MINUS then s[1..] else s
  }

  /** `str::parse::<i64>`: an optional sign, then one or more digits, in range. */
  function ParseI64(s: bytes): Option<i64> {
    if s == [] || Body(s) == [] || !AllDigits(Body(s)) then None
    else
      var m: int := DigitsValue(Body(s));
      var v: int := if s[0] == MINUS then -m else m;
      if I64_MIN <= v <= I64_MAX then Some(v) else None
  }

  lemma {:induction false} DigitsRoundTrip(n: nat)
    ensures DigitsValue(Digits(n)) == n
  {
    if n >= 10 {
      DigitsRoundTrip(n / 10);
      assert Digits(n)[..|Digits(n)| - 1] == Digits(n / 10);
    }
  }

  /** No digit string for a value is shorter than the canonical one. */
  lemma {:induction false} DigitsShortest(s: bytes)
    requires s != [] && AllDigits(s)
    ensures |Digits(DigitsValue(s))| <= |s|
  {
    var front, d := s[..|s| - 1], s[|s| - 1] - 48;
    if front != [] {
      DigitsShortest(front);
      assert DigitsValue(s) / 10 == DigitsValue(front);
    }
  }

  /** Canonical text parses back to the value it was made from. */
  lemma FormatRoundTrip(v: i64)
    ensures ParseI64(Format(v)) == Some(v)
  {
    DigitsRoundTrip(Magnitude(v));
    assert v < 0 ==> Format(v)[1..] == Digits(Magnitude(v));
    assert IsDigit(Digits(Magnitude(v))[0]);
  }

  /** Re-formatting a parsed number never makes it longer. */
  lemma FormatShortest(s: bytes)
    requires ParseI64(s).Some?
    ensures |Format(ParseI64(s).value)| <= |s|
  {
    DigitsShortest(Body(s));
  }

  // ---------------------------------------------------------------- the numerals that are accepted

  function Zeros(k: nat): bytes { seq(k, _ => 48) }

  /** A minus for negative numbers, a plus or nothing for positive ones, any of the three for zero. */
  predicate SignOf(sign: bytes, v: int) {
    (v >= 0 && (sign == [] || sign == [PLUS])) || (v <= 0 && sign == [MINUS])
  }

  /** `s` is a sign for `v`, zeros, and the digits of `v`. */
  ghost predicate Numeral(s: bytes, v: int) {
    I64_MIN <= v <= I64_MAX && exists sign, k :: Written(s, sign, k, v)
  }

  predicate Written(s: bytes, sign: bytes, k: nat, v: int) {
    SignOf(sign, v) && s == sign + (Zeros(k) + Digits(Magnitude(v)))
  }

  lemma {:induction false} PaddedValue(k: nat, n: nat)
    ensures AllDigits(Zeros(k) + Digits(n)) && DigitsValue(Zeros(k) + Digits(n)) == n
    decreases n, k
  {
    var s := Zeros(k) + Digits(n);
    if n >= 10 {
      PaddedValue(k, n / 10);
      assert s[..|s| - 1] == Zeros(k) + Digits(n / 10);
    } else {
      ZerosValue(k);
      assert s[..|s| - 1] == Zeros(k);
    }
  }

  lemma {:induction false} ZerosValue(k: nat)
    ensures AllDigits(Zeros(k)) && DigitsValue(Zeros(k)) == 0
  {
    if k > 0 {
      ZerosValue(k - 1);
      assert Zeros(k)[..k - 1] == Zeros(k - 1);
    }
  }

  /** Every digit string is zeros and the canonical digits of its value. */
  lemma {:induction false} DigitsArePadded(s: bytes)
    requires s != [] && AllDigits(s)
    ensures var d := Digits(DigitsValue(s)); |d| <= |s| && s == Zeros(|s| - |d|) + d
  {
    var front, d := s[..|s| - 1], s[|s| - 1] - 48;
    assert s == front + [48 + d];
    var n := DigitsValue(s);
    if front != [] {
      DigitsArePadded(front);
      var m := DigitsValue(front);
      assert n / 10 == m && n % 10 == d;
      if m == 0 {
        assert front == Zeros(|front| - 1) + [48] && front == Zeros(|front|);
      } else {
        assert Digits(n) == Digits(m) + [48 + d];
      }
    }
  }

  lemma SignSplit(s: bytes) returns (sign: bytes)
    requires s != [] && Body(s) != [] && IsDigit(Body(s)[0])
    ensures s == sign + Body(s) && (sign == [] || sign == [PLUS] || sign == [MINUS])
    ensures s[0] == MINUS <==> sign == [MINUS]
  {
    sign := if s[0] == PLUS || s[0] == MINUS then [s[0]] else [];
  }

  lemma ParsedIsNumeral(s: bytes)
    requires ParseI64(s).Some?
    ensures Numeral(s, ParseI64(s).value)
  {
    var sign := SignSplit(s);
    DigitsArePadded(Body(s));
    var m, v := DigitsValue(Body(s)), ParseI64(s).value;
    assert Magnitude(v) == m && SignOf(sign, v);
    assert Written(s, sign, |Body(s)| - |Digits(m)|, v);
  }

  lemma NumeralIsParsed(s: bytes, sign: bytes, k: nat, v: i64)
    requires Written(s, sign, k, v)
    ensures ParseI64(s) == Some(v)
  {
    var b := Zeros(k) + Digits(Magnitude(v));
    PaddedValue(k, Magnitude(v));
    BodyOf(sign, b);
  }

  lemma BodyOf(sign: bytes, b: bytes)
    requires (sign == [] || sign == [PLUS] || sign == [MINUS]) && b != [] && IsDigit(b[0])
    ensures Body(sign + b) == b && ((sign + b)[0] == MINUS <==> sign == [MINUS])
  {
    assert sign == [] ==> sign + b == b;
  }

  /** A text is read as a number exactly when it is a numeral for it. */
  lemma ParsesNumerals(s: bytes, v: int)
    ensures ParseI64(s) == Some(v) <==> Numeral(s, v)
  {
    if ParseI64(s) == Some(v) {
      ParsedIsNumeral(s);
    }
    if Numeral(s, v) {
      var sign, k :| Written(s, sign, k, v);
      NumeralIsParsed(s, sign, k, v);
    }
  }

  /** The digit counters of the length calculator and of the parser. */
  method CountDigits(value: nat) returns (digits: nat)
    ensures digits == |Digits(value)|
  {
    digits := 1;
    var cursor := value;
    while cursor >= 10
      invariant digits + |Digits(cursor)| == 1 + |Digits(value)|
    {
      cursor := cursor / 10;
      digits := digits + 1;
    }
  }

  /** The signed counter works on the magnitude, so the smallest i64 is counted too. */
  method CountSigned(value: i64) returns (digits: nat)
    ensures digits == |Format(value)|
  {
    digits := CountDigits(Magnitude(value));
    if value < 0 {
      digits := digits + 1;
    }
  }
}
