/**
 * The number parsing and printing of the standard library that the
 * converters rely on: `str::parse::<i32>`, `i32::to_string`,
 * `str::parse::<f64>` and `Duration::from_secs`.
 */
module Numbers {
  import opened Wrappers

  const I32_MIN: int := -0x8000_0000
  const I32_MAX: int := 0x7FFF_FFFF

  type i32 = x: int | -0x8000_0000 <= x <= 0x7FFF_FFFF
  type u64 = x: int | 0 <= x < 0x1_0000_0000_0000_0000

  /** `std::num::IntErrorKind` as far as `parse::<i32>` can produce it. */
  datatype IntErrorKind = Empty | InvalidDigit | PosOverflow | NegOverflow
  datatype ParseIntError = ParseIntError(kind: IntErrorKind)

  predicate IsAsciiDigit(c: char) {
    '0' <= c <= '9'
  }

  predicate AllAsciiDigits(s: string) {
    forall k | 0 <= k < |s| :: IsAsciiDigit(s[k])
  }

  function DigitValue(c: char): nat
    requires IsAsciiDigit(c)
  {
    c as int - '0' as int
  }

  function DigitChar(d: nat): (c: char)
    requires d < 10
    ensures IsAsciiDigit(c) && DigitValue(c) == d
  {
    ('0' as int + d) as char
  }

  /** The number a run of ASCII digits denotes, most significant first. */
  function Value(ds: string): nat
    requires AllAsciiDigits(ds)
  {
    if ds == [] then 0 else Value(ds[..|ds| - 1]) * 10 + DigitValue(ds[|ds| - 1])
  }

  // ---------------------------------------------------------------------------
  // Integer literals: the language `parse::<i32>` accepts, stated on its own.

  /** The digits of a literal, after an optional leading `+` or `-`. */
  function Unsigned(s: string): string {
    if |s| > 0 && (s[0] == '+' || s[0] == '-') then s[1..] else s
  }

  predicate IsIntLiteral(s: string) {
    |Unsigned(s)| > 0 && AllAsciiDigits(Unsigned(s))
  }

  function LiteralValue(s: string): int
    requires IsIntLiteral(s)
  {
    if s[0] == '-' then -(Value(Unsigned(s)) as int) else Value(Unsigned(s))
  }

  // ---------------------------------------------------------------------------
  // `<i32 as FromStr>::from_str`, digit by digit as the standard library runs it.

  function ParseI32(s: string): Result<i32, ParseIntError> {
    if s == [] then Err(ParseIntError(IntErrorKind.Empty))
    else if (s[0] == '+' || s[0] == '-') && |s| == 1 then Err(ParseIntError(InvalidDigit))
    else Accumulate(Unsigned(s), 0, 0, s[0] == '-')
  }

  /**
   * One step per character: reject a non-digit, then multiply by ten and add
   * (or, for a negative literal, subtract) the digit, reporting overflow as
   * soon as the partial value leaves the range of `i32`.
   */
  function Accumulate(ds: string, i: nat, acc: i32, negative: bool): Result<i32, ParseIntError>
    requires i <= |ds|
    requires if negative then acc <= 0 else acc >= 0
    decreases |ds| - i
  {
    if i == |ds| then Ok(acc)
    else if !IsAsciiDigit(ds[i]) then Err(ParseIntError(InvalidDigit))
    else if negative then
      var next := acc * 10 - DigitValue(ds[i]);
      if next < I32_MIN then Err(ParseIntError(NegOverflow)) else Accumulate(ds, i + 1, next, negative)
    else
      var next := acc * 10 + DigitValue(ds[i]);
      if next > I32_MAX then Err(ParseIntError(PosOverflow)) else Accumulate(ds, i + 1, next, negative)
  }

  /** A longer run of digits never denotes a smaller number. */
  lemma {:induction false} ValueMonotone(ds: string, i: nat)
    requires i <= |ds| && AllAsciiDigits(ds)
    ensures AllAsciiDigits(ds[..i]) && Value(ds[..i]) <= Value(ds)
    decreases |ds| - i
  {
    if i < |ds| {
      var n := |ds| - 1;
      assert ds[..n][..i] == ds[..i];
      assert AllAsciiDigits(ds[..n]);
      assert Value(ds) == Value(ds[..n]) * 10 + DigitValue(ds[n]);
      if i < n {
        ValueMonotone(ds[..n], i);
      } else {
        assert ds[..i] == ds[..n];
      }
      assert Value(ds[..i]) <= Value(ds[..n]) <= Value(ds);
    } else {
      assert ds[..i] == ds;
    }
  }

  function Bound(negative: bool): nat {
    if negative then -I32_MIN else I32_MAX
  }

  function Signed(v: nat, negative: bool): int {
    if negative then -(v as int) else v
  }

  /** The digit loop succeeds exactly on all-digit input whose value fits, and returns that value. */
  lemma {:induction false} AccumulateCorrect(ds: string, i: nat, acc: i32, negative: bool)
    requires i <= |ds| && AllAsciiDigits(ds[..i])
    requires acc == Signed(Value(ds[..i]), negative)
    ensures Accumulate(ds, i, acc, negative).Ok? <==> AllAsciiDigits(ds) && Value(ds) <= Bound(negative)
    ensures Accumulate(ds, i, acc, negative).Ok? ==> Accumulate(ds, i, acc, negative).value == Signed(Value(ds), negative)
    decreases |ds| - i
  {
    if i == |ds| {
      assert ds[..i] == ds;
    } else if IsAsciiDigit(ds[i]) {
      var p := ds[..i + 1];
      assert p[..i] == ds[..i];
      assert AllAsciiDigits(p);
      assert Value(p) == Value(ds[..i]) * 10 + DigitValue(ds[i]);
      if Value(p) <= Bound(negative) {
        AccumulateCorrect(ds, i + 1, Signed(Value(p), negative), negative);
      } else if AllAsciiDigits(ds) {
        ValueMonotone(ds, i + 1);
      }
    }
  }

  /** `parse::<i32>` accepts exactly the integer literals whose value fits in an `i32`, and yields that value. */
  lemma ParseI32Correct(s: string)
    ensures ParseI32(s).Ok? <==> IsIntLiteral(s) && I32_MIN <= LiteralValue(s) <= I32_MAX
    ensures ParseI32(s).Ok? ==> ParseI32(s).value == LiteralValue(s)
  {
    if s != [] && !((s[0] == '+' || s[0] == '-') && |s| == 1) {
      assert Unsigned(s)[..0] == [];
      AccumulateCorrect(Unsigned(s), 0, 0, s[0] == '-');
    }
  }

  /** Only the empty string is reported as `Empty`. */
  lemma ParseI32Empty(s: string)
    ensures ParseI32(s) == Err(ParseIntError(IntErrorKind.Empty)) <==> s == []
  {
    if s != [] && !((s[0] == '+' || s[0] == '-') && |s| == 1) {
      AccumulateNeverEmpty(Unsigned(s), 0, 0, s[0] == '-');
    }
  }

  lemma {:induction false} AccumulateNeverEmpty(ds: string, i: nat, acc: i32, negative: bool)
    requires i <= |ds|
    requires if negative then acc <= 0 else acc >= 0
    ensures Accumulate(ds, i, acc, negative) != Err(ParseIntError(IntErrorKind.Empty))
    decreases |ds| - i
  {
    if i < |ds| && IsAsciiDigit(ds[i]) {
      var next := if negative then acc * 10 - DigitValue(ds[i]) else acc * 10 + DigitValue(ds[i]);
      if I32_MIN <= next <= I32_MAX {
        AccumulateNeverEmpty(ds, i + 1, next, negative);
      }
    }
  }

  // ---------------------------------------------------------------------------
  // `i32::to_string`: decimal, no leading zeros, `-` for negatives.

  function Digits(m: nat): (r: string)
    ensures |r| > 0 && AllAsciiDigits(r) && Value(r) == m
    ensures |r| == 1 || r[0] != '0'
    ensures m == 0 <==> r == "0"
  {
    if m < 10 then
      var r := [DigitChar(m)];
      assert r[..0] == [];
      r
    else
      var d := Digits(m / 10);
      var r := d + [DigitChar(m % 10)];
      assert r[..|r| - 1] == d;
      assert r[0] == d[0];
      if |d| == 1 then
        assert d[..0] == [];
        assert Value(d) == DigitValue(d[0]);
        r
      else r
  }

  function DecimalText(n: int): string {
    if n < 0 then "-" + Digits(-n) else Digits(n)
  }

  /** Parsing the decimal text of an `i32` gives the number back. */
  lemma ParseDecimalText(n: i32)
    ensures ParseI32(DecimalText(n)) == Ok(n)
  {
    var s := DecimalText(n);
    var m: int := n;
    if m < 0 {
      assert Unsigned(s) == Digits(-m);
    } else {
      assert Unsigned(s) == Digits(n);
    }
    ParseI32Correct(s);
  }

  // ---------------------------------------------------------------------------
  // `<f64 as FromStr>::from_str`. The accepted language is modelled exactly:
  //   Float  ::= Sign? ( 'inf' | 'infinity' | 'nan' | Number )
  //   Number ::= ( Digit+ | Digit+ '.' Digit* | Digit* '.' Digit+ ) Exp?
  //   Exp    ::= 'e' Sign? Digit+
  // with letters matched without regard to ASCII case. The number itself is
  // represented by the accepted literal: rounding to binary64 is not modelled.

  datatype FloatErrorKind = Empty | Invalid
  datatype ParseFloatError = ParseFloatError(kind: FloatErrorKind)

  /** The accepted literal text, standing for its binary64 value. */
  datatype F64 = F64(literal: string)

  function AsciiLower(c: char): char {
    if 'A' <= c <= 'Z' then (c as int + 32) as char else c
  }

  function LowerAscii(s: string): (r: string)
    ensures |r| == |s|
  {
    seq(|s|, i requires 0 <= i < |s| => AsciiLower(s[i]))
  }

  /** The first position of `c` in `s`. */
  function IndexOf(s: string, c: char): (r: Option<nat>)
    ensures r.Some? ==> r.value < |s| && s[r.value] == c && c !in s[..r.value]
    ensures r.None? ==> c !in s
  {
    if s == [] then None
    else if s[0] == c then Some(0)
    else match IndexOf(s[1..], c)
      case None => None
      case Some(k) => assert s[..k + 1] == [s[0]] + s[1..][..k]; Some(k + 1)
  }

  /** Digits and dots are left alone by lower-casing, and hold no exponent marker. */
  lemma UnchangedByLowering(s: string)
    requires forall k | 0 <= k < |s| :: IsAsciiDigit(s[k]) || s[k] == '.'
    ensures LowerAscii(s) == s && IndexOf(s, 'e') == None
  {
    assert 'e' !in s by {
      forall k | 0 <= k < |s| ensures s[k] != 'e' {
        assert IsAsciiDigit(s[k]) || s[k] == '.';
      }
    }
  }

  predicate IsMantissa(m: string) {
    match IndexOf(m, '.')
    case None => |m| > 0 && AllAsciiDigits(m)
    case Some(k) => |m| > 1 && AllAsciiDigits(m[..k]) && AllAsciiDigits(m[k + 1..])
  }

  predicate IsExponent(x: string) {
    |Unsigned(x)| > 0 && AllAsciiDigits(Unsigned(x))
  }

  /** `Number` over a lower-cased body. */
  predicate IsNumber(b: string) {
    match IndexOf(b, 'e')
    case None => IsMantissa(b)
    case Some(k) => IsMantissa(b[..k]) && IsExponent(b[k + 1..])
  }

  predicate IsFloatLiteral(s: string) {
    var body := LowerAscii(Unsigned(s));
    body == "inf" || body == "infinity" || body == "nan" || IsNumber(body)
  }

  function ParseF64(s: string): Result<F64, ParseFloatError> {
    if s == [] then Err(ParseFloatError(FloatErrorKind.Empty))
    else if IsFloatLiteral(s) then Ok(F64(s))
    else Err(ParseFloatError(Invalid))
  }

  /** Decimals that `f64::from_str` documents as accepted: digits may be missing on either side of the dot. */
  lemma ParseF64AcceptsDecimals()
    ensures ParseF64("5.") == Ok(F64("5."))
    ensures ParseF64(".5") == Ok(F64(".5"))
  {
    assert LowerAscii("5.") == "5.";
    assert IndexOf("5.", '.') == Some(1);
    assert LowerAscii(".5") == ".5";
    assert IndexOf(".5", '.') == Some(0);
  }

  /** The lower-cased body of the upper-case exponent example. */
  lemma ExponentExampleBody()
    ensures LowerAscii(Unsigned("2.5E-10")) == "2.5e-10"
  {
    assert Unsigned("2.5E-10") == "2.5E-10";
  }

  lemma ExponentExampleNumber()
    ensures IsNumber("2.5e-10")
  {
    var body := "2.5e-10";
    assert IndexOf(body, 'e') == Some(3);
    assert IsMantissa("2.5") by {
      assert IndexOf("2.5", '.') == Some(1);
    }
    assert IsExponent("-10") by {
      assert Unsigned("-10") == "10";
    }
    assert body[..3] == "2.5" && body[4..] == "-10";
  }

  /** An exponent in upper case with a sign, as `f64::from_str` documents. */
  lemma ParseF64AcceptsExponent()
    ensures ParseF64("2.5E-10") == Ok(F64("2.5E-10"))
  {
    ExponentExampleBody();
    ExponentExampleNumber();
  }

  /** The special values, in any ASCII case and with a sign. */
  lemma ParseF64AcceptsSpecial()
    ensures ParseF64("inf") == Ok(F64("inf"))
    ensures ParseF64("-NaN") == Ok(F64("-NaN"))
  {
    assert LowerAscii("inf") == "inf";
    assert Unsigned("-NaN") == "NaN";
    assert LowerAscii("NaN") == "nan";
  }

  /** A lone dot, a missing mantissa and a missing exponent digit are rejected. */
  lemma ParseF64RejectsIncomplete()
    ensures ParseF64(".") == Err(ParseFloatError(Invalid))
    ensures ParseF64("e5") == Err(ParseFloatError(Invalid))
    ensures ParseF64("1e") == Err(ParseFloatError(Invalid))
  {
    assert LowerAscii(".") == ".";
    assert IndexOf(".", 'e') == None;
    assert LowerAscii("e5") == "e5";
    assert IndexOf("e5", 'e') == Some(0);
    assert LowerAscii("1e") == "1e";
    assert IndexOf("1e", 'e') == Some(1);
    assert "1e"[2..] == [];
  }

  /** Surrounding whitespace and a lone sign are `Invalid`; only nothing at all is `Empty`. */
  lemma ParseF64RejectsOther()
    ensures ParseF64(" 1") == Err(ParseFloatError(Invalid))
    ensures ParseF64("+") == Err(ParseFloatError(Invalid))
    ensures ParseF64("") == Err(ParseFloatError(FloatErrorKind.Empty))
  {
    assert LowerAscii(" 1") == " 1";
    assert IndexOf(" 1", 'e') == None;
    assert IndexOf(" 1", '.') == None;
    assert !IsAsciiDigit(' ');
    assert Unsigned("+") == [];
    assert LowerAscii([]) == [];
  }

  // ---------------------------------------------------------------------------
  // `std::time::Duration`.

  type Nanos = n: int | 0 <= n < 1_000_000_000

  datatype Duration = Duration(secs: u64, nanos: Nanos)

  function FromSecs(secs: u64): Duration {
    Duration(secs, 0)
  }

  /** `Duration::as_nanos`. */
  function AsNanos(d: Duration): nat {
    d.secs * 1_000_000_000 + d.nanos
  }

  /** A duration built from a whole number of seconds is exactly that many seconds. */
  lemma FromSecsExact(secs: u64)
    ensures AsNanos(FromSecs(secs)) == secs * 1_000_000_000
    ensures AsNanos(FromSecs(secs)) % 1_000_000_000 == 0
  {
  }
}
