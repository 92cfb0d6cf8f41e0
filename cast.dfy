/**
 * `cast.ToInt` on a string, which the engine uses to read the numeric id
 * from the request path. The library first drops a trailing decimal point
 * followed only by zeros (`trimZeroDecimal`: "12.0" becomes "12"), then
 * calls `strconv.ParseInt(t, 0, 0)`, whose bit size 0 means the width of
 * `int`, taken here to be 64 bits. It answers 0 whenever the parse fails: on
 * an empty string, on a character that is not a digit of the base, and on a
 * value outside the range of int64. With base 0 a leading `0` selects octal.
 */
module Cast {
  import opened Wrappers

  const MaxInt64: int := 0x7fff_ffff_ffff_ffff
  const MinInt64: int := -0x8000_0000_0000_0000

  predicate IsDigitOf(c: char, base: nat)
  {
    '0' <= c <= '9' && (c as int - '0' as int) < base
  }

  function DigitValue(c: char): nat
    requires '0' <= c <= '9'
  {
    c as int - '0' as int
  }

  /** The value of a string of digits, most significant first. */
  function Value(s: string, base: nat): nat
    requires forall i :: 0 <= i < |s| ==> IsDigitOf(s[i], base)
  {
    if s == [] then 0
    else
      assert IsDigitOf(s[|s| - 1], base);
      Value(s[..|s| - 1], base) * base + DigitValue(s[|s| - 1])
  }

  /** `strconv.ParseUint` for one base: None unless every character is a digit of the base. */
  function ParseUnsigned(s: string, base: nat): (r: Option<nat>)
    ensures r.Some? <==> s != [] && forall i :: 0 <= i < |s| ==> IsDigitOf(s[i], base)
  {
    if s != [] && forall i :: 0 <= i < |s| ==> IsDigitOf(s[i], base) then Some(Value(s, base))
    else None
  }

  /** The magnitude after the sign: octal after a leading `0`, decimal otherwise. */
  function ParseMagnitude(body: string): Option<nat>
  {
    if |body| > 1 && body[0] == '0' then ParseUnsigned(body[1..], 8)
    else ParseUnsigned(body, 10)
  }

  /**
   * The scan of `trimZeroDecimal` from position `i` towards the front, with
   * `foundZero` recording whether a `0` was passed: a `.` after zeros cuts
   * the string there, any other character than `.` or `0` leaves it whole.
   * So either nothing is cut, or the cut is at a `.` followed only by zeros
   * and points, with at least one zero.
   */
  function TrimFrom(s: string, i: nat, foundZero: bool): (t: string)
    requires i <= |s|
    requires foundZero ==> (exists m :: i <= m < |s| && s[m] == '0') && forall m :: i <= m < |s| ==> s[m] == '0' || s[m] == '.'
    requires !foundZero ==> forall m :: i <= m < |s| ==> s[m] == '.'
    ensures t == s || (|t| < |s| && t == s[..|t|] && s[|t|] == '.' && (exists m :: |t| < m < |s| && s[m] == '0')
                       && forall m :: |t| < m < |s| ==> s[m] == '0' || s[m] == '.')
    decreases i
  {
    if i == 0 then s
    else if s[i - 1] == '.' then (if foundZero then s[..i - 1] else TrimFrom(s, i - 1, foundZero))
    else if s[i - 1] == '0' then TrimFrom(s, i - 1, true)
    else s
  }

  /** `trimZeroDecimal`: "12.00" becomes "12", while "12.50" and "12." are left as they are. */
  function TrimZeroDecimal(s: string): string
  {
    TrimFrom(s, |s|, false)
  }

  /** `strconv.ParseInt(t, 0, 0)` on a 64-bit platform: the parsed int64, or 0 when parsing fails. */
  function ParseInt(t: string): (n: int)
    ensures MinInt64 <= n <= MaxInt64
    ensures t == "" ==> n == 0
  {
    var negative := |t| > 0 && t[0] == '-';
    var body := if |t| > 0 && (t[0] == '-' || t[0] == '+') then t[1..] else t;
    match ParseMagnitude(body)
    case None => 0
    case Some(v) =>
      if negative then (if v <= MaxInt64 + 1 then -(v as int) else 0)
      else (if v <= MaxInt64 then v else 0)
  }

  /** `cast.ToInt(s)`: the parsed int64 of the trimmed string, or 0. It never fails itself. */
  function ToInt(s: string): (n: int)
    ensures MinInt64 <= n <= MaxInt64
    ensures s == "" ==> n == 0
  {
    ParseInt(TrimZeroDecimal(s))
  }

  /** The canonical decimal spelling of `n`, without leading zeros. */
  function DecimalString(n: nat): (s: string)
    ensures |s| >= 1 && forall i :: 0 <= i < |s| ==> IsDigitOf(s[i], 10)
    ensures |s| > 1 ==> s[0] != '0'
  {
    if n < 10 then [('0' as int + n) as char]
    else DecimalString(n / 10) + [('0' as int + n % 10) as char]
  }

  lemma {:induction false} ValueOfDecimalString(n: nat)
    ensures Value(DecimalString(n), 10) == n
  {
    if n >= 10 {
      var s := DecimalString(n);
      assert s[..|s| - 1] == DecimalString(n / 10);
      ValueOfDecimalString(n / 10);
    }
  }

  /** Every non-negative int64 written in decimal parses back to itself. */
  lemma ToIntDecimal(n: nat)
    requires n <= MaxInt64
    ensures ToInt(DecimalString(n)) == n
  {
    NoPointNoTrim(DecimalString(n));
    ValueOfDecimalString(n);
  }

  /** A minus sign in front of the decimal spelling gives the negated value. */
  lemma ToIntNegative(n: nat)
    requires n <= MaxInt64 + 1
    ensures ToInt("-" + DecimalString(n)) == -(n as int)
  {
    NoPointNoTrim("-" + DecimalString(n));
    ValueOfDecimalString(n);
    assert ("-" + DecimalString(n))[1..] == DecimalString(n);
  }

  /** Without a decimal point there is nothing to trim. */
  lemma NoPointNoTrim(s: string)
    requires '.' !in s
    ensures TrimZeroDecimal(s) == s
  {
  }

  /** A character that is neither a digit nor a leading sign makes the parse fail. */
  lemma ParseIntNotNumeric(t: string, k: nat)
    requires k < |t| && !('0' <= t[k] <= '9')
    requires k == 0 ==> t[0] != '-' && t[0] != '+'
    ensures ParseInt(t) == 0
  {
    var body := if |t| > 0 && (t[0] == '-' || t[0] == '+') then t[1..] else t;
    if body == t {
      assert !IsDigitOf(body[k], 10) && !IsDigitOf(body[k], 8);
      if |body| > 1 && body[0] == '0' { assert k > 0 && body[1..][k - 1] == t[k]; }
    } else {
      assert k > 0 && body[k - 1] == t[k];
      if |body| > 1 && body[0] == '0' { assert k > 1 && body[1..][k - 2] == t[k]; }
    }
  }

  /**
   * A character that is not a digit, a leading sign or a decimal point makes
   * the result 0: the trim only removes points and zeros, so it stays.
   */
  lemma ToIntNotNumeric(s: string, k: nat)
    requires k < |s| && !('0' <= s[k] <= '9') && s[k] != '.'
    requires k == 0 ==> s[0] != '-' && s[0] != '+'
    ensures ToInt(s) == 0
  {
    var t := TrimZeroDecimal(s);
    assert k < |t| && t[k] == s[k];
    ParseIntNotNumeric(t, k);
  }

  /** The scan of `trimZeroDecimal` over the zeros of `s == d + "." + z` ends by cutting at the point. */
  lemma {:induction false} TrimZeros(s: string, d: string, z: string, i: nat)
    requires s == d + "." + z
    requires z != [] && forall m :: 0 <= m < |z| ==> z[m] == '0'
    requires |d| + 1 <= i <= |s|
    requires i < |s| ==> exists m :: i <= m < |s| && s[m] == '0'
    ensures forall m :: i <= m < |s| ==> s[m] == '0'
    ensures TrimFrom(s, i, i < |s|) == d
    decreases i
  {
    assert forall m :: |d| < m < |s| ==> s[m] == z[m - |d| - 1];
    if i == |d| + 1 {
      assert s[i - 1] == '.';
      assert s[..|d|] == d;
    } else {
      assert s[i - 1] == '0';
      TrimZeros(s, d, z, i - 1);
    }
  }

  /** A decimal id followed by a point and zeros, such as "12.00", reads as the number. */
  lemma ToIntZeroDecimal(n: nat, z: string)
    requires n <= MaxInt64
    requires z != [] && forall m :: 0 <= m < |z| ==> z[m] == '0'
    ensures ToInt(DecimalString(n) + "." + z) == n
  {
    var d := DecimalString(n);
    TrimZeros(d + "." + z, d, z, |d| + 1 + |z|);
    assert TrimZeroDecimal(d + "." + z) == d;
    ToIntDecimal(n);
    NoPointNoTrim(d);
  }

  /** Beyond int64 the parse fails and the result is 0. */
  lemma ToIntOutOfRange(n: nat)
    requires n > MaxInt64
    ensures ToInt(DecimalString(n)) == 0
  {
    NoPointNoTrim(DecimalString(n));
    ValueOfDecimalString(n);
  }

  /** With base 0 a leading zero means octal: "010" is 8 and "09" fails. */
  lemma ToIntLeadingZero()
    ensures ToInt("010") == 8
    ensures ToInt("09") == 0
  {
    NoPointNoTrim("010");
    NoPointNoTrim("09");
    assert "010"[1..] == "10";
    assert Value("10", 8) == 8 by { assert "10"[..1] == "1"; }
    assert "09"[1..] == "9";
    assert !IsDigitOf("9"[0], 8);
  }
}
