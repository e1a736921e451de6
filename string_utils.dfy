/**
 * Decimal text of Kotlin `Int`s: `Int.toString()`, `String.toInt()` and the
 * fixed-length, explicitly signed form used in region file names.
 */
module StringUtils {
  import opened KotlinInt
  import opened Outcomes

  /** The length of `Int.MAX_VALUE.toString()`. */
  const INT_WITHOUT_SIGN_MAX_STRING_LENGTH: int := 10

  function Pow10(k: nat): (p: nat)
    ensures p >= 1
  {
    if k == 0 then 1 else 10 * Pow10(k - 1)
  }

  predicate IsDigit(c: char) {
    '0' <= c <= '9'
  }

  predicate AllDigits(s: string) {
    forall i :: 0 <= i < |s| ==> IsDigit(s[i])
  }

  function DigitChar(d: nat): (c: char)
    requires d < 10
    ensures IsDigit(c)
  {
    ('0' as int + d) as char
  }

  /** The decimal text of a non-negative number, without leading zeros. */
  function Digits(n: nat): (s: string)
  {
    if n < 10 then [DigitChar(n)] else Digits(n / 10) + [DigitChar(n % 10)]
  }

  /** The number a string of decimal digits denotes. */
  function DigitsValue(s: string): nat
    requires AllDigits(s)
  {
    if |s| == 0 then 0
    else DigitsValue(s[..|s| - 1]) * 10 + (s[|s| - 1] as int - '0' as int)
  }

  function Abs(n: int): nat {
    if n >= 0 then n else -n
  }

  /** Kotlin `Int.toString()`. */
  function IntToString(n: int): string {
    if n < 0 then "-" + Digits(-n) else Digits(n)
  }

  /** Kotlin `padStart(length, c)`: prefix with `c` up to `length` characters. */
  function PadStart(s: string, length: nat, c: char): (p: string)
    ensures |p| == if |s| >= length then |s| else length
    ensures |s| < length ==> p == seq(length - |s|, _ => c) + s
    ensures |s| >= length ==> p == s
  {
    if |s| >= length then s else seq(length - |s|, _ => c) + s
  }

  /** `Int.toFixedLengthString()`: a sign character followed by |n| padded to ten digits. */
  function ToFixedLengthString(n: Int32): string {
    var withoutSign := if n >= 0 then IntToString(n) else IntToString(n)[1..];
    var sign := if n >= 0 then "+" else "-";
    sign + PadStart(withoutSign, INT_WITHOUT_SIGN_MAX_STRING_LENGTH, '0')
  }

  /** The digits of a number below 2^31, padded with zeros to ten characters. */
  lemma PaddedDigits(m: nat)
    requires m <= 0x8000_0000
    ensures var p := PadStart(Digits(m), INT_WITHOUT_SIGN_MAX_STRING_LENGTH, '0');
      |p| == 10 && AllDigits(p) && DigitsValue(p) == m
  {
    DigitsShape(m);
    DigitsLength(m, 10);
    if |Digits(m)| < 10 {
      LeadingZeros(10 - |Digits(m)|, Digits(m));
    }
  }

  /**
   * Kotlin `String.toInt()`: an optional sign followed by at least one
   * decimal digit, whose value must fit an `Int`.
   */
  function ToInt(s: string): (r: Result<Int32>)
    ensures r.Err? ==> r.error == NumberFormat(s)
  {
    var signed := |s| > 0 && (s[0] == '+' || s[0] == '-');
    var body := if signed then s[1..] else s;
    if |body| == 0 || !AllDigits(body) then Err(NumberFormat(s))
    else
      var v: int := if signed && s[0] == '-' then 0 - DigitsValue(body) as int else DigitsValue(body);
      if InIntRange(v) then Ok(v) else Err(NumberFormat(s))
  }

  /** `intFixedLengthRegex`: a sign character followed by exactly ten decimal digits. */
  predicate IsFixedLengthInt(s: string) {
    |s| == INT_WITHOUT_SIGN_MAX_STRING_LENGTH + 1 && (s[0] == '+' || s[0] == '-') && AllDigits(s[1..])
  }

  // Properties of the decimal helpers.

  lemma {:induction false} DigitsShape(n: nat)
    ensures |Digits(n)| >= 1 && AllDigits(Digits(n))
    ensures DigitsValue(Digits(n)) == n
    decreases n
  {
    if n >= 10 {
      DigitsShape(n / 10);
      var s := Digits(n);
      assert s[..|s| - 1] == Digits(n / 10);
    }
  }

  lemma {:induction false} DigitsLength(n: nat, k: nat)
    requires k >= 1 && n < Pow10(k)
    ensures |Digits(n)| <= k
    decreases n
  {
    if n >= 10 {
      assert k >= 2;
      DigitsLength(n / 10, k - 1);
    }
  }

  /** Leading zeros do not change the value of a digit string. */
  lemma {:induction false} LeadingZeros(m: nat, s: string)
    requires AllDigits(s)
    ensures AllDigits(seq(m, _ => '0') + s)
    ensures DigitsValue(seq(m, _ => '0') + s) == DigitsValue(s)
    decreases |s|
  {
    var z: string := seq(m, _ => '0');
    var p := z + s;
    if |s| == 0 {
      assert p == z;
      ZerosValue(m);
    } else {
      var s' := s[..|s| - 1];
      LeadingZeros(m, s');
      assert p[..|p| - 1] == z + s';
      assert p[|p| - 1] == s[|s| - 1];
    }
  }

  lemma {:induction false} ZerosValue(m: nat)
    ensures AllDigits(seq(m, _ => '0'))
    ensures DigitsValue(seq(m, _ => '0')) == 0
  {
    if m > 0 {
      ZerosValue(m - 1);
      var z: string := seq(m, _ => '0');
      assert z[..m - 1] == seq(m - 1, _ => '0');
    }
  }

  /** The padded magnitude: ten digits whose value is |n|. */
  lemma Magnitude(n: Int32)
    ensures var t := ToFixedLengthString(n);
      |t| == 11 && AllDigits(t[1..]) && DigitsValue(t[1..]) == Abs(n)
  {
    var m := Abs(n);
    var t := ToFixedLengthString(n);
    var withoutSign := if n >= 0 then IntToString(n) else IntToString(n)[1..];
    assert withoutSign == Digits(m);
    PaddedDigits(m);
    assert t[1..] == PadStart(Digits(m), 10, '0');
  }

  /**
   * The fixed-length text has eleven characters (for `Int.MIN_VALUE` too),
   * starts with '+' exactly when n >= 0 and '-' otherwise, and carries |n| in
   * ten zero-padded decimal digits.
   */
  lemma FixedLengthShape(n: Int32)
    ensures |ToFixedLengthString(n)| == INT_WITHOUT_SIGN_MAX_STRING_LENGTH + 1
    ensures ToFixedLengthString(n)[0] == '+' <==> n >= 0
    ensures ToFixedLengthString(n)[0] == '-' <==> n < 0
    ensures AllDigits(ToFixedLengthString(n)[1..])
    ensures DigitsValue(ToFixedLengthString(n)[1..]) == Abs(n)
    ensures IsFixedLengthInt(ToFixedLengthString(n))
  {
    Magnitude(n);
  }

  /** Parsing the fixed-length text back with `toInt` recovers the number. */
  lemma ParseFixedLength(n: Int32)
    ensures ToInt(ToFixedLengthString(n)) == Ok(n)
  {
    FixedLengthShape(n);
  }

  lemma FixedLengthInjective(m: Int32, n: Int32)
    ensures ToFixedLengthString(m) == ToFixedLengthString(n) ==> m == n
  {
    ParseFixedLength(m);
    ParseFixedLength(n);
  }

  /** Digit strings of one length with one value are the same string. */
  lemma {:induction false} DigitsValueInjective(s: string, t: string)
    requires |s| == |t| && AllDigits(s) && AllDigits(t) && DigitsValue(s) == DigitsValue(t)
    ensures s == t
    decreases |s|
  {
    if |s| > 0 {
      var n := |s|;
      assert AllDigits(s[..n - 1]) && AllDigits(t[..n - 1]);
      assert s[n - 1] == t[n - 1];
      DigitsValueInjective(s[..n - 1], t[..n - 1]);
      assert s == s[..n - 1] + [s[n - 1]] && t == t[..n - 1] + [t[n - 1]];
    }
  }

  /**
   * A fixed-length text that `toInt` accepts is the one `toFixedLengthString`
   * writes for its value, unless it is the negative zero "-0000000000",
   * which the writer never produces.
   */
  lemma FixedLengthCanonical(g: string, x: Int32)
    requires IsFixedLengthInt(g) && ToInt(g) == Ok(x)
    ensures g == ToFixedLengthString(x) || g == "-0000000000"
  {
    var t := ToFixedLengthString(x);
    FixedLengthShape(x);
    var zeros: string := seq(10, _ => '0');
    ZerosValue(10);
    if DigitsValue(g[1..]) == 0 && g[0] == '-' {
      DigitsValueInjective(g[1..], zeros);
      assert g == [g[0]] + g[1..];
    } else {
      assert t[0] == g[0];
      DigitsValueInjective(g[1..], t[1..]);
      assert g == [g[0]] + g[1..] && t == [t[0]] + t[1..];
    }
  }

  lemma ZeroText()
    ensures ToFixedLengthString(0) == "+0000000000"
  {
    assert Digits(0) == "0";
    assert PadStart("0", 10, '0') == "0000000000";
  }
}
