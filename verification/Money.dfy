/** Dollar amounts as text, and their exact value in millionths of a dollar. */
module Money {
  import opened Text
  import opened Decimal

  /**
   * What parsing an amount comes to. Overflow is the i64 arithmetic leaving its
   * range: a panic in a checked build, a wrapped value in an unchecked one.
   */
  datatype Amount = NotMoney | Overflow | Micro(v: int)

  const MILLION: nat := 1_000_000

  function Pow10(n: nat): nat {
    if n == 0 then 1 else 10 * Pow10(n - 1)
  }

  function SplitOnce(s: string, c: char): (string, string) {
    var i := FirstIndex(s, c);
    if i == |s| then (s, "") else (s[..i], s[i + 1..])
  }

  function Zeros(n: nat): string {
    if n == 0 then "" else Zeros(n - 1) + "0"
  }

  /** Exactly six fraction digits: the first six, or all of them and zeros. */
  function SixDigits(frac: string): string {
    if |frac| >= 6 then frac[..6] else frac + Zeros(6 - |frac|)
  }

  /** `s` after `-`, if any, and `$`: an integer part and the fraction digits. */
  function ParseParts(minus: bool, intPart: string, fracPart: string): Amount {
    if intPart == "" || !AllDigits(intPart) || !AllDigits(fracPart) then NotMoney
    else if Value(intPart) > I64_MAX then NotMoney
    else
      ZerosAreDigits(6);
      SixAreDigits(fracPart);
      var micro := Value(intPart) * MILLION + Value(SixDigits(fracPart));
      if micro > I64_MAX then Overflow else Micro(if minus then -(micro as int) else micro)
  }

  /** What follows the dollar sign. */
  function ParseDollars(minus: bool, body: string): Amount {
    var (intPart, fracPart) := SplitOnce(body, '.');
    ParseParts(minus, intPart, fracPart)
  }

  function ParseSigned(minus: bool, u: string): Amount {
    if u == "" || u[0] != '$' then NotMoney else ParseDollars(minus, u[1..])
  }

  function ParseTrimmed(t: string): Amount {
    if t != "" && t[0] == '-' then ParseSigned(true, t[1..]) else ParseSigned(false, t)
  }

  function ParseUsd(s: string): Amount {
    ParseTrimmed(Trim(s))
  }

  lemma {:induction false} ZerosAreDigits(n: nat)
    ensures AllDigits(Zeros(n)) && |Zeros(n)| == n && Value(Zeros(n)) == 0
  {
    if n > 0 {
      ZerosAreDigits(n - 1);
      ValueAppend(Zeros(n - 1), '0');
    }
  }

  lemma SixAreDigits(frac: string)
    requires AllDigits(frac)
    ensures AllDigits(SixDigits(frac)) && |SixDigits(frac)| == 6
  {
    if |frac| < 6 {
      ZerosAreDigits(6 - |frac|);
      DigitsConcat(frac, Zeros(6 - |frac|));
    } else {
      assert forall i :: 0 <= i < 6 ==> frac[..6][i] == frac[i];
    }
  }

  lemma DigitsConcat(a: string, b: string)
    requires AllDigits(a) && AllDigits(b)
    ensures AllDigits(a + b)
  {
  }

  /** The first six digits of a fraction, padded with zeros at its end. */
  method PadFraction(fracPart: string) returns (frac: string)
    ensures frac == SixDigits(fracPart)
  {
    frac := if |fracPart| > 6 then fracPart[..6] else fracPart;
    while |frac| < 6
      invariant |frac| <= 6
      invariant |fracPart| >= 6 ==> frac == fracPart[..6]
      invariant |fracPart| < 6 ==> |fracPart| <= |frac| && frac == fracPart + Zeros(|frac| - |fracPart|)
    {
      frac := frac + "0";
    }
  }

  method ParseUsdToMicrousd(s: string) returns (r: Amount)
    ensures r == ParseUsd(s)
  {
    var t := Trim(s);
    var sign, u := 1, t;
    if t != "" && t[0] == '-' {
      sign, u := -1, t[1..];
    }
    if u == "" || u[0] != '$' {
      return NotMoney;
    }
    var (intPart, fracPart) := SplitOnce(u[1..], '.');
    if intPart == "" || !AllDigits(intPart) || !AllDigits(fracPart) {
      return NotMoney;
    }
    var intVal := Value(intPart);
    if intVal > I64_MAX {
      return NotMoney;
    }
    var frac := PadFraction(fracPart);
    SixAreDigits(fracPart);
    var micro := intVal * 1_000_000;
    if micro > I64_MAX {
      return Overflow;
    }
    micro := micro + Value(frac);
    if micro > I64_MAX {
      return Overflow;
    }
    return Micro(sign * micro);
  }

  // ---- exactness ---------------------------------------------------------------

  /** `m` is `i` plus `f / 10^n`, in millionths, the rest cut off. */
  ghost predicate Truncates(m: nat, i: nat, f: nat, n: nat) {
    m * Pow10(n) <= (i * Pow10(n) + f) * MILLION < (m + 1) * Pow10(n)
  }

  /** `m` is the decimal number I.F in millionths, the rest cut off. */
  ghost predicate IsTruncation(m: nat, intPart: string, fracPart: string)
    requires AllDigits(intPart) && AllDigits(fracPart)
  {
    Truncates(m, Value(intPart), Value(fracPart), |fracPart|)
  }

  lemma {:induction false} ValueConcat(a: string, b: string)
    requires AllDigits(a) && AllDigits(b)
    ensures AllDigits(a + b) && Value(a + b) == Value(a) * Pow10(|b|) + Value(b)
    decreases |b|
  {
    if b == "" {
      assert a + b == a;
    } else {
      var k := |b| - 1;
      ValueConcat(a, b[..k]);
      assert a + b == a + b[..k] + [b[k]] && b == b[..k] + [b[k]];
      ValueAppend(a + b[..k], b[k]);
      ShiftDigit(Value(a), Pow10(k), Value(b[..k]), b[k] as int - '0' as int);
    }
  }

  lemma ShiftDigit(a: nat, p: nat, b: nat, d: nat)
    ensures (a * p + b) * 10 + d == a * (10 * p) + (b * 10 + d)
  {
  }

  lemma {:induction false} ValueBound(s: string)
    requires AllDigits(s)
    ensures Value(s) < Pow10(|s|)
    decreases |s|
  {
    if s != "" {
      ValueBound(s[..|s| - 1]);
    }
  }

  lemma {:induction false} Pow10Add(a: nat, b: nat)
    ensures Pow10(a + b) == Pow10(a) * Pow10(b)
    decreases a
  {
    if a > 0 {
      Pow10Add(a - 1, b);
      assert Pow10(a + b) == 10 * Pow10(a - 1 + b);
    }
  }

  lemma Pow10Six()
    ensures Pow10(6) == MILLION
  {
    assert Pow10(2) == 100;
    assert Pow10(4) == 10_000;
  }

  /** Short fractions lose nothing. */
  lemma ShortFraction(i: nat, f: nat, n: nat, six: nat)
    requires n <= 6 && six == f * Pow10(6 - n)
    ensures Truncates(i * MILLION + six, i, f, n)
  {
    Pow10Six();
    Pow10Add(6 - n, n);
    Positive(n);
    Scaled(i, f, Pow10(n), Pow10(6 - n));
  }

  lemma Scaled(i: nat, f: nat, p: nat, q: nat)
    requires q * p == MILLION && p > 0
    ensures (i * MILLION + f * q) * p == (i * p + f) * MILLION
    ensures (i * MILLION + f * q) * p < (i * MILLION + f * q + 1) * p
  {
    var m := i * MILLION + f * q;
    assert m * p == i * MILLION * p + f * (q * p);
    assert (m + 1) * p == m * p + p;
  }

  /** Long ones lose less than one unit. */
  lemma LongFraction(i: nat, f: nat, n: nat, six: nat, rest: nat, k: nat)
    requires n == 6 + k && f == six * Pow10(k) + rest && rest < Pow10(k)
    ensures Truncates(i * MILLION + six, i, f, n)
  {
    Pow10Six();
    Pow10Add(6, k);
    CutOff(i, six, rest, Pow10(k));
  }

  lemma CutOff(i: nat, six: nat, rest: nat, q: nat)
    requires rest < q
    ensures
      var m, p := i * MILLION + six, MILLION * q;
      m * p <= (i * p + (six * q + rest)) * MILLION < (m + 1) * p
  {
    var m := i * MILLION + six;
    assert m * q == i * MILLION * q + six * q;
    assert i * (MILLION * q) + (six * q + rest) == m * q + rest;
    assert m * (MILLION * q) == (m * q) * MILLION;
    assert (m + 1) * (MILLION * q) == (m * q) * MILLION + q * MILLION;
  }

  lemma ValueWithZeros(frac: string, k: nat)
    requires AllDigits(frac)
    ensures AllDigits(frac + Zeros(k)) && Value(frac + Zeros(k)) == Value(frac) * Pow10(k)
  {
    ZerosAreDigits(k);
    ValueConcat(frac, Zeros(k));
  }

  lemma SixDigitsOfLong(frac: string)
    requires AllDigits(frac) && |frac| >= 6
    ensures AllDigits(frac[..6]) && AllDigits(frac[6..])
    ensures Value(frac) == Value(frac[..6]) * Pow10(|frac| - 6) + Value(frac[6..])
    ensures Value(frac[6..]) < Pow10(|frac| - 6)
  {
    assert frac == frac[..6] + frac[6..];
    ValueConcat(frac[..6], frac[6..]);
    ValueBound(frac[6..]);
  }

  /** The six digits read are the truncation, for any number of fraction digits. */
  lemma SixDigitsTruncate(intPart: string, fracPart: string)
    requires AllDigits(intPart) && AllDigits(fracPart)
    ensures AllDigits(SixDigits(fracPart))
    ensures IsTruncation(Value(intPart) * MILLION + Value(SixDigits(fracPart)), intPart, fracPart)
  {
    SixAreDigits(fracPart);
    var i, f, n, six := Value(intPart), Value(fracPart), |fracPart|, SixDigits(fracPart);
    if n < 6 {
      ValueWithZeros(fracPart, 6 - n);
      ShortFraction(i, f, n, Value(six));
    } else {
      SixDigitsOfLong(fracPart);
      LongFraction(i, f, n, Value(six), Value(fracPart[6..]), n - 6);
    }
  }

  lemma {:induction false} Positive(n: nat)
    ensures Pow10(n) >= 1
    decreases n
  {
    if n > 0 {
      Positive(n - 1);
    }
  }

  function Body(intPart: string, point: bool, fracPart: string): string {
    intPart + if point then "." + fracPart else ""
  }

  /** An amount as written: optional minus, dollar sign, digits, and maybe a point and digits. */
  function Written(minus: bool, intPart: string, point: bool, fracPart: string): string {
    if minus then "-" + ("$" + Body(intPart, point, fracPart)) else "$" + Body(intPart, point, fracPart)
  }

  ghost predicate WellFormed(intPart: string, point: bool, fracPart: string) {
    intPart != "" && AllDigits(intPart) && AllDigits(fracPart) && (!point ==> fracPart == "")
  }

  lemma ParseBody(minus: bool, intPart: string, point: bool, fracPart: string)
    requires WellFormed(intPart, point, fracPart)
    ensures ParseDollars(minus, Body(intPart, point, fracPart)) == ParseParts(minus, intPart, fracPart)
  {
    var body := Body(intPart, point, fracPart);
    assert forall i :: 0 <= i < |intPart| ==> IsDigit(intPart[i]);
    if point {
      assert body[..|intPart|] == intPart && body[|intPart| + 1..] == fracPart;
      FirstIndexAt(body, '.', |intPart|);
    } else {
      assert body == intPart;
      FirstIndexNone(body, '.');
    }
  }

  lemma ParseWritten(left: string, right: string, minus: bool, intPart: string, point: bool, fracPart: string)
    requires AllWhitespace(left) && AllWhitespace(right) && WellFormed(intPart, point, fracPart)
    ensures ParseUsd(left + Written(minus, intPart, point, fracPart) + right) == ParseParts(minus, intPart, fracPart)
  {
    WrittenTrimmed(minus, intPart, point, fracPart);
    TrimPadded(left, Written(minus, intPart, point, fracPart), right);
    ParseBody(minus, intPart, point, fracPart);
    SignAndDollar(minus, Body(intPart, point, fracPart));
  }

  lemma SignAndDollar(minus: bool, body: string)
    ensures ParseTrimmed(if minus then "-" + ("$" + body) else "$" + body) == ParseDollars(minus, body)
  {
    assert ("$" + body)[1..] == body && ("-" + ("$" + body))[1..] == "$" + body;
  }

  lemma WrittenTrimmed(minus: bool, intPart: string, point: bool, fracPart: string)
    requires WellFormed(intPart, point, fracPart)
    ensures Trimmed(Written(minus, intPart, point, fracPart))
  {
    var t := Written(minus, intPart, point, fracPart);
    var last := t[|t| - 1];
    assert t[0] == '-' || t[0] == '$';
    if point && fracPart != "" {
      assert last == fracPart[|fracPart| - 1];
    } else if point {
      assert last == '.';
    } else {
      assert last == intPart[|intPart| - 1];
    }
  }

  /**
   * Exact with a real bound: a well-formed amount is read as its value truncated
   * toward zero if and only if that value's magnitude fits an i64; an integer
   * part beyond i64 is rejected, and in between the arithmetic overflows.
   */
  lemma MoneyIsExact(left: string, right: string, minus: bool, intPart: string, point: bool, fracPart: string)
    returns (m: nat)
    requires AllWhitespace(left) && AllWhitespace(right) && WellFormed(intPart, point, fracPart)
    ensures IsTruncation(m, intPart, fracPart)
    ensures ParseUsd(left + Written(minus, intPart, point, fracPart) + right) ==
            if m <= I64_MAX then Micro(if minus then -(m as int) else m)
            else if Value(intPart) <= I64_MAX then Overflow
            else NotMoney
  {
    ParseWritten(left, right, minus, intPart, point, fracPart);
    SixDigitsTruncate(intPart, fracPart);
    m := Value(intPart) * MILLION + Value(SixDigits(fracPart));
  }

  /** Any whole number of dollars that fits an i64 and whose millionths do not overflows: 9223372036855, say. */
  lemma WholeDollarsOverflow(n: nat)
    requires n <= I64_MAX < n * MILLION
    ensures ParseUsd("$" + Digits(n)) == Overflow
  {
    var i := Digits(n);
    ValueOfDigits(n);
    ParseWritten("", "", false, i, false, "");
    ZerosAreDigits(6);
    assert "" + Zeros(6) == Zeros(6);
    assert Body(i, false, "") == i;
    assert "" + Written(false, i, false, "") + "" == "$" + i;
  }

  /** Nothing else is money: whatever is not NotMoney was written in that form. */
  lemma OnlyWrittenIsMoney(s: string) returns (minus: bool, intPart: string, point: bool, fracPart: string)
    ensures ParseUsd(s) != NotMoney ==>
              WellFormed(intPart, point, fracPart) && Trim(s) == Written(minus, intPart, point, fracPart)
  {
    var t := Trim(s);
    minus := t != "" && t[0] == '-';
    var u := if minus then t[1..] else t;
    intPart, point, fracPart := "", false, "";
    if u != "" && u[0] == '$' {
      intPart, point, fracPart := BodyParts(u[1..]);
      assert u == "$" + u[1..] && (minus ==> t == "-" + u);
    }
  }

  lemma BodyParts(body: string) returns (intPart: string, point: bool, fracPart: string)
    ensures body == Body(intPart, point, fracPart) && SplitOnce(body, '.') == (intPart, fracPart)
    ensures !point ==> fracPart == ""
  {
    var i := FirstIndex(body, '.');
    if i == |body| {
      intPart, point, fracPart := body, false, "";
    } else {
      intPart, point, fracPart := body[..i], true, body[i + 1..];
    }
  }

  // ---- six-decimal printing ------------------------------------------------------

  function Pad(n: nat, width: nat): (s: string)
    ensures |s| == width && AllDigits(s)
  {
    if width == 0 then "" else Pad(n / 10, width - 1) + [DigitChar(n % 10)]
  }

  /** `${:.6}` of an amount in millionths. */
  function PrintUsd(m: int): string {
    var a := if m < 0 then -m else m;
    Written(m < 0, Digits(a / MILLION), true, Pad(a % MILLION, 6))
  }

  lemma {:induction false} PadValue(n: nat, width: nat)
    requires n < Pow10(width)
    ensures Value(Pad(n, width)) == n
    decreases width
  {
    if width > 0 {
      PadValue(n / 10, width - 1);
      ValueAppend(Pad(n / 10, width - 1), DigitChar(n % 10));
    }
  }

  lemma PrintedParts(minus: bool, a: int)
    requires 0 <= a <= I64_MAX
    ensures ParseParts(minus, Digits(a / MILLION), Pad(a % MILLION, 6)) == Micro(if minus then -a else a)
  {
    ValueOfDigits(a / MILLION);
    Pow10Six();
    PadValue(a % MILLION, 6);
    var f := Pad(a % MILLION, 6);
    assert f[..6] == f;
  }

  /** Printing with six decimals and parsing gives the amount back, with any whitespace around it. */
  lemma PrintThenParse(left: string, m: int, right: string)
    requires AllWhitespace(left) && AllWhitespace(right) && -(I64_MAX as int) <= m <= I64_MAX
    ensures ParseUsd(left + PrintUsd(m) + right) == Micro(m)
  {
    var a := if m < 0 then -m else m;
    var i, f := Digits(a / MILLION), Pad(a % MILLION, 6);
    ParseWritten(left, right, m < 0, i, true, f);
    PrintedParts(m < 0, a);
  }
}
