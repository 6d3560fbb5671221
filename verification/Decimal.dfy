/** Decimal numbers: how Rust prints them and how its `parse` reads them back. */
module Decimal {
  import opened Wrappers

  const U16_MAX: nat := 0xFFFF
  const U64_MAX: nat := 0xFFFF_FFFF_FFFF_FFFF
  const I64_MAX: nat := 0x7FFF_FFFF_FFFF_FFFF

  predicate IsDigit(c: char) {
    '0' <= c <= '9'
  }

  predicate AllDigits(s: string) {
    forall i :: 0 <= i < |s| ==> IsDigit(s[i])
  }

  function DigitChar(n: nat): char
    requires n < 10
  {
    '0' + n as char
  }

  function Digits(n: nat): (s: string)
    ensures s != "" && AllDigits(s)
  {
    if n < 10 then [DigitChar(n)] else Digits(n / 10) + [DigitChar(n % 10)]
  }

  function Value(s: string): nat
    requires AllDigits(s)
  {
    if s == "" then 0 else Value(s[..|s| - 1]) * 10 + (s[|s| - 1] as int - '0' as int)
  }

  lemma {:induction false} ValueOfDigits(n: nat)
    ensures Value(Digits(n)) == n
    decreases n
  {
    if n < 10 {
      assert [DigitChar(n)][..0] == "";
      assert Value("") == 0;
    } else {
      ValueOfDigits(n / 10);
      assert Digits(n)[..|Digits(n)| - 1] == Digits(n / 10);
    }
  }

  lemma ValueAppend(s: string, d: char)
    requires AllDigits(s) && IsDigit(d)
    ensures AllDigits(s + [d]) && Value(s + [d]) == Value(s) * 10 + (d as int - '0' as int)
  {
    assert (s + [d])[..|s|] == s;
  }

  /** The digits of a string with at most one leading sign, and whether it is a minus. */
  function ParseMagnitude(s: string, minusAllowed: bool): Option<(bool, nat)> {
    var signed := s != "" && (s[0] == '+' || (minusAllowed && s[0] == '-'));
    var digits := if signed then s[1..] else s;
    if digits == "" || !AllDigits(digits) then None
    else Some((signed && s[0] == '-', Value(digits)))
  }

  /** `str::parse::<u64>` */
  function ParseU64(s: string): Option<nat> {
    match ParseMagnitude(s, false)
    case Some((_, n)) => if n <= U64_MAX then Some(n) else None
    case None => None
  }

  /** `str::parse::<i64>` */
  function ParseI64(s: string): Option<int> {
    match ParseMagnitude(s, true)
    case Some((minus, n)) =>
      var v: int := if minus then -(n as int) else n;
      if -(I64_MAX + 1) <= v <= I64_MAX then Some(v) else None
    case None => None
  }

  function PrintInt(n: int): string {
    if n < 0 then "-" + Digits(-n) else Digits(n)
  }

  lemma MagnitudeOfDigits(d: string)
    requires d != "" && AllDigits(d)
    ensures forall minusAllowed :: ParseMagnitude(d, minusAllowed) == Some((false, Value(d)))
    ensures ParseMagnitude("-" + d, true) == Some((true, Value(d)))
  {
    assert IsDigit(d[0]);
    assert ("-" + d)[1..] == d;
  }

  /** One sign may stand in front, a minus only where the type has one; anything else is no number. */
  lemma SignedParse(d: string)
    requires d != "" && AllDigits(d)
    ensures ParseU64(d) == ParseU64("+" + d) == if Value(d) <= U64_MAX then Some(Value(d)) else None
    ensures ParseU64("-" + d) == None
    ensures ParseI64(d) == ParseI64("+" + d) == if Value(d) <= I64_MAX then Some(Value(d)) else None
    ensures ParseI64("-" + d) == if Value(d) <= I64_MAX + 1 then Some(-(Value(d) as int)) else None
  {
    MagnitudeOfDigits(d);
    assert ("+" + d)[1..] == d && !IsDigit('-') && ("-" + d)[0] == '-';
  }

  lemma NoNumber(s: string, i: nat)
    requires i < |s| && !IsDigit(s[i]) && (i > 0 || (s[0] != '+' && s[0] != '-'))
    ensures ParseU64(s) == None && ParseI64(s) == None
  {
    assert i > 0 ==> s[1..][i - 1] == s[i];
  }

  lemma ParsePrinted(n: int)
    ensures -(I64_MAX + 1) <= n <= I64_MAX ==> ParseI64(PrintInt(n)) == Some(n)
    ensures 0 <= n <= U64_MAX ==> ParseU64(Digits(n)) == Some(n)
  {
    var a: nat := if n < 0 then -n else n;
    ValueOfDigits(a);
    MagnitudeOfDigits(Digits(a));
  }
}
