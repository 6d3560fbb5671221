/** Percent-encoding over bytes (sections 2.1 and 3.3 of RFC 3986), twice: a path segment and a query value. */
module Percent {
  import opened Wrappers
  import opened Bytes

  /** An uppercase hex digit. */
  function HexDigit(n: nat): char
    requires n < 16
  {
    if n < 10 then '0' + n as char else 'A' + (n - 10) as char
  }

  predicate IsUpperHex(c: char) {
    '0' <= c <= '9' || 'A' <= c <= 'F'
  }

  function Escape(b: Byte): string {
    ['%', HexDigit(b / 16), HexDigit(b % 16)]
  }

  /** One byte written literally when `literal` allows it, escaped otherwise. */
  function EncodeByte(literal: Byte -> bool, b: Byte): string {
    if literal(b) then [b as char] else Escape(b)
  }

  function Encode(literal: Byte -> bool, bs: seq<Byte>): string {
    if bs == [] then "" else EncodeByte(literal, bs[0]) + Encode(literal, bs[1..])
  }

  /** A hex digit of either case. */
  function HexValue(c: char): Option<nat> {
    if '0' <= c <= '9' then Some(c as int - '0' as int)
    else if 'A' <= c <= 'F' then Some(c as int - 'A' as int + 10)
    else if 'a' <= c <= 'f' then Some(c as int - 'a' as int + 10)
    else None
  }

  /** The bytes a percent-encoded text stands for. */
  function Decode(s: string): Option<seq<Byte>>
    decreases |s|
  {
    if s == "" then Some([])
    else if s[0] == '%' then
      if |s| < 3 || HexValue(s[1]).None? || HexValue(s[2]).None? then None
      else
        match Decode(s[3..])
        case None => None
        case Some(more) => Some([HexValue(s[1]).value * 16 + HexValue(s[2]).value] + more)
    else if s[0] as int >= 256 then None
    else
      match Decode(s[1..])
      case None => None
      case Some(more) => Some([s[0] as int] + more)
  }

  /** The literal set leaves the escape character out. */
  ghost predicate Escapes(literal: Byte -> bool) {
    !literal('%' as int)
  }

  lemma EscapeDecodes(b: Byte, rest: string)
    ensures Decode(Escape(b) + rest) ==
            if Decode(rest).None? then None else Some([b] + Decode(rest).value)
  {
    var s := Escape(b) + rest;
    assert s[3..] == rest;
    HexDigits(b / 16);
    HexDigits(b % 16);
  }

  lemma HexDigits(n: nat)
    requires n < 16
    ensures HexValue(HexDigit(n)) == Some(n) && IsUpperHex(HexDigit(n)) && HexDigit(n) != '%'
  {
  }

  /** Decoding undoes encoding, whatever the literal set. */
  lemma {:induction false} DecodeEncode(literal: Byte -> bool, bs: seq<Byte>)
    requires Escapes(literal)
    ensures Decode(Encode(literal, bs)) == Some(bs)
    decreases |bs|
  {
    if bs != [] {
      var rest := Encode(literal, bs[1..]);
      DecodeEncode(literal, bs[1..]);
      assert [bs[0]] + bs[1..] == bs;
      if literal(bs[0]) {
        var s := Encode(literal, bs);
        assert s[1..] == rest && s[0] as int == bs[0] && s[0] != '%';
      } else {
        EscapeDecodes(bs[0], rest);
      }
    }
  }

  lemma EncodeInjective(literal: Byte -> bool, a: seq<Byte>, b: seq<Byte>)
    requires Escapes(literal)
    ensures Encode(literal, a) == Encode(literal, b) <==> a == b
  {
    DecodeEncode(literal, a);
    DecodeEncode(literal, b);
  }

  /** Every character is a literal byte or belongs to an uppercase `%XX` of a byte that is not literal. */
  predicate WellEncoded(literal: Byte -> bool, s: string)
    decreases |s|
  {
    s == "" ||
    (s[0] != '%' && s[0] as int < 256 && literal(s[0] as int) && WellEncoded(literal, s[1..])) ||
    (s[0] == '%' && |s| >= 3 && IsUpperHex(s[1]) && IsUpperHex(s[2])
     && !literal(HexValue(s[1]).value * 16 + HexValue(s[2]).value) && WellEncoded(literal, s[3..]))
  }

  lemma {:induction false} EncodeIsWellEncoded(literal: Byte -> bool, bs: seq<Byte>)
    requires Escapes(literal)
    ensures WellEncoded(literal, Encode(literal, bs))
    decreases |bs|
  {
    if bs != [] {
      var rest, s := Encode(literal, bs[1..]), Encode(literal, bs);
      EncodeIsWellEncoded(literal, bs[1..]);
      if literal(bs[0]) {
        assert s[1..] == rest;
      } else {
        assert s[3..] == rest;
        HexDigits(bs[0] / 16);
        HexDigits(bs[0] % 16);
      }
    }
  }

  function AsText(bs: seq<Byte>): string {
    seq(|bs|, i requires 0 <= i < |bs| => bs[i] as char)
  }

  lemma {:induction false} EncodeLength(literal: Byte -> bool, bs: seq<Byte>)
    ensures |Encode(literal, bs)| >= |bs|
    ensures |Encode(literal, bs)| == |bs| <==> forall b :: b in bs ==> literal(b)
    decreases |bs|
  {
    if bs != [] {
      EncodeLength(literal, bs[1..]);
      assert bs == [bs[0]] + bs[1..];
    }
  }

  lemma {:induction false} EncodeLiterals(literal: Byte -> bool, bs: seq<Byte>)
    requires forall b :: b in bs ==> literal(b)
    ensures Encode(literal, bs) == AsText(bs)
    decreases |bs|
  {
    if bs != [] {
      EncodeLiterals(literal, bs[1..]);
      assert literal(bs[0]);
      assert AsText(bs) == [bs[0] as char] + AsText(bs[1..]);
    }
  }

  /** Encoding changes nothing exactly when there is nothing to escape. */
  lemma EncodeIsIdentity(literal: Byte -> bool, bs: seq<Byte>)
    ensures Encode(literal, bs) == AsText(bs) <==> forall b :: b in bs ==> literal(b)
  {
    EncodeLength(literal, bs);
    if forall b :: b in bs ==> literal(b) {
      EncodeLiterals(literal, bs);
    }
  }

  lemma {:induction false} EncodeAppend(literal: Byte -> bool, bs: seq<Byte>, b: Byte)
    ensures Encode(literal, bs + [b]) == Encode(literal, bs) + EncodeByte(literal, b)
    decreases |bs|
  {
    if bs == [] {
      assert [b][1..] == [];
    } else {
      assert (bs + [b])[1..] == bs[1..] + [b];
      EncodeAppend(literal, bs[1..], b);
    }
  }

  // ---- the two encoders ------------------------------------------------------

  predicate Is(b: Byte, c: char) {
    b == c as int
  }

  predicate IsAlphanumeric(b: Byte) {
    'A' as int <= b <= 'Z' as int || 'a' as int <= b <= 'z' as int || '0' as int <= b <= '9' as int
  }

  /** RFC 3986 `pchar` without the percent sign: what may stand in one path segment. */
  predicate IsLiteralPchar(b: Byte) {
    || IsAlphanumeric(b)
    || Is(b, '-') || Is(b, '.') || Is(b, '_') || Is(b, '~')
    || Is(b, '!') || Is(b, '$') || Is(b, '&') || Is(b, '\'') || Is(b, '(') || Is(b, ')')
    || Is(b, '*') || Is(b, '+') || Is(b, ',') || Is(b, ';') || Is(b, '=')
    || Is(b, ':') || Is(b, '@')
  }

  /** RFC 3986 `unreserved`: what a query value keeps. */
  predicate IsUnreserved(b: Byte) {
    || IsAlphanumeric(b)
    || Is(b, '-') || Is(b, '_') || Is(b, '.') || Is(b, '~')
  }

  datatype PathSegmentError = Empty | DotSegment(id: seq<Byte>)

  const DOT: seq<Byte> := ['.' as int]
  const DOTS: seq<Byte> := ['.' as int, '.' as int]

  /** An id, given as its UTF-8 bytes, as exactly one path segment. */
  method PathSegment(id: seq<Byte>) returns (r: Result<string, PathSegmentError>)
    ensures r.Ok? <==> id != [] && id != DOT && id != DOTS
    ensures r.Ok? ==> r.value == Encode(IsLiteralPchar, id)
    ensures r.Err? ==> r.error == if id == [] then Empty else DotSegment(id)
  {
    if id == [] {
      return Err(Empty);
    }
    if id == DOT || id == DOTS {
      return Err(DotSegment(id));
    }
    var out := EncodeLoop(IsLiteralPchar, id);
    return Ok(out);
  }

  method UrlEncode(s: seq<Byte>) returns (out: string)
    ensures out == Encode(IsUnreserved, s)
  {
    out := EncodeLoop(IsUnreserved, s);
  }

  method EncodeLoop(literal: Byte -> bool, bs: seq<Byte>) returns (out: string)
    ensures out == Encode(literal, bs)
  {
    out := "";
    for i := 0 to |bs|
      invariant out == Encode(literal, bs[..i])
    {
      assert bs[..i + 1] == bs[..i] + [bs[i]];
      EncodeAppend(literal, bs[..i], bs[i]);
      if literal(bs[i]) {
        out := out + [bs[i] as char];
      } else {
        out := out + Escape(bs[i]);
      }
    }
    assert bs[..|bs|] == bs;
  }

  /** The bytes that stay as they are, listed: in a path segment, and in a query value. */
  lemma LiteralBytes(b: Byte)
    ensures IsLiteralPchar(b) <==>
            || 65 <= b <= 90 || 97 <= b <= 122 || 48 <= b <= 57
            || (b < 128 && b as char in "-._~!$&'()*+,;=:@")
    ensures IsUnreserved(b) <==>
            || 65 <= b <= 90 || 97 <= b <= 122 || 48 <= b <= 57
            || (b < 128 && b as char in "-._~")
  {
  }

  /** A path segment or query value can be told back to its id, and holds no `/`, `%` or `?` of its own. */
  lemma BothEncodersExact(id: seq<Byte>)
    ensures Decode(Encode(IsLiteralPchar, id)) == Some(id) && Decode(Encode(IsUnreserved, id)) == Some(id)
    ensures WellEncoded(IsLiteralPchar, Encode(IsLiteralPchar, id))
    ensures WellEncoded(IsUnreserved, Encode(IsUnreserved, id))
  {
    DecodeEncode(IsLiteralPchar, id);
    DecodeEncode(IsUnreserved, id);
    EncodeIsWellEncoded(IsLiteralPchar, id);
    EncodeIsWellEncoded(IsUnreserved, id);
  }
}
