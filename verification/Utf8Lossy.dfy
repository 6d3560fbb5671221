/**
 * Lossy UTF-8 decoding as Rust's `String::from_utf8_lossy` does it (Table 3-7 of
 * the Unicode Standard; every maximal ill-formed part becomes U+FFFD), and the
 * event stream round trip with this decoder in place.
 */
module Utf8Lossy {
  import opened Wrappers
  import opened Bytes
  import opened SseSpec
  import opened SseDecoder
  import opened SseProperties

  const REPLACEMENT: char := '\U{FFFD}'

  predicate Continues(b: Byte) {
    0x80 <= b <= 0xBF
  }

  /** What may follow the lead byte of a three- or four-byte form. */
  predicate SecondOk(lead: Byte, b: Byte) {
    match lead
    case 0xE0 => 0xA0 <= b <= 0xBF
    case 0xED => 0x80 <= b <= 0x9F
    case 0xF0 => 0x90 <= b <= 0xBF
    case 0xF4 => 0x80 <= b <= 0x8F
    case _ => Continues(b)
  }

  /** The six payload bits of a continuation byte. */
  function Low(b: int): int {
    b - 0x80
  }

  /** The first character of `bs`, and how many bytes it takes. */
  function First(bs: seq<Byte>): (r: (char, nat))
    requires bs != []
    ensures 1 <= r.1 <= |bs|
  {
    var b: int := bs[0];
    if b < 0x80 then (b as char, 1)
    else if 0xC2 <= b <= 0xDF then
      if |bs| >= 2 && Continues(bs[1]) then (((b - 0xC0) * 0x40 + Low(bs[1])) as char, 2)
      else (REPLACEMENT, 1)
    else if 0xE0 <= b <= 0xEF then
      if |bs| < 2 || !SecondOk(b, bs[1]) then (REPLACEMENT, 1)
      else if |bs| < 3 || !Continues(bs[2]) then (REPLACEMENT, 2)
      else (((b - 0xE0) * 0x1000 + Low(bs[1]) * 0x40 + Low(bs[2])) as char, 3)
    else if 0xF0 <= b <= 0xF4 then
      if |bs| < 2 || !SecondOk(b, bs[1]) then (REPLACEMENT, 1)
      else if |bs| < 3 || !Continues(bs[2]) then (REPLACEMENT, 2)
      else if |bs| < 4 || !Continues(bs[3]) then (REPLACEMENT, 3)
      else
        (((b - 0xF0) * 0x4_0000 + Low(bs[1]) * 0x1000 + Low(bs[2]) * 0x40 + Low(bs[3])) as char, 4)
    else (REPLACEMENT, 1)
  }

  function FromUtf8Lossy(bs: seq<Byte>): string
    decreases |bs|
  {
    if bs == [] then "" else [First(bs).0] + FromUtf8Lossy(bs[First(bs).1..])
  }

  function ToUtf8(s: string): seq<Byte> {
    if s == "" then [] else Utf8(s[0]) + ToUtf8(s[1..])
  }

  lemma ThreeBytes(n: int)
    requires 0x800 <= n < 0x1_0000
    ensures n == n / 0x1000 * 0x1000 + n / 0x40 % 0x40 * 0x40 + n % 0x40
  {
    assert n / 0x40 / 0x40 == n / 0x1000;
  }

  lemma FourBytes(n: int)
    requires 0x1_0000 <= n < 0x11_0000
    ensures n == n / 0x4_0000 * 0x4_0000 + n / 0x1000 % 0x40 * 0x1000 + n / 0x40 % 0x40 * 0x40 + n % 0x40
    ensures n / 0x4_0000 <= 4 && (n / 0x4_0000 == 0 ==> n / 0x1000 % 0x40 >= 0x10)
    ensures n / 0x4_0000 == 4 ==> n / 0x1000 % 0x40 < 0x10
  {
    assert n / 0x1000 / 0x40 == n / 0x4_0000;
    assert n / 0x40 / 0x40 == n / 0x1000;
  }

  /** A character's own bytes, whatever follows them, decode to that character. */
  lemma FirstOfUtf8(c: char, rest: seq<Byte>)
    ensures First(Utf8(c) + rest) == (c, |Utf8(c)|)
  {
    var n, bs := c as int, Utf8(c);
    assert forall i :: 0 <= i < |bs| ==> (bs + rest)[i] == bs[i];
    if 0x800 <= n < 0x1_0000 {
      ThreeBytes(n);
    } else if 0x1_0000 <= n {
      FourBytes(n);
    }
  }

  // ---- ill-formed bytes ----------------------------------------------------------

  /** The bytes an encoded character can have. */
  lemma Utf8Shape(c: char)
    ensures
      var bs := Utf8(c);
      && (|bs| == 1 <==> bs[0] < 0x80)
      && (|bs| == 2 <==> 0xC2 <= bs[0] <= 0xDF)
      && (|bs| == 3 <==> 0xE0 <= bs[0] <= 0xEF)
      && (|bs| == 4 <==> 0xF0 <= bs[0] <= 0xF4)
      && (|bs| >= 2 ==> SecondOk(bs[0], bs[1]))
      && (|bs| >= 3 ==> Continues(bs[2])) && (|bs| == 4 ==> Continues(bs[3]))
  {
    var n := c as int;
    if 0x800 <= n < 0x1_0000 {
      ThreeBytes(n);
    } else if 0x1_0000 <= n {
      FourBytes(n);
    }
  }

  /** Some character's encoding begins like this. */
  ghost predicate Begins(bs: seq<Byte>) {
    exists c: char :: bs <= Utf8(c)
  }

  lemma Parts(h: int, m: int, l: int)
    requires 0 <= m < 0x40 && 0 <= l < 0x40
    ensures
      var n := h * 0x1000 + m * 0x40 + l;
      n / 0x40 == h * 0x40 + m && n % 0x40 == l && n / 0x1000 == h && n / 0x40 % 0x40 == m
  {
    var n := h * 0x1000 + m * 0x40 + l;
    assert n == (h * 0x40 + m) * 0x40 + l;
    assert n / 0x1000 == n / 0x40 / 0x40;
  }

  lemma TwoByteForm(a: Byte, b: Byte)
    requires 0xC2 <= a <= 0xDF && Continues(b)
    ensures Utf8(((a - 0xC0) * 0x40 + Low(b)) as char) == [a, b]
  {
  }

  lemma ThreeByteForm(a: Byte, b: Byte, c: Byte)
    requires 0xE0 <= a <= 0xEF && SecondOk(a, b) && Continues(c)
    ensures
      var n := (a - 0xE0) * 0x1000 + Low(b) * 0x40 + Low(c);
      (0x800 <= n < 0xD800 || 0xE000 <= n < 0x1_0000) && Utf8(n as char) == [a, b, c]
  {
    Parts(a - 0xE0, Low(b), Low(c));
  }

  lemma FourByteForm(a: Byte, b: Byte, c: Byte, d: Byte)
    requires 0xF0 <= a <= 0xF4 && SecondOk(a, b) && Continues(c) && Continues(d)
    ensures
      var n := (a - 0xF0) * 0x4_0000 + Low(b) * 0x1000 + Low(c) * 0x40 + Low(d);
      0x1_0000 <= n < 0x11_0000 && Utf8(n as char) == [a, b, c, d]
  {
    Parts((a - 0xF0) * 0x40 + Low(b), Low(c), Low(d));
    assert ((a - 0xF0) * 0x40 + Low(b)) / 0x40 == a - 0xF0;
    assert ((a - 0xF0) * 0x40 + Low(b)) % 0x40 == Low(b);
    assert ((a - 0xF0) * 0x40 + Low(b)) * 0x1000 == (a - 0xF0) * 0x4_0000 + Low(b) * 0x1000;
  }

  lemma BeginsTwo(a: Byte, b: Byte)
    requires (0xE0 <= a <= 0xEF || 0xF0 <= a <= 0xF4) && SecondOk(a, b)
    ensures Begins([a, b])
  {
    if a <= 0xEF {
      ThreeByteForm(a, b, 0x80);
      assert [a, b] <= [a, b, 0x80];
    } else {
      FourByteForm(a, b, 0x80, 0x80);
      assert [a, b] <= [a, b, 0x80, 0x80];
    }
  }

  lemma BeginsThree(a: Byte, b: Byte, c: Byte)
    requires 0xF0 <= a <= 0xF4 && SecondOk(a, b) && Continues(c)
    ensures Begins([a, b, c])
  {
    FourByteForm(a, b, c, 0x80);
    assert [a, b, c] <= [a, b, c, 0x80];
  }

  lemma WellFormedFirst(bs: seq<Byte>)
    requires bs != []
    ensures First(bs).0 != REPLACEMENT ==> Utf8(First(bs).0) <= bs
  {
    var n := First(bs).1;
    if First(bs).0 != REPLACEMENT {
      if n == 2 {
        TwoByteForm(bs[0], bs[1]);
      } else if n == 3 {
        ThreeByteForm(bs[0], bs[1], bs[2]);
      } else if n == 4 {
        FourByteForm(bs[0], bs[1], bs[2], bs[3]);
      }
    }
  }

  /**
   * The first character of any bytes: the one whose encoding they begin with, or
   * else U+FFFD for the longest part that still begins some encoding, at least
   * one byte.
   */
  lemma FirstOfAny(bs: seq<Byte>)
    requires bs != []
    ensures forall c: char :: Utf8(c) <= bs ==> First(bs) == (c, |Utf8(c)|)
    ensures (forall c: char :: !(Utf8(c) <= bs)) ==>
              && First(bs).0 == REPLACEMENT
              && (First(bs).1 == 1 || Begins(bs[..First(bs).1]))
              && (First(bs).1 < |bs| ==> !Begins(bs[..First(bs).1 + 1]))
  {
    forall c: char | Utf8(c) <= bs ensures First(bs) == (c, |Utf8(c)|) {
      FirstOfUtf8(c, bs[|Utf8(c)|..]);
      assert bs == Utf8(c) + bs[|Utf8(c)|..];
    }
    if forall c: char :: !(Utf8(c) <= bs) {
      WellFormedFirst(bs);
      IllFormedLength(bs);
    }
  }

  lemma IllFormedLength(bs: seq<Byte>)
    requires bs != [] && First(bs).0 == REPLACEMENT && !(Utf8(REPLACEMENT) <= bs)
    ensures First(bs).1 == 1 || Begins(bs[..First(bs).1])
    ensures First(bs).1 < |bs| ==> !Begins(bs[..First(bs).1 + 1])
  {
    var n := First(bs).1;
    if n == 2 {
      BeginsTwo(bs[0], bs[1]);
      assert bs[..2] == [bs[0], bs[1]];
    } else if n == 3 {
      BeginsThree(bs[0], bs[1], bs[2]);
      assert bs[..3] == [bs[0], bs[1], bs[2]];
    }
    if n < |bs| {
      forall c: char ensures !(bs[..n + 1] <= Utf8(c)) {
        Utf8Shape(c);
        assert forall i :: 0 <= i <= n ==> bs[..n + 1][i] == bs[i];
      }
    }
  }

  /** Decoding undoes encoding for every string. */
  lemma {:induction false} LossyUndoesUtf8(s: string)
    ensures FromUtf8Lossy(ToUtf8(s)) == s
    decreases |s|
  {
    if s != "" {
      var rest := ToUtf8(s[1..]);
      FirstOfUtf8(s[0], rest);
      assert (Utf8(s[0]) + rest)[|Utf8(s[0])|..] == rest;
      LossyUndoesUtf8(s[1..]);
    }
  }

  lemma {:induction false} OneLineIsClean(s: string)
    requires OneLine(s)
    ensures Clean(ToUtf8(s))
    decreases |s|
  {
    if s != "" {
      OneLineIsClean(s[1..]);
      assert s[0] in s && s[0] != '\r' && s[0] != '\n';
      assert s[0] as int != 10 && s[0] as int != 13;
    }
  }

  lemma Utf8IsCodec(lines: seq<string>)
    requires AllOneLine(lines)
    ensures Codec(ToUtf8, FromUtf8Lossy, lines)
  {
    forall i | 0 <= i < |lines|
      ensures FromUtf8Lossy(ToUtf8(lines[i])) == lines[i] && Clean(ToUtf8(lines[i]))
    {
      LossyUndoesUtf8(lines[i]);
      OneLineIsClean(lines[i]);
    }
  }

  /**
   * The round trip with the real decoder: events written as UTF-8, with or
   * without the space after a colon, each line ended by LF or CRLF, cut into
   * chunks anywhere (inside a character too), decode to those events under the
   * sticky-id rule.
   */
  lemma WrittenEventsDecode(es: seq<SseEvent>, lines: seq<string>, ends: seq<seq<Byte>>, chunks: seq<seq<Byte>>)
    requires forall e :: e in es ==> Writable(e)
    requires AllSpelled(lines, AllLines(es))
    requires |ends| == |lines| && forall e :: e in ends ==> Eol(e)
    ensures Concat(chunks) == WriteLines(ToUtf8, lines, ends)
            ==> FeedAll(FromUtf8Lossy, FRESH, chunks).1 == Sticky(None, es)
  {
    AllLinesOneLine(es);
    AllSpelledMean(lines, AllLines(es));
    Utf8IsCodec(lines);
    WriteThenDecode(ToUtf8, FromUtf8Lossy, es, lines, ends, chunks);
  }
}
