/**
 * The path of a parsed `http` URL, as the WHATWG URL Standard computes it
 * (section 4.4: preprocessing, path start state and path state of a special
 * scheme; section 4.1: dot segments).
 */
module UrlStandard {
  import opened Wrappers
  import opened Bytes
  import opened Text
  import opened Percent

  predicate IsSeparator(c: char) {
    c == '/' || c == '\\'
  }

  predicate EndsPath(c: char) {
    c == '?' || c == '#'
  }

  /** The path percent-encode set. */
  predicate InPathSet(c: char) {
    || c as int <= 0x20 || c as int > 0x7E || c == '"' || c == '#' || c == '<' || c == '>'
    || c == '?' || c == '^' || c == '`' || c == '{' || c == '}'
  }

  function LowerHex(s: string): string {
    seq(|s|, i requires 0 <= i < |s| => if s[i] == 'E' then 'e' else s[i])
  }

  /** ASCII case only matters for the hex digit of `%2e`. */
  predicate IsSingleDot(s: string) {
    LowerHex(s) in {".", "%2e"}
  }

  predicate IsDoubleDot(s: string) {
    LowerHex(s) in {"..", ".%2e", "%2e.", "%2e%2e"}
  }

  function EscapeAll(bs: seq<Byte>): string {
    if bs == [] then "" else Escape(bs[0]) + EscapeAll(bs[1..])
  }

  function PathChar(c: char): string {
    if InPathSet(c) then EscapeAll(Utf8(c)) else [c]
  }

  /** What the segment in `buffer` does to the path when `last` says whether the path ends here. */
  function CloseSegment(path: seq<string>, buffer: string, last: bool): seq<string> {
    if IsDoubleDot(buffer) then
      var shortened := if path == [] then [] else path[..|path| - 1];
      if last then shortened + [""] else shortened
    else if IsSingleDot(buffer) then if last then path + [""] else path
    else path + [buffer]
  }

  function PathState(input: string, buffer: string, path: seq<string>): seq<string>
    decreases |input|
  {
    if input == "" || EndsPath(input[0]) then CloseSegment(path, buffer, true)
    else if IsSeparator(input[0]) then PathState(input[1..], "", CloseSegment(path, buffer, false))
    else PathState(input[1..], buffer + PathChar(input[0]), path)
  }

  predicate IsTabOrNewline(c: char) {
    c == '\t' || c == '\n' || c == '\r'
  }

  function RemoveTabsAndNewlines(s: string): string {
    if s == "" then ""
    else (if IsTabOrNewline(s[0]) then "" else [s[0]]) + RemoveTabsAndNewlines(s[1..])
  }

  function StripTrailing(s: string): string {
    if s != "" && s[|s| - 1] as int <= 0x20 then StripTrailing(s[..|s| - 1]) else s
  }

  function Serialize(path: seq<string>): string {
    if path == [] then "" else "/" + path[0] + Serialize(path[1..])
  }

  /** The text the path state starts on: a leading separator is dropped. */
  function PathInput(clean: string): string {
    if clean != "" && IsSeparator(clean[0]) then clean[1..] else clean
  }

  /** The serialized path of a URL whose text after the authority is `input`. */
  function ParsedPath(input: string): string {
    Serialize(PathState(PathInput(RemoveTabsAndNewlines(StripTrailing(input))), "", []))
  }

  // ---- what the parser leaves alone ---------------------------------------

  /** A character the parser neither interprets nor rewrites inside a segment. */
  predicate IsPlain(c: char) {
    !InPathSet(c) && !IsSeparator(c)
  }

  predicate AllPlain(s: string) {
    forall i :: 0 <= i < |s| ==> IsPlain(s[i])
  }

  /** A segment the parser leaves alone. */
  predicate IsPlainSegment(s: string) {
    AllPlain(s) && !IsSingleDot(s) && !IsDoubleDot(s)
  }

  lemma {:induction false} PathStateReads(plain: string, input: string, buffer: string, path: seq<string>)
    requires AllPlain(plain)
    ensures PathState(plain + input, buffer, path) == PathState(input, buffer + plain, path)
    decreases |plain|
  {
    if plain == "" {
      assert plain + input == input && buffer + plain == buffer;
    } else {
      assert (plain + input)[1..] == plain[1..] + input;
      PathStateReads(plain[1..], input, buffer + [plain[0]], path);
      assert buffer + [plain[0]] + plain[1..] == buffer + plain;
    }
  }

  lemma {:induction false} PathStateKeeps(segments: seq<string>, path: seq<string>)
    requires segments != [] && forall s :: s in segments ==> IsPlainSegment(s)
    ensures PathState(Join(segments, "/"), "", path) == path + segments
    decreases |segments|
  {
    var s := segments[0];
    assert IsPlainSegment(s) && "" + s == s;
    if |segments| == 1 {
      PathStateReads(s, "", "", path);
      assert s + "" == s;
    } else {
      var rest := "/" + Join(segments[1..], "/");
      assert Join(segments, "/") == s + rest && rest[1..] == Join(segments[1..], "/");
      PathStateReads(s, rest, "", path);
      PathStateKeeps(segments[1..], path + [s]);
      assert path + [s] + segments[1..] == path + segments;
    }
  }

  predicate Visible(s: string) {
    forall i :: 0 <= i < |s| ==> s[i] as int > 0x20
  }

  lemma {:induction false} NothingRemoved(s: string)
    requires Visible(s)
    ensures RemoveTabsAndNewlines(s) == s
    decreases |s|
  {
    if s != "" {
      NothingRemoved(s[1..]);
    }
  }

  lemma {:induction false} SerializeJoin(segments: seq<string>)
    requires segments != []
    ensures Serialize(segments) == "/" + Join(segments, "/")
    decreases |segments|
  {
    if |segments| == 1 {
      assert Serialize(segments[1..]) == "";
    } else {
      SerializeJoin(segments[1..]);
    }
  }

  lemma {:induction false} JoinPlain(segments: seq<string>)
    requires forall s :: s in segments ==> IsPlainSegment(s)
    ensures Visible(Join(segments, "/"))
    decreases |segments|
  {
    if segments != [] {
      assert IsPlainSegment(segments[0]);
      JoinPlain(segments[1..]);
    }
  }

  /** A path made of plain segments survives URL parsing byte for byte. */
  lemma PlainPathSurvives(segments: seq<string>)
    requires segments != [] && forall s :: s in segments ==> IsPlainSegment(s)
    ensures ParsedPath("/" + Join(segments, "/")) == "/" + Join(segments, "/")
  {
    var path := "/" + Join(segments, "/");
    JoinPlain(segments);
    assert Visible(path);
    assert StripTrailing(path) == path;
    NothingRemoved(path);
    assert path[1..] == Join(segments, "/");
    PathStateKeeps(segments, []);
    assert [] + segments == segments;
    SerializeJoin(segments);
  }

  // ---- a text in front of such a path --------------------------------------------

  /** Where the path state stands after `input`, which must not end the path: the path and the pending segment. */
  function PathRun(input: string, buffer: string, path: seq<string>): (seq<string>, string)
    decreases |input|
  {
    if input == "" then (path, buffer)
    else if IsSeparator(input[0]) then PathRun(input[1..], "", CloseSegment(path, buffer, false))
    else PathRun(input[1..], buffer + PathChar(input[0]), path)
  }

  predicate HasQuery(input: string) {
    exists i :: 0 <= i < |input| && EndsPath(input[i])
  }

  lemma {:induction false} PathStateContinues(input: string, more: string, buffer: string, path: seq<string>)
    requires !HasQuery(input)
    ensures
      var (p, b) := PathRun(input, buffer, path);
      PathState(input + more, buffer, path) == PathState(more, b, p)
    decreases |input|
  {
    if input == "" {
      assert input + more == more;
    } else {
      assert (input + more)[1..] == input[1..] + more && !EndsPath(input[0]);
      assert forall i :: 0 <= i < |input| - 1 ==> input[1..][i] == input[i + 1];
      if IsSeparator(input[0]) {
        PathStateContinues(input[1..], more, "", CloseSegment(path, buffer, false));
      } else {
        PathStateContinues(input[1..], more, buffer + PathChar(input[0]), path);
      }
    }
  }

  /** What follows a `?` or `#` is no part of the path. */
  lemma {:induction false} PathStateStops(input: string, more: string, buffer: string, path: seq<string>)
    requires HasQuery(input)
    ensures PathState(input + more, buffer, path) == PathState(input, buffer, path)
    decreases |input|
  {
    assert (input + more)[0] == input[0] && (input + more)[1..] == input[1..] + more;
    if !EndsPath(input[0]) {
      var i :| 0 <= i < |input| && EndsPath(input[i]);
      assert input[1..][i - 1] == input[i];
      if IsSeparator(input[0]) {
        PathStateStops(input[1..], more, "", CloseSegment(path, buffer, false));
      } else {
        PathStateStops(input[1..], more, buffer + PathChar(input[0]), path);
      }
    }
  }

  lemma {:induction false} RemovedAppend(a: string, b: string)
    ensures RemoveTabsAndNewlines(a + b) == RemoveTabsAndNewlines(a) + RemoveTabsAndNewlines(b)
    decreases |a|
  {
    if a == "" {
      assert a + b == b;
    } else {
      assert (a + b)[1..] == a[1..] + b;
      RemovedAppend(a[1..], b);
    }
  }

  lemma {:induction false} SerializeAppend(a: seq<string>, b: seq<string>)
    ensures Serialize(a + b) == Serialize(a) + Serialize(b)
    decreases |a|
  {
    if a == [] {
      assert a + b == b;
    } else {
      assert (a + b)[1..] == a[1..] + b;
      SerializeAppend(a[1..], b);
    }
  }

  /**
   * The segments that a text, once cleaned, puts in front of a path that follows
   * it; a text of nothing puts none.
   */
  function Front(clean: string): seq<string> {
    if clean == "" then []
    else
      var (path, buffer) := PathRun(PathInput(clean), "", []);
      CloseSegment(path, buffer, false)
  }

  lemma ParsedAfter(base: string, segments: seq<string>)
    requires segments != [] && forall s :: s in segments ==> IsPlainSegment(s)
    ensures
      var clean, path := RemoveTabsAndNewlines(base), "/" + Join(segments, "/");
      ParsedPath(base + path) == Serialize(PathState(PathInput(clean + path), "", []))
  {
    var path := "/" + Join(segments, "/");
    JoinPlain(segments);
    assert Visible(path) && (base + path)[|base + path| - 1] == path[|path| - 1];
    assert StripTrailing(base + path) == base + path;
    NothingRemoved(path);
    RemovedAppend(base, path);
  }

  lemma StateAfterFront(clean: string, segments: seq<string>)
    requires segments != [] && forall s :: s in segments ==> IsPlainSegment(s)
    requires !HasQuery(clean)
    ensures PathState(PathInput(clean + ("/" + Join(segments, "/"))), "", []) == Front(clean) + segments
  {
    var rest := Join(segments, "/");
    var path := "/" + rest;
    assert path[1..] == rest && IsSeparator(path[0]);
    PathStateKeeps(segments, Front(clean));
    if clean == "" {
      assert clean + path == path;
    } else {
      var input := PathInput(clean);
      assert PathInput(clean + path) == input + path;
      PathStateContinues(input, path, "", []);
    }
  }

  /** Behind a text without `?` and `#`, plain segments follow that text's own segments. */
  lemma PathAfterFront(base: string, segments: seq<string>)
    requires segments != [] && forall s :: s in segments ==> IsPlainSegment(s)
    requires !HasQuery(RemoveTabsAndNewlines(base))
    ensures ParsedPath(base + ("/" + Join(segments, "/"))) ==
            Serialize(Front(RemoveTabsAndNewlines(base))) + Serialize(segments)
  {
    ParsedAfter(base, segments);
    StateAfterFront(RemoveTabsAndNewlines(base), segments);
    SerializeAppend(Front(RemoveTabsAndNewlines(base)), segments);
  }

  lemma PathInputAppend(clean: string, more: string)
    requires HasQuery(clean)
    ensures PathInput(clean + more) == PathInput(clean) + more && HasQuery(PathInput(clean))
  {
    var i :| 0 <= i < |clean| && EndsPath(clean[i]);
    assert PathInput(clean) == clean || (i > 0 && PathInput(clean)[i - 1] == clean[i]);
  }

  /** Behind a text with one of them, nothing of the path is left. */
  lemma PathAfterQuery(base: string, segments: seq<string>)
    requires segments != [] && forall s :: s in segments ==> IsPlainSegment(s)
    requires HasQuery(RemoveTabsAndNewlines(base))
    ensures ParsedPath(base + ("/" + Join(segments, "/"))) ==
            Serialize(PathState(PathInput(RemoveTabsAndNewlines(base)), "", []))
  {
    var clean, path := RemoveTabsAndNewlines(base), "/" + Join(segments, "/");
    ParsedAfter(base, segments);
    PathInputAppend(clean, path);
    PathStateStops(PathInput(clean), path, "", []);
  }

  // ---- what the segment encoder emits is such a segment ------------------------

  lemma {:induction false} WellEncodedIsPlain(s: string)
    requires WellEncoded(IsLiteralPchar, s)
    ensures AllPlain(s)
    decreases |s|
  {
    if s != "" {
      var k := if s[0] == '%' then 3 else 1;
      WellEncodedIsPlain(s[k..]);
      assert forall i :: k <= i < |s| ==> s[i] == s[k..][i - k];
      PcharIsPlain(s[0]);
      if k == 3 {
        HexIsPlain(s[1]);
        HexIsPlain(s[2]);
      }
    }
  }

  lemma PcharIsPlain(c: char)
    ensures c == '%' || (c as int < 256 && IsLiteralPchar(c as int)) ==> IsPlain(c)
  {
  }

  lemma HexIsPlain(c: char)
    requires IsUpperHex(c)
    ensures IsPlain(c)
  {
  }

  lemma DecodeDot(rest: string)
    requires Decode(rest).Some?
    ensures Decode("." + rest) == Some(DOT + Decode(rest).value)
  {
    assert ("." + rest)[1..] == rest;
  }

  lemma DecodeEscapedDot(e: char, rest: string)
    requires Decode(rest).Some? && (e == 'e' || e == 'E')
    ensures Decode(['%', '2', e] + rest) == Some(DOT + Decode(rest).value)
  {
    assert (['%', '2', e] + rest)[3..] == rest;
  }

  /** One dot, in any spelling. */
  predicate IsDot(s: string) {
    s == "." || s == "%2e" || s == "%2E"
  }

  lemma DotPrepends(dot: string, rest: string)
    requires IsDot(dot) && Decode(rest).Some?
    ensures Decode(dot + rest) == Some(DOT + Decode(rest).value)
  {
    if dot == "." {
      DecodeDot(rest);
    } else {
      assert dot == ['%', '2', dot[2]];
      DecodeEscapedDot(dot[2], rest);
    }
  }

  lemma LowerDot(s: string)
    requires LowerHex(s) == "." || LowerHex(s) == "%2e"
    ensures IsDot(s)
  {
    var low := LowerHex(s);
    assert |low| == |s|;
    if low == "." {
      assert low[0] == '.' && s == [s[0]];
    } else {
      assert low[0] == '%' && low[1] == '2' && low[2] == 'e';
      assert s == [s[0], s[1], s[2]];
    }
  }

  /** And the other way round: these are the dot segments, and there are no others. */
  lemma DotSpellings(s: string)
    ensures IsSingleDot(s) <==> IsDot(s)
    ensures IsDoubleDot(s) <==> exists k :: 0 <= k <= |s| && IsDot(s[..k]) && IsDot(s[k..])
  {
    if IsSingleDot(s) {
      LowerDot(s);
    }
    if IsDoubleDot(s) {
      var k := TwoDots(s);
      assert 0 <= k <= |s| && IsDot(s[..k]) && IsDot(s[k..]);
    }
    if exists k :: 0 <= k <= |s| && IsDot(s[..k]) && IsDot(s[k..]) {
      var k :| 0 <= k <= |s| && IsDot(s[..k]) && IsDot(s[k..]);
      LowerHexParts(s, k);
      DotLowers(s[..k]);
      DotLowers(s[k..]);
      assert "." + "." == ".." && "." + "%2e" == ".%2e" && "%2e" + "." == "%2e." && "%2e" + "%2e" == "%2e%2e";
    }
    DotLowersIf(s);
  }

  lemma DotLowers(dot: string)
    requires IsDot(dot)
    ensures LowerHex(dot) == if |dot| == 1 then "." else "%2e"
  {
  }

  lemma DotLowersIf(s: string)
    ensures IsDot(s) ==> IsSingleDot(s)
  {
    if IsDot(s) {
      DotLowers(s);
    }
  }

  lemma LowerHexParts(s: string, k: nat)
    requires k <= |s|
    ensures LowerHex(s) == LowerHex(s[..k]) + LowerHex(s[k..])
  {
  }

  /** A double dot in any spelling is two dots. */
  lemma TwoDots(s: string) returns (k: nat)
    requires IsDoubleDot(s)
    ensures k <= |s| && IsDot(s[..k]) && IsDot(s[k..])
  {
    var low := LowerHex(s);
    k := if low[0] == '.' then 1 else 3;
    LowerHexParts(s, k);
    assert low[..k] == LowerHex(s[..k]) && low[k..] == LowerHex(s[k..]);
    assert low[..k] == "." || low[..k] == "%2e";
    assert low[k..] == "." || low[k..] == "%2e";
    LowerDot(s[..k]);
    LowerDot(s[k..]);
  }

  /** Every spelling of a dot segment decodes to dots. */
  lemma DotsDecode(s: string)
    requires IsSingleDot(s) || IsDoubleDot(s)
    ensures Decode(s) == Some(DOT) || Decode(s) == Some(DOTS)
  {
    assert DOT + [] == DOT && DOT + DOT == DOTS;
    if IsSingleDot(s) {
      LowerDot(s);
      DotPrepends(s, "");
      assert s + "" == s;
    } else {
      var k := TwoDots(s);
      DotPrepends(s[k..], "");
      assert s[k..] + "" == s[k..] && s[..k] + s[k..] == s;
      DotPrepends(s[..k], s[k..]);
    }
  }

  /** An accepted id encodes to a segment the parser leaves alone: also for `%2e` in any case. */
  lemma EncodedIdIsPlain(id: seq<Byte>)
    requires id != [] && id != DOT && id != DOTS
    ensures IsPlainSegment(Encode(IsLiteralPchar, id))
  {
    var s := Encode(IsLiteralPchar, id);
    EncodeIsWellEncoded(IsLiteralPchar, id);
    WellEncodedIsPlain(s);
    DecodeEncode(IsLiteralPchar, id);
    if IsSingleDot(s) || IsDoubleDot(s) {
      DotsDecode(s);
    }
  }
}
