/** The string operations the connectors take from Rust's standard library. */
module Text {

  lemma Associate<T>(a: seq<T>, b: seq<T>, c: seq<T>)
    ensures a + b + c == a + (b + c)
  {
  }

  /** The position of the first `c` in `s`, or `|s|` when there is none. */
  function FirstIndex(s: string, c: char): (i: nat)
    ensures i <= |s| && (i < |s| ==> s[i] == c)
    ensures forall j :: 0 <= j < i ==> s[j] != c
  {
    if s == [] || s[0] == c then 0 else 1 + FirstIndex(s[1..], c)
  }

  lemma FirstIndexAt(s: string, c: char, i: nat)
    requires i < |s| && s[i] == c && forall j :: 0 <= j < i ==> s[j] != c
    ensures FirstIndex(s, c) == i
  {
    var k := FirstIndex(s, c);
    assert !(i < k) && !(k < i);
  }

  lemma FirstIndexNone(s: string, c: char)
    requires c !in s
    ensures FirstIndex(s, c) == |s|
  {
  }

  /** Rust's `char::is_whitespace`: the Unicode White_Space property. */
  predicate IsWhitespace(c: char) {
    || '\U{9}' <= c <= '\U{d}' || c == ' ' || c == '\U{85}' || c == '\U{a0}' || c == '\U{1680}'
    || '\U{2000}' <= c <= '\U{200a}' || c == '\U{2028}' || c == '\U{2029}' || c == '\U{202f}'
    || c == '\U{205f}' || c == '\U{3000}'
  }

  predicate AllWhitespace(s: string) {
    forall c :: c in s ==> IsWhitespace(c)
  }

  function Spaces(n: nat): string {
    seq(n, _ => ' ')
  }

  function TrimStart(s: string): string {
    if s != "" && IsWhitespace(s[0]) then TrimStart(s[1..]) else s
  }

  function TrimEnd(s: string): string {
    if s != "" && IsWhitespace(s[|s| - 1]) then TrimEnd(s[..|s| - 1]) else s
  }

  function Trim(s: string): string {
    TrimEnd(TrimStart(s))
  }

  /** `s` is what trimming leaves alone. */
  predicate Trimmed(s: string) {
    s == "" || (!IsWhitespace(s[0]) && !IsWhitespace(s[|s| - 1]))
  }

  lemma {:induction false} TrimStartPad(pad: string, s: string)
    requires AllWhitespace(pad) && (s == "" || !IsWhitespace(s[0]))
    ensures TrimStart(pad + s) == s
    decreases |pad|
  {
    if pad == "" {
      assert pad + s == s;
    } else {
      assert pad[0] in pad && (pad + s)[1..] == pad[1..] + s;
      TrimStartPad(pad[1..], s);
    }
  }

  lemma {:induction false} TrimEndPad(s: string, pad: string)
    requires AllWhitespace(pad) && (s == "" || !IsWhitespace(s[|s| - 1]))
    ensures TrimEnd(s + pad) == s
    decreases |pad|
  {
    if pad == "" {
      assert s + pad == s;
    } else {
      var n := |pad| - 1;
      assert pad[n] in pad && (s + pad)[..|s| + n] == s + pad[..n];
      TrimEndPad(s, pad[..n]);
    }
  }

  lemma TrimPadded(left: string, s: string, right: string)
    requires AllWhitespace(left) && AllWhitespace(right) && Trimmed(s)
    ensures Trim(left + s + right) == s
  {
    if s == "" {
      assert left + s + right == (left + right) + "";
      TrimStartPad(left + right, "");
    } else {
      assert left + s + right == left + (s + right);
      TrimStartPad(left, s + right);
      TrimEndPad(s, right);
    }
  }

  function Join(parts: seq<string>, sep: string): string {
    if parts == [] then ""
    else if |parts| == 1 then parts[0]
    else parts[0] + sep + Join(parts[1..], sep)
  }

  /** `str::split`: the parts between separators, always at least one. */
  function SplitOn(s: string, c: char): (parts: seq<string>)
    ensures parts != []
    decreases |s|
  {
    var i := FirstIndex(s, c);
    if i == |s| then [s] else [s[..i]] + SplitOn(s[i + 1..], c)
  }

  lemma CutAt(s: string, i: nat)
    requires i < |s|
    ensures s[..i] + [s[i]] + s[i + 1..] == s
  {
  }

  lemma {:induction false} JoinSplit(s: string, c: char)
    ensures Join(SplitOn(s, c), [c]) == s
    decreases |s|
  {
    var i := FirstIndex(s, c);
    if i < |s| {
      var tail := s[i + 1..];
      JoinSplit(tail, c);
      JoinFirst(s[..i], SplitOn(tail, c), [c]);
      CutAt(s, i);
    }
  }

  lemma JoinFirst(p: string, parts: seq<string>, sep: string)
    requires parts != []
    ensures Join([p] + parts, sep) == p + sep + Join(parts, sep)
  {
    assert ([p] + parts)[1..] == parts;
  }

  lemma SplitFirstPart(p: string, c: char, rest: string)
    requires c !in p
    ensures SplitOn(p + [c] + rest, c) == [p] + SplitOn(rest, c)
  {
    var s := p + [c] + rest;
    assert s[..|p|] == p && s[|p| + 1..] == rest;
    assert forall j :: 0 <= j < |p| ==> s[j] == p[j];
    FirstIndexAt(s, c, |p|);
  }

  lemma SplitWhole(p: string, c: char)
    requires c !in p
    ensures SplitOn(p, c) == [p]
  {
    FirstIndexNone(p, c);
  }

  lemma {:induction false} SplitJoin(parts: seq<string>, c: char)
    requires parts != [] && forall i :: 0 <= i < |parts| ==> c !in parts[i]
    ensures SplitOn(Join(parts, [c]), c) == parts
    decreases |parts|
  {
    if |parts| == 1 {
      SplitWhole(parts[0], c);
      assert parts == [parts[0]];
    } else {
      SplitJoin(parts[1..], c);
      SplitFirstPart(parts[0], c, Join(parts[1..], [c]));
      assert parts == [parts[0]] + parts[1..];
    }
  }

  predicate NoNewline(s: string) {
    '\n' !in s
  }

  function Unlines(lines: seq<string>): string {
    if lines == [] then "" else lines[0] + "\n" + Unlines(lines[1..])
  }

  lemma {:induction false} UnlinesAppend(a: seq<string>, b: seq<string>)
    ensures Unlines(a + b) == Unlines(a) + Unlines(b)
    decreases |a|
  {
    if a == [] {
      assert a + b == b;
    } else {
      assert (a + b)[1..] == a[1..] + b;
      UnlinesAppend(a[1..], b);
    }
  }

  /** One more line pushed. */
  lemma UnlinesPush(lines: seq<string>, line: string)
    ensures Unlines(lines + [line]) == Unlines(lines) + (line + "\n")
  {
    UnlinesAppend(lines, [line]);
    assert [line][1..] == [];
  }

  /** `split` takes lines off the front of a text, one by one. */
  ghost predicate TakesLines(split: string -> seq<string>) {
    forall line: string, rest: string :: NoNewline(line) ==> split(line + "\n" + rest) == [line] + split(rest)
  }

  lemma {:induction false} SplitLineByLine(split: string -> seq<string>, lines: seq<string>, tail: string)
    requires TakesLines(split)
    requires forall i :: 0 <= i < |lines| ==> NoNewline(lines[i])
    ensures split(Unlines(lines) + tail) == lines + split(tail)
    decreases |lines|
  {
    if lines == [] {
      assert Unlines(lines) + tail == tail && lines + split(tail) == split(tail);
    } else {
      var rest := Unlines(lines[1..]) + tail;
      assert Unlines(lines) + tail == lines[0] + "\n" + rest;
      SplitLineByLine(split, lines[1..], tail);
      assert [lines[0]] + (lines[1..] + split(tail)) == lines + split(tail);
    }
  }

  lemma SplitUnlines(lines: seq<string>, tail: string)
    requires forall i :: 0 <= i < |lines| ==> NoNewline(lines[i])
    ensures SplitOn(Unlines(lines) + tail, '\n') == lines + SplitOn(tail, '\n')
  {
    var split := (s: string) => SplitOn(s, '\n');
    forall line: string, rest: string | NoNewline(line)
      ensures split(line + "\n" + rest) == [line] + split(rest)
    {
      SplitFirstPart(line, '\n', rest);
    }
    SplitLineByLine(split, lines, tail);
  }

  lemma SplitNothing(c: char)
    ensures SplitOn("", c) == [""] && SplitOn([c], c) == ["", ""]
  {
    SplitFirstPart("", c, "");
    assert "" + [c] + "" == [c];
  }

  function StripCr(s: string): string {
    if s != "" && s[|s| - 1] == '\r' then s[..|s| - 1] else s
  }

  function StripAllCr(parts: seq<string>): seq<string> {
    seq(|parts|, i requires 0 <= i < |parts| => StripCr(parts[i]))
  }

  function LinesOf(parts: seq<string>): seq<string>
    requires parts != []
  {
    var k := |parts| - 1;
    StripAllCr(parts[..k]) + if parts[k] == "" then [] else [parts[k]]
  }

  /** `str::lines`: a CR before the newline goes too, and a last line may lack its newline. */
  function Lines(text: string): seq<string> {
    LinesOf(SplitOn(text, '\n'))
  }

  lemma LinesOfTerminated(lines: seq<string>)
    ensures LinesOf(lines + [""]) == StripAllCr(lines)
  {
    assert (lines + [""])[..|lines|] == lines;
    assert StripAllCr(lines) + [] == StripAllCr(lines);
  }

  lemma LinesOfUnlines(lines: seq<string>)
    requires forall i :: 0 <= i < |lines| ==> NoNewline(lines[i])
    ensures Lines(Unlines(lines)) == StripAllCr(lines)
  {
    SplitNothing('\n');
    SplitUnlines(lines, "");
    LinesOfTerminated(lines);
    assert Unlines(lines) + "" == Unlines(lines);
  }

  /** A last line without its newline is a line as it stands. */
  lemma LinesOfOpenEnd(lines: seq<string>, last: string)
    requires forall i :: 0 <= i < |lines| ==> NoNewline(lines[i])
    requires last != "" && NoNewline(last)
    ensures Lines(Unlines(lines) + last) == StripAllCr(lines) + [last]
  {
    SplitUnlines(lines, last);
    FirstIndexNone(last, '\n');
    assert (lines + [last])[..|lines|] == lines;
  }
}
