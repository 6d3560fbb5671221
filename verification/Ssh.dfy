/** Remote commands: what a POSIX shell makes of the strings the SSH client sends. */
module Ssh {
  import opened Wrappers
  import opened Text
  import opened Decimal

  // ---- the shell (Shell Command Language, sections 2.2.1, 2.2.2 and 2.3) -------

  predicate IsBlank(c: char) {
    c == ' ' || c == '\t'
  }

  /** Characters that mean something to the shell when they are not quoted. */
  predicate IsSpecial(c: char) {
    || c == '|' || c == '&' || c == ';' || c == '<' || c == '>' || c == '(' || c == ')'
    || c == '$' || c == '`' || c == '"' || c == '*' || c == '?' || c == '[' || c == ']'
    || c == '#' || c == '~' || c == '=' || c == '%' || c == '{' || c == '}' || c == '!'
    || c == '^' || c == '\n'
  }

  function WordSoFar(word: Option<string>): string {
    if word.Some? then word.value else ""
  }

  function Finish(word: Option<string>): seq<string> {
    if word.Some? then [word.value] else []
  }

  function Prepend(first: seq<string>, words: Option<seq<string>>): Option<seq<string>> {
    if words.None? then None else Some(first + words.value)
  }

  /**
   * The words of a simple command, `word` being the one already begun. None when
   * a quote is left open or an unquoted special character asks for more than words.
   */
  function Words(s: string, word: Option<string>): Option<seq<string>>
    decreases |s|
  {
    if s == "" then Some(Finish(word))
    else if IsBlank(s[0]) then Prepend(Finish(word), Words(s[1..], None))
    else if s[0] == '\'' then
      var k := FirstIndex(s[1..], '\'');
      if k == |s| - 1 then None
      else Words(s[k + 2..], Some(WordSoFar(word) + s[1..k + 1]))
    else if s[0] == '\\' then
      if |s| == 1 then None
      else if s[1] == '\n' then Words(s[2..], word)
      else Words(s[2..], Some(WordSoFar(word) + [s[1]]))
    else if IsSpecial(s[0]) then None
    else Words(s[1..], Some(WordSoFar(word) + [s[0]]))
  }

  function Tokenize(s: string): Option<seq<string>> {
    Words(s, None)
  }

  // ---- quoting -----------------------------------------------------------------

  function QuoteChar(c: char): string {
    if c == '\'' then "'\\''" else [c]
  }

  function QuoteBody(s: string): string {
    if s == "" then "" else QuoteChar(s[0]) + QuoteBody(s[1..])
  }

  function Quoted(s: string): string {
    "'" + QuoteBody(s) + "'"
  }

  lemma {:induction false} QuoteBodyAppend(a: string, b: string)
    ensures QuoteBody(a + b) == QuoteBody(a) + QuoteBody(b)
    decreases |a|
  {
    if a == "" {
      assert a + b == b;
    } else {
      assert (a + b)[1..] == a[1..] + b;
      QuoteBodyAppend(a[1..], b);
    }
  }

  lemma QuoteBodyPush(s: string, i: nat)
    requires i < |s|
    ensures QuoteBody(s[..i + 1]) == QuoteBody(s[..i]) + QuoteChar(s[i])
  {
    assert s[..i + 1] == s[..i] + [s[i]] && [s[i]][1..] == "";
    QuoteBodyAppend(s[..i], [s[i]]);
  }

  method ShellSingleQuote(s: string) returns (out: string)
    ensures out == Quoted(s)
  {
    out := "'";
    ghost var body := "";
    for i := 0 to |s|
      invariant out == "'" + body && body == QuoteBody(s[..i])
    {
      QuoteBodyPush(s, i);
      body := body + QuoteChar(s[i]);
      if s[i] == '\'' {
        out := out + "'\\''";
      } else {
        out := out + [s[i]];
      }
    }
    assert s[..|s|] == s;
    out := out + "'";
  }

  lemma {:induction false} UnquotedBody(s: string)
    requires '\'' !in s
    ensures QuoteBody(s) == s
    decreases |s|
  {
    if s != "" {
      UnquotedBody(s[1..]);
    }
  }

  /** Reading `text` adds exactly `value` to the word begun, whatever stands around it. */
  ghost predicate Adds(text: string, value: string) {
    AddsFor(Words, text, value)
  }

  ghost predicate AddsFor(words: (string, Option<string>) -> Option<seq<string>>, text: string, value: string) {
    forall rest: string, word: Option<string> ::
      words(text + rest, word) == words(rest, Some(WordSoFar(word) + value))
  }

  lemma AddsSequence(words: (string, Option<string>) -> Option<seq<string>>,
                     a: string, x: string, b: string, y: string)
    requires AddsFor(words, a, x) && AddsFor(words, b, y)
    ensures AddsFor(words, a + b, x + y)
  {
    forall rest: string, word: Option<string>
      ensures words(a + b + rest, word) == words(rest, Some(WordSoFar(word) + (x + y)))
    {
      assert a + b + rest == a + (b + rest);
      var word1 := Some(WordSoFar(word) + x);
      assert words(a + (b + rest), word) == words(b + rest, word1) == words(rest, Some(WordSoFar(word1) + y));
      assert WordSoFar(word) + x + y == WordSoFar(word) + (x + y);
    }
  }

  /** A single-quoted stretch without quotes is taken as it is. */
  lemma SingleQuotesAdd(text: string)
    requires '\'' !in text
    ensures Adds("'" + text + "'", text)
  {
    forall rest: string, word: Option<string>
      ensures Words("'" + text + "'" + rest, word) == Words(rest, Some(WordSoFar(word) + text))
    {
      var s := "'" + text + "'" + rest;
      assert s[1..] == text + "'" + rest && (text + "'" + rest)[..|text|] == text;
      FirstIndexAt(s[1..], '\'', |text|);
      assert s[|text| + 2..] == rest && s[1..|text| + 1] == text;
    }
  }

  lemma EscapedQuoteAdds()
    ensures Adds("\\'", "'")
  {
    forall rest: string, word: Option<string>
      ensures Words("\\'" + rest, word) == Words(rest, Some(WordSoFar(word) + "'"))
    {
      assert ("\\'" + rest)[2..] == rest;
    }
  }

  lemma QuotedAtQuote(head: string, tail: string)
    requires '\'' !in head
    ensures Quoted(head + ("'" + tail)) == "'" + head + "'" + ("\\'" + Quoted(tail))
  {
    UnquotedBody(head);
    assert ("'" + tail)[1..] == tail;
    QuoteBodyAppend(head, "'" + tail);
  }

  /** Whatever `s` is, its quoted form adds exactly `s`. */
  lemma {:induction false} QuotedAdds(s: string)
    ensures Adds(Quoted(s), s)
    decreases |s|
  {
    var i := FirstIndex(s, '\'');
    var head := s[..i];
    SingleQuotesAdd(head);
    if i == |s| {
      assert head == s;
      UnquotedBody(s);
    } else {
      var tail := s[i + 1..];
      assert s == head + ("'" + tail);
      QuotedAtQuote(head, tail);
      QuotedAdds(tail);
      EscapedQuoteAdds();
      AddsSequence(Words, "\\'", "'", Quoted(tail), tail);
      AddsSequence(Words, "'" + head + "'", head, "\\'" + Quoted(tail), "'" + tail);
    }
  }

  /** Round trip: the shell reads a quoted string as one word, that string. */
  lemma QuotedIsOneWord(s: string)
    ensures Tokenize(Quoted(s)) == Some([s])
  {
    QuotedAdds(s);
    AddsAlone(Quoted(s), s);
  }

  lemma AddsAlone(text: string, value: string)
    requires Adds(text, value)
    ensures Tokenize(text) == Some([value])
  {
    assert Words(text + "", None) == Words("", Some(WordSoFar(None) + value));
    assert text + "" == text && "" + value == value;
  }

  // ---- the commands ----------------------------------------------------------------

  function CatCommand(path: string): string {
    "cat -- " + Quoted(path)
  }

  function SaturatingNext(offset: nat): nat {
    if offset < U64_MAX then offset + 1 else U64_MAX
  }

  function TailCommand(path: string, fromOffset: nat): string {
    "tail -c " + ("+" + Digits(SaturatingNext(fromOffset))) + " -F " + Quoted(path)
  }

  predicate IsOrdinary(s: string) {
    forall i :: 0 <= i < |s| ==> !IsBlank(s[i]) && !IsSpecial(s[i]) && s[i] != '\'' && s[i] != '\\'
  }

  lemma {:induction false} OrdinaryAdds(text: string)
    requires IsOrdinary(text) && text != ""
    ensures Adds(text, text)
    decreases |text|
  {
    var c := [text[0]];
    forall rest: string, word: Option<string>
      ensures Words(c + rest, word) == Words(rest, Some(WordSoFar(word) + c))
    {
      assert (c + rest)[1..] == rest;
    }
    if |text| > 1 {
      OrdinaryAdds(text[1..]);
      AddsSequence(Words, c, c, text[1..], text[1..]);
      assert c + text[1..] == text;
    } else {
      assert c == text;
    }
  }

  /** An ordinary word and a blank come off the front of a command. */
  lemma WordThenBlank(text: string, rest: string)
    requires IsOrdinary(text) && text != ""
    ensures Tokenize(text + " " + rest) == Prepend([text], Tokenize(rest))
  {
    assert text + " " + rest == text + (" " + rest) && (" " + rest)[1..] == rest && "" + text == text;
    OrdinaryAdds(text);
  }

  function Spaced(words: seq<string>, last: string): string {
    if words == [] then last else words[0] + " " + Spaced(words[1..], last)
  }

  lemma {:induction false} TokenizeSpaced(words: seq<string>, path: string)
    requires forall i :: 0 <= i < |words| ==> words[i] != "" && IsOrdinary(words[i])
    ensures Tokenize(Spaced(words, Quoted(path))) == Some(words + [path])
    decreases |words|
  {
    if words == [] {
      QuotedIsOneWord(path);
      assert [] + [path] == [path];
    } else {
      var rest := words[1..];
      assert words == [words[0]] + rest;
      TokenizeSpaced(rest, path);
      WordThenBlank(words[0], Spaced(rest, Quoted(path)));
      assert [words[0]] + (rest + [path]) == words + [path];
    }
  }

  function CatWords(): seq<string> {
    ["cat", "--"]
  }

  lemma CatIsSpaced(last: string)
    ensures "cat -- " + last == Spaced(CatWords(), last)
  {
    var words := CatWords();
    assert words[1..] == ["--"] && ["--"][1..] == [];
    assert Spaced(["--"], last) == "--" + " " + last;
  }

  /** Reading a file names exactly that file, whatever its name. */
  lemma CatReadsThatFile(path: string)
    ensures Tokenize(CatCommand(path)) == Some(["cat", "--", path])
  {
    assert IsOrdinary("cat") && IsOrdinary("--");
    CatIsSpaced(Quoted(path));
    TokenizeSpaced(CatWords(), path);
    assert CatWords() + [path] == ["cat", "--", path];
  }

  function TailWords(n: string): seq<string> {
    ["tail", "-c", n, "-F"]
  }

  /** Tailing a file names that file and starts at the byte after the offset. */
  lemma TailFollowsThatFile(path: string, fromOffset: nat)
    ensures Tokenize(TailCommand(path, fromOffset)) ==
            Some(["tail", "-c", "+" + Digits(SaturatingNext(fromOffset)), "-F", path])
  {
    var n := "+" + Digits(SaturatingNext(fromOffset));
    assert forall i :: 0 < i < |n| ==> IsDigit(n[i]);
    assert IsOrdinary(n) && IsOrdinary("tail") && IsOrdinary("-c") && IsOrdinary("-F");
    TailIsSpaced(n, Quoted(path));
    TokenizeSpaced(TailWords(n), path);
    assert TailWords(n) + [path] == ["tail", "-c", n, "-F", path];
  }

  lemma TailIsSpaced(n: string, last: string)
    ensures "tail -c " + n + " -F " + last == Spaced(TailWords(n), last)
  {
    var words := TailWords(n);
    assert words[1..] == ["-c", n, "-F"] && words[1..][1..] == [n, "-F"];
    assert words[1..][1..][1..] == ["-F"] && ["-F"][1..] == [];
    assert Spaced(["-F"], last) == "-F" + " " + last;
    assert Spaced([n, "-F"], last) == n + " " + ("-F" + " " + last);
    assert Spaced(["-c", n, "-F"], last) == "-c" + " " + (n + " " + ("-F" + " " + last));
  }

  /** `tail -c +N` counts from 1, so the offset comes back as long as it is not the last u64. */
  lemma TailOffsetIsExact(fromOffset: nat)
    requires fromOffset <= U64_MAX
    ensures
      var n := "+" + Digits(SaturatingNext(fromOffset));
      ParseU64(n).Some? && (ParseU64(n).value == fromOffset + 1 <==> fromOffset < U64_MAX)
  {
    var d := Digits(SaturatingNext(fromOffset));
    ValueOfDigits(SaturatingNext(fromOffset));
    assert ("+" + d)[1..] == d;
  }
}
