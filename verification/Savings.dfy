/** The printed report of `tokenfuse savings`, read back into a record. */
module Savings {
  import opened Wrappers
  import opened Text
  import opened Decimal
  import opened Money

  datatype Savings = Savings(found: bool, blockedSpend: int, blockedCalls: nat, budgetBreaks: nat,
                             cacheSaved: int, routerSaved: int, byReason: map<string, int>)

  const NOTHING := Savings(false, 0, 0, 0, 0, 0, map[])

  /** ArithmeticOverflow is an amount beyond i64: see Money. */
  datatype SavingsError = Unreadable | ArithmeticOverflow

  // ---- words -----------------------------------------------------------------

  /** The length of the first word of `s`. */
  function WordLength(s: string): (n: nat)
    ensures n <= |s| && (s != "" && !IsWhitespace(s[0]) ==> n > 0)
  {
    if s == "" || IsWhitespace(s[0]) then 0 else 1 + WordLength(s[1..])
  }

  /** `str::split_whitespace` */
  function Tokens(s: string): seq<string>
    decreases |s|
  {
    if s == "" then []
    else if IsWhitespace(s[0]) then Tokens(s[1..])
    else [s[..WordLength(s)]] + Tokens(s[WordLength(s)..])
  }

  predicate IsWord(w: string) {
    w != "" && forall i :: 0 <= i < |w| ==> !IsWhitespace(w[i])
  }

  lemma {:induction false} WordLengthOf(w: string, rest: string)
    requires (w == "" || IsWord(w)) && (rest == "" || IsWhitespace(rest[0]))
    ensures WordLength(w + rest) == |w|
    decreases |w|
  {
    if w == "" {
      assert w + rest == rest;
    } else {
      assert (w + rest)[1..] == w[1..] + rest;
      WordLengthOf(w[1..], rest);
    }
  }

  lemma TokensWord(w: string, rest: string)
    requires IsWord(w) && (rest == "" || IsWhitespace(rest[0]))
    ensures Tokens(w + rest) == [w] + Tokens(rest)
  {
    WordLengthOf(w, rest);
    assert (w + rest)[..|w|] == w && (w + rest)[|w|..] == rest;
  }

  lemma {:induction false} TokensSkip(pad: string, rest: string)
    requires AllWhitespace(pad)
    ensures Tokens(pad + rest) == Tokens(rest)
    decreases |pad|
  {
    if pad == "" {
      assert pad + rest == rest;
    } else {
      assert pad[0] in pad && (pad + rest)[1..] == pad[1..] + rest;
      TokensSkip(pad[1..], rest);
    }
  }

  lemma {:induction false} TokensOfSentence(words: seq<string>)
    requires forall i :: 0 <= i < |words| ==> IsWord(words[i])
    ensures Tokens(Join(words, " ")) == words
    decreases |words|
  {
    if |words| == 1 {
      TokensWord(words[0], "");
      assert words[0] + "" == words[0];
    } else if words != [] {
      var rest := Join(words[1..], " ");
      TokensOfSentence(words[1..]);
      assert Join(words, " ") == words[0] + (" " + rest);
      TokensWord(words[0], " " + rest);
      TokensSkip(" ", rest);
    }
  }

  // ---- parsing -----------------------------------------------------------------

  datatype Summary = Runaway | Cache | Router

  function Prefix(k: Summary): string {
    match k
    case Runaway => "runaway spend stopped:"
    case Cache => "cache saved:"
    case Router => "router saved:"
  }

  /** Which summary line a trimmed line is, tried in the source's order. */
  function KindOf(t: string): Option<Summary> {
    if Prefix(Runaway) <= t then Some(Runaway)
    else if Prefix(Cache) <= t then Some(Cache)
    else if Prefix(Router) <= t then Some(Router)
    else None
  }

  datatype Acc = Acc(out: Savings, seen: set<Summary>)

  function Usd(s: string): Result<int, SavingsError> {
    match ParseUsd(s)
    case NotMoney => Err(Unreadable)
    case Overflow => Err(ArithmeticOverflow)
    case Micro(v) => Ok(v)
  }

  function FirstWord(tokens: seq<string>, w: string): (i: nat)
    ensures i <= |tokens|
  {
    if tokens == [] || tokens[0] == w then 0 else 1 + FirstWord(tokens[1..], w)
  }

  function CountAt(tokens: seq<string>, i: nat): Option<nat> {
    if i < |tokens| then ParseU64(tokens[i]) else None
  }

  /** The two counts of `N blocked call(s) across M budget break(s)`. */
  function ParseClause(clause: string): Option<(nat, nat)> {
    ParseCounts(Tokens(clause))
  }

  function ParseCounts(tokens: seq<string>): Option<(nat, nat)> {
    var across := FirstWord(tokens, "across");
    var calls, breaks := CountAt(tokens, 0), CountAt(tokens, across + 1);
    if calls.None? || across == |tokens| || breaks.None? then None
    else Some((calls.value, breaks.value))
  }

  function ParseRunaway(out: Savings, rest: string): Result<Savings, SavingsError> {
    var i := FirstIndex(rest, '(');
    if i == |rest| then Err(Unreadable) else ParseBlocked(out, rest[..i], TrimEnd(rest[i + 1..]))
  }

  /** The amount before the parenthesis, and the counts inside it. */
  function ParseBlocked(out: Savings, money: string, clause: string): Result<Savings, SavingsError> {
    match Usd(money)
    case Err(e) => Err(e)
    case Ok(v) =>
      if clause == "" || clause[|clause| - 1] != ')' then Err(Unreadable)
      else
        match ParseClause(clause[..|clause| - 1])
        case None => Err(Unreadable)
        case Some((calls, breaks)) => Ok(out.(blockedSpend := v, blockedCalls := calls, budgetBreaks := breaks))
  }

  function ParseSummary(out: Savings, k: Summary, rest: string): Result<Savings, SavingsError> {
    if k == Runaway then ParseRunaway(out, rest)
    else
      match Usd(rest)
      case Err(e) => Err(e)
      case Ok(v) => Ok(if k == Cache then out.(cacheSaved := v) else out.(routerSaved := v))
  }

  function ParseReason(out: Savings, t: string): Result<Savings, SavingsError> {
    var tokens := Tokens(t);
    if |tokens| != 2 then Err(Unreadable)
    else
      match Usd(tokens[1])
      case Err(e) => Err(e)
      case Ok(v) => Ok(out.(byReason := out.byReason[tokens[0] := v]))
  }

  function ApplyTrimmed(acc: Acc, t: string): Result<Acc, SavingsError> {
    if t == "" then Ok(acc)
    else
      match KindOf(t)
      case Some(k) =>
        (match ParseSummary(acc.out, k, Trim(t[|Prefix(k)|..]))
         case Ok(out) => Ok(Acc(out, acc.seen + {k}))
         case Err(e) => Err(e))
      case None =>
        match ParseReason(acc.out, t)
        case Ok(out) => Ok(acc.(out := out))
        case Err(e) => Err(e)
  }

  function ApplyLines(acc: Acc, lines: seq<string>): Result<Acc, SavingsError>
    decreases |lines|
  {
    if lines == [] then Ok(acc)
    else
      match ApplyTrimmed(acc, Trim(lines[0]))
      case Ok(next) => ApplyLines(next, lines[1..])
      case Err(e) => Err(e)
  }

  predicate Contains(s: string, part: string) {
    exists k :: 0 <= k <= |s| - |part| && part <= s[k..]
  }

  const NO_TRACE := "no trace yet"
  const TITLE := "TokenFuse savings"
  const START := Acc(NOTHING.(found := true), {})

  function ParseLines(lines: seq<string>): Result<Savings, SavingsError> {
    if lines == [] then Err(Unreadable)
    else if Contains(lines[0], NO_TRACE) then Ok(NOTHING)
    else if !(TITLE <= lines[0]) then Err(Unreadable)
    else
      match ApplyLines(START, lines[1..])
      case Err(e) => Err(e)
      case Ok(acc) => if acc.seen == {Runaway, Cache, Router} then Ok(acc.out) else Err(Unreadable)
  }

  method ParseSavingsText(text: string) returns (r: Result<Savings, SavingsError>)
    ensures r == ParseLines(Lines(text))
  {
    var lines := Lines(text);
    if lines == [] {
      return Err(Unreadable);
    }
    if Contains(lines[0], NO_TRACE) {
      return Ok(NOTHING);
    }
    if !(TITLE <= lines[0]) {
      return Err(Unreadable);
    }
    var out := NOTHING.(found := true);
    var sawRunaway, sawCache, sawRouter := false, false, false;
    var i := 1;
    while i < |lines|
      invariant 1 <= i <= |lines|
      invariant ApplyLines(START, lines[1..]) ==
                ApplyLines(Acc(out, Seen(sawRunaway, sawCache, sawRouter)), lines[i..])
    {
      var t := Trim(lines[i]);
      NextLine(Acc(out, Seen(sawRunaway, sawCache, sawRouter)), lines, i);
      if t != "" {
        var kind := KindOf(t);
        var next := if kind.Some? then ParseSummary(out, kind.value, Trim(t[|Prefix(kind.value)|..]))
                    else ParseReason(out, t);
        if next.Err? {
          return Err(next.error);
        }
        if kind.Some? {
          SeenGrows(sawRunaway, sawCache, sawRouter, kind.value);
        }
        out := next.value;
        sawRunaway := sawRunaway || kind == Some(Runaway);
        sawCache := sawCache || kind == Some(Cache);
        sawRouter := sawRouter || kind == Some(Router);
      }
      i := i + 1;
    }
    SeenAll(sawRunaway, sawCache, sawRouter);
    return if sawRunaway && sawCache && sawRouter then Ok(out) else Err(Unreadable);
  }

  lemma NextLine(acc: Acc, lines: seq<string>, i: nat)
    requires i < |lines|
    ensures
      var r := ApplyTrimmed(acc, Trim(lines[i]));
      ApplyLines(acc, lines[i..]) == if r.Ok? then ApplyLines(r.value, lines[i + 1..]) else Err(r.error)
  {
    assert lines[i..][1..] == lines[i + 1..];
  }

  function Seen(runaway: bool, cache: bool, router: bool): set<Summary> {
    (if runaway then {Runaway} else {}) + (if cache then {Cache} else {}) + (if router then {Router} else {})
  }

  lemma SeenGrows(runaway: bool, cache: bool, router: bool, k: Summary)
    ensures Seen(runaway, cache, router) + {k}
         == Seen(runaway || k == Runaway, cache || k == Cache, router || k == Router)
  {
  }

  lemma SeenAll(runaway: bool, cache: bool, router: bool)
    ensures Seen(runaway, cache, router) == {Runaway, Cache, Router} <==> runaway && cache && router
  {
    assert Runaway in {Runaway, Cache, Router} && Cache in {Runaway, Cache, Router} && Router in {Runaway, Cache, Router};
  }

  // ---- what is accepted and what is rejected --------------------------------------

  /** How the three summary lines begin. */
  ghost predicate Begins(t: string, k: Summary) {
    match k
    case Runaway => "runaway spend stopped:" <= t
    case Cache => "cache saved:" <= t
    case Router => "router saved:" <= t
  }

  lemma KindBegins(t: string, k: Summary)
    ensures KindOf(t) == Some(k) ==> Begins(t, k)
    ensures KindOf(t) == None ==> !Begins(t, k)
  {
  }

  /** A report that says there is no trace yet: nothing was found, and nothing is counted. */
  lemma NoTraceReport(text: string)
    requires Lines(text) != [] && Contains(Lines(text)[0], "no trace yet")
    ensures ParseLines(Lines(text)) == Ok(Savings(false, 0, 0, 0, 0, 0, map[]))
  {
  }

  /** Any other first line must be the title, and then something was found. */
  lemma TitleDecides(text: string)
    requires Lines(text) == [] || !Contains(Lines(text)[0], "no trace yet")
    ensures ParseLines(Lines(text)).Ok? ==>
              Lines(text) != [] && "TokenFuse savings" <= Lines(text)[0] && ParseLines(Lines(text)).value.found
    ensures Lines(text) == [] || !("TokenFuse savings" <= Lines(text)[0]) ==>
              ParseLines(Lines(text)) == Err(Unreadable)
  {
    if Lines(text) != [] {
      FoundStays(START, Lines(text)[1..]);
    }
  }

  lemma {:induction false} FoundStays(acc: Acc, lines: seq<string>)
    ensures ApplyLines(acc, lines).Ok? ==> ApplyLines(acc, lines).value.out.found == acc.out.found
    decreases |lines|
  {
    if lines != [] && ApplyTrimmed(acc, Trim(lines[0])).Ok? {
      FoundStays(ApplyTrimmed(acc, Trim(lines[0])).value, lines[1..]);
    }
  }

  /** A line that is neither blank nor a summary nor two words, or whose second word is no money. */
  ghost predicate Unrecognized(t: string) {
    && t != "" && (forall k :: !Begins(t, k))
    && (|Tokens(t)| == 2 ==> ParseUsd(Tokens(t)[1]) == NotMoney)
  }

  lemma UnrecognizedRefused(acc: Acc, t: string)
    requires Unrecognized(t)
    ensures ApplyTrimmed(acc, t) == Err(Unreadable)
  {
    forall k ensures KindOf(t) != Some(k) {
      KindBegins(t, k);
    }
  }

  /** One such line anywhere below the title and the text is rejected, not guessed at. */
  lemma {:induction false} UnrecognizedRejects(acc: Acc, lines: seq<string>, i: nat)
    requires i < |lines| && Unrecognized(Trim(lines[i]))
    ensures ApplyLines(acc, lines).Err?
    decreases |lines|
  {
    if i == 0 {
      UnrecognizedRefused(acc, Trim(lines[0]));
    } else if ApplyTrimmed(acc, Trim(lines[0])).Ok? {
      UnrecognizedRejects(ApplyTrimmed(acc, Trim(lines[0])).value, lines[1..], i - 1);
    }
  }

  /** A summary whose amount is no money, or whose parenthesis or counts are missing, is refused. */
  lemma SummaryRefused(out: Savings, k: Summary, rest: string)
    ensures k != Runaway && ParseUsd(rest) == NotMoney ==> ParseSummary(out, k, rest) == Err(Unreadable)
    ensures k != Runaway && ParseUsd(rest) == Overflow ==> ParseSummary(out, k, rest) == Err(ArithmeticOverflow)
    ensures k == Runaway && '(' !in rest ==> ParseSummary(out, k, rest) == Err(Unreadable)
  {
    if '(' !in rest {
      FirstIndexNone(rest, '(');
    }
  }

  /** The parenthesis must close, and hold a count first and the word `across`. */
  lemma BlockedRefused(out: Savings, money: string, clause: string, v: int)
    requires ParseUsd(money) == Micro(v)
    ensures clause == "" || clause[|clause| - 1] != ')' ==> ParseBlocked(out, money, clause) == Err(Unreadable)
    ensures ParseClause(clause).None? ==> ParseBlocked(out, money, clause + ")") == Err(Unreadable)
  {
    assert (clause + ")")[..|clause|] == clause;
  }

  lemma CountsRefused(clause: string)
    ensures "across" !in Tokens(clause) ==> ParseClause(clause) == None
    ensures Tokens(clause) != [] && ParseU64(Tokens(clause)[0]).None? ==> ParseClause(clause) == None
  {
    if "across" !in Tokens(clause) {
      NoSuchWord(Tokens(clause), "across");
    }
  }

  lemma {:induction false} NoSuchWord(tokens: seq<string>, w: string)
    requires w !in tokens
    ensures FirstWord(tokens, w) == |tokens|
    decreases |tokens|
  {
    if tokens != [] {
      NoSuchWord(tokens[1..], w);
    }
  }

  lemma {:induction false} SeenMeansLine(acc: Acc, lines: seq<string>, k: Summary)
    requires ApplyLines(acc, lines).Ok? && k in ApplyLines(acc, lines).value.seen && k !in acc.seen
    ensures exists i :: 0 <= i < |lines| && KindOf(Trim(lines[i])) == Some(k)
    decreases |lines|
  {
    if KindOf(Trim(lines[0])) != Some(k) {
      SeenMeansLine(ApplyTrimmed(acc, Trim(lines[0])).value, lines[1..], k);
      var i :| 0 <= i < |lines| - 1 && KindOf(Trim(lines[1..][i])) == Some(k);
      assert KindOf(Trim(lines[i + 1])) == Some(k);
    }
  }

  /** An accepted text says in its header that there is no trace yet, or has all three summary lines. */
  lemma AcceptedHasAllSummaries(text: string, k: Summary)
    requires ParseLines(Lines(text)).Ok?
    ensures
      var lines := Lines(text);
      && lines != []
      && (Contains(lines[0], "no trace yet") || exists i :: 0 < i < |lines| && Begins(Trim(lines[i]), k))
  {
    var lines := Lines(text);
    if !Contains(lines[0], NO_TRACE) {
      assert k in {Runaway, Cache, Router};
      SeenMeansLine(START, lines[1..], k);
      var i :| 0 <= i < |lines| - 1 && KindOf(Trim(lines[1..][i])) == Some(k);
      KindBegins(Trim(lines[i + 1]), k);
      assert Begins(Trim(lines[i + 1]), k);
    }
  }
}
