/** The report `tokenfuse savings` prints, and the proof that reading it gives the record back. */
module SavingsReport {
  import opened Wrappers
  import opened Text
  import opened Decimal
  import opened Money
  import opened Savings

  // ---- printing ------------------------------------------------------------------

  const HEADER := "TokenFuse savings \U{2014} from "

  function ClauseWords(calls: nat, breaks: nat): seq<string> {
    [Digits(calls), "blocked", "call(s)", "across", Digits(breaks), "budget", "break(s)"]
  }

  function RunawayRest(s: Savings): string {
    PrintUsd(s.blockedSpend) + "   " + "(" + (Join(ClauseWords(s.blockedCalls, s.budgetBreaks), " ") + ")")
  }

  function SummaryRest(k: Summary, s: Savings): string {
    match k
    case Runaway => RunawayRest(s)
    case Cache => PrintUsd(s.cacheSaved)
    case Router => PrintUsd(s.routerSaved)
  }

  /** The blanks that line the amounts up. */
  function SummaryPad(k: Summary): nat {
    match k
    case Runaway => 3
    case Cache => 13
    case Router => 12
  }

  function Label(k: Summary): string {
    match k
    case Runaway => "runaway spend stopped:"
    case Cache => "cache saved:"
    case Router => "router saved:"
  }

  /** A summary line without its two leading blanks. */
  function SummaryText(k: Summary, s: Savings): string {
    Label(k) + (Spaces(SummaryPad(k)) + SummaryRest(k, s))
  }

  function SummaryLine(k: Summary, s: Savings): string {
    Spaces(2) + SummaryText(k, s)
  }

  /** The reason padded to 16, a blank, the amount. */
  function ReasonText(reason: string, amount: int): string {
    reason + (Spaces(if |reason| < 16 then 17 - |reason| else 1) + PrintUsd(amount))
  }

  function ReasonLine(reason: string, amount: int): string {
    Spaces(4) + ReasonText(reason, amount)
  }

  const KINDS := [Runaway, Cache, Router]

  function SummaryLines(kinds: seq<Summary>, s: Savings): seq<string>
    decreases |kinds|
  {
    if kinds == [] then [] else [SummaryLine(kinds[0], s)] + SummaryLines(kinds[1..], s)
  }

  /** One line for each reason of `order`. */
  function ReasonLines(order: seq<string>, amounts: map<string, int>): seq<string>
    requires forall i :: 0 <= i < |order| ==> order[i] in amounts
  {
    seq(|order|, i requires 0 <= i < |order| => ReasonLine(order[i], amounts[order[i]]))
  }

  function ReportLines(dir: string, s: Savings, order: seq<string>): seq<string>
    requires forall i :: 0 <= i < |order| ==> order[i] in s.byReason
  {
    [HEADER + dir] + (SummaryLines(KINDS, s) + ReasonLines(order, s.byReason))
  }

  /** A report of amounts from 0 to i64::MAX under reasons that are single words. */
  ghost predicate Printable(s: Savings) {
    && s.found && s.blockedCalls <= U64_MAX && s.budgetBreaks <= U64_MAX
    && 0 <= s.blockedSpend <= I64_MAX && 0 <= s.cacheSaved <= I64_MAX && 0 <= s.routerSaved <= I64_MAX
    && (forall r :: r in s.byReason ==> IsWord(r) && 0 <= s.byReason[r] <= I64_MAX)
  }

  /** `order` names every reason of the report. */
  ghost predicate Enumerates(order: seq<string>, amounts: map<string, int>) {
    && (forall i :: 0 <= i < |order| ==> order[i] in amounts)
    && (forall r :: r in amounts ==> r in order)
  }

  // ---- pieces ----------------------------------------------------------------------

  lemma SpacesAreWhitespace(n: nat)
    ensures AllWhitespace(Spaces(n))
  {
  }

  /** A printed amount of at least zero: one word that begins with `$` and ends with a digit. */
  lemma UsdText(m: nat)
    ensures
      var t := PrintUsd(m);
      && IsWord(t) && t[0] == '$' && IsDigit(t[|t| - 1]) && '(' !in t && NoNewline(t)
  {
    var i, f := Digits(m / MILLION), Pad(m % MILLION, 6);
    var t := PrintUsd(m);
    assert t == "$" + (i + ("." + f));
    assert forall k :: 0 <= k < |i| ==> IsDigit(i[k]);
    assert forall k :: 0 <= k < |f| ==> IsDigit(f[k]);
    assert forall k :: 0 <= k < |t| ==> t[k] == '$' || t[k] == '.' || IsDigit(t[k]);
    assert t[|t| - 1] == f[5];
  }

  lemma UsdParses(left: string, m: nat, right: string)
    requires AllWhitespace(left) && AllWhitespace(right) && m <= I64_MAX
    ensures Usd(left + PrintUsd(m) + right) == Ok(m)
  {
    PrintThenParse(left, m, right);
  }

  lemma PlainUsdParses(m: nat)
    requires m <= I64_MAX
    ensures Usd(PrintUsd(m)) == Ok(m)
  {
    UsdParses("", m, "");
    assert "" + PrintUsd(m) + "" == PrintUsd(m);
  }

  lemma DigitsWord(n: nat)
    ensures IsWord(Digits(n)) && NoNewline(Digits(n))
  {
    assert forall i :: 0 <= i < |Digits(n)| ==> IsDigit(Digits(n)[i]);
  }

  // ---- the summary lines -----------------------------------------------------------

  /** Printable ASCII without the space makes a word. */
  lemma AsciiWord(w: string)
    requires w != "" && forall i :: 0 <= i < |w| ==> '!' <= w[i] <= '~'
    ensures IsWord(w) && NoNewline(w)
  {
  }

  lemma ClauseWordsAreWords(calls: nat, breaks: nat)
    ensures forall i :: 0 <= i < |ClauseWords(calls, breaks)| ==>
              IsWord(ClauseWords(calls, breaks)[i]) && NoNewline(ClauseWords(calls, breaks)[i])
  {
    DigitsWord(calls);
    DigitsWord(breaks);
    AsciiWord("blocked");
    AsciiWord("call(s)");
    AsciiWord("across");
    AsciiWord("budget");
    AsciiWord("break(s)");
  }

  lemma CountsParse(words: seq<string>, calls: nat, breaks: nat)
    requires |words| == 7 && words[0] == Digits(calls) && words[3] == "across" && words[4] == Digits(breaks)
    requires words[0] != "across" && words[1] != "across" && words[2] != "across"
    requires calls <= U64_MAX && breaks <= U64_MAX
    ensures ParseCounts(words) == Some((calls, breaks))
  {
    AcrossIsThird(words);
    ParsePrinted(calls);
    ParsePrinted(breaks);
  }

  lemma WordsParse(words: seq<string>, calls: nat, breaks: nat)
    requires |words| == 7 && words[0] == Digits(calls) && words[3] == "across" && words[4] == Digits(breaks)
    requires words[0] != "across" && words[1] != "across" && words[2] != "across"
    requires forall i :: 0 <= i < |words| ==> IsWord(words[i])
    requires calls <= U64_MAX && breaks <= U64_MAX
    ensures ParseClause(Join(words, " ")) == Some((calls, breaks))
  {
    TokensOfSentence(words);
    CountsParse(words, calls, breaks);
  }

  lemma ClauseParses(calls: nat, breaks: nat)
    requires calls <= U64_MAX && breaks <= U64_MAX
    ensures ParseClause(Join(ClauseWords(calls, breaks), " ")) == Some((calls, breaks))
  {
    ClauseWordsAreWords(calls, breaks);
    assert IsDigit(Digits(calls)[0]) && "across"[0] == 'a' && "blocked"[0] == 'b' && "call(s)"[0] == 'c';
    WordsParse(ClauseWords(calls, breaks), calls, breaks);
  }

  lemma AcrossIsThird(words: seq<string>)
    requires |words| == 7 && words[3] == "across"
    requires words[0] != "across" && words[1] != "across" && words[2] != "across"
    ensures FirstWord(words, "across") == 3
  {
    assert words[1..][1..] == words[2..] && words[2..][1..] == words[3..];
    assert FirstWord(words[3..], "across") == 0;
    assert FirstWord(words[2..], "across") == 1;
    assert FirstWord(words[1..], "across") == 2;
  }

  lemma ClauseText(calls: nat, breaks: nat)
    ensures
      var c := Join(ClauseWords(calls, breaks), " ");
      NoNewline(c) && c != ""
  {
    ClauseWordsAreWords(calls, breaks);
    SentenceNoNewline(ClauseWords(calls, breaks));
  }

  lemma {:induction false} SentenceNoNewline(words: seq<string>)
    requires forall i :: 0 <= i < |words| ==> NoNewline(words[i])
    ensures NoNewline(Join(words, " "))
    decreases |words|
  {
    if |words| > 1 {
      SentenceNoNewline(words[1..]);
    }
  }

  lemma Parenthesis(money: string, tail: string)
    requires '(' !in money
    ensures
      var rest := money + "(" + tail;
      FirstIndex(rest, '(') == |money| < |rest| && rest[..|money|] == money && rest[|money| + 1..] == tail
  {
    FirstIndexAt(money + "(" + tail, '(', |money|);
  }

  lemma Closed(clause: string)
    ensures
      var tail := clause + ")";
      TrimEnd(tail) == tail && tail != "" && tail[|tail| - 1] == ')' && tail[..|tail| - 1] == clause
  {
  }

  lemma BlockedParses(out: Savings, money: string, clause: string)
    ensures
      var amount, counts := Usd(money), ParseClause(clause);
      amount.Ok? && counts.Some? ==>
        ParseBlocked(out, money, clause + ")") ==
        Ok(out.(blockedSpend := amount.value, blockedCalls := counts.value.0, budgetBreaks := counts.value.1))
  {
    Closed(clause);
  }

  lemma RunawayParts(out: Savings, money: string, clause: string)
    requires '(' !in money
    ensures ParseRunaway(out, money + "(" + (clause + ")")) == ParseBlocked(out, money, clause + ")")
  {
    Closed(clause);
    Parenthesis(money, clause + ")");
  }

  lemma MoneyColumn(m: nat)
    requires m <= I64_MAX
    ensures '(' !in PrintUsd(m) + "   " && Usd(PrintUsd(m) + "   ") == Ok(m)
  {
    UsdText(m);
    UsdParses("", m, "   ");
    assert "" + PrintUsd(m) + "   " == PrintUsd(m) + "   ";
  }

  lemma RunawayRestParses(out: Savings, s: Savings)
    requires 0 <= s.blockedSpend <= I64_MAX && s.blockedCalls <= U64_MAX && s.budgetBreaks <= U64_MAX
    ensures ParseRunaway(out, RunawayRest(s)) ==
            Ok(out.(blockedSpend := s.blockedSpend, blockedCalls := s.blockedCalls, budgetBreaks := s.budgetBreaks))
  {
    var money := PrintUsd(s.blockedSpend) + "   ";
    var clause := Join(ClauseWords(s.blockedCalls, s.budgetBreaks), " ");
    MoneyColumn(s.blockedSpend);
    ClauseParses(s.blockedCalls, s.budgetBreaks);
    BlockedParses(out, money, clause);
    RunawayParts(out, money, clause);
  }

  lemma KindOfPrefixed(k: Summary, rest: string)
    ensures KindOf(Prefix(k) + rest) == Some(k) && (Prefix(k) + rest)[|Prefix(k)|..] == rest
  {
    var t := Prefix(k) + rest;
    assert Prefix(Runaway)[0] == 'r' && Prefix(Runaway)[1] == 'u' && Prefix(Router)[0] == 'r';
    assert Prefix(Router)[1] == 'o' && Prefix(Cache)[0] == 'c';
    assert t[0] == Prefix(k)[0] && t[1] == Prefix(k)[1];
  }

  /** A visible text: it begins and ends with something that is not whitespace, and is one line. */
  predicate Visible(s: string) {
    s != "" && !IsWhitespace(s[0]) && !IsWhitespace(s[|s| - 1]) && NoNewline(s)
  }

  lemma RestIsVisible(k: Summary, s: Savings)
    requires Printable(s)
    ensures Visible(SummaryRest(k, s))
  {
    UsdText(s.blockedSpend);
    UsdText(s.cacheSaved);
    UsdText(s.routerSaved);
    ClauseText(s.blockedCalls, s.budgetBreaks);
    assert RunawayRest(s)[0] == PrintUsd(s.blockedSpend)[0];
  }

  lemma PrefixIsVisible(k: Summary)
    ensures Prefix(k) == Label(k) && Label(k) != "" && !IsWhitespace(Label(k)[0]) && NoNewline(Label(k))
  {
  }

  lemma JoinedIsVisible(first: string, pad: nat, rest: string)
    requires first != "" && !IsWhitespace(first[0]) && NoNewline(first) && Visible(rest)
    ensures Visible(first + (Spaces(pad) + rest))
  {
    var t := first + (Spaces(pad) + rest);
    assert t[|t| - 1] == rest[|rest| - 1] && t[0] == first[0];
    assert NoNewline(Spaces(pad));
  }

  lemma SummaryIsVisible(k: Summary, s: Savings)
    requires Printable(s)
    ensures Visible(SummaryText(k, s))
  {
    RestIsVisible(k, s);
    PrefixIsVisible(k);
    JoinedIsVisible(Label(k), SummaryPad(k), SummaryRest(k, s));
  }

  function WithSummary(out: Savings, k: Summary, s: Savings): Savings {
    match k
    case Runaway =>
      out.(blockedSpend := s.blockedSpend, blockedCalls := s.blockedCalls, budgetBreaks := s.budgetBreaks)
    case Cache => out.(cacheSaved := s.cacheSaved)
    case Router => out.(routerSaved := s.routerSaved)
  }

  lemma SummaryRestParses(out: Savings, k: Summary, s: Savings)
    requires Printable(s)
    ensures ParseSummary(out, k, SummaryRest(k, s)) == Ok(WithSummary(out, k, s))
  {
    match k
    case Runaway => RunawayRestParses(out, s);
    case Cache => PlainUsdParses(s.cacheSaved);
    case Router => PlainUsdParses(s.routerSaved);
  }

  lemma SummaryApplies(acc: Acc, k: Summary, s: Savings)
    requires Printable(s)
    ensures ApplyTrimmed(acc, SummaryText(k, s)) == Ok(Acc(WithSummary(acc.out, k, s), acc.seen + {k}))
  {
    var pad, rest := Spaces(SummaryPad(k)), SummaryRest(k, s);
    RestIsVisible(k, s);
    SummaryIsVisible(k, s);
    KindOfPrefixed(k, pad + rest);
    PrefixIsVisible(k);
    SpacesAreWhitespace(SummaryPad(k));
    TrimPadded(pad, rest, "");
    assert pad + rest + "" == pad + rest;
    SummaryRestParses(acc.out, k, s);
  }

  /** The line of a summary sets that summary's fields, whatever lines follow. */
  lemma SummaryLineApplies(acc: Acc, k: Summary, s: Savings, rest: seq<string>)
    requires Printable(s)
    ensures ApplyLines(acc, [SummaryLine(k, s)] + rest) ==
            ApplyLines(Acc(WithSummary(acc.out, k, s), acc.seen + {k}), rest)
  {
    SummaryIsVisible(k, s);
    SummaryApplies(acc, k, s);
    SpacesAreWhitespace(2);
    PaddedApplies(acc, Spaces(2), SummaryText(k, s), rest);
  }

  // ---- the reason lines --------------------------------------------------------------

  /** The place of a blank in a prefix, followed by something else. */
  function Gap(k: Summary): nat {
    match k
    case Runaway => 7
    case Cache => 5
    case Router => 6
  }

  lemma GapIn(k: Summary)
    ensures |Prefix(k)| > Gap(k) + 1 && Prefix(k)[Gap(k)] == ' ' && Prefix(k)[Gap(k) + 1] != ' '
  {
  }

  /** A blank that near the front of a reason line is followed by another. */
  lemma BlankAfterBlank(reason: string, amount: int, g: nat)
    requires IsWord(reason) && g < 15
    ensures
      var t := ReasonText(reason, amount);
      |t| > g + 1 && (t[g] == ' ' ==> t[g + 1] == ' ')
  {
    var t := ReasonText(reason, amount);
    assert g < |reason| ==> t[g] == reason[g];
  }

  lemma ReasonIsNoSummary(reason: string, amount: int)
    requires IsWord(reason)
    ensures KindOf(ReasonText(reason, amount)) == None
  {
    forall k ensures !(Prefix(k) <= ReasonText(reason, amount)) {
      GapIn(k);
      BlankAfterBlank(reason, amount, Gap(k));
    }
  }

  lemma ReasonIsVisible(reason: string, amount: nat)
    requires IsWord(reason)
    ensures Visible(ReasonText(reason, amount))
  {
    UsdText(amount);
    var t, usd := ReasonText(reason, amount), PrintUsd(amount);
    assert t[|t| - 1] == usd[|usd| - 1] && t[0] == reason[0];
    assert forall i :: 0 <= i < |reason| ==> reason[i] != '\n';
  }

  lemma ReasonTokens(reason: string, amount: nat)
    requires IsWord(reason)
    ensures Tokens(ReasonText(reason, amount)) == [reason, PrintUsd(amount)]
  {
    var usd := PrintUsd(amount);
    var n: nat := if |reason| < 16 then 17 - |reason| else 1;
    UsdText(amount);
    TokensWord(reason, Spaces(n) + usd);
    SpacesAreWhitespace(n);
    TokensSkip(Spaces(n), usd);
    TokensWord(usd, "");
    assert usd + "" == usd;
  }

  lemma ReasonApplies(acc: Acc, reason: string, amount: nat)
    requires IsWord(reason) && amount <= I64_MAX
    ensures ApplyTrimmed(acc, ReasonText(reason, amount)) ==
            Ok(acc.(out := acc.out.(byReason := acc.out.byReason[reason := amount])))
  {
    ReasonIsNoSummary(reason, amount);
    ReasonIsVisible(reason, amount);
    ReasonTokens(reason, amount);
    PlainUsdParses(amount);
  }

  // ---- whole reports -----------------------------------------------------------------

  lemma PaddedApplies(acc: Acc, pad: string, text: string, rest: seq<string>)
    requires AllWhitespace(pad) && Visible(text)
    ensures
      var r := ApplyTrimmed(acc, text);
      ApplyLines(acc, [pad + text] + rest) == if r.Ok? then ApplyLines(r.value, rest) else Err(r.error)
  {
    TrimPadded(pad, text, "");
    assert pad + text + "" == pad + text;
    assert ([pad + text] + rest)[1..] == rest;
  }

  function WithSummaries(out: Savings, kinds: seq<Summary>, s: Savings): Savings
    decreases |kinds|
  {
    if kinds == [] then out else WithSummaries(WithSummary(out, kinds[0], s), kinds[1..], s)
  }

  function SetOfKinds(kinds: seq<Summary>): set<Summary> {
    set k | k in kinds
  }

  lemma AddFirst(kinds: seq<Summary>, seen: set<Summary>)
    requires kinds != []
    ensures seen + {kinds[0]} + SetOfKinds(kinds[1..]) == seen + SetOfKinds(kinds)
  {
    assert kinds == [kinds[0]] + kinds[1..];
  }

  lemma FirstSummaryApplies(acc: Acc, kinds: seq<Summary>, s: Savings, rest: seq<string>)
    requires Printable(s) && kinds != []
    ensures ApplyLines(acc, SummaryLines(kinds, s) + rest) ==
            ApplyLines(Acc(WithSummary(acc.out, kinds[0], s), acc.seen + {kinds[0]}),
                       SummaryLines(kinds[1..], s) + rest)
  {
    Associate([SummaryLine(kinds[0], s)], SummaryLines(kinds[1..], s), rest);
    SummaryLineApplies(acc, kinds[0], s, SummaryLines(kinds[1..], s) + rest);
  }

  lemma {:induction false} SummariesApply(acc: Acc, kinds: seq<Summary>, s: Savings, rest: seq<string>)
    requires Printable(s)
    ensures ApplyLines(acc, SummaryLines(kinds, s) + rest) ==
            ApplyLines(Acc(WithSummaries(acc.out, kinds, s), acc.seen + SetOfKinds(kinds)), rest)
    decreases |kinds|
  {
    if kinds == [] {
      assert SummaryLines(kinds, s) + rest == rest;
      assert acc.seen + SetOfKinds(kinds) == acc.seen;
    } else {
      AddFirst(kinds, acc.seen);
      FirstSummaryApplies(acc, kinds, s, rest);
      SummariesApply(Acc(WithSummary(acc.out, kinds[0], s), acc.seen + {kinds[0]}), kinds[1..], s, rest);
    }
  }

  lemma SummaryFirst(out: Savings, k: Summary, kinds: seq<Summary>, s: Savings)
    ensures WithSummaries(out, [k] + kinds, s) == WithSummaries(WithSummary(out, k, s), kinds, s)
  {
    assert ([k] + kinds)[1..] == kinds;
  }

  lemma AllSummaries(out: Savings, s: Savings)
    requires s.found && out.found && out.byReason == map[]
    ensures WithSummaries(out, KINDS, s) == s.(byReason := map[])
    ensures SetOfKinds(KINDS) == {Runaway, Cache, Router}
  {
    var one := WithSummary(out, Runaway, s);
    var two := WithSummary(one, Cache, s);
    SummaryFirst(out, Runaway, [Cache, Router], s);
    SummaryFirst(one, Cache, [Router], s);
    SummaryFirst(two, Router, [], s);
    assert KINDS == [Runaway] + [Cache, Router] && [Cache, Router] == [Cache] + [Router] && [Router] == [Router] + [];
  }

  function Restricted(order: seq<string>, amounts: map<string, int>): map<string, int> {
    map r | r in amounts && r in order :: amounts[r]
  }

  lemma ReasonLineApplies(acc: Acc, reason: string, amount: nat, rest: seq<string>)
    requires IsWord(reason) && amount <= I64_MAX
    ensures ApplyLines(acc, [ReasonLine(reason, amount)] + rest) ==
            ApplyLines(acc.(out := acc.out.(byReason := acc.out.byReason[reason := amount])), rest)
  {
    ReasonIsVisible(reason, amount);
    ReasonApplies(acc, reason, amount);
    SpacesAreWhitespace(4);
    PaddedApplies(acc, Spaces(4), ReasonText(reason, amount), rest);
  }

  lemma FirstReasonApplies(acc: Acc, order: seq<string>, amounts: map<string, int>)
    requires order != [] && forall i :: 0 <= i < |order| ==> order[i] in amounts
    requires IsWord(order[0]) && 0 <= amounts[order[0]] <= I64_MAX
    ensures ApplyLines(acc, ReasonLines(order, amounts)) ==
            ApplyLines(acc.(out := acc.out.(byReason := acc.out.byReason[order[0] := amounts[order[0]]])),
                       ReasonLines(order[1..], amounts))
  {
    var r, rest := order[0], ReasonLines(order[1..], amounts);
    assert ReasonLines(order, amounts) == [ReasonLine(r, amounts[r])] + rest;
    ReasonLineApplies(acc, r, amounts[r], rest);
  }

  lemma {:induction false} ReasonsApply(acc: Acc, order: seq<string>, amounts: map<string, int>)
    requires forall i :: 0 <= i < |order| ==>
               order[i] in amounts && IsWord(order[i]) && 0 <= amounts[order[i]] <= I64_MAX
    ensures ApplyLines(acc, ReasonLines(order, amounts)) ==
            Ok(acc.(out := acc.out.(byReason := acc.out.byReason + Restricted(order, amounts))))
    decreases |order|
  {
    var before := acc.out.byReason;
    if order == [] {
      assert before + Restricted(order, amounts) == before;
    } else {
      FirstReasonApplies(acc, order, amounts);
      ReasonsApply(acc.(out := acc.out.(byReason := before[order[0] := amounts[order[0]]])), order[1..], amounts);
      RestrictedFirst(before, order, amounts);
    }
  }

  lemma RestrictedFirst(before: map<string, int>, order: seq<string>, amounts: map<string, int>)
    requires order != [] && order[0] in amounts
    ensures before[order[0] := amounts[order[0]]] + Restricted(order[1..], amounts)
         == before + Restricted(order, amounts)
  {
    assert order == [order[0]] + order[1..];
  }

  /** The fixed part of the header never begins the words `no trace yet`. */
  lemma HeaderHasNoNo(k: nat)
    requires k < |HEADER|
    ensures HEADER[k] == 'n' ==> k + 1 < |HEADER| && HEADER[k + 1] != 'o'
  {
    assert |HEADER| == 25;
    assert HEADER[4] == 'n' && HEADER[5] == 'F' && HEADER[14] == 'n' && HEADER[15] == 'g';
    assert k == 4 || k == 14 || HEADER[k] != 'n' by {
      assert k == 0 || k == 1 || k == 2 || k == 3 || k == 4 || k == 5 || k == 6 || k == 7 || k == 8 || k == 9
          || k == 10 || k == 11 || k == 12 || k == 13 || k == 14 || k == 15 || k == 16 || k == 17 || k == 18
          || k == 19 || k == 20 || k == 21 || k == 22 || k == 23 || k == 24;
    }
  }

  /** `part` cannot begin inside `p` when its first two characters never stand there. */
  lemma ContainsAfter(p: string, dir: string, part: string)
    requires |part| >= 2
    requires forall k :: 0 <= k < |p| && p[k] == part[0] ==> k + 1 < |p| && p[k + 1] != part[1]
    ensures Contains(p + dir, part) ==> Contains(dir, part)
  {
    var h := p + dir;
    if Contains(h, part) {
      var k :| 0 <= k <= |h| - |part| && part <= h[k..];
      assert h[k] == h[k..][0] == part[0] && h[k + 1] == h[k..][1] == part[1];
      assert k >= |p|;
      assert h[k..] == dir[k - |p|..];
    }
  }

  lemma HeaderContains(dir: string)
    ensures Contains(HEADER + dir, NO_TRACE) ==> Contains(dir, NO_TRACE)
  {
    assert NO_TRACE[0] == 'n' && NO_TRACE[1] == 'o';
    forall k | 0 <= k < |HEADER| && HEADER[k] == NO_TRACE[0]
      ensures k + 1 < |HEADER| && HEADER[k + 1] != NO_TRACE[1]
    {
      HeaderHasNoNo(k);
    }
    ContainsAfter(HEADER, dir, NO_TRACE);
  }

  lemma PrefixContains(s: string, n: nat, part: string)
    requires n <= |s| && Contains(s[..n], part)
    ensures Contains(s, part)
  {
    var k :| 0 <= k <= n - |part| && part <= s[..n][k..];
    assert s[..n][k..] <= s[k..];
    assert part <= s[k..];
  }

  lemma HeaderAccepted(dir: string)
    requires !Contains(dir, NO_TRACE)
    ensures
      var h := StripCr(HEADER + dir);
      !Contains(h, NO_TRACE) && TITLE <= h
  {
    var h := HEADER + dir;
    HeaderContains(dir);
    assert StripCr(h) == h[..|StripCr(h)|];
    if Contains(StripCr(h), NO_TRACE) {
      PrefixContains(h, |StripCr(h)|, NO_TRACE);
    }
    TitleBeginsHeader();
    assert TITLE <= HEADER <= h;
  }

  lemma TitleBeginsHeader()
    ensures TITLE <= HEADER && HEADER[|HEADER| - 1] == ' ' && |TITLE| < |HEADER| && NoNewline(HEADER)
  {
    assert HEADER[..17] == TITLE;
  }

  ghost predicate Intact(lines: seq<string>) {
    forall i :: 0 <= i < |lines| ==> NoNewline(lines[i]) && StripCr(lines[i]) == lines[i]
  }

  lemma {:induction false} SummaryLinesIntact(kinds: seq<Summary>, s: Savings)
    requires Printable(s)
    ensures Intact(SummaryLines(kinds, s))
    decreases |kinds|
  {
    if kinds != [] {
      SummaryIsVisible(kinds[0], s);
      PaddedIntact(Spaces(2), SummaryText(kinds[0], s));
      SummaryLinesIntact(kinds[1..], s);
      IntactAppend([SummaryLine(kinds[0], s)], SummaryLines(kinds[1..], s));
    }
  }

  lemma ReasonLinesIntact(s: Savings, order: seq<string>)
    requires Printable(s) && Enumerates(order, s.byReason)
    ensures Intact(ReasonLines(order, s.byReason))
  {
    forall i | 0 <= i < |order|
      ensures var l := ReasonLines(order, s.byReason)[i]; NoNewline(l) && StripCr(l) == l
    {
      ReasonIsVisible(order[i], s.byReason[order[i]]);
      PaddedIntact(Spaces(4), ReasonText(order[i], s.byReason[order[i]]));
    }
  }

  lemma IntactAppend(a: seq<string>, b: seq<string>)
    requires Intact(a) && Intact(b)
    ensures Intact(a + b) && StripAllCr(a + b) == a + b
  {
  }

  lemma BodyLinesIntact(kinds: seq<Summary>, s: Savings, order: seq<string>)
    requires Printable(s) && Enumerates(order, s.byReason)
    ensures
      var body := SummaryLines(kinds, s) + ReasonLines(order, s.byReason);
      Intact(body) && StripAllCr(body) == body
  {
    SummaryLinesIntact(kinds, s);
    ReasonLinesIntact(s, order);
    IntactAppend(SummaryLines(kinds, s), ReasonLines(order, s.byReason));
  }

  lemma PaddedIntact(pad: string, text: string)
    requires Visible(text) && NoNewline(pad)
    ensures NoNewline(pad + text) && StripCr(pad + text) == pad + text
  {
    assert (pad + text)[|pad + text| - 1] == text[|text| - 1];
  }

  lemma LinesApply(acc: Acc, kinds: seq<Summary>, s: Savings, order: seq<string>)
    requires Printable(s) && Enumerates(order, s.byReason)
    ensures
      var out := WithSummaries(acc.out, kinds, s);
      ApplyLines(acc, SummaryLines(kinds, s) + ReasonLines(order, s.byReason))
      == Ok(Acc(out.(byReason := out.byReason + s.byReason), acc.seen + SetOfKinds(kinds)))
  {
    SummariesApply(acc, kinds, s, ReasonLines(order, s.byReason));
    ReasonsApply(Acc(WithSummaries(acc.out, kinds, s), acc.seen + SetOfKinds(kinds)), order, s.byReason);
    assert Restricted(order, s.byReason) == s.byReason;
  }

  lemma BodyApplies(start: Acc, kinds: seq<Summary>, s: Savings, order: seq<string>)
    requires Printable(s) && Enumerates(order, s.byReason)
    requires WithSummaries(start.out, kinds, s) == s.(byReason := map[])
    ensures ApplyLines(start, SummaryLines(kinds, s) + ReasonLines(order, s.byReason)) ==
            Ok(Acc(s, start.seen + SetOfKinds(kinds)))
  {
    LinesApply(start, kinds, s, order);
    assert map[] + s.byReason == s.byReason;
  }

  lemma BodyReads(header: string, kinds: seq<Summary>, s: Savings, order: seq<string>)
    requires Printable(s) && Enumerates(order, s.byReason)
    requires NoNewline(header) && !Contains(StripCr(header), NO_TRACE) && TITLE <= StripCr(header)
    requires WithSummaries(START.out, kinds, s) == s.(byReason := map[])
    requires SetOfKinds(kinds) == {Runaway, Cache, Router}
    ensures
      var body := SummaryLines(kinds, s) + ReasonLines(order, s.byReason);
      ParseLines(Lines(Unlines([header] + body))) == Ok(s)
  {
    BodyLinesIntact(kinds, s, order);
    BodyApplies(START, kinds, s, order);
    assert START.seen + SetOfKinds(kinds) == SetOfKinds(kinds);
    ReportReads(header, SummaryLines(kinds, s) + ReasonLines(order, s.byReason), s);
  }

  lemma ReportReads(header: string, body: seq<string>, s: Savings)
    requires NoNewline(header) && !Contains(StripCr(header), NO_TRACE) && TITLE <= StripCr(header)
    requires Intact(body) && StripAllCr(body) == body
    requires ApplyLines(START, body) == Ok(Acc(s, {Runaway, Cache, Router}))
    ensures ParseLines(Lines(Unlines([header] + body))) == Ok(s)
  {
    HeaderStripped(header, body);
    assert ([StripCr(header)] + body)[1..] == body;
  }

  lemma HeaderStripped(header: string, body: seq<string>)
    requires NoNewline(header) && Intact(body) && StripAllCr(body) == body
    ensures Lines(Unlines([header] + body)) == [StripCr(header)] + body
  {
    LinesOfUnlines([header] + body);
    assert StripAllCr([header] + body) == [StripCr(header)] + StripAllCr(body);
  }

  /**
   * Round trip: any printable record, with its reasons in any order and any
   * directory name without a newline or the words `no trace yet`, is read back
   * from its printed report as the same record.
   */
  lemma PrintThenRead(dir: string, s: Savings, order: seq<string>)
    requires Printable(s) && Enumerates(order, s.byReason)
    requires NoNewline(dir) && !Contains(dir, NO_TRACE)
    ensures ParseLines(Lines(Unlines(ReportLines(dir, s, order)))) == Ok(s)
  {
    TitleBeginsHeader();
    HeaderAccepted(dir);
    AllSummaries(START.out, s);
    BodyReads(HEADER + dir, KINDS, s, order);
  }
}
