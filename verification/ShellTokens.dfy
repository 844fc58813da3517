/** Reading back what was written as tokens: bare words, quoted words and, in a
    shell, operators, with spaces between them. */
module ShellTokens {
  import opened Wrappers
  import opened Characters
  import opened Quoting
  import opened QuotedSpans
  import opened SplitArgs
  import opened SplitWords

  datatype Token = Bare(text: string) | InQuotesToken(text: string) | Op(text: string)
  {
    function Written(): string {
      match this
      case Bare(t) => t
      case InQuotesToken(t) => [QUOTE] + t + [QUOTE]
      case Op(t) => t
    }

    /** What it is read as: a shell keeps the quotes. */
    function Value(shell: bool): string {
      if InQuotesToken? && !shell then Said(text) else Written()
    }

    /** A bare word has no spaces and no operators in it and does not begin like a
        quoted or escaped one; quoted text closes where it ends. */
    ghost predicate Fine(shell: bool) {
      match this
      case Bare(t) =>
        t != "" && t[0] != QUOTE && t[0] != BACKSLASH && forall i | 0 <= i < |t| :: !EndsWord(t[i], shell)
      case InQuotesToken(t) => QuoteEnd(t + [QUOTE]) == Some(|t|)
      case Op(t) => shell && t != "" && forall i | 0 <= i < |t| :: IsShellChar(t[i])
    }
  }

  ghost predicate AllFine(ts: seq<Token>, shell: bool) {
    forall t | t in ts :: t.Fine(shell)
  }

  function Print(ts: seq<Token>): string {
    if ts == [] then ""
    else if |ts| == 1 then ts[0].Written()
    else ts[0].Written() + " " + Print(ts[1..])
  }

  function Values(ts: seq<Token>, shell: bool): seq<string> {
    if ts == [] then [] else [ts[0].Value(shell)] + Values(ts[1..], shell)
  }

  /** An operator at the end is forgotten. */
  function Heard(ts: seq<Token>): seq<Token> {
    if ts != [] && ts[|ts| - 1].Op? then ts[..|ts| - 1] else ts
  }

  // ----- one token -----

  lemma {:induction false} WholeWord(t: string, rest: string, shell: bool)
    requires forall i | 0 <= i < |t| :: !EndsWord(t[i], shell)
    requires rest == "" || EndsWord(rest[0], shell)
    ensures WordEnd(t + rest, shell) == |t|
  {
    if t != "" {
      assert (t + rest)[1..] == t[1..] + rest;
      WholeWord(t[1..], rest, shell);
    } else {
      assert t + rest == rest;
    }
  }

  lemma {:induction false} WholeRun(t: string, rest: string)
    requires (forall i | 0 <= i < |t| :: IsShellChar(t[i])) && (rest == "" || !IsShellChar(rest[0]))
    ensures ShellRun(t + rest) == |t|
  {
    if t != "" {
      assert (t + rest)[1..] == t[1..] + rest;
      WholeRun(t[1..], rest);
    } else {
      assert t + rest == rest;
    }
  }

  lemma {:induction false} EndsWithin(t: string, rest: string)
    ensures QuoteEnd(t).Some? ==> QuoteEnd(t + rest) == QuoteEnd(t)
    decreases |t|
  {
    if t != "" && t[0] != QUOTE {
      var n := if t[0] == BACKSLASH then 2 else 1;
      if n <= |t| {
        assert (t + rest)[n..] == t[n..] + rest;
        EndsWithin(t[n..], rest);
      }
    }
  }

  lemma BareAtEnd(w: string, shell: bool)
    requires Bare(w).Fine(shell)
    ensures "" + [w[0]] == [w[0]] && PlainWord(w[1..], [w[0]], shell) == Ok([w])
  {
    WholeWord(w[1..], "", shell);
    assert w[1..] + "" == w[1..] && w[1..][..|w| - 1] == w[1..] && [w[0]] + w[1..] == w;
    hide Words;
  }

  lemma QuotedAtEnd(w: string, shell: bool)
    requires InQuotesToken(w).Fine(shell)
    ensures QuotedWord(w + [QUOTE], "", shell) == Ok([InQuotesToken(w).Value(shell)])
  {
    var s := w + [QUOTE];
    assert s[..|w|] == w && s[|w| + 1..] == "";
    assert "" + ([QUOTE] + w + [QUOTE]) == [QUOTE] + w + [QUOTE] && "" + Said(w) == Said(w);
    hide Words, Said;
  }

  lemma OperatorAtEnd(w: string)
    requires Op(w).Fine(true)
    ensures Operator(w, true) == Ok([])
  {
    WholeRun(w, "");
    assert w + "" == w;
    hide Words;
  }

  /** The last token, and one with a space and more behind it. */
  lemma ReadsLast(t: Token, shell: bool)
    requires t.Fine(shell)
    ensures Words(t.Written(), "", shell) == Ok(if t.Op? then [] else [t.Value(shell)])
  {
    var s := t.Written();
    WordsUnfold(s, "", shell);
    hide Words, PlainWord, QuotedWord, Operator, QuoteEnd, Said;
    match t
    case Bare(w) =>
      BareAtEnd(w, shell);
    case InQuotesToken(w) =>
      assert s[1..] == w + [QUOTE];
      QuotedAtEnd(w, shell);
    case Op(w) =>
      OperatorAtEnd(w);
      ThenThen([], [], Operator(w, true));
  }

  lemma ReadsBare(w: string, more: string, shell: bool)
    requires Bare(w).Fine(shell)
    ensures Words(w + " " + more, "", shell) == Then([w], Words(more, "", shell))
  {
    var s := w + " " + more;
    assert s[0] == w[0] && s[1..] == w[1..] + (" " + more);
    hide Words, PlainWord, QuotedWord, Operator, Then;
    WordsUnfold(s, "", shell);
    BareThenSpace(w, more, shell);
  }

  lemma ReadsOperator(w: string, more: string)
    requires Op(w).Fine(true)
    ensures Words(w + " " + more, "", true) == Then([w], Words(more, "", true))
  {
    var s := w + " " + more;
    assert s == w + (" " + more) && s[0] == w[0];
    hide Words, PlainWord, QuotedWord, Operator, Then;
    WordsUnfold(s, "", true);
    OperatorThenSpace(w, more);
    ThenThen([], [], Operator(s, true));
  }

  lemma ReadsQuoted(w: string, more: string, shell: bool)
    requires InQuotesToken(w).Fine(shell)
    ensures Words([QUOTE] + w + [QUOTE] + " " + more, "", shell)
            == Then([InQuotesToken(w).Value(shell)], Words(more, "", shell))
  {
    var s := [QUOTE] + w + [QUOTE] + " " + more;
    assert s[1..] == w + [QUOTE] + " " + more;
    hide Words, PlainWord, QuotedWord, Operator, Then, Said, QuoteEnd;
    WordsUnfold(s, "", shell);
    QuotedThenSpace(w, more, shell);
  }

  lemma ReadsFirst(t: Token, more: string, shell: bool)
    requires t.Fine(shell)
    ensures Words(t.Written() + " " + more, "", shell) == Then([t.Value(shell)], Words(more, "", shell))
  {
    hide Words, Then, QuoteEnd, Said;
    match t
    case Bare(w) => ReadsBare(w, more, shell);
    case InQuotesToken(w) => ReadsQuoted(w, more, shell);
    case Op(w) => ReadsOperator(w, more);
  }

  lemma BareThenSpace(w: string, more: string, shell: bool)
    requires Bare(w).Fine(shell)
    ensures "" + [w[0]] == [w[0]]
    ensures PlainWord(w[1..] + (" " + more), [w[0]], shell) == Then([w], Words(more, "", shell))
  {
    var s := w[1..] + (" " + more);
    WholeWord(w[1..], " " + more, shell);
    assert s[..|w| - 1] == w[1..] && [w[0]] + w[1..] == w && s[|w|..] == more;
    hide Words, Then;
  }

  lemma QuotedThenSpace(w: string, more: string, shell: bool)
    requires InQuotesToken(w).Fine(shell)
    ensures QuotedWord(w + [QUOTE] + " " + more, "", shell)
            == Then([InQuotesToken(w).Value(shell)], Words(more, "", shell))
  {
    var s := w + [QUOTE] + " " + more;
    assert s == (w + [QUOTE]) + (" " + more);
    EndsWithin(w + [QUOTE], " " + more);
    assert s[..|w|] == w && s[|w| + 1..] == " " + more && (" " + more)[1..] == more;
    assert "" + ([QUOTE] + w + [QUOTE]) == [QUOTE] + w + [QUOTE] && "" + Said(w) == Said(w);
    hide Words, Then, Said;
  }

  lemma OperatorThenSpace(w: string, more: string)
    requires Op(w).Fine(true)
    ensures IsShellChar((w + (" " + more))[0])
    ensures Operator(w + (" " + more), true) == Then([w], Words(more, "", true))
  {
    var s := w + (" " + more);
    WholeRun(w, " " + more);
    assert s[..|w|] == w && s[|w| + 1..] == more;
    hide Words, Then;
  }

  // ----- all tokens -----

  /** Tokens written with spaces between them are read back, each as its value, but
      for an operator at the end, which is lost. */
  lemma {:induction false} SplitReadsTokens(ts: seq<Token>, shell: bool)
    requires AllFine(ts, shell)
    ensures Split(Print(ts), shell) == Ok(Values(Heard(ts), shell))
  {
    SplitIsWords(Print(ts), shell);
    WordsOfTokens(ts, shell);
  }

  lemma {:induction false} WordsOfTokens(ts: seq<Token>, shell: bool)
    requires AllFine(ts, shell)
    ensures Words(Print(ts), "", shell) == Ok(Values(Heard(ts), shell))
  {
    if |ts| == 1 {
      ReadsLast(ts[0], shell);
      assert Heard(ts) == if ts[0].Op? then [] else ts;
      assert Values(ts[1..], shell) == [] && Values([], shell) == [];
      assert [ts[0].Value(shell)] + [] == [ts[0].Value(shell)];
    } else if |ts| > 1 {
      ReadsFirst(ts[0], Print(ts[1..]), shell);
      WordsOfTokens(ts[1..], shell);
      HeardRest(ts);
    }
  }

  lemma HeardRest(ts: seq<Token>)
    requires |ts| > 1
    ensures Heard(ts) != [] && Heard(ts)[0] == ts[0] && Heard(ts)[1..] == Heard(ts[1..])
  {
  }
}
