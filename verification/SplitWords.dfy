/** What splitting means for any input, word by word. The state machine of
    SplitArgs, which looks at one character at a time, computes exactly this. */
module SplitWords {
  import opened Wrappers
  import opened Characters
  import opened Quoting
  import opened QuotedSpans
  import opened SplitArgs

  // ----- where words end -----

  /** How many shell characters stand at the front. */
  function ShellRun(s: string): (n: nat)
    ensures n <= |s| && forall i | 0 <= i < n :: IsShellChar(s[i])
    ensures n < |s| ==> !IsShellChar(s[n])
  {
    if s == "" || !IsShellChar(s[0]) then 0 else ShellRun(s[1..]) + 1
  }

  predicate EndsWord(c: char, shell: bool) {
    IsSpace(c) || (shell && IsShellChar(c))
  }

  /** How far a word without quotes goes. */
  function WordEnd(s: string, shell: bool): (n: nat)
    ensures n <= |s| && forall i | 0 <= i < n :: !EndsWord(s[i], shell)
    ensures n < |s| ==> EndsWord(s[n], shell)
  {
    if s == "" || EndsWord(s[0], shell) then 0 else WordEnd(s[1..], shell) + 1
  }

  // ----- the words of an input -----

  function Then(first: seq<string>, rest: Result<seq<string>, SplitError>): Result<seq<string>, SplitError> {
    match rest
    case Err(e) => Err(e)
    case Ok(words) => Ok(first + words)
  }

  function NonEmpty(word: string): seq<string> {
    if word == "" then [] else [word]
  }

  /** The words from here on; `kept` is what is left over from a shell operator and
      becomes the front of the next word. Left over at the end it is lost. */
  function Words(s: string, kept: string, shell: bool): Result<seq<string>, SplitError>
    decreases |s|, 1
  {
    if s == "" then Ok([])
    else if IsSpace(s[0]) then Words(s[1..], kept, shell)
    else if s[0] == QUOTE then QuotedWord(s[1..], kept, shell)
    else if shell && IsShellChar(s[0]) then Then(NonEmpty(kept), Operator(s, shell))
    else if s[0] == BACKSLASH then
      if |s| == 1 then Ok([kept])
      else
        var front := if IsSpace(s[1]) || s[1] == QUOTE then [s[1]] else [BACKSLASH, s[1]];
        PlainWord(s[2..], kept + front, shell)
    else PlainWord(s[1..], kept + [s[0]], shell)
  }

  /** A word without quotes that begins with `front`: up to a space or operator. */
  function PlainWord(s: string, front: string, shell: bool): Result<seq<string>, SplitError>
    requires front != ""
    decreases |s|, 2
  {
    var n := WordEnd(s, shell);
    var word := front + s[..n];
    if n == |s| then Ok([word])
    else if IsSpace(s[n]) then Then([word], Words(s[n + 1..], "", shell))
    else Then([word], Operator(s[n..], shell))
  }

  /** A quoted word, past its first quote: a shell keeps it as it is written,
      otherwise it is what it says. A space or an operator must follow. */
  function QuotedWord(s: string, kept: string, shell: bool): Result<seq<string>, SplitError>
    decreases |s|, 2
  {
    match QuoteEnd(s)
    case None => Err(MissingQuote)
    case Some(c) =>
      var word := kept + if shell then [QUOTE] + s[..c] + [QUOTE] else Said(s[..c]);
      var rest := s[c + 1..];
      if rest == "" then Ok([word])
      else if IsSpace(rest[0]) then Then([word], Words(rest[1..], "", shell))
      else if rest[0] == '|' || rest[0] == ';' || (shell && rest[0] == '&') then Then([word], Operator(rest, shell))
      else Err(MissingSpace)
  }

  /** A shell operator is a word of its own, if anything follows it. The character
      after it is kept for the next word, be it a quote or a backslash. */
  function Operator(s: string, shell: bool): Result<seq<string>, SplitError>
    requires s != "" && IsShellChar(s[0])
    decreases |s|, 0
  {
    if !shell then (if |s| == 1 then Ok([]) else Err(NotInShell))
    else
      var n := ShellRun(s);
      if n == |s| then Ok([])
      else Then([s[..n]], Words(s[n + 1..], if IsSpace(s[n]) then "" else [s[n]], shell))
  }

  // ----- the machine from here on -----

  /** What the machine answers after the rest of the input. */
  function Answer(m: Machine, s: string, shell: bool): Result<seq<string>, SplitError> {
    match Run(m, s, shell)
    case Err(e) => Err(e)
    case Ok(m') => End(m')
  }

  lemma AnswerStep(m: Machine, r: char, t: string, shell: bool)
    ensures Answer(m, [r] + t, shell) ==
            match Step(m, r, shell)
            case Err(e) => Err(e)
            case Ok(m') => Answer(m', t, shell)
    ensures Answer(m, "", shell) == End(m)
  {
    assert ([r] + t)[1..] == t;
  }

  lemma FirstOf(s: string)
    requires s != ""
    ensures s == [s[0]] + s[1..]
  {
  }

  /** Text read between quotes, as it ends up in the word. */
  function Text(t: string, shell: bool): string {
    if shell then t else Said(t)
  }

  /** What the machine answers inside quotes, by where they end. */
  function AfterQuotes(args: seq<string>, cur: string, s: string, shell: bool): Result<seq<string>, SplitError> {
    match QuoteEnd(s)
    case None => Err(MissingQuote)
    case Some(c) =>
      var word := cur + Text(s[..c], shell) + if shell then [QUOTE] else "";
      Answer(Machine(EndQuote, args + [word], "", false), s[c + 1..], shell)
  }

  lemma AfterIs(args: seq<string>, cur: string, s: string, shell: bool, word: string, rest: string)
    requires QuoteEnd(s).Some?
    requires var c := QuoteEnd(s).value;
             word == cur + Text(s[..c], shell) + (if shell then [QUOTE] else "") && rest == s[c + 1..]
    ensures AfterQuotes(args, cur, s, shell) == Answer(Machine(EndQuote, args + [word], "", false), rest, shell)
  {
    hide Answer, Text, QuoteEnd;
  }

  lemma AfterNone(args: seq<string>, cur: string, s: string, shell: bool)
    requires QuoteEnd(s).None?
    ensures AfterQuotes(args, cur, s, shell) == Err(MissingQuote)
  {
  }

  lemma Slices(a: string, t: string, n: nat)
    requires n < |t|
    ensures (a + t)[..|a| + n] == a + t[..n] && (a + t)[|a| + n + 1..] == t[n + 1..]
  {
  }

  lemma Regroup(a: string, b: string, c: string, d: string)
    ensures a + (b + c) + d == a + b + c + d
  {
  }

  lemma AfterPlain(args: seq<string>, cur: string, c: char, t: string, shell: bool)
    requires c != QUOTE && c != BACKSLASH
    ensures AfterQuotes(args, cur, [c] + t, shell) == AfterQuotes(args, cur + [c], t, shell)
  {
    hide *;
    PlainStep(c, t);
    var e := QuoteEnd(t);
    if e.Some? {
      var n, close := e.value, if shell then [QUOTE] else "";
      Slices([c], t, n);
      TextPlain(c, t[..n], shell);
      Regroup(cur, [c], Text(t[..n], shell), close);
      var word := cur + [c] + Text(t[..n], shell) + close;
      AfterIs(args, cur, [c] + t, shell, word, t[n + 1..]);
      AfterIs(args, cur + [c], t, shell, word, t[n + 1..]);
    } else {
      AfterNone(args, cur, [c] + t, shell);
      AfterNone(args, cur + [c], t, shell);
    }
  }

  lemma TextPlain(c: char, t: string, shell: bool)
    requires c != QUOTE && c != BACKSLASH
    ensures Text([c] + t, shell) == [c] + Text(t, shell)
  {
    PlainStep(c, t);
  }

  /** What an escape leaves in the word. */
  function Unescaped(c: char, shell: bool): string {
    if c == QUOTE && !shell then [QUOTE] else [BACKSLASH, c]
  }

  lemma TextEscaped(c: char, t: string, shell: bool)
    ensures Text([BACKSLASH, c] + t, shell) == Unescaped(c, shell) + Text(t, shell)
  {
    EscapedStep(c, t);
  }

  lemma AfterEscaped(args: seq<string>, cur: string, c: char, t: string, shell: bool)
    ensures AfterQuotes(args, cur, [BACKSLASH, c] + t, shell)
            == AfterQuotes(args, cur + Unescaped(c, shell), t, shell)
  {
    hide *;
    EscapedStep(c, t);
    var e := QuoteEnd(t);
    if e.Some? {
      var n, close, front := e.value, if shell then [QUOTE] else "", Unescaped(c, shell);
      Slices([BACKSLASH, c], t, n);
      TextEscaped(c, t[..n], shell);
      Regroup(cur, front, Text(t[..n], shell), close);
      var word := cur + front + Text(t[..n], shell) + close;
      AfterIs(args, cur, [BACKSLASH, c] + t, shell, word, t[n + 1..]);
      AfterIs(args, cur + front, t, shell, word, t[n + 1..]);
    } else {
      AfterNone(args, cur, [BACKSLASH, c] + t, shell);
      AfterNone(args, cur + Unescaped(c, shell), t, shell);
    }
  }

  lemma {:induction false} InQuotes(args: seq<string>, cur: string, s: string, shell: bool)
    ensures Answer(Machine(InQuote, args, cur, false), s, shell) == AfterQuotes(args, cur, s, shell)
    decreases |s|
  {
    hide Answer, AfterQuotes;
    var m := Machine(InQuote, args, cur, false);
    if s == "" {
      AnswerStep(m, QUOTE, "", shell);
      QuotesEnd(args, cur, "", shell);
    } else {
      FirstOf(s);
      AnswerStep(m, s[0], s[1..], shell);
      if s[0] == QUOTE {
        assert cur + "" == cur;
        QuotesEnd(args, cur, s[1..], shell);
      } else if s[0] == BACKSLASH {
        var e := m.(escaped := true);
        if |s| == 1 {
          assert s == [BACKSLASH] && s[1..] == "";
          AnswerStep(e, QUOTE, "", shell);
          QuotesEnd(args, cur, "", shell);
        } else {
          FirstOf(s[1..]);
          AnswerStep(e, s[1], s[2..], shell);
          assert s == [BACKSLASH, s[1]] + s[2..];
          AfterEscaped(args, cur, s[1], s[2..], shell);
          InQuotes(args, cur + Unescaped(s[1], shell), s[2..], shell);
        }
      } else {
        AfterPlain(args, cur, s[0], s[1..], shell);
        InQuotes(args, cur + [s[0]], s[1..], shell);
      }
    }
  }

  lemma QuotesEnd(args: seq<string>, cur: string, t: string, shell: bool)
    ensures AfterQuotes(args, cur, "", shell) == Err(MissingQuote)
    ensures AfterQuotes(args, cur, [BACKSLASH], shell) == Err(MissingQuote)
    ensures AfterQuotes(args, cur, [QUOTE] + t, shell) ==
            Answer(Machine(EndQuote, args + [cur + if shell then [QUOTE] else ""], "", false), t, shell)
  {
    hide Answer;
    EndsHere(t);
    assert ([QUOTE] + t)[1..] == t && ([QUOTE] + t)[..0] == "";
    assert cur + Text("", shell) == cur;
  }

  // ----- the machine computes the words -----

  lemma ThenThen(a: seq<string>, b: seq<string>, r: Result<seq<string>, SplitError>)
    ensures Then(a, Then(b, r)) == Then(a + b, r)
    ensures Then([], r) == r
  {
    if r.Ok? { assert a + (b + r.value) == a + b + r.value && [] + r.value == r.value; }
  }

  /** One more character of a word without quotes. */
  lemma WordGoesOn(s: string, front: string, shell: bool)
    requires front != "" && s != "" && !EndsWord(s[0], shell)
    ensures PlainWord(s, front, shell) == PlainWord(s[1..], front + [s[0]], shell)
  {
    var n := WordEnd(s[1..], shell);
    assert s[..n + 1] == [s[0]] + s[1..][..n];
    assert front + s[..n + 1] == front + [s[0]] + s[1..][..n];
    assert s[n + 1..] == s[1..][n..];
    if n < |s[1..]| { assert s[n + 2..] == s[1..][n + 1..]; }
    hide Words, Operator;
  }

  lemma WordStops(s: string, front: string, shell: bool)
    requires front != "" && (s == "" || EndsWord(s[0], shell))
    ensures PlainWord(s, front, shell) ==
            if s == "" then Ok([front])
            else if IsSpace(s[0]) then Then([front], Words(s[1..], "", shell))
            else Then([front], Operator(s, shell))
  {
    assert front + s[..0] == front && s[0..] == s;
    hide Words, Operator;
  }

  /** What is answered behind an operator under way. */
  function AfterOperator(run: string, s: string): Result<seq<string>, SplitError> {
    var n := ShellRun(s);
    if n == |s| then Ok([])
    else Then([run + s[..n]], Words(s[n + 1..], if IsSpace(s[n]) then "" else [s[n]], true))
  }

  lemma OperatorGoesOn(run: string, s: string)
    requires s != "" && IsShellChar(s[0])
    ensures AfterOperator(run, s) == AfterOperator(run + [s[0]], s[1..])
  {
    var n := ShellRun(s[1..]);
    assert run + s[..n + 1] == run + [s[0]] + s[1..][..n] by { assert s[..n + 1] == [s[0]] + s[1..][..n]; }
    if n < |s[1..]| { assert s[n + 2..] == s[1..][n + 1..]; }
    hide Words;
  }

  lemma OperatorStops(run: string, s: string)
    requires s == "" || !IsShellChar(s[0])
    ensures AfterOperator(run, s) ==
            if s == "" then Ok([]) else Then([run], Words(s[1..], if IsSpace(s[0]) then "" else [s[0]], true))
  {
    assert run + s[..0] == run;
    hide Words;
  }

  lemma OperatorIs(s: string)
    requires s != "" && IsShellChar(s[0])
    ensures Operator(s, true) == AfterOperator([s[0]], s[1..])
  {
    OperatorGoesOn("", s);
    assert "" + [s[0]] == [s[0]];
    assert forall n | 0 <= n <= |s| :: "" + s[..n] == s[..n];
    hide Words;
  }

  /** The machine between words, in a word without quotes, behind a quoted word and
      in an operator: each time it answers what is left of the words. */
  lemma {:induction false} Between(args: seq<string>, kept: string, s: string, shell: bool)
    ensures Answer(Machine(Space, args, kept, false), s, shell) == Then(args, Words(s, kept, shell))
    decreases |s|, 1
  {
    hide Answer, Words, PlainWord, QuotedWord, Operator, Then;
    var m := Machine(Space, args, kept, false);
    WordsUnfold(s, kept, shell);
    if s == "" {
      AnswerStep(m, QUOTE, "", shell);
      NoMore(args);
    } else {
      FirstOf(s);
      var r, t := s[0], s[1..];
      AnswerStep(m, r, t, shell);
      if IsSpace(r) {
        Between(args, kept, t, shell);
      } else if r == QUOTE {
        InQuoted(args, kept, t, shell);
      } else if shell && IsShellChar(r) {
        ThenThen(args, NonEmpty(kept), Operator(s, shell));
        OperatorIs(s);
        NonEmptyIs(m);
        InOperator(args + NonEmpty(kept), [r], t);
      } else if r == BACKSLASH {
        EscapedFirst(args, kept, t, shell);
      } else {
        InPlain(args, kept + [r], t, shell);
      }
    }
  }

  lemma NoMore(args: seq<string>)
    ensures Then(args, Ok([])) == Ok(args) && forall w :: Then(args, Ok([w])) == Ok(args + [w])
  {
    assert args + [] == args;
  }

  lemma NonEmptyIs(m: Machine)
    ensures Flush(m) == m.args + NonEmpty(m.currArg)
  {
  }

  lemma WordsUnfold(s: string, kept: string, shell: bool)
    ensures Words(s, kept, shell) ==
            if s == "" then Ok([])
            else if IsSpace(s[0]) then Words(s[1..], kept, shell)
            else if s[0] == QUOTE then QuotedWord(s[1..], kept, shell)
            else if shell && IsShellChar(s[0]) then Then(NonEmpty(kept), Operator(s, shell))
            else if s[0] == BACKSLASH then
              if |s| == 1 then Ok([kept])
              else PlainWord(s[2..], kept + Front(s[1]), shell)
            else PlainWord(s[1..], kept + [s[0]], shell)
  {
    hide PlainWord, QuotedWord, Operator, Then;
  }

  /** What a backslash at the front of a word leaves of itself. */
  function Front(c: char): (f: string)
    ensures f != ""
  {
    if IsSpace(c) || c == QUOTE then [c] else [BACKSLASH, c]
  }

  lemma {:induction false} EscapedFirst(args: seq<string>, kept: string, t: string, shell: bool)
    ensures Answer(Machine(Arg, args, kept, true), t, shell) ==
            Then(args, if t == "" then Ok([kept]) else PlainWord(t[1..], kept + Front(t[0]), shell))
    decreases |t|, 3
  {
    hide Answer, PlainWord, Then;
    var m := Machine(Arg, args, kept, true);
    if t == "" {
      AnswerStep(m, QUOTE, "", shell);
      NoMore(args);
    } else {
      FirstOf(t);
      AnswerStep(m, t[0], t[1..], shell);
      InPlain(args, kept + Front(t[0]), t[1..], shell);
    }
  }

  lemma {:induction false} InPlain(args: seq<string>, front: string, s: string, shell: bool)
    requires front != ""
    ensures Answer(Machine(Arg, args, front, false), s, shell) == Then(args, PlainWord(s, front, shell))
    decreases |s|, 2
  {
    hide Answer, Words, PlainWord, Operator, Then;
    var m := Machine(Arg, args, front, false);
    if s == "" {
      WordStops(s, front, shell);
      AnswerStep(m, QUOTE, "", shell);
      NoMore(args);
    } else {
      FirstOf(s);
      AnswerStep(m, s[0], s[1..], shell);
      if !EndsWord(s[0], shell) {
        WordGoesOn(s, front, shell);
        InPlain(args, front + [s[0]], s[1..], shell);
      } else {
        WordStops(s, front, shell);
        if IsSpace(s[0]) {
          Between(args + [front], "", s[1..], shell);
          ThenThen(args, [front], Words(s[1..], "", shell));
        } else {
          OperatorIs(s);
          InOperator(args + [front], [s[0]], s[1..]);
          ThenThen(args, [front], Operator(s, shell));
        }
      }
    }
  }

  lemma {:induction false} InOperator(args: seq<string>, run: string, s: string)
    requires run != ""
    ensures Answer(Machine(ShellCharacters, args, run, false), s, true) == Then(args, AfterOperator(run, s))
    decreases |s|, 2
  {
    hide Answer, Words, AfterOperator, Then;
    var m := Machine(ShellCharacters, args, run, false);
    if s == "" {
      OperatorStops(run, s);
      AnswerStep(m, QUOTE, "", true);
      NoMore(args);
    } else {
      FirstOf(s);
      AnswerStep(m, s[0], s[1..], true);
      if IsShellChar(s[0]) {
        OperatorGoesOn(run, s);
        InOperator(args, run + [s[0]], s[1..]);
      } else {
        OperatorStops(run, s);
        var kept := if IsSpace(s[0]) then "" else [s[0]];
        Between(args + [run], kept, s[1..], true);
        ThenThen(args, [run], Words(s[1..], kept, true));
      }
    }
  }

  lemma {:induction false} InQuoted(args: seq<string>, kept: string, s: string, shell: bool)
    ensures Answer(Machine(InQuote, args, if shell then kept + [QUOTE] else kept, false), s, shell) ==
            Then(args, QuotedWord(s, kept, shell))
    decreases |s|, 2
  {
    hide Answer, Words, Operator, Then;
    var cur := if shell then kept + [QUOTE] else kept;
    InQuotes(args, cur, s, shell);
    QuotedIs(s, kept, shell);
    NoMore(args);
    var e := QuoteEnd(s);
    if e.None? {
      AfterNone(args, cur, s, shell);
      NoWords(args, MissingQuote);
    } else {
      var c := e.value;
      var word := kept + if shell then [QUOTE] + s[..c] + [QUOTE] else Said(s[..c]);
      assert word == cur + Text(s[..c], shell) + if shell then [QUOTE] else "";
      AfterIs(args, cur, s, shell, word, s[c + 1..]);
      BehindQuoted(args, word, s[c + 1..], shell);
    }
  }

  lemma NoWords(args: seq<string>, e: SplitError)
    ensures Then(args, Err(e)) == Err(e)
  {
  }

  lemma QuotedIs(s: string, kept: string, shell: bool)
    ensures QuotedWord(s, kept, shell) ==
            match QuoteEnd(s)
            case None => Err(MissingQuote)
            case Some(c) =>
              Behind(s[c + 1..], kept + if shell then [QUOTE] + s[..c] + [QUOTE] else Said(s[..c]), shell)
  {
    hide Words, Operator, Then, Said;
  }

  /** What must follow a quoted word. */
  function Behind(rest: string, word: string, shell: bool): Result<seq<string>, SplitError> {
    if rest == "" then Ok([word])
    else if IsSpace(rest[0]) then Then([word], Words(rest[1..], "", shell))
    else if rest[0] == '|' || rest[0] == ';' || (shell && rest[0] == '&') then Then([word], Operator(rest, shell))
    else Err(MissingSpace)
  }

  lemma {:induction false} BehindQuoted(args: seq<string>, word: string, rest: string, shell: bool)
    ensures Answer(Machine(EndQuote, args + [word], "", false), rest, shell) == Then(args, Behind(rest, word, shell))
    decreases |rest|, 4
  {
    hide Answer, Words;
    var m := Machine(EndQuote, args + [word], "", false);
    if rest == "" {
      AnswerStep(m, QUOTE, "", shell);
    } else {
      FirstOf(rest);
      var r, t := rest[0], rest[1..];
      AnswerStep(m, r, t, shell);
      if IsSpace(r) {
        Between(args + [word], "", t, shell);
        ThenThen(args, [word], Words(t, "", shell));
      } else if r == '|' || r == ';' || (shell && r == '&') {
        ThenThen(args, [word], Operator(rest, shell));
        if shell {
          OperatorIs(rest);
          InOperator(args + [word], [r], t);
        } else {
          NotInAShell(args + [word], r, t);
        }
      }
    }
  }

  lemma NotInAShell(args: seq<string>, r: char, t: string)
    requires IsShellChar(r)
    ensures Answer(Machine(ShellCharacters, args, [r], false), t, false) == Then(args, Operator([r] + t, false))
  {
    var m := Machine(ShellCharacters, args, [r], false);
    hide Answer;
    if t == "" {
      AnswerStep(m, QUOTE, "", false);
      NoMore(args);
    } else {
      FirstOf(t);
      AnswerStep(m, t[0], t[1..], false);
    }
  }

  /** Splitting gives the words, for every input, in a shell and outside. */
  lemma SplitIsWords(input: string, shell: bool)
    ensures Split(input, shell) == Words(input, "", shell)
  {
    Between([], "", input, shell);
    ThenThen([], [], Words(input, "", shell));
  }
}
