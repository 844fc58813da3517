/** Splitting a directive's arguments (lib/parser/dockerfile/split_args.go). */
module SplitArgs {
  import opened Wrappers
  import opened Characters
  import opened Quoting

  datatype Phase = Space | Arg | InQuote | EndQuote | ShellCharacters

  datatype SplitError = MissingQuote | MissingSpace | NotInShell

  datatype Machine = Machine(phase: Phase, args: seq<string>, currArg: string, escaped: bool)

  function Start(): Machine {
    Machine(Space, [], "", false)
  }

  predicate IsShellChar(r: char) {
    r == '&' || r == '|' || r == ';'
  }

  function Flush(m: Machine): seq<string> {
    if |m.currArg| > 0 then m.args + [m.currArg] else m.args
  }

  function SpaceStep(m: Machine, r: char, forShell: bool): Machine {
    if IsSpace(r) then m
    else if r == QUOTE then m.(phase := InQuote, currArg := if forShell then m.currArg + [QUOTE] else m.currArg)
    else if r == BACKSLASH then m.(phase := Arg, escaped := true)
    else if forShell && IsShellChar(r) then m.(phase := ShellCharacters, args := Flush(m), currArg := [r])
    else m.(phase := Arg, currArg := m.currArg + [r])
  }

  function ArgStep(m: Machine, r: char, forShell: bool): Machine {
    if m.escaped then
      m.(currArg := m.currArg + (if !IsSpace(r) && r != QUOTE then [BACKSLASH, r] else [r]), escaped := false)
    else if IsSpace(r) then m.(phase := Space, args := m.args + [m.currArg], currArg := "")
    else if forShell && IsShellChar(r) then m.(phase := ShellCharacters, args := Flush(m), currArg := [r])
    else m.(currArg := m.currArg + [r])
  }

  function QuoteStep(m: Machine, r: char, forShell: bool): Machine {
    if m.escaped then
      m.(currArg := m.currArg + (if r != QUOTE || forShell then [BACKSLASH, r] else [r]), escaped := false)
    else if r == BACKSLASH then m.(escaped := true)
    else if r == QUOTE then
      m.(phase := EndQuote, args := m.args + [if forShell then m.currArg + [QUOTE] else m.currArg], currArg := "")
    else m.(currArg := m.currArg + [r])
  }

  /** A pipe or a semicolon is let through here even outside a shell. */
  function EndQuoteStep(m: Machine, r: char, forShell: bool): Result<Machine, SplitError> {
    if IsSpace(r) then Ok(m.(phase := Space))
    else if (forShell && r == '&') || r == '|' || r == ';' then Ok(m.(phase := ShellCharacters, currArg := [r]))
    else Err(MissingSpace)
  }

  function ShellStep(m: Machine, r: char, forShell: bool): Result<Machine, SplitError> {
    if !forShell then Err(NotInShell)
    else if !IsShellChar(r) then
      Ok(m.(phase := Space, args := Flush(m), currArg := if IsSpace(r) then "" else [r]))
    else Ok(m.(currArg := m.currArg + [r]))
  }

  function Step(m: Machine, r: char, forShell: bool): Result<Machine, SplitError> {
    match m.phase
    case Space => Ok(SpaceStep(m, r, forShell))
    case Arg => Ok(ArgStep(m, r, forShell))
    case InQuote => Ok(QuoteStep(m, r, forShell))
    case EndQuote => EndQuoteStep(m, r, forShell)
    case ShellCharacters => ShellStep(m, r, forShell)
  }

  function End(m: Machine): Result<seq<string>, SplitError> {
    match m.phase
    case Arg => Ok(m.args + [m.currArg])
    case InQuote => Err(MissingQuote)
    case _ => Ok(m.args)
  }

  function Run(m: Machine, input: string, forShell: bool): Result<Machine, SplitError>
    decreases input
  {
    if input == "" then Ok(m)
    else
      match Step(m, input[0], forShell)
      case Err(e) => Err(e)
      case Ok(m') => Run(m', input[1..], forShell)
  }

  function Split(input: string, forShell: bool): Result<seq<string>, SplitError> {
    match Run(Start(), input, forShell)
    case Err(e) => Err(e)
    case Ok(m) => End(m)
  }

  // ----- the machine as the program keeps it -----

  class Splitter {
    const forShell: bool
    var phase: Phase
    var args: seq<string>
    var currArg: string
    var escaped: bool

    constructor (forShell: bool)
      ensures this.forShell == forShell && Now() == Start()
    {
      this.forShell, phase, args, currArg, escaped := forShell, Space, [], "", false;
    }

    function Now(): Machine
      reads this
    {
      Machine(phase, args, currArg, escaped)
    }

    method NextRuneSpace(r: char)
      requires phase.Space?
      modifies this
      ensures Now() == SpaceStep(old(Now()), r, forShell)
    {
      if IsSpace(r) {
        return;
      } else if r == QUOTE {
        if forShell {
          currArg := currArg + [QUOTE];
        }
        phase := InQuote;
        return;
      } else if r == BACKSLASH {
        escaped := true;
      } else if forShell && IsShellChar(r) {
        if |currArg| > 0 {
          args := args + [currArg];
        }
        currArg := [r];
        phase := ShellCharacters;
        return;
      } else {
        currArg := currArg + [r];
      }
      phase := Arg;
    }

    method NextRuneArg(r: char)
      requires phase.Arg?
      modifies this
      ensures Now() == ArgStep(old(Now()), r, forShell)
    {
      if escaped {
        if !IsSpace(r) && r != QUOTE {
          currArg := currArg + [BACKSLASH];
        }
        escaped := false;
      } else if IsSpace(r) {
        args := args + [currArg];
        currArg := "";
        phase := Space;
        return;
      } else if forShell && IsShellChar(r) {
        if |currArg| > 0 {
          args := args + [currArg];
        }
        currArg := [r];
        phase := ShellCharacters;
        return;
      }
      currArg := currArg + [r];
    }

    method NextRuneQuote(r: char)
      requires phase.InQuote?
      modifies this
      ensures Now() == QuoteStep(old(Now()), r, forShell)
    {
      if escaped {
        if r != QUOTE || forShell {
          currArg := currArg + [BACKSLASH];
        }
        escaped := false;
      } else if r == BACKSLASH {
        escaped := true;
        return;
      } else if r == QUOTE {
        if forShell {
          currArg := currArg + [QUOTE];
        }
        args := args + [currArg];
        currArg := "";
        phase := EndQuote;
        return;
      }
      currArg := currArg + [r];
    }

    method NextRune(r: char) returns (e: Result<(), SplitError>)
      modifies this
      ensures match Step(old(Now()), r, forShell)
              case Ok(m) => e == Ok(()) && Now() == m
              case Err(x) => e == Err(x)
    {
      match phase {
        case Space => NextRuneSpace(r);
        case Arg => NextRuneArg(r);
        case InQuote => NextRuneQuote(r);
        case EndQuote =>
          if !IsSpace(r) {
            if (forShell && r == '&') || r == '|' || r == ';' {
              currArg := [r];
              phase := ShellCharacters;
              return Ok(());
            }
            return Err(MissingSpace);
          }
          phase := Space;
        case ShellCharacters =>
          if !forShell {
            return Err(NotInShell);
          }
          if !IsShellChar(r) {
            if |currArg| > 0 {
              args := args + [currArg];
            }
            currArg := if IsSpace(r) then "" else [r];
            phase := Space;
            return Ok(());
          }
          currArg := currArg + [r];
      }
      return Ok(());
    }
  }

  /** The driver loop. */
  method SplitArgs(input: string, forShell: bool) returns (r: Result<seq<string>, SplitError>)
    ensures r == Split(input, forShell)
  {
    var m := new Splitter(forShell);
    for i := 0 to |input|
      invariant m.forShell == forShell && fresh(m)
      invariant Run(Start(), input, forShell) == Run(m.Now(), input[i..], forShell)
    {
      var e := m.NextRune(input[i]);
      assert input[i..][0] == input[i] && input[i..][1..] == input[i + 1..];
      if e.Err? {
        return Err(e.error);
      }
    }
    return End(m.Now());
  }

  // ----- printing and reading back -----

  /** Arguments in quotes, separated by spaces. */
  function PrintArgs(args: seq<string>): string {
    if args == [] then ""
    else if |args| == 1 then Quoted(args[0])
    else Quoted(args[0]) + " " + PrintArgs(args[1..])
  }

  function Finish(m: Machine, input: string): Result<seq<string>, SplitError> {
    match Run(m, input, false)
    case Err(e) => Err(e)
    case Ok(m') => End(m')
  }

  function InText(args: seq<string>, q: Reading): Machine {
    Machine(InQuote, args, q.text, q.escaped)
  }

  /** Inside quotes the machine reads text as the quoting rule says. */
  lemma ReadsText(args: seq<string>, q: Reading, r: char)
    ensures QuoteStep(InText(args, q), r, false) ==
            match Read(q, r)
            case Some(p) => InText(args, p)
            case None => Machine(EndQuote, args + [q.text], "", false)
  {
  }

  lemma FinishStep(m: Machine, r: char, rest: string)
    ensures Finish(m, [r] + rest) ==
            match Step(m, r, false)
            case Err(e) => Err(e)
            case Ok(m') => Finish(m', rest)
  {
    assert ([r] + rest)[1..] == rest;
  }

  lemma FinishTwo(m: Machine, r: char, c: char, rest: string)
    ensures Finish(m, [r, c] + rest) ==
            match Step(m, r, false)
            case Err(e) => Err(e)
            case Ok(m') => Finish(m', [c] + rest)
  {
    assert [r, c] + rest == [r] + ([c] + rest);
    FinishStep(m, r, [c] + rest);
  }

  /** Quoted text is read back unchanged until a quote follows an odd number of
      backslashes. */
  lemma {:induction false} ReadsPrefix(args: seq<string>, v: string, i: nat, rest: string) returns (q: Reading)
    requires i <= |v| && forall j | 0 <= j < i && v[j] == QUOTE :: RunBefore(v, j) % 2 == 0
    ensures ReadUpTo(v, i, q)
    ensures Finish(InText(args, Reading("", false)), Ahead(v, 0, rest)) == Finish(InText(args, q), Ahead(v, i, rest))
  {
    if i == 0 {
      q := Reading("", false);
    } else {
      var p := ReadsPrefix(args, v, i - 1, rest);
      ReadsNext(v, i - 1, p);
      AheadStep(v, i - 1, rest);
      hide Finish, Read, ReadUpTo, Ahead;
      if v[i - 1] == QUOTE {
        var mid := Read(p, BACKSLASH).value;
        q := Read(mid, QUOTE).value;
        ReadsText(args, p, BACKSLASH);
        ReadsText(args, mid, QUOTE);
        FinishTwo(InText(args, p), BACKSLASH, QUOTE, Ahead(v, i, rest));
        FinishStep(InText(args, mid), QUOTE, Ahead(v, i, rest));
      } else {
        q := Read(p, v[i - 1]).value;
        ReadsText(args, p, v[i - 1]);
        FinishStep(InText(args, p), v[i - 1], Ahead(v, i, rest));
      }
    }
  }

  lemma ReadsWhole(args: seq<string>, v: string, rest: string)
    requires EvenRuns(v)
    ensures Finish(InText(args, Reading("", false)), Ahead(v, 0, rest))
            == Finish(Machine(EndQuote, args + [v], "", false), rest)
  {
    var q := ReadsPrefix(args, v, |v|, rest);
    WholeText(v, q);
    AheadEnd(v, rest);
    FinishStep(InText(args, q), QUOTE, rest);
  }

  // ----- when it goes wrong -----

  /** Arguments already split stay, and one being read is only extended. */
  ghost predicate Extends(m: Machine, out: seq<string>) {
    && m.args <= out
    && (m.phase.InQuote? || m.phase.Arg? ==> |out| > |m.args| && m.currArg <= out[|m.args|])
  }

  lemma StepExtends(m: Machine, r: char, m': Machine, out: seq<string>)
    requires Step(m, r, false) == Ok(m') && Extends(m', out)
    ensures Extends(m, out)
  {
  }

  lemma {:induction false} FinishExtends(m: Machine, rest: string, out: seq<string>)
    requires Finish(m, rest) == Ok(out)
    ensures Extends(m, out)
    decreases rest
  {
    if rest != "" {
      var m' := Step(m, rest[0], false).value;
      FinishExtends(m', rest[1..], out);
      StepExtends(m, rest[0], m', out);
    }
  }

  /** Text with an odd run is read as something else, or not at all. */
  lemma ReadsWrong(args: seq<string>, v: string, rest: string, out: seq<string>)
    requires !EvenRuns(v)
    requires Finish(InText(args, Reading("", false)), Ahead(v, 0, rest)) == Ok(out)
    ensures args <= out && |out| > |args| && out[|args|] != v
  {
    var bad := FirstOddRun(v, 0);
    var q := ReadsPrefix(args, v, bad, rest);
    hide Finish, ReadUpTo, Escape;
    if bad < |v| {
      ClosesEarly(v, bad, q);
      AheadStep(v, bad, rest);
      var p := Read(q, BACKSLASH).value;
      ReadsText(args, q, BACKSLASH);
      ReadsText(args, p, QUOTE);
      FinishTwo(InText(args, q), BACKSLASH, QUOTE, Ahead(v, bad + 1, rest));
      FinishStep(InText(args, p), QUOTE, Ahead(v, bad + 1, rest));
      var m := Machine(EndQuote, args + [p.text], "", false);
      FinishExtends(m, Ahead(v, bad + 1, rest), out);
      assert out[|args|] == (args + [p.text])[|args|];
    } else {
      StaysOpen(v, q);
      var p := Read(q, QUOTE).value;
      ReadsText(args, q, QUOTE);
      AheadEnd(v, rest);
      FinishStep(InText(args, q), QUOTE, rest);
      FinishExtends(InText(args, p), rest, out);
      assert out[|args|][|v| - 1] == QUOTE;
    }
  }

  // ----- the round trip -----

  ghost predicate AllEven(args: seq<string>) {
    forall v | v in args :: EvenRuns(v)
  }

  lemma OpensQuote(args: seq<string>, v: string, rest: string)
    ensures Finish(Machine(Space, args, "", false), Quoted(v) + rest)
            == Finish(InText(args, Reading("", false)), Ahead(v, 0, rest))
  {
    assert v[0..] == v;
    assert Quoted(v) + rest == [QUOTE] + Ahead(v, 0, rest);
    FinishStep(Machine(Space, args, "", false), QUOTE, Ahead(v, 0, rest));
  }

  /** One argument is read back and the rest goes on after it, or the whole
      result is wrong. */
  lemma FirstArgument(done: seq<string>, v: string, more: seq<string>)
    ensures var all := Finish(Machine(Space, done, "", false), PrintArgs([v] + more));
            if EvenRuns(v) then all == Finish(Machine(Space, done + [v], "", false), PrintArgs(more))
            else all != Ok(done + ([v] + more))
  {
    var args := [v] + more;
    var rest := if more == [] then "" else " " + PrintArgs(more);
    assert args[1..] == more && PrintArgs(args) == Quoted(v) + rest;
    hide Finish, PrintArgs, EvenRuns;
    OpensQuote(done, v, rest);
    if EvenRuns(v) {
      ReadsWhole(done, v, rest);
      AfterQuote(done + [v], more);
    } else if Finish(Machine(Space, done, "", false), PrintArgs(args)).Ok? {
      var out := Finish(Machine(Space, done, "", false), PrintArgs(args)).value;
      ReadsWrong(done, v, rest, out);
      assert (done + args)[|done|] == v;
    }
  }

  lemma {:induction false} RoundTripFrom(done: seq<string>, args: seq<string>)
    ensures Finish(Machine(Space, done, "", false), PrintArgs(args)) == Ok(done + args) <==> AllEven(args)
    decreases args
  {
    if args == [] {
      assert Finish(Machine(Space, done, "", false), "") == Ok(done) && done + [] == done;
    } else {
      hide Finish, PrintArgs, EvenRuns;
      var v, more := args[0], args[1..];
      assert args == [v] + more && done + [v] + more == done + args;
      FirstArgument(done, v, more);
      RoundTripFrom(done + [v], more);
    }
  }

  lemma AfterQuote(done: seq<string>, more: seq<string>)
    ensures var rest := if more == [] then "" else " " + PrintArgs(more);
            Finish(Machine(EndQuote, done, "", false), rest) == Finish(Machine(Space, done, "", false), PrintArgs(more))
  {
    if more == [] {
      assert Finish(Machine(EndQuote, done, "", false), "") == Ok(done) == Finish(Machine(Space, done, "", false), "");
    } else {
      FinishStep(Machine(EndQuote, done, "", false), ' ', PrintArgs(more));
    }
  }

  /** Printed in quotes, arguments are split back exactly when in each of them
      every quote, and the end, comes after an even number of backslashes. */
  lemma SplitUndoesPrint(args: seq<string>)
    ensures Split(PrintArgs(args), false) == Ok(args) <==> AllEven(args)
  {
    RoundTripFrom([], args);
    assert [] + args == args;
  }
}
