/** Reading key=value pairs (lib/parser/dockerfile/parse_key_values.go). */
module KeyVals {
  import opened Wrappers
  import opened Characters
  import opened Quoting

  datatype Phase = Space | Key | Equals | Val | ValQuote | ValEndQuote

  datatype KVError = BadKey | MissingValue | MissingEquals | MissingQuote | MissingSpace

  type Vars = map<string, string>

  datatype Machine = Machine(phase: Phase, vars: Vars, currKey: string, currVal: string, escaped: bool)

  function Start(): Machine {
    Machine(Space, map[], "", "", false)
  }

  function Consume(m: Machine): Machine {
    m.(vars := m.vars[m.currKey := m.currVal], currKey := "", currVal := "")
  }

  function KeyStep(m: Machine, r: char): Result<Machine, KVError> {
    if m.phase.Key? && r == '=' then Ok(m.(phase := Equals))
    else if m.phase.Space? && IsSpace(r) then Ok(m)
    else if !IsKeyChar(r) then Err(BadKey)
    else Ok(m.(phase := Key, currKey := m.currKey + [r]))
  }

  function EqualsStep(m: Machine, r: char): Machine {
    if r == QUOTE then m.(phase := ValQuote)
    else if r == BACKSLASH then m.(phase := Val, escaped := true)
    else m.(phase := Val, currVal := m.currVal + [r])
  }

  function ValStep(m: Machine, r: char): Result<Machine, KVError> {
    if m.escaped then
      Ok(m.(currVal := m.currVal + (if !IsSpace(r) && r != QUOTE then [BACKSLASH, r] else [r]), escaped := false))
    else if r == BACKSLASH then Ok(m.(escaped := true))
    else if IsSpace(r) then
      if m.currVal == "" then Err(MissingValue) else Ok(Consume(m).(phase := Space))
    else Ok(m.(currVal := m.currVal + [r]))
  }

  function QuoteStep(m: Machine, r: char): Machine {
    if m.escaped then
      m.(currVal := m.currVal + (if r != QUOTE then [BACKSLASH, r] else [r]), escaped := false)
    else if r == BACKSLASH then m.(escaped := true)
    else if r == QUOTE then Consume(m).(phase := ValEndQuote)
    else m.(currVal := m.currVal + [r])
  }

  function Step(m: Machine, r: char): Result<Machine, KVError> {
    match m.phase
    case Space => KeyStep(m, r)
    case Key => KeyStep(m, r)
    case Equals => Ok(EqualsStep(m, r))
    case Val => ValStep(m, r)
    case ValQuote => Ok(QuoteStep(m, r))
    case ValEndQuote => if IsSpace(r) then Ok(m.(phase := Space)) else Err(MissingSpace)
  }

  function End(m: Machine): Result<Vars, KVError> {
    match m.phase
    case Key => Err(MissingEquals)
    case Equals => Err(MissingEquals)
    case Val => if m.currVal == "" then Err(MissingValue) else Ok(Consume(m).vars)
    case ValQuote => Err(MissingQuote)
    case _ => Ok(m.vars)
  }

  function Finish(m: Machine, input: string): Result<Vars, KVError>
    decreases input
  {
    if input == "" then End(m)
    else
      match Step(m, input[0])
      case Err(e) => Err(e)
      case Ok(m') => Finish(m', input[1..])
  }

  function Parse(input: string): Result<Vars, KVError> {
    Finish(Start(), input)
  }

  // ----- the machine as the program keeps it -----

  class Parser {
    var phase: Phase
    var vars: Vars
    var currKey: string
    var currVal: string
    var escaped: bool

    constructor ()
      ensures Now() == Start()
    {
      phase, vars, currKey, currVal, escaped := Space, map[], "", "", false;
    }

    function Now(): Machine
      reads this
    {
      Machine(phase, vars, currKey, currVal, escaped)
    }

    method ConsumeCurrKV()
      modifies this`vars, this`currKey, this`currVal
      ensures Now() == Consume(old(Now()))
    {
      vars := vars[currKey := currVal];
      currKey, currVal := "", "";
    }

    method NextRuneVal(r: char) returns (e: Result<(), KVError>)
      requires phase.Val?
      modifies this
      ensures match ValStep(old(Now()), r)
              case Ok(m) => e == Ok(()) && Now() == m
              case Err(x) => e == Err(x)
    {
      if escaped {
        if !IsSpace(r) && r != QUOTE {
          currVal := currVal + [BACKSLASH];
        }
        escaped := false;
      } else if r == BACKSLASH {
        escaped := true;
        return Ok(());
      } else if IsSpace(r) {
        if currVal == "" {
          return Err(MissingValue);
        }
        ConsumeCurrKV();
        phase := Space;
        return Ok(());
      }
      currVal := currVal + [r];
      return Ok(());
    }

    method NextRuneQuote(r: char)
      requires phase.ValQuote?
      modifies this
      ensures Now() == QuoteStep(old(Now()), r)
    {
      if escaped {
        if r != QUOTE {
          currVal := currVal + [BACKSLASH];
        }
        escaped := false;
      } else if r == BACKSLASH {
        escaped := true;
        return;
      } else if r == QUOTE {
        ConsumeCurrKV();
        phase := ValEndQuote;
        return;
      }
      currVal := currVal + [r];
    }

    method NextRune(r: char) returns (e: Result<(), KVError>)
      modifies this
      ensures match Step(old(Now()), r)
              case Ok(m) => e == Ok(()) && Now() == m
              case Err(x) => e == Err(x)
    {
      e := Ok(());
      match phase {
        case Space =>
          if IsSpace(r) {
            return;
          } else if !IsKeyChar(r) {
            return Err(BadKey);
          }
          currKey := currKey + [r];
          phase := Key;
        case Key =>
          if r == '=' {
            phase := Equals;
            return;
          } else if !IsKeyChar(r) {
            return Err(BadKey);
          }
          currKey := currKey + [r];
        case Equals =>
          if r == QUOTE {
            phase := ValQuote;
            return;
          } else if r == BACKSLASH {
            escaped := true;
          } else {
            currVal := currVal + [r];
          }
          phase := Val;
        case Val => e := NextRuneVal(r);
        case ValQuote => NextRuneQuote(r);
        case ValEndQuote =>
          if !IsSpace(r) {
            return Err(MissingSpace);
          }
          phase := Space;
      }
    }
  }

  /** The driver loop. */
  method ParseKeyVals(input: string) returns (r: Result<Vars, KVError>)
    ensures r == Parse(input)
  {
    var m := new Parser();
    for i := 0 to |input|
      invariant fresh(m)
      invariant Parse(input) == Finish(m.Now(), input[i..])
    {
      var e := m.NextRune(input[i]);
      assert input[i..][0] == input[i] && input[i..][1..] == input[i + 1..];
      if e.Err? {
        return Err(e.error);
      }
    }
    assert input[|input|..] == "";
    match m.phase {
      case Key => return Err(MissingEquals);
      case Equals => return Err(MissingEquals);
      case Val =>
        if m.currVal == "" {
          return Err(MissingValue);
        }
        m.ConsumeCurrKV();
        return Ok(m.vars);
      case ValQuote => return Err(MissingQuote);
      case _ => return Ok(m.vars);
    }
  }

  // ----- printing and reading back -----

  datatype Pair = Pair(key: string, val: string)

  function PrintPair(p: Pair): string {
    p.key + "=" + Quoted(p.val)
  }

  function PrintPairs(pairs: seq<Pair>): string {
    if pairs == [] then ""
    else if |pairs| == 1 then PrintPair(pairs[0])
    else PrintPair(pairs[0]) + " " + PrintPairs(pairs[1..])
  }

  /** The dictionary of a list of pairs, on top of what is there. */
  function Put(vars: Vars, pairs: seq<Pair>): Vars
    decreases pairs
  {
    if pairs == [] then vars else Put(vars[pairs[0].key := pairs[0].val], pairs[1..])
  }

  predicate DistinctKeys(pairs: seq<Pair>) {
    forall i, j | 0 <= i < j < |pairs| :: pairs[i].key != pairs[j].key
  }

  ghost predicate Printable(p: Pair) {
    IsKey(p.key) && EvenRuns(p.val)
  }

  lemma {:induction false} FinishStep(m: Machine, r: char, rest: string)
    ensures Finish(m, [r] + rest) ==
            match Step(m, r)
            case Err(e) => Err(e)
            case Ok(m') => Finish(m', rest)
  {
    assert ([r] + rest)[1..] == rest;
  }

  function InText(vars: Vars, key: string, q: Reading): Machine {
    Machine(ValQuote, vars, key, q.text, q.escaped)
  }

  /** Inside quotes the machine reads text as the quoting rule says. */
  lemma ReadsText(vars: Vars, key: string, q: Reading, r: char)
    ensures QuoteStep(InText(vars, key, q), r) ==
            match Read(q, r)
            case Some(p) => InText(vars, key, p)
            case None => Machine(ValEndQuote, vars[key := q.text], "", "", false)
  {
  }

  lemma {:induction false} ReadsKey(vars: Vars, done: string, key: string, rest: string)
    requires forall c | c in key :: IsKeyChar(c)
    ensures Finish(Machine(Key, vars, done, "", false), key + ("=" + rest))
            == Finish(Machine(Equals, vars, done + key, "", false), rest)
    decreases key
  {
    if key == "" {
      FinishStep(Machine(Key, vars, done, "", false), '=', rest);
      assert done + "" == done && "" + ("=" + rest) == ['='] + rest;
    } else {
      FinishStep(Machine(Key, vars, done, "", false), key[0], key[1..] + ("=" + rest));
      assert key + ("=" + rest) == [key[0]] + (key[1..] + ("=" + rest)) by { assert key == [key[0]] + key[1..]; }
      ReadsKey(vars, done + [key[0]], key[1..], rest);
      assert done + [key[0]] + key[1..] == done + key;
    }
  }

  lemma FinishTwo(m: Machine, r: char, c: char, rest: string)
    ensures Finish(m, [r, c] + rest) ==
            match Step(m, r)
            case Err(e) => Err(e)
            case Ok(m') => Finish(m', [c] + rest)
  {
    hide Finish;
    assert [r, c] + rest == [r] + ([c] + rest);
    FinishStep(m, r, [c] + rest);
  }

  ghost predicate EvenQuotes(v: string) {
    forall i | 0 <= i < |v| && v[i] == QUOTE :: RunBefore(v, i) % 2 == 0
  }

  /** The text of a value, from its i-th character up to the closing quote. */
  lemma {:induction false} ReadsValue(vars: Vars, key: string, v: string, i: nat, q: Reading, rest: string)
      returns (end: Reading)
    requires EvenQuotes(v) && i <= |v| && ReadUpTo(v, i, q)
    ensures ReadUpTo(v, |v|, end)
    ensures Finish(InText(vars, key, q), Ahead(v, i, rest)) == Finish(InText(vars, key, end), [QUOTE] + rest)
    decreases |v| - i
  {
    var m := InText(vars, key, q);
    if i == |v| {
      AheadEnd(v, rest);
      end := q;
    } else {
      AheadStep(v, i, rest);
      ReadsNext(v, i, q);
      hide Finish, Ahead, Read, ReadUpTo;
      var after := Ahead(v, i + 1, rest);
      if v[i] == QUOTE {
        var p := Read(q, BACKSLASH).value;
        ReadsText(vars, key, q, BACKSLASH);
        ReadsText(vars, key, p, QUOTE);
        FinishTwo(m, BACKSLASH, QUOTE, after);
        FinishStep(InText(vars, key, p), QUOTE, after);
        end := ReadsValue(vars, key, v, i + 1, Read(p, QUOTE).value, rest);
      } else {
        ReadsText(vars, key, q, v[i]);
        FinishStep(m, v[i], after);
        end := ReadsValue(vars, key, v, i + 1, Read(q, v[i]).value, rest);
      }
    }
  }

  /** The key, the equals sign and the opening quote. */
  lemma OpensPair(vars: Vars, p: Pair, rest: string)
    requires IsKey(p.key)
    ensures Finish(Machine(Space, vars, "", "", false), PrintPair(p) + rest)
            == Finish(InText(vars, p.key, Reading("", false)), Ahead(p.val, 0, rest))
    ensures ReadUpTo(p.val, 0, Reading("", false))
  {
    hide Finish;
    var k, v := p.key, p.val;
    assert v[0..] == v;
    var value := Ahead(v, 0, rest);
    var tail := k[1..] + ("=" + ([QUOTE] + value));
    assert k[0] in k;
    assert PrintPair(p) + rest == [k[0]] + tail by { assert k == [k[0]] + k[1..]; }
    FinishStep(Machine(Space, vars, "", "", false), k[0], tail);
    assert !IsSpace(k[0]) && "" + [k[0]] == [k[0]];
    ReadsKey(vars, [k[0]], k[1..], [QUOTE] + value);
    assert [k[0]] + k[1..] == k;
    FinishStep(Machine(Equals, vars, k, "", false), QUOTE, value);
  }

  lemma ReadsPair(vars: Vars, p: Pair, rest: string)
    requires Printable(p)
    ensures Finish(Machine(Space, vars, "", "", false), PrintPair(p) + rest)
            == Finish(Machine(ValEndQuote, vars[p.key := p.val], "", "", false), rest)
  {
    OpensPair(vars, p, rest);
    var q := ReadsValue(vars, p.key, p.val, 0, Reading("", false), rest);
    WholeText(p.val, q);
    hide Finish;
    ReadsText(vars, p.key, q, QUOTE);
    FinishStep(InText(vars, p.key, q), QUOTE, rest);
  }

  lemma {:induction false} ReadsPairs(vars: Vars, pairs: seq<Pair>)
    requires forall p | p in pairs :: Printable(p)
    ensures Finish(Machine(Space, vars, "", "", false), PrintPairs(pairs)) == Ok(Put(vars, pairs))
    decreases pairs
  {
    if pairs == [] {
      assert Finish(Machine(Space, vars, "", "", false), "") == Ok(vars);
    } else {
      hide Printable;
      var p, more := pairs[0], pairs[1..];
      var vars' := vars[p.key := p.val];
      var rest := if more == [] then "" else " " + PrintPairs(more);
      assert PrintPairs(pairs) == PrintPair(p) + rest;
      ReadsPair(vars, p, rest);
      if more == [] {
        assert Finish(Machine(ValEndQuote, vars', "", "", false), "") == Ok(vars');
      } else {
        FinishStep(Machine(ValEndQuote, vars', "", "", false), ' ', PrintPairs(more));
        ReadsPairs(vars', more);
      }
    }
  }

  lemma {:induction false} PutHas(vars: Vars, pairs: seq<Pair>)
    requires DistinctKeys(pairs)
    ensures var m := Put(vars, pairs);
            && (forall i | 0 <= i < |pairs| :: pairs[i].key in m && m[pairs[i].key] == pairs[i].val)
            && (forall k | (forall i | 0 <= i < |pairs| :: pairs[i].key != k) ::
                (k in m <==> k in vars) && (k in vars ==> m[k] == vars[k]))
    decreases pairs
  {
    if pairs != [] {
      var more := pairs[1..];
      assert forall i | 0 <= i < |more| :: more[i] == pairs[i + 1];
      PutHas(vars[pairs[0].key := pairs[0].val], more);
    }
  }

  // ----- what is read can be printed -----

  ghost predicate AllPrintable(vars: Vars) {
    forall k | k in vars :: Printable(Pair(k, vars[k]))
  }

  /** The pair in progress, as far as it has been read, can be printed. */
  ghost predicate Sane(m: Machine) {
    && AllPrintable(m.vars) && EvenRuns(m.currVal)
    && (m.phase.Key? || m.phase.Equals? || m.phase.Val? || m.phase.ValQuote? ==> IsKey(m.currKey))
    && (m.phase.Space? || m.phase.ValEndQuote? ==> m.currKey == "")
    && (m.phase.Space? || m.phase.ValEndQuote? || m.phase.Key? || m.phase.Equals? ==> m.currVal == "" && !m.escaped)
  }

  lemma ConsumeIsSane(m: Machine)
    requires Sane(m) && IsKey(m.currKey)
    ensures AllPrintable(Consume(m).vars)
  {
  }

  lemma StepIsSane(m: Machine, r: char, m': Machine)
    requires Sane(m) && Step(m, r) == Ok(m')
    ensures Sane(m')
  {
    ReadingKeepsEvenRuns(m.currVal, r);
    NothingIsEven();
    if IsKey(m.currKey) { ConsumeIsSane(m); }
    hide EvenRuns, AllPrintable;
  }

  lemma NothingIsEven()
    ensures EvenRuns("")
  {
  }

  lemma {:induction false} FinishIsPrintable(m: Machine, input: string, vars: Vars)
    requires Sane(m) && Finish(m, input) == Ok(vars)
    ensures AllPrintable(vars)
    decreases input
  {
    hide EvenRuns, AllPrintable;
    if input == "" {
      if IsKey(m.currKey) { ConsumeIsSane(m); }
    } else {
      hide Sane;
      var m' := Step(m, input[0]).value;
      StepIsSane(m, input[0], m');
      FinishIsPrintable(m', input[1..], vars);
    }
  }

  /** Every dictionary the machine returns, for any input at all, has valid keys
      and values in which quotes and the end come after even runs. */
  lemma ParsedIsPrintable(input: string, vars: Vars)
    requires Parse(input) == Ok(vars)
    ensures AllPrintable(vars)
  {
    NothingIsEven();
    FinishIsPrintable(Start(), input, vars);
  }

  lemma PutIsDictionary(vars: Vars, pairs: seq<Pair>)
    requires DistinctKeys(pairs)
    requires forall k, v :: (k in vars && vars[k] == v) <==> Pair(k, v) in pairs
    ensures Put(map[], pairs) == vars
  {
    PutHas(map[], pairs);
    var m := Put(map[], pairs);
    forall k ensures (k in m <==> k in vars) && (k in vars ==> m[k] == vars[k]) {
      forall i | 0 <= i < |pairs| && pairs[i].key == k ensures k in vars {
        assert pairs[i] == Pair(k, pairs[i].val) && pairs[i] in pairs;
      }
      assert k in vars ==> Pair(k, vars[k]) in pairs;
    }
  }

  /** A dictionary printed in any order is read back exactly when its keys are
      valid and in each value every quote, and the end, comes after an even
      number of backslashes. */
  lemma ParseUndoesPrint(vars: Vars, pairs: seq<Pair>)
    requires DistinctKeys(pairs)
    requires forall k, v :: (k in vars && vars[k] == v) <==> Pair(k, v) in pairs
    ensures Parse(PrintPairs(pairs)) == Ok(vars) <==> AllPrintable(vars)
  {
    hide Finish, Parse, PrintPairs, Printable;
    if AllPrintable(vars) {
      forall p | p in pairs ensures Printable(p) {
        assert Pair(p.key, p.val) in pairs;
        assert p.key in vars && vars[p.key] == p.val;
      }
      ReadBack(pairs);
      PutIsDictionary(vars, pairs);
    } else if Parse(PrintPairs(pairs)).Ok? {
      ParsedIsPrintable(PrintPairs(pairs), Parse(PrintPairs(pairs)).value);
    }
  }

  lemma ReadBack(pairs: seq<Pair>)
    requires forall p | p in pairs :: Printable(p)
    ensures Parse(PrintPairs(pairs)) == Ok(Put(map[], pairs))
  {
    ReadsPairs(map[], pairs);
  }

  /** A value that ends in an odd number of backslashes does not survive: its
      closing quote is read as part of it, and nothing closes it. */
  lemma OddRunIsLost(p: Pair)
    requires IsKey(p.key) && EvenQuotes(p.val) && RunBefore(p.val, |p.val|) % 2 == 1
    ensures Parse(PrintPairs([p])) == Err(MissingQuote)
  {
    assert PrintPairs([p]) == PrintPair(p) + "";
    OpensPair(map[], p, "");
    var q := ReadsValue(map[], p.key, p.val, 0, Reading("", false), "");
    StaysOpen(p.val, q);
    var r := Read(q, QUOTE).value;
    ReadsText(map[], p.key, q, QUOTE);
    FinishStep(InText(map[], p.key, q), QUOTE, "");
    assert Finish(InText(map[], p.key, r), "") == Err(MissingQuote);
  }
}
