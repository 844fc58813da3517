/** Variable replacement in Dockerfiles (lib/parser/dockerfile/replace_variables.go):
    a character machine with a stack of the names it is in the middle of. */
module ReplaceVars {
  import opened Wrappers
  import opened Characters

  type Vars = map<string, string>

  datatype Phase = Plain | Dollar | Var | Bracket | Colon

  datatype ReplaceError = MissingName | MissingDefault | BadDefault | NestedColon | Unfinished

  datatype Machine = Machine(
    phase: Phase,
    result: string,
    currVar: string,
    varsInProgress: seq<string>,
    cmd: Option<char>,
    defaultVal: string,
    escaped: bool)

  function Start(): Machine {
    Machine(Plain, "", "", [], None, "", false)
  }

  function Reset(m: Machine): Machine {
    m.(currVar := "", cmd := None, defaultVal := "")
  }

  // ----- resolving a name -----

  /** resolveCurrVar of the base: None if the name has no value. */
  function Value(vars: Vars, m: Machine): Result<Option<string>, ReplaceError> {
    var known := m.currVar in vars;
    match m.cmd
    case None => Ok(if known then Some(vars[m.currVar]) else None)
    case Some(c) =>
      if m.defaultVal == "" then Err(MissingDefault)
      else if c == '-' then Ok(Some(if known then vars[m.currVar] else m.defaultVal))
      else Ok(Some(if known then m.defaultVal else ""))
  }

  /** With braces or without, an unknown name comes back as it was written. */
  function Resolved(vars: Vars, m: Machine, braces: bool): Result<string, ReplaceError> {
    match Value(vars, m)
    case Err(e) => Err(e)
    case Ok(Some(v)) => Ok(v)
    case Ok(None) => Ok(if braces then "${" + m.currVar + "}" else "$" + m.currVar)
  }

  // ----- one character -----

  function PlainStep(m: Machine, r: char): Machine {
    if m.escaped then
      m.(result := m.result + (if r != DOLLAR then [BACKSLASH, r] else [r]), escaped := false)
    else if r == BACKSLASH then m.(escaped := true)
    else if r == DOLLAR then m.(phase := Dollar)
    else m.(result := m.result + [r])
  }

  function DollarStep(m: Machine, r: char): Machine {
    if r == '{' then m.(phase := Bracket) else m.(phase := Var, currVar := m.currVar + [r])
  }

  /** The innermost name in progress goes on with a value appended. */
  function Pop(m: Machine, val: string): Machine
    requires m.varsInProgress != []
  {
    var n := |m.varsInProgress| - 1;
    m.(currVar := m.varsInProgress[n] + val, varsInProgress := m.varsInProgress[..n])
  }

  function VarStep(vars: Vars, m: Machine, r: char): Result<Machine, ReplaceError> {
    if IsKeyChar(r) then Ok(m.(currVar := m.currVar + [r]))
    else
      match Resolved(vars, m, false)
      case Err(e) => Err(e)
      case Ok(val) =>
        if m.varsInProgress == [] then
          var m' := Reset(m.(result := m.result + val));
          if r == BACKSLASH then Ok(m'.(phase := Plain, escaped := true))
          else if r == DOLLAR then Ok(m'.(phase := Dollar))
          else Ok(m'.(phase := Plain, result := m'.result + [r]))
        else if r == '}' then
          var m' := Pop(m, val);
          if m'.varsInProgress != [] then Ok(m'.(phase := Bracket))
          else
            (match Resolved(vars, m', true)
             case Err(e) => Err(e)
             case Ok(v) => Ok(Reset(m'.(phase := Plain, result := m'.result + v))))
        else if r == ':' then
          if |m.varsInProgress| != 1 then Err(NestedColon) else Ok(Pop(m, val).(phase := Colon))
        else Ok(Pop(m, val).(phase := Bracket))
  }

  function BracketStep(vars: Vars, m: Machine, r: char): Result<Machine, ReplaceError> {
    if r == DOLLAR then
      Ok(m.(phase := Dollar, varsInProgress := m.varsInProgress + [m.currVar], currVar := ""))
    else if r == ':' then
      if m.currVar == "" then Err(MissingName) else Ok(m.(phase := Colon))
    else if r == '}' then
      match Resolved(vars, m, true)
      case Err(e) => Err(e)
      case Ok(val) =>
        if m.varsInProgress == [] then Ok(Reset(m.(phase := Plain, result := m.result + val)))
        else Ok(Pop(m, val))
    else Ok(m.(currVar := m.currVar + [r]))
  }

  function ColonStep(vars: Vars, m: Machine, r: char): Result<Machine, ReplaceError> {
    if m.cmd.None? then
      if r == '-' || r == '+' then Ok(m.(cmd := Some(r))) else Err(BadDefault)
    else if m.escaped then
      Ok(m.(defaultVal := m.defaultVal + (if r != '}' then [BACKSLASH, r] else [r]), escaped := false))
    else if r == BACKSLASH then Ok(m.(escaped := true))
    else if r == '}' then
      match Value(vars, m)
      case Err(e) => Err(e)
      case Ok(val) => Ok(Reset(m.(phase := Plain, result := m.result + if val.Some? then val.value else "")))
    else Ok(m.(defaultVal := m.defaultVal + [r]))
  }

  function Step(vars: Vars, m: Machine, r: char): Result<Machine, ReplaceError> {
    match m.phase
    case Plain => Ok(PlainStep(m, r))
    case Dollar => Ok(DollarStep(m, r))
    case Var => VarStep(vars, m, r)
    case Bracket => BracketStep(vars, m, r)
    case Colon => ColonStep(vars, m, r)
  }

  function End(vars: Vars, m: Machine): Result<string, ReplaceError> {
    match m.phase
    case Plain => Ok(m.result)
    case Dollar => Ok(m.result + "$")
    case Var =>
      if m.varsInProgress != [] then Err(Unfinished)
      else
        (match Resolved(vars, m, false)
         case Err(e) => Err(e)
         case Ok(val) => Ok(m.result + val))
    case _ => Err(Unfinished)
  }

  function Run(vars: Vars, m: Machine, input: string): Result<Machine, ReplaceError>
    decreases input
  {
    if input == "" then Ok(m)
    else
      match Step(vars, m, input[0])
      case Err(e) => Err(e)
      case Ok(m') => Run(vars, m', input[1..])
  }

  function Replaced(vars: Vars, input: string): Result<string, ReplaceError> {
    match Run(vars, Start(), input)
    case Err(e) => Err(e)
    case Ok(m) => End(vars, m)
  }

  // ----- the machine as the program keeps it -----

  class Replacer {
    const vars: Vars
    var phase: Phase
    var result: string
    var currVar: string
    var varsInProgress: seq<string>
    var cmd: Option<char>
    var defaultVal: string
    var escaped: bool

    constructor (vars: Vars)
      ensures this.vars == vars && Now() == Start()
    {
      this.vars, phase, result, currVar, varsInProgress := vars, Plain, "", "", [];
      cmd, defaultVal, escaped := None, "", false;
    }

    function Now(): Machine
      reads this
    {
      Machine(phase, result, currVar, varsInProgress, cmd, defaultVal, escaped)
    }

    method ResetVar()
      modifies this`currVar, this`cmd, this`defaultVal
      ensures Now() == Reset(old(Now()))
    {
      currVar, cmd, defaultVal := "", None, "";
    }

    method PopVar(val: string)
      requires varsInProgress != []
      modifies this`currVar, this`varsInProgress
      ensures Now() == Pop(old(Now()), val)
    {
      currVar := varsInProgress[|varsInProgress| - 1] + val;
      varsInProgress := varsInProgress[..|varsInProgress| - 1];
    }

    method NextRunePlain(r: char)
      requires phase.Plain?
      modifies this
      ensures Now() == PlainStep(old(Now()), r)
    {
      if escaped {
        if r != DOLLAR {
          result := result + [BACKSLASH];
        }
        escaped := false;
      } else if r == BACKSLASH {
        escaped := true;
        return;
      } else if r == DOLLAR {
        phase := Dollar;
        return;
      }
      result := result + [r];
    }

    method NextRuneVar(r: char) returns (e: Result<(), ReplaceError>)
      requires phase.Var?
      modifies this
      ensures match VarStep(vars, old(Now()), r)
              case Ok(m) => e == Ok(()) && Now() == m
              case Err(x) => e == Err(x)
    {
      if IsKeyChar(r) {
        currVar := currVar + [r];
        return Ok(());
      }
      var val := Resolved(vars, Now(), false);
      if val.Err? {
        return Err(val.error);
      }
      if |varsInProgress| == 0 {
        result := result + val.value;
        if r == BACKSLASH {
          escaped := true;
        } else if r == DOLLAR {
          ResetVar();
          phase := Dollar;
          return Ok(());
        } else {
          result := result + [r];
        }
        ResetVar();
        phase := Plain;
      } else if r == '}' {
        PopVar(val.value);
        if |varsInProgress| > 0 {
          phase := Bracket;
          return Ok(());
        }
        var outer := Resolved(vars, Now(), true);
        if outer.Err? {
          return Err(outer.error);
        }
        result := result + outer.value;
        ResetVar();
        phase := Plain;
      } else if r == ':' {
        if |varsInProgress| != 1 {
          return Err(NestedColon);
        }
        PopVar(val.value);
        phase := Colon;
      } else {
        PopVar(val.value);
        phase := Bracket;
      }
      return Ok(());
    }

    method NextRuneBracket(r: char) returns (e: Result<(), ReplaceError>)
      requires phase.Bracket?
      modifies this
      ensures match BracketStep(vars, old(Now()), r)
              case Ok(m) => e == Ok(()) && Now() == m
              case Err(x) => e == Err(x)
    {
      if r == DOLLAR {
        varsInProgress := varsInProgress + [currVar];
        currVar := "";
        phase := Dollar;
      } else if r == ':' {
        if currVar == "" {
          return Err(MissingName);
        }
        phase := Colon;
      } else if r == '}' {
        var val := Resolved(vars, Now(), true);
        if val.Err? {
          return Err(val.error);
        }
        if |varsInProgress| == 0 {
          result := result + val.value;
          ResetVar();
          phase := Plain;
        } else {
          PopVar(val.value);
        }
      } else {
        currVar := currVar + [r];
      }
      return Ok(());
    }

    method NextRuneColon(r: char) returns (e: Result<(), ReplaceError>)
      requires phase.Colon?
      modifies this
      ensures match ColonStep(vars, old(Now()), r)
              case Ok(m) => e == Ok(()) && Now() == m
              case Err(x) => e == Err(x)
    {
      if cmd.None? {
        if r != '-' && r != '+' {
          return Err(BadDefault);
        }
        cmd := Some(r);
        return Ok(());
      } else if escaped {
        if r != '}' {
          defaultVal := defaultVal + [BACKSLASH];
        }
        escaped := false;
      } else if r == BACKSLASH {
        escaped := true;
        return Ok(());
      } else if r == '}' {
        var val := Value(vars, Now());
        if val.Err? {
          return Err(val.error);
        }
        result := result + if val.value.Some? then val.value.value else "";
        ResetVar();
        phase := Plain;
        return Ok(());
      }
      defaultVal := defaultVal + [r];
      return Ok(());
    }

    method NextRune(r: char) returns (e: Result<(), ReplaceError>)
      modifies this
      ensures match Step(vars, old(Now()), r)
              case Ok(m) => e == Ok(()) && Now() == m
              case Err(x) => e == Err(x)
    {
      e := Ok(());
      match phase {
        case Plain => NextRunePlain(r);
        case Dollar =>
          if r == '{' {
            phase := Bracket;
          } else {
            currVar := currVar + [r];
            phase := Var;
          }
        case Var => e := NextRuneVar(r);
        case Bracket => e := NextRuneBracket(r);
        case Colon => e := NextRuneColon(r);
      }
    }
  }

  /** The driver loop. */
  method ReplaceVariables(input: string, vars: Vars) returns (r: Result<string, ReplaceError>)
    ensures r == Replaced(vars, input)
  {
    var m := new Replacer(vars);
    for i := 0 to |input|
      invariant m.vars == vars
      invariant Run(vars, Start(), input) == Run(vars, m.Now(), input[i..])
      invariant fresh(m)
    {
      var e := m.NextRune(input[i]);
      assert input[i..][0] == input[i] && input[i..][1..] == input[i + 1..];
      if e.Err? {
        return Err(e.error);
      }
    }
    return End(vars, m.Now());
  }
}
