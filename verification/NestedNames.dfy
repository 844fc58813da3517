/** Variables without braces, and defaults, inside names: where the replacement
    machine reads them as if they had been replaced, and where it does not. */
module NestedNames {
  import opened Wrappers
  import opened Characters
  import opened ReplaceVars
  import opened Templates

  /** The value of a variable without braces. */
  function SimpleValue(vars: Vars, key: string): string {
    if key in vars then vars[key] else "$" + key
  }

  /** In the middle of a variable without braces, with these names in progress. */
  function InSimple(result: string, key: string, stack: seq<string>): Machine {
    Machine(Var, result, key, stack, None, "", false)
  }

  // ----- a variable without braces inside a name -----

  lemma {:induction false} ReadsKey(vars: Vars, result: string, key: string, more: string, stack: seq<string>)
    requires forall c | c in more :: IsKeyChar(c)
    ensures Run(vars, InSimple(result, key, stack), more) == Ok(InSimple(result, key + more, stack))
    decreases more
  {
    if more == "" {
      assert key + "" == key;
    } else {
      ReadsKey(vars, result, key + [more[0]], more[1..], stack);
      assert key + [more[0]] + more[1..] == key + more by { assert more == [more[0]] + more[1..]; }
    }
  }

  /** A dollar and a name, wherever names are in progress. */
  lemma OpensSimple(vars: Vars, result: string, currVar: string, stack: seq<string>, key: string)
    requires IsKey(key)
    ensures Run(vars, InBracket(result, currVar, stack), "$" + key) == Ok(InSimple(result, key, stack + [currVar]))
  {
    var m := InBracket(result, currVar, stack);
    var dollar := Machine(Dollar, result, "", stack + [currVar], None, "", false);
    RunOne(vars, m, '$');
    RunOne(vars, dollar, key[0]);
    assert key[0] in key && "" + [key[0]] == [key[0]];
    assert Step(vars, m, '$') == Ok(dollar);
    assert Step(vars, dollar, key[0]) == Ok(InSimple(result, [key[0]], stack + [currVar]));
    ReadsKey(vars, result, [key[0]], key[1..], stack + [currVar]);
    hide Run, Step;
    RunAppend(vars, m, "$", key);
    assert key == [key[0]] + key[1..];
    RunAppend(vars, dollar, [key[0]], key[1..]);
  }

  /** What the machine makes of a variable without braces inside a name and of the
      character that ends it: the character is never part of the name, and inside
      a name that is itself inside a name a brace closes nothing. */
  lemma SimpleInName(vars: Vars, result: string, currVar: string, stack: seq<string>, key: string, r: char)
    requires IsKey(key) && !IsKeyChar(r)
    ensures var name := currVar + SimpleValue(vars, key);
            Run(vars, InBracket(result, currVar, stack), "$" + key + [r]) ==
            if r == '}' && stack == [] then Ok(InPlain(result + LookUp(vars, name)))
            else if r == ':' && stack == [] then Ok(InBracket(result, name, []).(phase := Colon))
            else if r == ':' then Err(NestedColon)
            else Ok(InBracket(result, name, stack))
  {
    var m := InSimple(result, key, stack + [currVar]);
    OpensSimple(vars, result, currVar, stack, key);
    RunAppend(vars, InBracket(result, currVar, stack), "$" + key, [r]);
    RunOne(vars, m, r);
    assert (stack + [currVar])[..|stack|] == stack;
    hide Run;
  }

  /** It is read as if it had been replaced by its value if and only if it is the
      last thing in an outermost name. */
  lemma SimpleInNameIsExact(vars: Vars, result: string, currVar: string, stack: seq<string>, key: string, r: char)
    requires IsKey(key) && !IsKeyChar(r)
    ensures var name := currVar + SimpleValue(vars, key);
            Run(vars, InBracket(result, currVar, stack), "$" + key + [r])
            == Run(vars, InBracket(result, name, stack), [r])
            <==> stack == [] && (r == '}' || (r == ':' && name != ""))
  {
    var name := currVar + SimpleValue(vars, key);
    SimpleInName(vars, result, currVar, stack, key, r);
    RunOne(vars, InBracket(result, name, stack), r);
    hide Run;
    if r == '}' && stack != [] {
      assert |stack[..|stack| - 1]| != |stack|;
    } else if r != ':' && r != '}' && r != '$' {
      assert |name + [r]| != |name|;
    }
  }

  // ----- a default inside a name -----

  /** The machine back in plain text with names still in progress. */
  function LeftBehind(result: string, stack: seq<string>): Machine {
    Machine(Plain, result, "", stack, None, "", false)
  }

  function InDefault(result: string, currVar: string, stack: seq<string>, cmd: char, val: string): Machine {
    Machine(Colon, result, currVar, stack, Some(cmd), val, false)
  }

  lemma {:induction false} ReadsDefault(vars: Vars, result: string, key: string, stack: seq<string>, cmd: char,
      val: string, units: seq<Unit>)
    requires PlainUnits(units, '}')
    ensures Run(vars, InDefault(result, key, stack, cmd, val), PrintUnits(units))
            == Ok(InDefault(result, key, stack, cmd, val + UnitsText(units, '}')))
    decreases units
  {
    if units == [] {
      assert val + "" == val;
    } else {
      hide Step, Run, PrintUnit, UnitText;
      var t := UnitText(units[0], '}');
      ReadsDefaultUnit(vars, result, key, stack, cmd, val, units[0]);
      ReadsDefault(vars, result, key, stack, cmd, val + t, units[1..]);
      RunAppend(vars, InDefault(result, key, stack, cmd, val), PrintUnit(units[0]), PrintUnits(units[1..]));
      Regroup(val, t, UnitsText(units[1..], '}'));
    }
  }

  lemma ReadsDefaultUnit(vars: Vars, result: string, key: string, stack: seq<string>, cmd: char, val: string, u: Unit)
    requires PlainUnit(u, '}')
    ensures Run(vars, InDefault(result, key, stack, cmd, val), PrintUnit(u))
            == Ok(InDefault(result, key, stack, cmd, val + UnitText(u, '}')))
  {
    var m := InDefault(result, key, stack, cmd, val);
    match u
    case Chr(c) => RunOne(vars, m, c);
    case Esc(c) =>
      RunAppend(vars, m, [BACKSLASH], [c]);
      RunOne(vars, m, BACKSLASH);
      RunOne(vars, m.(escaped := true), c);
      assert [BACKSLASH] + [c] == [BACKSLASH, c];
  }

  /** A name with a default: its value goes straight to the result, and names that
      were in progress around it are left behind. */
  lemma DefaultInName(vars: Vars, result: string, key: string, stack: seq<string>, cmd: char, units: seq<Unit>)
    requires key != "" && (cmd == '-' || cmd == '+') && PlainUnits(units, '}') && units != []
    ensures Run(vars, InBracket(result, key, stack), ":" + [cmd] + PrintUnits(units) + "}")
            == Ok(LeftBehind(result + WithDefault(vars, key, cmd, UnitsText(units, '}')), stack))
  {
    hide Run;
    var m := InBracket(result, key, stack);
    var colon := m.(phase := Colon);
    var d := UnitsText(units, '}');
    RunOne(vars, m, ':');
    RunOne(vars, colon, cmd);
    ReadsDefault(vars, result, key, stack, cmd, "", units);
    assert "" + d == d;
    UnitsTextEmpty(units);
    RunOne(vars, InDefault(result, key, stack, cmd, d), '}');
    RunAppend(vars, m, ":", [cmd]);
    RunAppend(vars, m, ":" + [cmd], PrintUnits(units));
    RunAppend(vars, m, ":" + [cmd] + PrintUnits(units), "}");
  }

  /** Any other character behind the colon is an error. */
  lemma BadDefaultFails(vars: Vars, result: string, key: string, stack: seq<string>, c: char, rest: string)
    requires key != "" && c != '-' && c != '+'
    ensures Run(vars, InBracket(result, key, stack), ":" + [c] + rest) == Err(BadDefault)
  {
    var m := InBracket(result, key, stack);
    RunOne(vars, m, ':');
    RunOne(vars, m.(phase := Colon), c);
    hide Run;
    RunAppend(vars, m, ":", [c]);
    RunAppend(vars, m, ":" + [c], rest);
  }

  /** A default is read as the value of its name, inside another name, if and only
      if there is no other name: otherwise the value goes before the names around. */
  lemma DefaultInNameIsExact(vars: Vars, result: string, key: string, outer: string, stack: seq<string>, cmd: char,
      units: seq<Unit>)
    requires key != "" && (cmd == '-' || cmd == '+') && PlainUnits(units, '}') && units != []
    ensures Run(vars, InBracket(result, key, stack + [outer]), ":" + [cmd] + PrintUnits(units) + "}")
            != Ok(InBracket(result, outer + WithDefault(vars, key, cmd, UnitsText(units, '}')), stack))
    ensures Run(vars, InBracket(result, key, []), ":" + [cmd] + PrintUnits(units) + "}")
            == Ok(InPlain(result + WithDefault(vars, key, cmd, UnitsText(units, '}'))))
  {
    DefaultInName(vars, result, key, stack + [outer], cmd, units);
    DefaultInName(vars, result, key, [], cmd, units);
  }

  /** A name left behind goes on with the next name in braces as if that stood
      inside it. */
  lemma LeftBehindGoesOn(vars: Vars, result: string, outer: string, stack: seq<string>, name: Name)
    requires PlainName(name)
    ensures Run(vars, LeftBehind(result, stack + [outer]), "${" + PrintName(name) + "}")
            == Ok(InBracket(result, outer + LookUp(vars, NameValue(vars, name)), stack))
  {
    var m, all := LeftBehind(result, stack + [outer]), stack + [outer];
    assert "$" + "{" == "${";
    RunOne(vars, m, '$');
    RunOne(vars, m.(phase := Dollar), '{');
    hide Step;
    RunAppend(vars, m, "$", "{");
    RunsName(vars, result, "", all, name);
    assert "" + NameValue(vars, name) == NameValue(vars, name);
    RunsClose(vars, result, NameValue(vars, name), outer, stack);
    RunAppend(vars, m, "${", PrintName(name));
    RunAppend(vars, m, "${" + PrintName(name), "}");
  }

  // ----- input that ends too early -----

  /** Input that ends inside braces is an error; a dollar at the end is itself, and
      a backslash at the end is lost. */
  lemma EndsEarly(vars: Vars, result: string, currVar: string, stack: seq<string>, key: string)
    ensures Finish(vars, InBracket(result, currVar, stack), "") == Err(Unfinished)
    ensures stack != [] ==> Finish(vars, InSimple(result, key, stack), "") == Err(Unfinished)
    ensures Finish(vars, InPlain(result), "$") == Ok(result + "$")
    ensures Finish(vars, InPlain(result), [BACKSLASH]) == Ok(result)
    ensures Finish(vars, InBracket(result, currVar, stack).(phase := Colon), "") == Err(Unfinished)
  {
    RunOne(vars, InPlain(result), '$');
    RunOne(vars, InPlain(result), BACKSLASH);
  }
}
