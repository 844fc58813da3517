/** What a Dockerfile string with variables means, said by recursion on its
    structure, and that the replacement machine computes it. */
module Templates {
  import opened Wrappers
  import opened Characters
  import opened ReplaceVars

  /** A character as it is, or one with a backslash before it. */
  datatype Unit = Chr(c: char) | Esc(c: char)

  /** The name between braces: text and names to look up, to any depth. */
  datatype NamePart = Text(c: char) | Nested(parts: Name)
  type Name = seq<NamePart>

  datatype Part =
    | Lit(u: Unit)
    | Simple(key: string)
    | Braced(name: Name)
    | Default(name: Name, cmd: char, units: seq<Unit>)

  type Template = seq<Part>

  // ----- how it is written -----

  function PrintUnit(u: Unit): string {
    match u
    case Chr(c) => [c]
    case Esc(c) => [BACKSLASH, c]
  }

  function PrintUnits(units: seq<Unit>): string {
    if units == [] then "" else PrintUnit(units[0]) + PrintUnits(units[1..])
  }

  function PrintNamePart(p: NamePart): string {
    match p
    case Text(c) => [c]
    case Nested(parts) => "${" + PrintName(parts) + "}"
  }

  function PrintName(name: Name): string {
    if name == [] then "" else PrintNamePart(name[0]) + PrintName(name[1..])
  }

  function PrintPart(p: Part): string {
    match p
    case Lit(u) => PrintUnit(u)
    case Simple(key) => "$" + key
    case Braced(name) => "${" + PrintName(name) + "}"
    case Default(name, cmd, units) => "${" + PrintName(name) + ":" + [cmd] + PrintUnits(units) + "}"
  }

  function Print(t: Template): string {
    if t == [] then "" else PrintPart(t[0]) + Print(t[1..])
  }

  // ----- what it means -----

  /** An escaped dollar (or, in a default, an escaped brace) loses its backslash. */
  function UnitText(u: Unit, special: char): string {
    match u
    case Chr(c) => [c]
    case Esc(c) => if c == special then [c] else [BACKSLASH, c]
  }

  function UnitsText(units: seq<Unit>, special: char): string {
    if units == [] then "" else UnitText(units[0], special) + UnitsText(units[1..], special)
  }

  /** The value of a name, or the name with its dollar and braces. */
  function LookUp(vars: Vars, name: string): string {
    if name in vars then vars[name] else "${" + name + "}"
  }

  function NamePartValue(vars: Vars, p: NamePart): string {
    match p
    case Text(c) => [c]
    case Nested(parts) => LookUp(vars, NameValue(vars, parts))
  }

  function NameValue(vars: Vars, name: Name): string {
    if name == [] then "" else NamePartValue(vars, name[0]) + NameValue(vars, name[1..])
  }

  function PartValue(vars: Vars, p: Part): Result<string, ReplaceError> {
    match p
    case Lit(u) => Ok(UnitText(u, DOLLAR))
    case Simple(key) => Ok(if key in vars then vars[key] else "$" + key)
    case Braced(name) => Ok(LookUp(vars, NameValue(vars, name)))
    case Default(name, cmd, units) =>
      var key := NameValue(vars, name);
      if key == "" then Err(MissingName)
      else if units == [] then Err(MissingDefault)
      else Ok(WithDefault(vars, key, cmd, UnitsText(units, '}')))
  }

  /** "-" stands in for a missing value, "+" replaces one that is there. */
  function WithDefault(vars: Vars, key: string, cmd: char, default: string): string {
    if cmd == '-' then (if key in vars then vars[key] else default)
    else (if key in vars then default else "")
  }

  function Meaning(vars: Vars, t: Template): Result<string, ReplaceError> {
    if t == [] then Ok("")
    else
      match PartValue(vars, t[0])
      case Err(e) => Err(e)
      case Ok(v) =>
        match Meaning(vars, t[1..])
        case Err(e) => Err(e)
        case Ok(rest) => Ok(v + rest)
  }

  // ----- which templates can be written -----

  predicate PlainUnit(u: Unit, special: char) {
    u.Chr? ==> u.c != BACKSLASH && u.c != special
  }

  predicate PlainUnits(units: seq<Unit>, special: char) {
    forall u | u in units :: PlainUnit(u, special)
  }

  predicate PlainNamePart(p: NamePart) {
    match p
    case Text(c) => c != DOLLAR && c != ':' && c != '}'
    case Nested(parts) => PlainName(parts)
  }

  predicate PlainName(name: Name) {
    forall p | p in name :: PlainNamePart(p)
  }

  predicate PlainPart(p: Part) {
    match p
    case Lit(u) => PlainUnit(u, DOLLAR)
    case Simple(key) => IsKey(key)
    case Braced(name) => PlainName(name)
    case Default(name, cmd, units) => PlainName(name) && (cmd == '-' || cmd == '+') && PlainUnits(units, '}')
  }

  /** A simple variable must end where its name ends. */
  predicate Apart(t: Template) {
    forall i | 0 <= i < |t| - 1 && t[i].Simple? && t[i + 1].Lit? && t[i + 1].u.Chr? :: !IsKeyChar(t[i + 1].u.c)
  }

  predicate Writable(t: Template) {
    Apart(t) && forall p | p in t :: PlainPart(p)
  }

  // ----- running the machine -----

  lemma {:induction false} RunAppend(vars: Vars, m: Machine, a: string, b: string)
    ensures Run(vars, m, a + b) ==
            match Run(vars, m, a)
            case Err(e) => Err(e)
            case Ok(m') => Run(vars, m', b)
    decreases a
  {
    if a == "" {
      assert a + b == b;
    } else {
      assert (a + b)[1..] == a[1..] + b;
      match Step(vars, m, a[0])
      case Err(_) =>
      case Ok(m') => RunAppend(vars, m', a[1..], b);
    }
  }

  lemma RunOne(vars: Vars, m: Machine, c: char)
    ensures Run(vars, m, [c]) == Step(vars, m, c)
  {
    assert [c][1..] == "";
    if Step(vars, m, c).Ok? {
      assert Run(vars, Step(vars, m, c).value, "") == Step(vars, m, c);
    }
  }

  function InPlain(result: string): Machine {
    Machine(Plain, result, "", [], None, "", false)
  }

  function InBracket(result: string, currVar: string, stack: seq<string>): Machine {
    Machine(Bracket, result, currVar, stack, None, "", false)
  }

  function InColon(result: string, currVar: string, cmd: char, val: string): Machine {
    Machine(Colon, result, currVar, [], Some(cmd), val, false)
  }

  lemma RunsUnit(vars: Vars, result: string, u: Unit)
    requires PlainUnit(u, DOLLAR)
    ensures Run(vars, InPlain(result), PrintUnit(u)) == Ok(InPlain(result + UnitText(u, DOLLAR)))
  {
    var m := InPlain(result);
    match u
    case Chr(c) => RunOne(vars, m, c);
    case Esc(c) =>
      RunAppend(vars, m, [BACKSLASH], [c]);
      RunOne(vars, m, BACKSLASH);
      RunOne(vars, m.(escaped := true), c);
      assert [BACKSLASH] + [c] == [BACKSLASH, c];
  }

  lemma RunsDefaultUnit(vars: Vars, result: string, currVar: string, cmd: char, val: string, u: Unit)
    requires PlainUnit(u, '}')
    ensures Run(vars, InColon(result, currVar, cmd, val), PrintUnit(u))
            == Ok(InColon(result, currVar, cmd, val + UnitText(u, '}')))
  {
    var m := InColon(result, currVar, cmd, val);
    match u
    case Chr(c) => RunOne(vars, m, c);
    case Esc(c) =>
      RunAppend(vars, m, [BACKSLASH], [c]);
      RunOne(vars, m, BACKSLASH);
      RunOne(vars, m.(escaped := true), c);
      assert [BACKSLASH] + [c] == [BACKSLASH, c];
  }

  lemma {:induction false} RunsDefaultUnits(vars: Vars, result: string, currVar: string, cmd: char, val: string,
      units: seq<Unit>)
    requires PlainUnits(units, '}')
    ensures Run(vars, InColon(result, currVar, cmd, val), PrintUnits(units))
            == Ok(InColon(result, currVar, cmd, val + UnitsText(units, '}')))
    decreases units
  {
    if units == [] {
      assert val + "" == val;
    } else {
      hide Step, Run, PrintUnit, UnitText;
      var t := UnitText(units[0], '}');
      RunsDefaultUnit(vars, result, currVar, cmd, val, units[0]);
      RunsDefaultUnits(vars, result, currVar, cmd, val + t, units[1..]);
      RunAppend(vars, InColon(result, currVar, cmd, val), PrintUnit(units[0]), PrintUnits(units[1..]));
      Regroup(val, t, UnitsText(units[1..], '}'));
    }
  }

  /** "${" enters a name, whatever is in progress. */
  lemma RunsOpen(vars: Vars, result: string, currVar: string, stack: seq<string>)
    ensures Run(vars, InPlain(result), "${") == Ok(InBracket(result, "", []))
    ensures Run(vars, InBracket(result, currVar, stack), "${") == Ok(InBracket(result, "", stack + [currVar]))
  {
    assert "$" + "{" == "${";
    RunAppend(vars, InPlain(result), "$", "{");
    RunAppend(vars, InBracket(result, currVar, stack), "$", "{");
    RunOne(vars, InPlain(result), '$');
    RunOne(vars, InPlain(result).(phase := Dollar), '{');
    RunOne(vars, InBracket(result, currVar, stack), '$');
    RunOne(vars, InBracket(result, "", stack + [currVar]).(phase := Dollar), '{');
  }

  /** "}" leaves the innermost name. */
  lemma RunsClose(vars: Vars, result: string, currVar: string, outer: string, stack: seq<string>)
    ensures Run(vars, InBracket(result, currVar, []), "}") == Ok(InPlain(result + LookUp(vars, currVar)))
    ensures Run(vars, InBracket(result, currVar, stack + [outer]), "}")
            == Ok(InBracket(result, outer + LookUp(vars, currVar), stack))
  {
    RunOne(vars, InBracket(result, currVar, []), '}');
    RunOne(vars, InBracket(result, currVar, stack + [outer]), '}');
    assert (stack + [outer])[..|stack|] == stack;
  }

  /** The stack machine evaluates a name by the recursive rule, to any depth. */
  lemma {:induction false} RunsName(vars: Vars, result: string, currVar: string, stack: seq<string>, name: Name)
    requires PlainName(name)
    ensures Run(vars, InBracket(result, currVar, stack), PrintName(name))
            == Ok(InBracket(result, currVar + NameValue(vars, name), stack))
    decreases name
  {
    hide Step;
    if name == [] {
      assert currVar + "" == currVar;
    } else {
      var v := NamePartValue(vars, name[0]);
      RunsNamePart(vars, result, currVar, stack, name[0]);
      RunsName(vars, result, currVar + v, stack, name[1..]);
      RunAppend(vars, InBracket(result, currVar, stack), PrintNamePart(name[0]), PrintName(name[1..]));
      assert currVar + v + NameValue(vars, name[1..]) == currVar + (v + NameValue(vars, name[1..]));
    }
  }

  lemma {:induction false} RunsNamePart(vars: Vars, result: string, currVar: string, stack: seq<string>, p: NamePart)
    requires PlainNamePart(p)
    ensures Run(vars, InBracket(result, currVar, stack), PrintNamePart(p))
            == Ok(InBracket(result, currVar + NamePartValue(vars, p), stack))
    decreases p
  {
    match p
    case Text(c) => RunOne(vars, InBracket(result, currVar, stack), c);
    case Nested(parts) =>
      hide Step;
      var inner := stack + [currVar];
      RunsOpen(vars, result, currVar, stack);
      RunsName(vars, result, "", inner, parts);
      assert "" + NameValue(vars, parts) == NameValue(vars, parts);
      RunsClose(vars, result, NameValue(vars, parts), currVar, stack);
      RunAppend(vars, InBracket(result, currVar, stack), "${" + PrintName(parts), "}");
      RunAppend(vars, InBracket(result, currVar, stack), "${", PrintName(parts));
  }

  lemma RunsBraced(vars: Vars, result: string, name: Name)
    requires PlainName(name)
    ensures Run(vars, InPlain(result), "${" + PrintName(name) + "}")
            == Ok(InPlain(result + LookUp(vars, NameValue(vars, name))))
  {
    hide Step;
    RunsOpen(vars, result, "", []);
    RunsName(vars, result, "", [], name);
    assert "" + NameValue(vars, name) == NameValue(vars, name);
    RunsClose(vars, result, NameValue(vars, name), "", []);
    RunAppend(vars, InPlain(result), "${" + PrintName(name), "}");
    RunAppend(vars, InPlain(result), "${", PrintName(name));
  }

  lemma UnitsTextEmpty(units: seq<Unit>)
    ensures UnitsText(units, '}') == "" <==> units == []
  {
  }

  /** From the colon to the closing brace. */
  lemma RunsAfterColon(vars: Vars, result: string, key: string, cmd: char, units: seq<Unit>)
    requires key != "" && (cmd == '-' || cmd == '+') && PlainUnits(units, '}')
    ensures Run(vars, InBracket(result, key, []), ":" + [cmd] + PrintUnits(units) + "}") ==
            if units == [] then Err(MissingDefault)
            else Ok(InPlain(result + WithDefault(vars, key, cmd, UnitsText(units, '}'))))
  {
    hide Run;
    var m := InBracket(result, key, []);
    var colon := m.(phase := Colon);
    var d := UnitsText(units, '}');
    RunOne(vars, m, ':');
    RunOne(vars, colon, cmd);
    RunsDefaultUnits(vars, result, key, cmd, "", units);
    assert "" + d == d;
    UnitsTextEmpty(units);
    RunOne(vars, InColon(result, key, cmd, d), '}');
    RunAppend(vars, m, ":", [cmd]);
    RunAppend(vars, m, ":" + [cmd], PrintUnits(units));
    RunAppend(vars, m, ":" + [cmd] + PrintUnits(units), "}");
  }

  lemma RunsColonWithoutName(vars: Vars, result: string, rest: string)
    ensures Run(vars, InBracket(result, "", []), ":" + rest) == Err(MissingName)
  {
    RunAppend(vars, InBracket(result, "", []), ":", rest);
    RunOne(vars, InBracket(result, "", []), ':');
  }

  /** Every part but a simple variable stands for itself, whatever follows. */
  lemma RunsPart(vars: Vars, result: string, p: Part)
    requires PlainPart(p) && !p.Simple?
    ensures Run(vars, InPlain(result), PrintPart(p)) ==
            match PartValue(vars, p)
            case Err(e) => Err(e)
            case Ok(v) => Ok(InPlain(result + v))
  {
    hide Run, NameValue, PrintName, PrintUnits, UnitsText;
    match p
    case Lit(u) => RunsUnit(vars, result, u);
    case Braced(name) => RunsBraced(vars, result, name);
    case Default(name, cmd, units) =>
      var key := NameValue(vars, name);
      var tail := ":" + [cmd] + PrintUnits(units) + "}";
      RunsOpen(vars, result, "", []);
      RunsName(vars, result, "", [], name);
      assert "" + key == key;
      RunAppend(vars, InPlain(result), "${", PrintName(name));
      RunAppend(vars, InPlain(result), "${" + PrintName(name), tail);
      assert PrintPart(p) == "${" + PrintName(name) + tail;
      if key == "" {
        assert tail == ":" + ([cmd] + PrintUnits(units) + "}");
        RunsColonWithoutName(vars, result, [cmd] + PrintUnits(units) + "}");
      } else {
        RunsAfterColon(vars, result, key, cmd, units);
      }
  }

  // ----- simple variables -----

  function InVar(result: string, currVar: string): Machine {
    Machine(Var, result, currVar, [], None, "", false)
  }

  lemma {:induction false} RunsKey(vars: Vars, result: string, currVar: string, key: string)
    requires forall c | c in key :: IsKeyChar(c)
    ensures Run(vars, InVar(result, currVar), key) == Ok(InVar(result, currVar + key))
    decreases key
  {
    if key == "" {
      assert currVar + "" == currVar;
    } else {
      RunsKey(vars, result, currVar + [key[0]], key[1..]);
      assert currVar + [key[0]] + key[1..] == currVar + key by { assert key == [key[0]] + key[1..]; }
    }
  }

  lemma RunsSimple(vars: Vars, result: string, key: string)
    requires IsKey(key)
    ensures Run(vars, InPlain(result), "$" + key) == Ok(InVar(result, key))
  {
    var m := InPlain(result);
    var dollar := m.(phase := Dollar);
    RunOne(vars, m, '$');
    RunOne(vars, dollar, key[0]);
    assert key[0] in key && "" + [key[0]] == [key[0]];
    assert Step(vars, m, '$') == Ok(dollar) && Step(vars, dollar, key[0]) == Ok(InVar(result, [key[0]]));
    RunsKey(vars, result, [key[0]], key[1..]);
    hide Run, Step;
    RunAppend(vars, m, "$", key);
    assert key == [key[0]] + key[1..];
    RunAppend(vars, dollar, [key[0]], key[1..]);
  }

  /** Run to the end of the input. */
  function Finish(vars: Vars, m: Machine, input: string): Result<string, ReplaceError> {
    match Run(vars, m, input)
    case Err(e) => Err(e)
    case Ok(m') => End(vars, m')
  }

  /** The character after a simple variable is read as if the variable had been
      replaced before it. */
  lemma VarEnds(vars: Vars, result: string, key: string, rest: string)
    requires rest != "" ==> !IsKeyChar(rest[0])
    ensures Finish(vars, InVar(result, key), rest)
            == Finish(vars, InPlain(result + if key in vars then vars[key] else "$" + key), rest)
  {
    var v := if key in vars then vars[key] else "$" + key;
    if rest != "" {
      assert Step(vars, InVar(result, key), rest[0]) == Step(vars, InPlain(result + v), rest[0]);
    }
  }

  // ----- whole templates -----

  /** The first part is replaced by its value. */
  lemma RunsFirst(vars: Vars, result: string, t: Template)
    requires Writable(t) && t != []
    ensures Finish(vars, InPlain(result), Print(t)) ==
            match PartValue(vars, t[0])
            case Err(e) => Err(e)
            case Ok(v) => Finish(vars, InPlain(result + v), Print(t[1..]))
  {
    RestIsWritable(t);
    if t[0].Simple? {
      RunsSimple(vars, result, t[0].key);
      FirstAfterSimple(t);
      VarEnds(vars, result, t[0].key, Print(t[1..]));
    } else {
      RunsPart(vars, result, t[0]);
    }
    hide Run, Step, End, PrintPart, PartValue;
    RunAppend(vars, InPlain(result), PrintPart(t[0]), Print(t[1..]));
  }

  lemma {:induction false} RunsTemplate(vars: Vars, result: string, t: Template)
    requires Writable(t)
    ensures Finish(vars, InPlain(result), Print(t)) ==
            match Meaning(vars, t)
            case Err(e) => Err(e)
            case Ok(v) => Ok(result + v)
    decreases t
  {
    hide PartValue, Print, PrintPart, Writable;
    if t == [] {
      RunNothing(vars, InPlain(result));
      assert result + "" == result;
    } else {
      hide Finish;
      RestIsWritable(t);
      RunsFirst(vars, result, t);
      if PartValue(vars, t[0]).Ok? {
        var v := PartValue(vars, t[0]).value;
        RunsTemplate(vars, result + v, t[1..]);
        if Meaning(vars, t[1..]).Ok? {
          assert result + v + Meaning(vars, t[1..]).value == result + (v + Meaning(vars, t[1..]).value);
        }
      }
    }
  }

  lemma RunNothing(vars: Vars, m: Machine)
    ensures Run(vars, m, Print([])) == Ok(m)
  {
  }

  lemma RestIsWritable(t: Template)
    requires Writable(t) && t != []
    ensures Writable(t[1..]) && PlainPart(t[0])
  {
    assert forall p | p in t[1..] :: p in t;
    assert forall i | 0 <= i < |t[1..]| :: t[1..][i] == t[i + 1];
  }

  lemma FirstAfterSimple(t: Template)
    requires Writable(t) && t != [] && t[0].Simple?
    ensures Print(t[1..]) != "" ==> !IsKeyChar(Print(t[1..])[0])
  {
    if |t| > 1 {
      assert t[1..][0] == t[1];
      assert PrintPart(t[1])[0] == Print(t[1..])[0];
    }
  }

  /** The machine computes the meaning of every template. */
  lemma MachineIsMeaning(vars: Vars, t: Template)
    requires Writable(t)
    ensures Replaced(vars, Print(t)) == Meaning(vars, t)
  {
    RunsTemplate(vars, "", t);
    assert Start() == InPlain("");
    if Meaning(vars, t).Ok? {
      assert "" + Meaning(vars, t).value == Meaning(vars, t).value;
    }
  }

  // ----- names without a value -----

  /** No name written inside this one has a value. */
  predicate UnknownInside(vars: Vars, name: Name) {
    name == [] || (UnknownPart(vars, name[0]) && UnknownInside(vars, name[1..]))
  }

  predicate UnknownPart(vars: Vars, p: NamePart) {
    match p
    case Text(_) => true
    case Nested(parts) => PrintName(parts) !in vars && UnknownInside(vars, parts)
  }

  lemma {:induction false} UnknownNamesAreWritten(vars: Vars, name: Name)
    requires UnknownInside(vars, name)
    ensures NameValue(vars, name) == PrintName(name)
    decreases name
  {
    if name != [] {
      UnknownPartIsWritten(vars, name[0]);
      UnknownNamesAreWritten(vars, name[1..]);
    }
  }

  lemma {:induction false} UnknownPartIsWritten(vars: Vars, p: NamePart)
    requires UnknownPart(vars, p)
    ensures NamePartValue(vars, p) == PrintNamePart(p)
    decreases p
  {
    if p.Nested? {
      UnknownNamesAreWritten(vars, p.parts);
    }
  }

  /** A name without a value, with none inside it either, comes back from the
      machine exactly as it was written, whatever else is defined. */
  lemma UnknownNamesStay(vars: Vars, name: Name)
    requires PlainName(name) && PrintName(name) !in vars && UnknownInside(vars, name)
    ensures var written := "${" + PrintName(name) + "}"; Replaced(vars, written) == Ok(written)
  {
    UnknownNamesAreWritten(vars, name);
    OnePart(vars, Braced(name));
  }

  lemma OnePart(vars: Vars, p: Part)
    requires PlainPart(p)
    ensures Replaced(vars, PrintPart(p)) == PartValue(vars, p)
  {
    var t := [p];
    assert t[1..] == [] && Print(t) == PrintPart(p);
    MachineIsMeaning(vars, t);
    if PartValue(vars, p).Ok? {
      assert PartValue(vars, p).value + "" == PartValue(vars, p).value;
    }
  }

  // ----- values in their place -----

  lemma Regroup(x: string, y: string, z: string)
    ensures x + (y + z) == (x + y) + z
  {
  }

  lemma {:induction false} PrintAppend(a: Template, b: Template)
    ensures Print(a + b) == Print(a) + Print(b)
    decreases a
  {
    hide PrintPart;
    if a == [] {
      assert a + b == b && Print(a) == "";
    } else {
      PrintAppend(a[1..], b);
      assert (a + b)[1..] == a[1..] + b;
      Regroup(PrintPart(a[0]), Print(a[1..]), Print(b));
    }
  }

  lemma {:induction false} MeaningAppend(vars: Vars, a: Template, b: Template)
    requires Meaning(vars, a).Ok? && Meaning(vars, b).Ok?
    ensures Meaning(vars, a + b) == Ok(Meaning(vars, a).value + Meaning(vars, b).value)
    decreases a
  {
    hide PartValue;
    if a == [] {
      assert a + b == b;
      assert "" + Meaning(vars, b).value == Meaning(vars, b).value;
    } else {
      MeaningAppend(vars, a[1..], b);
      assert (a + b)[1..] == a[1..] + b;
      var v, x, y := PartValue(vars, a[0]).value, Meaning(vars, a[1..]).value, Meaning(vars, b).value;
      assert v + (x + y) == (v + x) + y;
    }
  }

  /** Wherever it stands, the value of a variable is copied as it is: nothing in
      it is read again, whatever variables it mentions itself. */
  lemma ValuesAreNotRescanned(vars: Vars, before: Template, p: Part, after: Template, key: string)
    requires Writable(before + [p] + after) && key in vars
    requires p == Simple(key) || (p.Braced? && NameValue(vars, p.name) == key)
    requires Meaning(vars, before).Ok? && Meaning(vars, after).Ok?
    ensures Replaced(vars, Print(before) + PrintPart(p) + Print(after)) ==
            Ok(Meaning(vars, before).value + vars[key] + Meaning(vars, after).value)
  {
    var one := [p];
    assert one[1..] == [] && Print(one) == PrintPart(p) && vars[key] + "" == vars[key];
    assert Meaning(vars, one) == Ok(vars[key]);
    PrintAppend(before, one);
    PrintAppend(before + one, after);
    MeaningAppend(vars, before, one);
    MeaningAppend(vars, before + one, after);
    MachineIsMeaning(vars, before + one + after);
  }
}
