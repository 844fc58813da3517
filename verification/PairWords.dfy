/** What a list of key=value pairs means for any input, pair by pair. The state
    machine of KeyVals, which looks at one character at a time, computes exactly
    this. */
module PairWords {
  import opened Wrappers
  import opened Characters
  import opened Quoting
  import opened QuotedSpans
  import opened KeyVals

  // ----- where keys and values end -----

  /** How many key characters stand at the front. */
  function KeyEnd(s: string): (n: nat)
    ensures n <= |s| && forall i | 0 <= i < n :: IsKeyChar(s[i])
    ensures n < |s| ==> !IsKeyChar(s[n])
  {
    if s == "" || !IsKeyChar(s[0]) then 0 else KeyEnd(s[1..]) + 1
  }

  /** How far a value without quotes goes: up to a space that no backslash escapes. */
  function ValueEnd(s: string): (n: nat)
    ensures n <= |s|
    ensures n < |s| ==> IsSpace(s[n])
    decreases |s|
  {
    if s == "" || IsSpace(s[0]) then 0
    else
      var k := if s[0] == BACKSLASH then 2 else 1;
      if |s| < k then |s| else k + ValueEnd(s[k..])
  }

  /** What such a value says: a backslash before a space or a quote goes, and so
      does one with nothing behind it; any other stays. */
  function SaidPlain(t: string): string
    decreases |t|
  {
    if t == "" then ""
    else if t[0] != BACKSLASH then [t[0]] + SaidPlain(t[1..])
    else if |t| == 1 then ""
    else (if IsSpace(t[1]) || t[1] == QUOTE then [t[1]] else [BACKSLASH, t[1]]) + SaidPlain(t[2..])
  }

  // ----- the pairs of an input -----

  function Then(p: Pair, rest: Result<seq<Pair>, KVError>): Result<seq<Pair>, KVError> {
    match rest
    case Err(e) => Err(e)
    case Ok(pairs) => Ok([p] + pairs)
  }

  /** The pairs from here on, in the order in which they are written. */
  function Pairs(s: string): Result<seq<Pair>, KVError>
    decreases |s|
  {
    if s == "" then Ok([])
    else if IsSpace(s[0]) then Pairs(s[1..])
    else
      var n := KeyEnd(s);
      if n == 0 then Err(BadKey)
      else if n == |s| || s[n..] == "=" then Err(MissingEquals)
      else if s[n] != '=' then Err(BadKey)
      else if s[n + 1] == QUOTE then QuotedValue(s[..n], s[n + 2..])
      else PlainValue(s[..n], s[n + 1..])
  }

  /** A value in quotes, past the first: a space or the end must follow. */
  function QuotedValue(key: string, s: string): Result<seq<Pair>, KVError>
    decreases |s|
  {
    match QuoteEnd(s)
    case None => Err(MissingQuote)
    case Some(c) =>
      var p := Pair(key, Said(s[..c]));
      var rest := s[c + 1..];
      if rest == "" then Ok([p])
      else if IsSpace(rest[0]) then Then(p, Pairs(rest[1..]))
      else Err(MissingSpace)
  }

  /** A value without quotes. Its first character belongs to it even if it is a
      space. */
  function PlainValue(key: string, s: string): Result<seq<Pair>, KVError>
    requires s != ""
    decreases |s|
  {
    var first := if s[0] == BACKSLASH && |s| > 1 then 2 else 1;
    var n := first + ValueEnd(s[first..]);
    var p := Pair(key, SaidPlain(s[..n]));
    if n == |s| then (if s == [BACKSLASH] then Err(MissingValue) else Ok([p]))
    else Then(p, Pairs(s[n + 1..]))
  }

  // ----- the machine from here on -----

  lemma AnswerStep(m: Machine, r: char, t: string)
    ensures var q := Step(m, r); Finish(m, [r] + t) == if q.Err? then Err(q.error) else Finish(q.value, t)
    ensures Finish(m, "") == End(m)
  {
    assert ([r] + t)[1..] == t;
  }

  lemma FirstOf(s: string)
    requires s != ""
    ensures s == [s[0]] + s[1..]
  {
  }

  function Between(vars: Vars): Machine {
    Machine(Space, vars, "", "", false)
  }

  /** What is answered for the pairs that follow, on top of these. */
  function Adding(vars: Vars, r: Result<seq<Pair>, KVError>): Result<Vars, KVError> {
    match r
    case Err(e) => Err(e)
    case Ok(pairs) => Ok(Put(vars, pairs))
  }

  lemma AddingOne(vars: Vars, p: Pair, r: Result<seq<Pair>, KVError>)
    ensures Adding(vars, Then(p, r)) == Adding(vars[p.key := p.val], r)
    ensures Adding(vars, Ok([])) == Ok(vars) && Adding(vars, Ok([p])) == Ok(vars[p.key := p.val])
  {
    if r.Ok? { assert ([p] + r.value)[1..] == r.value && ([p] + r.value)[0] == p; }
    assert [p][1..] == [];
    assert Put(vars[p.key := p.val], []) == vars[p.key := p.val];
  }

  // ----- a key -----

  lemma {:induction false} InKey(vars: Vars, key: string, s: string)
    ensures var n := KeyEnd(s);
            Finish(Machine(Key, vars, key, "", false), s)
            == if n == |s| then Err(MissingEquals)
               else if s[n] != '=' then Err(BadKey)
               else Finish(Machine(Equals, vars, key + s[..n], "", false), s[n + 1..])
    decreases |s|
  {
    hide Finish;
    var m := Machine(Key, vars, key, "", false);
    if s == "" {
      AnswerStep(m, '=', "");
    } else {
      FirstOf(s);
      AnswerStep(m, s[0], s[1..]);
      if IsKeyChar(s[0]) {
        InKey(vars, key + [s[0]], s[1..]);
        KeySlices(key, s);
      } else {
        assert key + s[..0] == key;
      }
    }
  }

  lemma KeySlices(key: string, s: string)
    requires s != "" && IsKeyChar(s[0])
    ensures var n := KeyEnd(s[1..]);
            KeyEnd(s) == n + 1 && key + s[..n + 1] == key + [s[0]] + s[1..][..n]
            && (n < |s[1..]| ==> s[n + 1] == s[1..][n] && s[n + 2..] == s[1..][n + 1..])
  {
    var n := KeyEnd(s[1..]);
    assert KeyEnd(s) == n + 1;
    hide *;
    FrontOn(key, s, n);
  }

  lemma FrontOn(key: string, s: string, n: nat)
    requires n < |s|
    ensures key + s[..n + 1] == key + [s[0]] + s[1..][..n]
    ensures n < |s[1..]| ==> s[n + 1] == s[1..][n] && s[n + 2..] == s[1..][n + 1..]
  {
    var a, b := key + s[..n + 1], key + [s[0]] + s[1..][..n];
    assert |a| == |b|;
    forall i | 0 <= i < |a| ensures a[i] == b[i] {
      if i > |key| { assert b[i] == s[1..][i - |key| - 1]; }
    }
  }

  // ----- a value in quotes -----

  function AfterQuotes(vars: Vars, key: string, cur: string, s: string): Result<Vars, KVError> {
    match QuoteEnd(s)
    case None => Err(MissingQuote)
    case Some(c) => Finish(Machine(ValEndQuote, vars[key := cur + Said(s[..c])], "", "", false), s[c + 1..])
  }

  lemma AfterIs(vars: Vars, key: string, cur: string, s: string, val: string, rest: string)
    requires QuoteEnd(s).Some? && val == cur + Said(s[..QuoteEnd(s).value]) && rest == s[QuoteEnd(s).value + 1..]
    ensures AfterQuotes(vars, key, cur, s) == Finish(Machine(ValEndQuote, vars[key := val], "", "", false), rest)
  {
    hide Finish, Said, QuoteEnd;
  }

  lemma AfterNone(vars: Vars, key: string, cur: string, s: string)
    requires QuoteEnd(s).None?
    ensures AfterQuotes(vars, key, cur, s) == Err(MissingQuote)
  {
  }

  lemma AfterStep(vars: Vars, key: string, cur: string, a: string, t: string, said: string)
    requires QuoteEnd(t).None? ==> QuoteEnd(a + t) == None
    requires QuoteEnd(t).Some? ==>
               var n := QuoteEnd(t).value; QuoteEnd(a + t) == Some(|a| + n) && Said(a + t[..n]) == said + Said(t[..n])
    ensures AfterQuotes(vars, key, cur, a + t) == AfterQuotes(vars, key, cur + said, t)
  {
    hide *;
    if QuoteEnd(t).Some? {
      var n := QuoteEnd(t).value;
      assert (a + t)[..|a| + n] == a + t[..n] && (a + t)[|a| + n + 1..] == t[n + 1..];
      assert cur + (said + Said(t[..n])) == cur + said + Said(t[..n]);
      AfterIs(vars, key, cur, a + t, cur + said + Said(t[..n]), t[n + 1..]);
      AfterIs(vars, key, cur + said, t, cur + said + Said(t[..n]), t[n + 1..]);
    } else {
      AfterNone(vars, key, cur, a + t);
      AfterNone(vars, key, cur + said, t);
    }
  }

  lemma {:induction false} InQuotes(vars: Vars, key: string, cur: string, s: string)
    ensures Finish(Machine(ValQuote, vars, key, cur, false), s) == AfterQuotes(vars, key, cur, s)
    decreases |s|
  {
    hide Finish, AfterQuotes, QuoteEnd, Said;
    var m := Machine(ValQuote, vars, key, cur, false);
    if s == "" {
      AnswerStep(m, QUOTE, "");
      QuotesEnd(vars, key, cur, "");
    } else {
      FirstOf(s);
      var r, t := s[0], s[1..];
      AnswerStep(m, r, t);
      if r == QUOTE {
        QuotesEnd(vars, key, cur, t);
      } else if r == BACKSLASH {
        var e := m.(escaped := true);
        if t == "" {
          assert s == [BACKSLASH];
          AnswerStep(e, QUOTE, "");
          QuotesEnd(vars, key, cur, "");
        } else {
          FirstOf(t);
          AnswerStep(e, t[0], t[1..]);
          assert s == [BACKSLASH, t[0]] + t[1..];
          EscapedStep(t[0], t[1..]);
          if QuoteEnd(t[1..]).Some? { EscapedStep(t[0], t[1..][..QuoteEnd(t[1..]).value]); }
          var said := if t[0] == QUOTE then [QUOTE] else [BACKSLASH, t[0]];
          AfterStep(vars, key, cur, [BACKSLASH, t[0]], t[1..], said);
          InQuotes(vars, key, cur + said, t[1..]);
        }
      } else {
        PlainStep(r, t);
        if QuoteEnd(t).Some? { PlainStep(r, t[..QuoteEnd(t).value]); }
        AfterStep(vars, key, cur, [r], t, [r]);
        InQuotes(vars, key, cur + [r], t);
      }
    }
  }

  lemma QuotesEnd(vars: Vars, key: string, cur: string, t: string)
    ensures AfterQuotes(vars, key, cur, "") == Err(MissingQuote)
    ensures AfterQuotes(vars, key, cur, [BACKSLASH]) == Err(MissingQuote)
    ensures AfterQuotes(vars, key, cur, [QUOTE] + t)
            == Finish(Machine(ValEndQuote, vars[key := cur], "", "", false), t)
  {
    hide Finish;
    EndsHere(t);
    assert ([QUOTE] + t)[1..] == t && ([QUOTE] + t)[..0] == "";
    assert cur + Said("") == cur;
  }

  // ----- a value without quotes -----

  function AfterValue(vars: Vars, key: string, cur: string, s: string): Result<Vars, KVError> {
    var n := ValueEnd(s);
    var vars' := vars[key := cur + SaidPlain(s[..n])];
    if n == |s| then Ok(vars') else Finish(Between(vars'), s[n + 1..])
  }

  /** One character of the value, one that a backslash escapes, and its end. */
  lemma ValueGoesOn(vars: Vars, key: string, cur: string, c: char, t: string)
    requires c != BACKSLASH && !IsSpace(c)
    ensures AfterValue(vars, key, cur, [c] + t) == AfterValue(vars, key, cur + [c], t)
  {
    hide Finish;
    var s, n := [c] + t, ValueEnd(t);
    assert s[1..] == t && ValueEnd(s) == n + 1;
    assert s[..n + 1] == [c] + t[..n];
    assert ([c] + t[..n])[1..] == t[..n];
    assert cur + ([c] + SaidPlain(t[..n])) == cur + [c] + SaidPlain(t[..n]);
    if n < |t| { assert s[n + 2..] == t[n + 1..]; }
  }

  function Kept(c: char): (k: string)
    ensures k != ""
  {
    if IsSpace(c) || c == QUOTE then [c] else [BACKSLASH, c]
  }

  lemma ValueEscapes(vars: Vars, key: string, cur: string, c: char, t: string)
    ensures AfterValue(vars, key, cur, [BACKSLASH, c] + t) == AfterValue(vars, key, cur + Kept(c), t)
  {
    hide Finish;
    var s, n := [BACKSLASH, c] + t, ValueEnd(t);
    assert s[2..] == t && ValueEnd(s) == n + 2;
    assert s[..n + 2] == [BACKSLASH, c] + t[..n];
    assert ([BACKSLASH, c] + t[..n])[2..] == t[..n];
    assert cur + (Kept(c) + SaidPlain(t[..n])) == cur + Kept(c) + SaidPlain(t[..n]);
    if n < |t| { assert s[n + 3..] == t[n + 1..]; }
  }

  lemma ValueStops(vars: Vars, key: string, cur: string, s: string)
    ensures AfterValue(vars, key, cur, "") == Ok(vars[key := cur])
    ensures AfterValue(vars, key, cur, [BACKSLASH]) == Ok(vars[key := cur])
    ensures s != "" && IsSpace(s[0]) ==> AfterValue(vars, key, cur, s) == Finish(Between(vars[key := cur]), s[1..])
  {
    hide Finish;
    assert cur + SaidPlain("") == cur;
    assert [BACKSLASH][..1] == [BACKSLASH] && SaidPlain([BACKSLASH]) == "";
    if s != "" { assert s[..0] == ""; }
  }

  lemma {:induction false} InValue(vars: Vars, key: string, cur: string, s: string)
    requires cur != ""
    ensures Finish(Machine(Val, vars, key, cur, false), s) == AfterValue(vars, key, cur, s)
    decreases |s|
  {
    hide Finish, AfterValue;
    var m := Machine(Val, vars, key, cur, false);
    ValueStops(vars, key, cur, s);
    if s == "" {
      AnswerStep(m, QUOTE, "");
    } else {
      FirstOf(s);
      var r, t := s[0], s[1..];
      AnswerStep(m, r, t);
      if r == BACKSLASH {
        InEscape(vars, key, cur, t);
        if t != "" {
          FirstOf(t);
          assert s == [BACKSLASH, t[0]] + t[1..];
          ValueEscapes(vars, key, cur, t[0], t[1..]);
        } else {
          assert s == [BACKSLASH];
        }
      } else if !IsSpace(r) {
        ValueGoesOn(vars, key, cur, r, t);
        InValue(vars, key, cur + [r], t);
      }
    }
  }

  /** Right behind a backslash. */
  lemma {:induction false} InEscape(vars: Vars, key: string, cur: string, t: string)
    ensures Finish(Machine(Val, vars, key, cur, true), t) ==
            if t != "" then AfterValue(vars, key, cur + Kept(t[0]), t[1..])
            else if cur == "" then Err(MissingValue) else Ok(vars[key := cur])
    decreases |t|
  {
    hide Finish, AfterValue;
    var m := Machine(Val, vars, key, cur, true);
    if t == "" {
      AnswerStep(m, QUOTE, "");
    } else {
      FirstOf(t);
      AnswerStep(m, t[0], t[1..]);
      InValue(vars, key, cur + Kept(t[0]), t[1..]);
    }
  }

  // ----- the machine computes the pairs -----

  lemma PairsUnfold(s: string)
    ensures Pairs(s) ==
            if s == "" then Ok([])
            else if IsSpace(s[0]) then Pairs(s[1..])
            else if KeyEnd(s) == 0 then Err(BadKey)
            else AfterKey(s[..KeyEnd(s)], s[KeyEnd(s)..])
  {
    var n := KeyEnd(s);
    if n < |s| { assert s[n..][0] == s[n] && s[n..][1..] == s[n + 1..]; }
    if n + 1 < |s| { assert s[n..][1] == s[n + 1] && s[n..][2..] == s[n + 2..] && s[n..] != "="; }
    if n + 1 == |s| { assert s[n..] == [s[n]]; }
    hide PlainValue, QuotedValue;
  }

  /** What stands behind a key. */
  function AfterKey(key: string, s: string): Result<seq<Pair>, KVError> {
    if s == "" || s == "=" then Err(MissingEquals)
    else if s[0] != '=' then Err(BadKey)
    else if s[1] == QUOTE then QuotedValue(key, s[2..])
    else PlainValue(key, s[1..])
  }

  /** The machine between pairs answers with what is left of the pairs. */
  lemma {:induction false} Reads(vars: Vars, s: string)
    ensures Finish(Between(vars), s) == Adding(vars, Pairs(s))
    decreases |s|
  {
    hide Finish, Pairs, KeyEnd, AfterKey;
    PairsUnfold(s);
    AddingOne(vars, Pair("", ""), Err(BadKey));
    if s == "" {
      AnswerStep(Between(vars), QUOTE, "");
    } else {
      FirstOf(s);
      AnswerStep(Between(vars), s[0], s[1..]);
      if IsSpace(s[0]) {
        Reads(vars, s[1..]);
      } else {
        NoKey(s);
        if IsKeyChar(s[0]) { ReadsKey(vars, s); }
      }
    }
  }

  lemma NoKey(s: string)
    requires s != ""
    ensures KeyEnd(s) == 0 <==> !IsKeyChar(s[0])
    ensures IsSpace(s[0]) ==> !IsKeyChar(s[0])
  {
  }

  lemma {:induction false} ReadsKey(vars: Vars, s: string)
    requires s != "" && IsKeyChar(s[0])
    ensures Finish(Machine(Key, vars, "" + [s[0]], "", false), s[1..])
            == Adding(vars, AfterKey(s[..KeyEnd(s)], s[KeyEnd(s)..]))
    decreases |s|, 0
  {
    hide Finish, Pairs, QuotedValue, PlainValue;
    InKey(vars, "" + [s[0]], s[1..]);
    KeySlices("", s);
    var n := KeyEnd(s);
    var key, rest := s[..n], s[n..];
    assert "" + s[..n] == s[..n];
    if n < |s| && s[n] == '=' {
      var e := Machine(Equals, vars, key, "", false);
      var v := s[n + 1..];
      assert rest == "=" + v;
      if v == "" {
        AnswerStep(e, QUOTE, "");
      } else {
        assert rest[1] == v[0] && rest[1..] == v && rest[2..] == v[1..];
        FirstOf(v);
        AnswerStep(e, v[0], v[1..]);
        if v[0] == QUOTE {
          InQuotes(vars, key, "", v[1..]);
          ReadsQuoted(vars, key, v[1..]);
        } else {
          ReadsPlain(vars, key, v);
        }
      }
    }
  }

  lemma {:induction false} ReadsQuoted(vars: Vars, key: string, s: string)
    ensures AfterQuotes(vars, key, "", s) == Adding(vars, QuotedValue(key, s))
    decreases |s|, 1
  {
    hide Finish, Pairs;
    if QuoteEnd(s).Some? {
      var c := QuoteEnd(s).value;
      var p, rest := Pair(key, Said(s[..c])), s[c + 1..];
      assert "" + Said(s[..c]) == Said(s[..c]);
      var m := Machine(ValEndQuote, vars[key := p.val], "", "", false);
      AddingOne(vars, p, Ok([]));
      if rest == "" {
        AnswerStep(m, QUOTE, "");
      } else {
        FirstOf(rest);
        AnswerStep(m, rest[0], rest[1..]);
        if IsSpace(rest[0]) {
          Reads(vars[key := p.val], rest[1..]);
          AddingOne(vars, p, Pairs(rest[1..]));
        }
      }
    }
  }

  lemma {:induction false} ReadsPlain(vars: Vars, key: string, s: string)
    requires s != "" && s[0] != QUOTE
    ensures var q := Step(Machine(Equals, vars, key, "", false), s[0]);
            q.Ok? && Finish(q.value, s[1..]) == Adding(vars, PlainValue(key, s))
    decreases |s|, 1
  {
    hide Finish, Pairs, AfterValue, ValueEnd, SaidPlain;
    var t := s[1..];
    if s[0] == BACKSLASH {
      InEscape(vars, key, "", t);
      if t == "" {
        LoneBackslash(key, s);
      } else {
        assert s == [BACKSLASH, t[0]] + t[1..] && s[2..] == t[1..];
        assert "" + Kept(t[0]) == Kept(t[0]);
        PlainIs(vars, key, s, 2, Kept(t[0]));
        EscapedFront(t[0], t[1..]);
      }
    } else {
      assert "" + [s[0]] == [s[0]];
      InValue(vars, key, [s[0]], t);
      PlainIs(vars, key, s, 1, [s[0]]);
    }
  }

  lemma LoneBackslash(key: string, s: string)
    requires s == [BACKSLASH]
    ensures PlainValue(key, s) == Err(MissingValue)
  {
    assert s[1..] == "";
  }

  lemma EscapedFront(c: char, t: string)
    ensures SaidPlain([BACKSLASH, c] + t) == Kept(c) + SaidPlain(t)
  {
    assert ([BACKSLASH, c] + t)[2..] == t;
  }

  /** A value without quotes, read behind its first character or escape. */
  lemma {:induction false} PlainIs(vars: Vars, key: string, s: string, first: nat, front: string)
    requires s != "" && s != [BACKSLASH] && first == (if s[0] == BACKSLASH then 2 else 1)
    requires front == if s[0] == BACKSLASH then Kept(s[1]) else [s[0]]
    ensures AfterValue(vars, key, front, s[first..]) == Adding(vars, PlainValue(key, s))
    decreases |s|, 0
  {
    hide Finish, Pairs, SaidPlain, ValueEnd;
    var t := s[first..];
    var k := ValueEnd(t);
    var n := first + k;
    FrontSaid(s, first, front, k);
    var p := Pair(key, SaidPlain(s[..n]));
    AddingOne(vars, p, Ok([]));
    if n < |s| {
      assert s[n + 1..] == t[k + 1..];
      Reads(vars[key := p.val], s[n + 1..]);
      AddingOne(vars, p, Pairs(s[n + 1..]));
    }
  }

  lemma FrontSaid(s: string, first: nat, front: string, k: nat)
    requires s != "" && s != [BACKSLASH] && first == (if s[0] == BACKSLASH then 2 else 1)
    requires front == (if s[0] == BACKSLASH then Kept(s[1]) else [s[0]]) && k <= |s| - first
    ensures SaidPlain(s[..first + k]) == front + SaidPlain(s[first..][..k])
  {
    var u := s[..first + k];
    assert u[first..] == s[first..][..k];
    assert u[0] == s[0];
  }

  /** Parsing gives the dictionary of the pairs, for every input; of two pairs with
      one key the later counts. */
  lemma ParseIsPairs(input: string)
    ensures var r := Pairs(input); Parse(input) == if r.Err? then Err(r.error) else Ok(Put(map[], r.value))
  {
    Reads(map[], input);
  }

  // ----- values written without quotes -----

  /** A value that can be written as it is. */
  ghost predicate PlainVal(v: string) {
    v != "" && v[0] != QUOTE && forall c | c in v :: !IsSpace(c) && c != BACKSLASH
  }

  ghost predicate AllPlain(pairs: seq<Pair>) {
    forall p | p in pairs :: IsKey(p.key) && PlainVal(p.val)
  }

  function PrintPlain(pairs: seq<Pair>): string {
    if pairs == [] then ""
    else if |pairs| == 1 then pairs[0].key + "=" + pairs[0].val
    else pairs[0].key + "=" + pairs[0].val + " " + PrintPlain(pairs[1..])
  }

  lemma {:induction false} WholeKey(key: string, rest: string)
    requires (forall c | c in key :: IsKeyChar(c)) && (rest == "" || !IsKeyChar(rest[0]))
    ensures KeyEnd(key + rest) == |key|
  {
    if key == "" {
      assert key + rest == rest;
    } else {
      assert (key + rest)[1..] == key[1..] + rest;
      WholeKey(key[1..], rest);
    }
  }

  lemma {:induction false} WholeValue(v: string, rest: string)
    requires (forall c | c in v :: !IsSpace(c) && c != BACKSLASH) && (rest == "" || IsSpace(rest[0]))
    ensures ValueEnd(v + rest) == |v| && SaidPlain(v) == v
    decreases |v|
  {
    if v == "" {
      assert v + rest == rest;
    } else {
      assert v[0] in v && (v + rest)[1..] == v[1..] + rest;
      WholeValue(v[1..], rest);
    }
  }

  lemma ReadsPlainValue(p: Pair, rest: string)
    requires PlainVal(p.val) && (rest == "" || IsSpace(rest[0]))
    ensures PlainValue(p.key, p.val + rest) == if rest == "" then Ok([p]) else Then(p, Pairs(rest[1..]))
  {
    var v := p.val + rest;
    WholeValue(p.val, rest);
    assert v[..|p.val|] == p.val && v[|p.val|..] == rest;
    if rest != "" { assert v[|p.val| + 1..] == rest[1..]; }
    hide Pairs, SaidPlain, ValueEnd;
  }

  lemma ReadsFirstPlain(p: Pair, rest: string)
    requires IsKey(p.key) && PlainVal(p.val) && (rest == "" || IsSpace(rest[0]))
    ensures Pairs(p.key + "=" + p.val + rest) == if rest == "" then Ok([p]) else Then(p, Pairs(rest[1..]))
  {
    var s, v := p.key + "=" + p.val + rest, p.val + rest;
    assert s == p.key + ("=" + v);
    assert s[..|p.key|] == p.key && s[|p.key|..] == "=" + v;
    assert ("=" + v)[1..] == v && v[0] == p.val[0];
    assert p.key[0] in p.key && s[0] == p.key[0];
    hide Pairs, QuotedValue, PlainValue, KeyEnd, Then;
    WholeKey(p.key, "=" + v);
    NoKey(s);
    PairsUnfold(s);
    ReadsPlainValue(p, rest);
  }

  /** Pairs with plain values are read back as they were written. */
  lemma {:induction false} PlainPairsAreRead(pairs: seq<Pair>)
    requires AllPlain(pairs)
    ensures Pairs(PrintPlain(pairs)) == Ok(pairs)
    ensures Parse(PrintPlain(pairs)) == Ok(Put(map[], pairs))
  {
    ParseIsPairs(PrintPlain(pairs));
    if |pairs| == 1 {
      ReadsFirstPlain(pairs[0], "");
      assert pairs[0].key + "=" + pairs[0].val + "" == PrintPlain(pairs);
      assert [pairs[0]] == pairs;
    } else if |pairs| > 1 {
      var rest := " " + PrintPlain(pairs[1..]);
      assert rest[1..] == PrintPlain(pairs[1..]);
      assert pairs[0].key + "=" + pairs[0].val + rest == PrintPlain(pairs);
      ReadsFirstPlain(pairs[0], rest);
      PlainPairsAreRead(pairs[1..]);
      assert [pairs[0]] + pairs[1..] == pairs;
    }
  }
}
