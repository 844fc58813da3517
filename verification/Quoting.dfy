/** Text between double quotes, as both Dockerfile machines read it: a backslash
    before a quote makes it part of the text, any other backslash stays. */
module Quoting {
  import opened Wrappers
  import opened Characters

  /** The text read so far, and whether the last character is a pending backslash. */
  datatype Reading = Reading(text: string, escaped: bool)
  {
    function All(): string {
      if escaped then text + [BACKSLASH] else text
    }
  }

  /** One character inside the quotes; None if it closes them. */
  function Read(q: Reading, r: char): Option<Reading> {
    if q.escaped then
      Some(Reading(q.text + (if r != QUOTE then [BACKSLASH, r] else [r]), false))
    else if r == BACKSLASH then Some(Reading(q.text, true))
    else if r == QUOTE then None
    else Some(Reading(q.text + [r], false))
  }

  /** How text is written between quotes. */
  function Escape(v: string): string {
    if v == "" then "" else (if v[0] == QUOTE then [BACKSLASH, QUOTE] else [v[0]]) + Escape(v[1..])
  }

  function Quoted(v: string): string {
    [QUOTE] + Escape(v) + [QUOTE]
  }

  // ----- backslashes in a row -----

  /** How many backslashes stand right before position i. */
  function RunBefore(v: string, i: nat): nat
    requires i <= |v|
  {
    if i > 0 && v[i - 1] == BACKSLASH then RunBefore(v, i - 1) + 1 else 0
  }

  /** Every quote, and the end, comes after an even number of backslashes. */
  ghost predicate EvenRuns(v: string) {
    RunBefore(v, |v|) % 2 == 0 && forall i | 0 <= i < |v| && v[i] == QUOTE :: RunBefore(v, i) % 2 == 0
  }

  /** Up to position i the text is read back unchanged. */
  ghost predicate ReadUpTo(v: string, i: nat, q: Reading)
    requires i <= |v|
  {
    q.All() == v[..i] && (q.escaped <==> RunBefore(v, i) % 2 == 1)
  }

  /** One more character of the text, written with its escape. */
  lemma ReadsNext(v: string, i: nat, q: Reading)
    requires i < |v| && ReadUpTo(v, i, q)
    requires v[i] == QUOTE ==> RunBefore(v, i) % 2 == 0
    ensures v[i] != QUOTE ==> Read(q, v[i]).Some? && ReadUpTo(v, i + 1, Read(q, v[i]).value)
    ensures v[i] == QUOTE ==>
              var p := Read(q, BACKSLASH);
              p.Some? && Read(p.value, QUOTE).Some? && ReadUpTo(v, i + 1, Read(p.value, QUOTE).value)
  {
    RunStep(v, i);
    hide RunBefore;
    assert v[..i + 1] == v[..i] + [v[i]];
  }

  lemma RunStep(v: string, i: nat)
    requires i < |v|
    ensures RunBefore(v, i + 1) % 2 == if v[i] == BACKSLASH then 1 - RunBefore(v, i) % 2 else 0
  {
  }

  /** A quote after an odd number of backslashes closes the text too early, with
      something else read in its place. */
  lemma ClosesEarly(v: string, i: nat, q: Reading)
    requires i < |v| && ReadUpTo(v, i, q) && v[i] == QUOTE && RunBefore(v, i) % 2 == 1
    ensures var p := Read(q, BACKSLASH);
            p.Some? && !p.value.escaped && Read(p.value, QUOTE) == None && p.value.text == v[..i] + [BACKSLASH]
                && p.value.text != v
  {
    assert v == v[..i] + v[i..];
    assert (v[..i] + [BACKSLASH])[i] == BACKSLASH;
  }

  /** After an odd number of backslashes the closing quote becomes part of the text. */
  lemma StaysOpen(v: string, q: Reading)
    requires ReadUpTo(v, |v|, q) && RunBefore(v, |v|) % 2 == 1
    ensures var p := Read(q, QUOTE);
            p.Some? && |p.value.text| == |v| && p.value.text[|v| - 1] == QUOTE && v[|v| - 1] == BACKSLASH
  {
    assert v[..|v|] == v;
  }

  lemma EscapeSplit(v: string, i: nat)
    requires i < |v|
    ensures Escape(v[i..]) == (if v[i] == QUOTE then [BACKSLASH, QUOTE] else [v[i]]) + Escape(v[i + 1..])
  {
    assert v[i..][1..] == v[i + 1..];
  }

  /** What is left to read after the first i characters of a quoted text. */
  function Ahead(v: string, i: nat, rest: string): string
    requires i <= |v|
  {
    Escape(v[i..]) + ([QUOTE] + rest)
  }

  lemma AheadStep(v: string, i: nat, rest: string)
    requires i < |v|
    ensures Ahead(v, i, rest) == (if v[i] == QUOTE then [BACKSLASH, QUOTE] else [v[i]]) + Ahead(v, i + 1, rest)
  {
    EscapeSplit(v, i);
  }

  lemma WholeText(v: string, q: Reading)
    requires ReadUpTo(v, |v|, q) && EvenRuns(v)
    ensures q == Reading(v, false)
  {
    assert v[..|v|] == v;
  }

  lemma AheadEnd(v: string, rest: string)
    ensures Ahead(v, |v|, rest) == [QUOTE] + rest
  {
  }

  /** The first place where quoting goes wrong: a quote, or the end. */
  lemma {:induction false} FirstOddRun(v: string, i: nat) returns (bad: nat)
    requires i <= |v| && !EvenRuns(v) && forall j | 0 <= j < i && v[j] == QUOTE :: RunBefore(v, j) % 2 == 0
    ensures i <= bad <= |v| && RunBefore(v, bad) % 2 == 1 && (bad < |v| ==> v[bad] == QUOTE)
    ensures forall j | 0 <= j < bad && v[j] == QUOTE :: RunBefore(v, j) % 2 == 0
    decreases |v| - i
  {
    if i == |v| || (v[i] == QUOTE && RunBefore(v, i) % 2 == 1) {
      bad := i;
    } else {
      bad := FirstOddRun(v, i + 1);
    }
  }

  // ----- text that was read -----

  lemma {:induction false} SameRun(v: string, w: string, i: nat)
    requires i <= |v|
    ensures RunBefore(v + w, i) == RunBefore(v, i)
  {
    if i > 0 && v[i - 1] == BACKSLASH { SameRun(v, w, i - 1); }
  }

  /** Whatever is read, with or without an escape, keeps even runs. */
  lemma ReadingKeepsEvenRuns(v: string, c: char)
    requires EvenRuns(v)
    ensures c != BACKSLASH ==> EvenRuns(v + [c])
    ensures c != QUOTE ==> EvenRuns(v + [BACKSLASH, c])
  {
    var w, x := v + [c], v + [BACKSLASH, c];
    forall i | 0 <= i <= |v| ensures RunBefore(w, i) == RunBefore(v, i) && RunBefore(x, i) == RunBefore(v, i) {
      SameRun(v, [c], i);
      SameRun(v, [BACKSLASH, c], i);
    }
    RunStep(w, |v|);
    RunStep(x, |v|);
    RunStep(x, |v| + 1);
  }
}
