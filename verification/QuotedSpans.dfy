/** Quoted text in one piece: where it ends and what it says, without looking at
    it character by character. */
module QuotedSpans {
  import opened Wrappers
  import opened Characters
  import opened Quoting

  /** Where the quote stands that ends the text: the first one that no backslash
      escapes. */
  function QuoteEnd(s: string): (c: Option<nat>)
    ensures c.Some? ==> c.value < |s| && s[c.value] == QUOTE
    decreases |s|
  {
    if s == "" then None
    else if s[0] == QUOTE then Some(0)
    else
      var n := if s[0] == BACKSLASH then 2 else 1;
      if |s| < n then None
      else
        match QuoteEnd(s[n..])
        case None => None
        case Some(c) => Some(c + n)
  }

  /** What quoted text says: an escaped quote is a quote, everything else is itself. */
  function Said(t: string): string
    decreases |t|
  {
    if t == "" then ""
    else if t[0] == BACKSLASH && |t| > 1 then
      (if t[1] == QUOTE then [QUOTE] else [BACKSLASH, t[1]]) + Said(t[2..])
    else [t[0]] + Said(t[1..])
  }

  /** One character of the text, and one that a backslash escapes. */
  lemma PlainStep(c: char, t: string)
    requires c != QUOTE && c != BACKSLASH
    ensures QuoteEnd([c] + t) == match QuoteEnd(t) case None => None case Some(n) => Some(n + 1)
    ensures Said([c] + t) == [c] + Said(t)
  {
    var s := [c] + t;
    assert s[1..] == t;
  }

  lemma EscapedStep(c: char, t: string)
    ensures QuoteEnd([BACKSLASH, c] + t) == match QuoteEnd(t) case None => None case Some(n) => Some(n + 2)
    ensures Said([BACKSLASH, c] + t) == (if c == QUOTE then [QUOTE] else [BACKSLASH, c]) + Said(t)
  {
    var s := [BACKSLASH, c] + t;
    assert s[2..] == t;
  }

  lemma EndsHere(t: string)
    ensures QuoteEnd([QUOTE] + t) == Some(0) && QuoteEnd([BACKSLASH]) == None && QuoteEnd("") == None
  {
  }
}
