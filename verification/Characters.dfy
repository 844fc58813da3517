/** The characters the Dockerfile machines tell apart, on ASCII input. */
module Characters {

  const BACKSLASH: char := '\\'
  const QUOTE: char := '\"'
  const DOLLAR: char := '$'

  /** unicode.IsSpace. */
  predicate IsSpace(c: char) {
    c == ' ' || c == '\t' || c == '\n' || c == '\r' || c == '\U{0B}' || c == '\U{0C}'
  }

  /** validKeyRune: letters, digits, '-', '_' and '.'. */
  predicate IsKeyChar(c: char) {
    'a' <= c <= 'z' || 'A' <= c <= 'Z' || '0' <= c <= '9' || c == '-' || c == '_' || c == '.'
  }

  predicate IsKey(s: string) {
    s != "" && forall c | c in s :: IsKeyChar(c)
  }

  /** The same by character codes: 26 letters twice, ten digits, and the codes of
      '-', '.' and '_'; and for spaces blank, tab to carriage return. */
  lemma CharacterCodes(c: char)
    ensures var n := c as int;
            IsKeyChar(c) <==> 0 <= n - 97 < 26 || 0 <= n - 65 < 26 || 0 <= n - 48 < 10 || n in {45, 46, 95}
    ensures IsSpace(c) <==> c as int == 32 || 9 <= c as int <= 13
  {
  }
}
