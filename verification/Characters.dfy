/** Character classes of the hand-written scanners. */
module Characters {

  predicate IsLetter(c: char) { 'A' <= c <= 'Z' || 'a' <= c <= 'z' }

  predicate IsDigit(c: char) { '0' <= c <= '9' }

  predicate IsWord(c: char) { IsLetter(c) || IsDigit(c) || c == '_' }

  predicate IsQuote(c: char) { c == '\'' || c == '"' || c == '`' }

  /** The length of the longest prefix of word characters. */
  function WordLength(s: string): (n: nat)
    ensures n <= |s| && (forall i | 0 <= i < n :: IsWord(s[i])) && (n < |s| ==> !IsWord(s[n]))
  {
    if s == [] || !IsWord(s[0]) then 0 else 1 + WordLength(s[1..])
  }

  /** The length of the identifier `[A-Za-z_][A-Za-z0-9_]*` at the start of `s`, or zero. */
  function IdentifierLength(s: string): (n: nat)
    ensures n <= |s| && forall i | 0 <= i < n :: IsWord(s[i])
  {
    if s != [] && IsWord(s[0]) && !IsDigit(s[0]) then WordLength(s) else 0
  }
}
