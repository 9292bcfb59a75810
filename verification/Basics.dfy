/** What several modules share: optional values, character classes and the search for a quote. */
module Basics {

  datatype Option<+T> = None | Some(value: T)

  predicate IsDigit(c: char) { '0' <= c <= '9' }

  predicate IsLower(c: char) { 'a' <= c <= 'z' }

  predicate IsUpper(c: char) { 'A' <= c <= 'Z' }

  predicate IsLetter(c: char) { IsLower(c) || IsUpper(c) }

  predicate IsSpace(c: char) { c == ' ' || '\t' <= c <= '\r' }

  // What opens a group that has a closing brace.
  predicate Opener(c: char) { c == '{' || c == '(' || c == '[' }

  // The index of the next single quote, or the length of the text.
  function NextSingle(s: string): (n: nat)
    ensures n <= |s| && '\'' !in s[..n]
    ensures n < |s| ==> s[n] == '\''
  {
    if s == [] || s[0] == '\'' then 0
    else
      var n := NextSingle(s[1..]);
      assert s[..n + 1] == [s[0]] + s[1..][..n];
      n + 1
  }
}
