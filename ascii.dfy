/** ASCII character classes and case folding: `String.toLowerCase`/`toUpperCase` restricted to ASCII. */
module Ascii {

  predicate IsUpper(c: char) { 'A' <= c <= 'Z' }
  predicate IsLower(c: char) { 'a' <= c <= 'z' }
  predicate IsDigit(c: char) { '0' <= c <= '9' }
  predicate IsLetter(c: char) { IsUpper(c) || IsLower(c) }

  /** The lower-case form of an ASCII letter; any other character is its own lower case. */
  function ToLower(c: char): (d: char)
    ensures !IsUpper(d)
    ensures IsLetter(d) <==> IsLetter(c)
    ensures !IsUpper(c) ==> d == c
  {
    if IsUpper(c) then (c as int - 'A' as int + 'a' as int) as char else c
  }

  /** The upper-case form of an ASCII letter; any other character is its own upper case. */
  function ToUpper(c: char): (d: char)
    ensures !IsLower(d)
    ensures IsLetter(d) <==> IsLetter(c)
    ensures !IsLower(c) ==> d == c
  {
    if IsLower(c) then (c as int - 'a' as int + 'A' as int) as char else c
  }

  /** Two characters that are the same letter, or the same non-letter. */
  predicate SameIgnoringCase(a: char, b: char) { ToUpper(a) == ToUpper(b) }

  /** Case folding of one character loses nothing but the case. */
  lemma CaseRoundTrip(c: char)
    ensures IsUpper(c) ==> ToUpper(ToLower(c)) == c
    ensures IsLower(c) ==> ToLower(ToUpper(c)) == c
    ensures SameIgnoringCase(ToLower(c), c) && SameIgnoringCase(ToUpper(c), c)
  {
  }

  /** `s.toLowerCase()` on ASCII. */
  function Lower(s: string): (r: string)
    ensures |r| == |s|
    ensures forall i :: 0 <= i < |s| ==> r[i] == ToLower(s[i])
  {
    seq(|s|, i requires 0 <= i < |s| => ToLower(s[i]))
  }

  /** `s.toUpperCase()` on ASCII. */
  function Upper(s: string): (r: string)
    ensures |r| == |s|
    ensures forall i :: 0 <= i < |s| ==> r[i] == ToUpper(s[i])
  {
    seq(|s|, i requires 0 <= i < |s| => ToUpper(s[i]))
  }

  predicate NoUpper(s: string) { forall i :: 0 <= i < |s| ==> !IsUpper(s[i]) }
  predicate NoLower(s: string) { forall i :: 0 <= i < |s| ==> !IsLower(s[i]) }

  /** Lower-casing the upper-cased string is the same as lower-casing it, and vice versa. */
  lemma FoldAbsorbs(s: string)
    ensures Lower(Upper(s)) == Lower(s)
    ensures Upper(Lower(s)) == Upper(s)
  {
    forall i | 0 <= i < |s| ensures ToLower(ToUpper(s[i])) == ToLower(s[i]) && ToUpper(ToLower(s[i])) == ToUpper(s[i]) {
      CaseRoundTrip(s[i]);
    }
  }

  /** A string already in the target case is left as it is, so each fold is idempotent. */
  lemma FoldKeepsFolded(s: string)
    ensures NoUpper(s) ==> Lower(s) == s
    ensures NoLower(s) ==> Upper(s) == s
    ensures Lower(Lower(s)) == Lower(s) && Upper(Upper(s)) == Upper(s)
  {
  }

  /** Case folding works character by character, so it distributes over concatenation. */
  lemma FoldConcat(a: string, b: string)
    ensures Lower(a + b) == Lower(a) + Lower(b)
    ensures Upper(a + b) == Upper(a) + Upper(b)
  {
    var l, u := Lower(a) + Lower(b), Upper(a) + Upper(b);
    forall i | 0 <= i < |a + b| ensures Lower(a + b)[i] == l[i] && Upper(a + b)[i] == u[i] {
      if i < |a| {
        assert (a + b)[i] == a[i];
      } else {
        assert (a + b)[i] == b[i - |a|];
      }
    }
  }
}
