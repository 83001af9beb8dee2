/** The string operations the bearer gate applies to the Authorization header:
    `split(/\s+/)` and `toLowerCase()`. */
module Strings {

  /** The characters `\s` matches in a JavaScript regular expression
      (WhiteSpace and LineTerminator of ECMA-262). */
  predicate IsWhitespace(c: char) {
    c == '\t' || c == '\n' || c == '\U{000B}' || c == '\U{000C}' || c == '\r' || c == ' '
    || c == '\U{00A0}' || c == '\U{1680}' || ('\U{2000}' <= c <= '\U{200A}')
    || c == '\U{2028}' || c == '\U{2029}' || c == '\U{202F}' || c == '\U{205F}'
    || c == '\U{3000}' || c == '\U{FEFF}'
  }

  predicate NoWhitespace(s: string) {
    forall i :: 0 <= i < |s| ==> !IsWhitespace(s[i])
  }

  predicate AllWhitespace(s: string) {
    forall i :: 0 <= i < |s| ==> IsWhitespace(s[i])
  }

  /** Length of the longest prefix of `s` without whitespace. */
  function WordLength(s: string): (n: nat)
    ensures n <= |s| && NoWhitespace(s[..n])
    ensures n < |s| ==> IsWhitespace(s[n])
  {
    if s == [] || IsWhitespace(s[0]) then 0
    else
      var m := WordLength(s[1..]);
      assert s[..1 + m] == [s[0]] + s[1..][..m];
      1 + m
  }

  /** `s` without its longest whitespace prefix. */
  function SkipWhitespace(s: string): (r: string)
    ensures |r| <= |s| && s == s[..|s| - |r|] + r
    ensures AllWhitespace(s[..|s| - |r|])
    ensures r == [] || !IsWhitespace(r[0])
  {
    if s != [] && IsWhitespace(s[0]) then
      var r := SkipWhitespace(s[1..]);
      assert s[..|s| - |r|] == [s[0]] + s[1..][..|s[1..]| - |r|];
      r
    else s
  }

  /** `s.split(/\s+/)`: the pieces between maximal runs of whitespace. A
      leading run yields an empty first piece, a trailing run an empty last
      piece, and the empty string yields one empty piece. */
  function Split(s: string): (parts: seq<string>)
    ensures |parts| >= 1
    ensures forall i :: 0 <= i < |parts| ==> NoWhitespace(parts[i])
    decreases |s|
  {
    var n := WordLength(s);
    if n == |s| then [s]
    else [s[..n]] + Split(SkipWhitespace(s[n..]))
  }

  /** Splitting a word followed by a separator peels the word off. */
  lemma {:induction false} SplitWord(w: string, sep: string, rest: string)
    requires NoWhitespace(w) && |sep| > 0 && AllWhitespace(sep)
    requires rest == [] || !IsWhitespace(rest[0])
    ensures Split(w + sep + rest) == [w] + Split(rest)
  {
    var s := w + sep + rest;
    assert s == w + (sep + rest);
    WordLengthOfWord(w, sep + rest);
    assert s[..|w|] == w;
    assert s[|w|..] == sep + rest;
    SkipWhitespaceOfRun(sep, rest);
    calc {
      Split(s);
      [s[..|w|]] + Split(SkipWhitespace(s[|w|..]));
      [w] + Split(rest);
    }
  }

  /** Two words, each followed by a separator, come off as the first two
      pieces, whatever follows. */
  lemma {:induction false} FirstTwoPieces(w1: string, sep1: string, w2: string, sep2: string, rest: string)
    requires NoWhitespace(w1) && |sep1| > 0 && AllWhitespace(sep1)
    requires w2 != [] && NoWhitespace(w2) && |sep2| > 0 && AllWhitespace(sep2)
    requires rest == [] || !IsWhitespace(rest[0])
    ensures |Split(w1 + sep1 + w2 + sep2 + rest)| >= 2
    ensures Split(w1 + sep1 + w2 + sep2 + rest)[0] == w1 && Split(w1 + sep1 + w2 + sep2 + rest)[1] == w2
  {
    var tail := w2 + sep2 + rest;
    assert w1 + sep1 + w2 + sep2 + rest == w1 + sep1 + tail;
    assert tail[0] == w2[0];
    SplitWord(w1, sep1, tail);
    SplitWord(w2, sep2, rest);
  }

  lemma {:induction false} WordLengthOfWord(w: string, tail: string)
    requires NoWhitespace(w)
    requires tail == [] || IsWhitespace(tail[0])
    ensures WordLength(w + tail) == |w|
  {
    if w != [] {
      assert (w + tail)[1..] == w[1..] + tail;
      WordLengthOfWord(w[1..], tail);
    }
  }

  lemma {:induction false} SkipWhitespaceOfRun(sep: string, rest: string)
    requires AllWhitespace(sep)
    requires rest == [] || !IsWhitespace(rest[0])
    ensures SkipWhitespace(sep + rest) == rest
  {
    if sep != [] {
      assert (sep + rest)[1..] == sep[1..] + rest;
      SkipWhitespaceOfRun(sep[1..], rest);
    }
  }

  /** A word without whitespace splits into itself. */
  lemma SplitOfWord(w: string)
    requires NoWhitespace(w)
    ensures Split(w) == [w]
  {
    WordLengthOfWord(w, []);
    assert w + [] == w;
  }

  /** A string that starts with whitespace splits into an empty first piece. */
  lemma {:induction false} SplitLeadingWhitespace(s: string)
    requires |s| > 0 && IsWhitespace(s[0])
    ensures Split(s)[0] == ""
  {
  }

  /** ASCII lower-casing of one character. */
  function ToLowerChar(c: char): (l: char)
    ensures 'A' <= c <= 'Z' ==> l as int == c as int + 32
    ensures !('A' <= c <= 'Z') ==> l == c
  {
    if 'A' <= c <= 'Z' then (c as int + 32) as char else c
  }

  /** `s.toLowerCase()` on the ASCII range; other characters are kept. */
  function ToLower(s: string): (l: string)
    ensures |l| == |s|
    ensures forall i :: 0 <= i < |s| ==> l[i] == ToLowerChar(s[i])
  {
    if s == [] then [] else [ToLowerChar(s[0])] + ToLower(s[1..])
  }

  /** Two strings are equal up to ASCII case. */
  predicate EqualIgnoringCase(a: string, b: string) {
    ToLower(a) == ToLower(b)
  }
}
