/** Character classes of the regular expressions used by the linter. */
module TextClasses {

  /** `\s` */
  predicate IsSpace(c: char) {
    c == ' ' || c == '\t' || c == '\n' || c == '\r' || c == 0x0B as char || c == 0x0C as char
  }

  /** White space is the blank and the control characters from tab to carriage return. */
  lemma SpaceCodes(c: char)
    ensures IsSpace(c) <==> c == ' ' || 9 <= c as int <= 13
  {}

  /** `\w` */
  predicate IsWord(c: char) {
    'a' <= c <= 'z' || 'A' <= c <= 'Z' || '0' <= c <= '9' || c == '_'
  }

  /** Word characters are the underscore, the digits and the letters. */
  lemma WordCodes(c: char)
    ensures IsWord(c) <==> c as int == 95 || 48 <= c as int <= 57 || 65 <= c as int <= 90 || 97 <= c as int <= 122
  {}

  predicate AllSpaces(s: string) {
    forall i :: 0 <= i < |s| ==> IsSpace(s[i])
  }

  function TrimRight(s: string): (r: string)
    ensures r <= s
  {
    if s != [] && IsSpace(s[|s| - 1]) then TrimRight(s[..|s| - 1]) else s
  }

  function TrimLeft(s: string): (r: string)
    ensures |r| <= |s|
  {
    if s != [] && IsSpace(s[0]) then TrimLeft(s[1..]) else s
  }

  /** Trimming removes the white space in front, all of it and nothing else. */
  lemma {:induction false} TrimLeftMeans(space: string, s: string)
    requires AllSpaces(space) && (s == [] || !IsSpace(s[0]))
    ensures TrimLeft(space + s) == s
  {
    if space == [] {
      assert space + s == s;
    } else {
      assert (space + s)[1..] == space[1..] + s;
      TrimLeftMeans(space[1..], s);
    }
  }

  lemma {:induction false} TrimRightMeans(s: string, space: string)
    requires AllSpaces(space) && (s == [] || !IsSpace(s[|s| - 1]))
    ensures TrimRight(s + space) == s
  {
    if space == [] {
      assert s + space == s;
    } else {
      assert (s + space)[..|s + space| - 1] == s + space[..|space| - 1];
      TrimRightMeans(s, space[..|space| - 1]);
    }
  }

  /** Every text is white space followed by its trimmed form. */
  lemma {:induction false} SplitLeft(s: string) returns (space: string)
    ensures AllSpaces(space) && s == space + TrimLeft(s)
    ensures TrimLeft(s) == [] || !IsSpace(TrimLeft(s)[0])
  {
    if s != [] && IsSpace(s[0]) {
      var rest := SplitLeft(s[1..]);
      space := [s[0]] + rest;
      assert s == [s[0]] + s[1..];
    } else {
      space := [];
    }
  }

  lemma {:induction false} SplitRight(s: string) returns (space: string)
    ensures AllSpaces(space) && s == TrimRight(s) + space
    ensures TrimRight(s) == [] || !IsSpace(TrimRight(s)[|TrimRight(s)| - 1])
  {
    if s != [] && IsSpace(s[|s| - 1]) {
      var rest := SplitRight(s[..|s| - 1]);
      space := rest + [s[|s| - 1]];
      assert s == s[..|s| - 1] + [s[|s| - 1]];
    } else {
      space := [];
    }
  }

  predicate EndsWith(s: string, suffix: string) {
    |suffix| <= |s| && s[|s| - |suffix|..] == suffix
  }

  predicate StartsWith(s: string, prefix: string) {
    |prefix| <= |s| && s[..|prefix|] == prefix
  }
}
