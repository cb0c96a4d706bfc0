/** Removal of multi-line comments: the linter looks for a line that starts a comment, for the next line
    that ends it, and overwrites the range. It computes what a two-state automaton reading the lines once
    computes. */
module Comments {
  import opened Wrappers
  import opened TextClasses

  const PLACEHOLDER: string := "/**/"

  function Strip(s: string): string {
    TrimRight(TrimLeft(s))
  }

  /** The two characters that end a comment occur in the text. */
  predicate HasEndMarker(s: string) {
    |s| >= 2 && ((s[0] == '*' && s[1] == '/') || HasEndMarker(s[1..]))
  }

  /** The line starts a comment that goes on beyond it. */
  predicate Starts(line: string) {
    StartsWith(Strip(line), "/*") && !HasEndMarker(Strip(line)[2..])
  }

  predicate Ends(line: string) {
    EndsWith(Strip(line), "*/")
  }

  /** How lines start and end comments. The automaton and the removal do not depend on the details. */
  datatype Markers = Markers(starts: string -> bool, ends: string -> bool)

  function CStyle(): Markers {
    Markers(line => Starts(line), line => Ends(line))
  }

  // ---------------------------------------------------------------------------------------------
  // The automaton
  // ---------------------------------------------------------------------------------------------

  /** Whether a comment is open after the first n lines. */
  predicate OpenAfter(m: Markers, lines: seq<string>, n: nat)
    requires n <= |lines|
  {
    n > 0 && (OpenAfter(m, lines, n - 1) || m.starts(lines[n - 1])) && !m.ends(lines[n - 1])
  }

  /** The line at which the comment open after the first n lines started. */
  function OpenedAt(m: Markers, lines: seq<string>, n: nat): (b: nat)
    requires n <= |lines| && OpenAfter(m, lines, n)
    ensures b < n && !OpenAfter(m, lines, b) && m.starts(lines[b])
  {
    if OpenAfter(m, lines, n - 1) then OpenedAt(m, lines, n - 1) else n - 1
  }

  /** A line inside a comment is replaced, any other is kept. */
  function LineAfter(m: Markers, lines: seq<string>, i: nat): string
    requires i < |lines|
  {
    if OpenAfter(m, lines, i) || m.starts(lines[i]) then PLACEHOLDER else lines[i]
  }

  /** The lines that are processed: all, or those before a comment that is never closed. */
  function Limit(m: Markers, lines: seq<string>): (n: nat)
    ensures n <= |lines| && !OpenAfter(m, lines, n)
  {
    if OpenAfter(m, lines, |lines|) then OpenedAt(m, lines, |lines|) else |lines|
  }

  /** The result of the removal: comments replaced, except one that is never closed, which is left as it
      is and reported. */
  function Removed(m: Markers, lines: seq<string>): (r: seq<string>)
    ensures |r| == |lines|
    ensures forall i {:trigger r[i]} :: 0 <= i < |lines| ==>
      r[i] == if i < Limit(m, lines) then LineAfter(m, lines, i) else lines[i]
  {
    seq(|lines|, i requires 0 <= i < |lines| => if i < Limit(m, lines) then LineAfter(m, lines, i) else lines[i])
  }

  /** The line number of the error message. */
  function Reported(m: Markers, lines: seq<string>): Option<nat> {
    if OpenAfter(m, lines, |lines|) then Some(OpenedAt(m, lines, |lines|) + 1) else None
  }

  // ---------------------------------------------------------------------------------------------
  // Ranges
  // ---------------------------------------------------------------------------------------------

  /** Lines that start no comment leave a closed state closed. */
  lemma {:induction false} StaysClosed(m: Markers, lines: seq<string>, from: nat, to: nat)
    requires from <= to <= |lines| && !OpenAfter(m, lines, from)
    requires forall i :: from <= i < to ==> !m.starts(lines[i])
    ensures !OpenAfter(m, lines, to)
  {
    if from < to {
      StaysClosed(m, lines, from, to - 1);
    }
  }

  /** From its start up to a line before its end, a comment is open. */
  lemma {:induction false} BecomesOpen(m: Markers, lines: seq<string>, begin: nat, to: nat)
    requires begin < to <= |lines| && !OpenAfter(m, lines, begin) && m.starts(lines[begin])
    requires forall i :: begin <= i < to ==> !m.ends(lines[i])
    ensures OpenAfter(m, lines, to) && OpenedAt(m, lines, to) == begin
  {
    if begin + 1 < to {
      BecomesOpen(m, lines, begin, to - 1);
    }
  }

  lemma QuietRange(m: Markers, lines: seq<string>, from: nat, to: nat)
    requires from <= to <= |lines| && !OpenAfter(m, lines, from)
    requires forall i :: from <= i < to ==> !m.starts(lines[i])
    ensures !OpenAfter(m, lines, to)
    ensures forall i {:trigger LineAfter(m, lines, i)} :: from <= i < to ==> LineAfter(m, lines, i) == lines[i]
  {
    StaysClosed(m, lines, from, to);
    forall i | from <= i < to ensures LineAfter(m, lines, i) == lines[i] {
      StaysClosed(m, lines, from, i);
    }
  }

  lemma CommentRange(m: Markers, lines: seq<string>, begin: nat, end: nat)
    requires begin <= end < |lines| && !OpenAfter(m, lines, begin) && m.starts(lines[begin])
    requires (forall i :: begin <= i < end ==> !m.ends(lines[i])) && m.ends(lines[end])
    ensures !OpenAfter(m, lines, end + 1)
    ensures forall i :: begin <= i <= end ==> LineAfter(m, lines, i) == PLACEHOLDER
  {
    forall i | begin <= i <= end ensures LineAfter(m, lines, i) == PLACEHOLDER {
      if begin < i {
        BecomesOpen(m, lines, begin, i);
      }
    }
  }

  /** The first n lines have been processed, with no comment open after them. */
  ghost predicate Processed(m: Markers, original: seq<string>, lines: seq<string>, n: nat) {
    && |lines| == |original| && n <= |lines| && !OpenAfter(m, original, n)
    && (forall i {:trigger lines[i]} :: 0 <= i < n ==> lines[i] == LineAfter(m, original, i))
    && (forall i {:trigger lines[i]} :: n <= i < |lines| ==> lines[i] == original[i])
  }

  lemma SkipQuiet(m: Markers, original: seq<string>, lines: seq<string>, n: nat, begin: nat)
    requires Processed(m, original, lines, n) && n <= begin <= |lines|
    requires forall i :: n <= i < begin ==> !m.starts(lines[i])
    ensures Processed(m, original, lines, begin)
  {
    forall i | n <= i < begin ensures !m.starts(original[i]) {
      assert lines[i] == original[i];
    }
    QuietRange(m, original, n, begin);
  }

  lemma SkipComment(m: Markers, original: seq<string>, lines: seq<string>, begin: nat, end: nat)
    requires Processed(m, original, lines, begin) && begin <= end < |lines|
    requires m.starts(lines[begin]) && (forall i :: begin <= i < end ==> !m.ends(lines[i])) && m.ends(lines[end])
    ensures Processed(m, original, Overwritten(lines, begin, end + 1), end + 1)
  {
    forall i | begin <= i <= end ensures m.ends(original[i]) == m.ends(lines[i]) {
      assert lines[i] == original[i];
    }
    CommentRange(m, original, begin, end);
  }

  lemma AllProcessed(m: Markers, original: seq<string>, lines: seq<string>)
    requires Processed(m, original, lines, |lines|)
    ensures lines == Removed(m, original) && Reported(m, original) == None
  {}

  lemma UnclosedComment(m: Markers, original: seq<string>, lines: seq<string>, begin: nat)
    requires Processed(m, original, lines, begin) && begin < |lines| && m.starts(lines[begin])
    requires forall i :: begin <= i < |lines| ==> !m.ends(lines[i])
    ensures lines == Removed(m, original) && Reported(m, original) == Some(begin + 1)
  {
    forall i | begin <= i < |lines| ensures !m.ends(original[i]) {
      assert lines[i] == original[i];
    }
    BecomesOpen(m, original, begin, |lines|);
  }

  // ---------------------------------------------------------------------------------------------
  // The removal
  // ---------------------------------------------------------------------------------------------

  method FindNextMultiLineCommentStart(m: Markers, lines: seq<string>, from: nat) returns (r: nat)
    requires from <= |lines|
    ensures from <= r <= |lines|
    ensures forall i :: from <= i < r ==> !m.starts(lines[i])
    ensures r < |lines| ==> m.starts(lines[r])
  {
    r := from;
    while r < |lines|
      invariant from <= r <= |lines|
      invariant forall i :: from <= i < r ==> !m.starts(lines[i])
    {
      if m.starts(lines[r]) {
        return;
      }
      r := r + 1;
    }
  }

  method FindNextMultiLineCommentEnd(m: Markers, lines: seq<string>, from: nat) returns (r: nat)
    requires from <= |lines|
    ensures from <= r <= |lines|
    ensures forall i :: from <= i < r ==> !m.ends(lines[i])
    ensures r < |lines| ==> m.ends(lines[r])
  {
    r := from;
    while r < |lines|
      invariant from <= r <= |lines|
      invariant forall i :: from <= i < r ==> !m.ends(lines[i])
    {
      if m.ends(lines[r]) {
        return;
      }
      r := r + 1;
    }
  }

  function Overwritten(lines: seq<string>, begin: nat, end: nat): (r: seq<string>)
    ensures |r| == |lines|
    ensures forall i {:trigger r[i]} :: 0 <= i < |lines| ==> r[i] == if begin <= i < end then PLACEHOLDER else lines[i]
  {
    seq(|lines|, i requires 0 <= i < |lines| => if begin <= i < end then PLACEHOLDER else lines[i])
  }

  method RemoveRange(lines: array<string>, begin: nat, end: nat)
    requires begin <= end <= lines.Length
    modifies lines
    ensures lines[..] == Overwritten(old(lines[..]), begin, end)
  {
    for i := begin to end
      invariant forall j :: begin <= j < i ==> lines[j] == PLACEHOLDER
      invariant forall j :: 0 <= j < lines.Length && !(begin <= j < i) ==> lines[j] == old(lines[j])
    {
      lines[i] := PLACEHOLDER;
    }
    assert lines[..] == Overwritten(old(lines[..]), begin, end);
  }

  /** One round of the removal: the next comment is overwritten, or the work is done. */
  method RemoveNext(m: Markers, lines: array<string>, next: nat, ghost original: seq<string>)
      returns (after: Option<nat>, reported: Option<nat>)
    requires next < lines.Length && Processed(m, original, lines[..], next)
    modifies lines
    ensures after.Some? ==> next < after.value <= lines.Length && Processed(m, original, lines[..], after.value)
    ensures after.None? ==> lines[..] == Removed(m, original) && reported == Reported(m, original)
  {
    var begin := FindNextMultiLineCommentStart(m, lines[..], next);
    SkipQuiet(m, original, lines[..], next, begin);
    if begin >= lines.Length {
      AllProcessed(m, original, lines[..]);
      return None, None;
    }
    var end := FindNextMultiLineCommentEnd(m, lines[..], begin);
    if end >= lines.Length {
      UnclosedComment(m, original, lines[..], begin);
      return None, Some(begin + 1);
    }
    SkipComment(m, original, lines[..], begin, end);
    RemoveRange(lines, begin, end + 1);
    return Some(end + 1), None;
  }

  method RemoveAll(m: Markers, lines: array<string>) returns (reported: Option<nat>)
    modifies lines
    ensures lines[..] == Removed(m, old(lines[..]))
    ensures reported == Reported(m, old(lines[..]))
  {
    ghost var original := lines[..];
    var next := 0;
    while next < lines.Length
      invariant 0 <= next <= lines.Length
      invariant Processed(m, original, lines[..], next)
    {
      var after;
      after, reported := RemoveNext(m, lines, next, original);
      if after.None? {
        return;
      }
      next := after.value;
    }
    AllProcessed(m, original, lines[..]);
    return None;
  }

  /** It terminates on every input with the result and the report of the automaton. */
  method RemoveMultiLineComments(lines: array<string>) returns (reported: Option<nat>)
    modifies lines
    ensures lines[..] == Removed(CStyle(), old(lines[..]))
    ensures reported == Reported(CStyle(), old(lines[..]))
  {
    reported := RemoveAll(CStyle(), lines);
  }

  // ---------------------------------------------------------------------------------------------
  // What is left
  // ---------------------------------------------------------------------------------------------

  /** No processed line starts a comment any more; on runs without an error these are all lines. */
  lemma NothingStartsUpToLimit(m: Markers, lines: seq<string>)
    requires !m.starts(PLACEHOLDER)
    ensures forall i :: 0 <= i < Limit(m, lines) ==> !m.starts(Removed(m, lines)[i])
    ensures Reported(m, lines).None? ==> Limit(m, lines) == |lines|
  {
  }

  /** Up to the limit nothing is open after the removal. */
  lemma ClosedUpToLimit(m: Markers, lines: seq<string>, n: nat)
    requires !m.starts(PLACEHOLDER) && n <= Limit(m, lines)
    ensures !OpenAfter(m, Removed(m, lines), n)
  {
    NothingStartsUpToLimit(m, lines);
    StaysClosed(m, Removed(m, lines), 0, n);
  }

  /** An unclosed comment is left as it was, and is still unclosed. */
  lemma OpenBeyondLimit(m: Markers, lines: seq<string>)
    requires !m.starts(PLACEHOLDER) && OpenAfter(m, lines, |lines|)
    ensures OpenAfter(m, Removed(m, lines), |lines|) && OpenedAt(m, Removed(m, lines), |lines|) == Limit(m, lines)
  {
    var b, once := Limit(m, lines), Removed(m, lines);
    ClosedUpToLimit(m, lines, b);
    forall i | b <= i < |lines| ensures once[i] == lines[i] && !m.ends(once[i]) {
      StaysOpen(m, lines, |lines|, i + 1);
    }
    BecomesOpen(m, once, b, |lines|);
  }

  /** From where an unclosed comment starts, no line ends it. */
  lemma {:induction false} StaysOpen(m: Markers, lines: seq<string>, n: nat, k: nat)
    requires n <= |lines| && OpenAfter(m, lines, n) && OpenedAt(m, lines, n) < k <= n
    ensures !m.ends(lines[k - 1])
  {
    if k < n {
      StaysOpen(m, lines, n - 1, k);
    }
  }

  lemma LimitStays(m: Markers, lines: seq<string>)
    requires !m.starts(PLACEHOLDER)
    ensures Limit(m, Removed(m, lines)) == Limit(m, lines) && Reported(m, Removed(m, lines)) == Reported(m, lines)
  {
    if OpenAfter(m, lines, |lines|) {
      OpenBeyondLimit(m, lines);
    } else {
      ClosedUpToLimit(m, lines, |lines|);
    }
  }

  /** Removing comments twice is removing them once, on every input, and the second pass reports the same
      unclosed comment as the first. */
  lemma RemovedTwice(m: Markers, lines: seq<string>)
    requires !m.starts(PLACEHOLDER)
    ensures Removed(m, Removed(m, lines)) == Removed(m, lines)
    ensures Reported(m, Removed(m, lines)) == Reported(m, lines)
  {
    var once := Removed(m, lines);
    LimitStays(m, lines);
    NothingStartsUpToLimit(m, lines);
    forall i | 0 <= i < |lines| ensures Removed(m, once)[i] == once[i] {
      if i < Limit(m, lines) {
        ClosedUpToLimit(m, lines, i);
      }
    }
  }

  lemma PlaceholderStartsNothing()
    ensures !CStyle().starts(PLACEHOLDER)
  {
    assert Strip(PLACEHOLDER) == PLACEHOLDER;
    assert PLACEHOLDER[2..] == "*/";
  }

  /** Removing comments twice is removing them once, on every input, and the second pass reports the same
      unclosed comment as the first. */
  lemma RemovedIdempotent(lines: seq<string>)
    ensures Removed(CStyle(), Removed(CStyle(), lines)) == Removed(CStyle(), lines)
    ensures Reported(CStyle(), Removed(CStyle(), lines)) == Reported(CStyle(), lines)
  {
    PlaceholderStartsNothing();
    RemovedTwice(CStyle(), lines);
  }

  /** On runs without an error no line that starts an open comment is left. */
  lemma NothingStartsAfterRemoval(lines: seq<string>)
    requires Reported(CStyle(), lines).None?
    ensures forall i :: 0 <= i < |lines| ==> !Starts(Removed(CStyle(), lines)[i])
  {
    PlaceholderStartsNothing();
    NothingStartsUpToLimit(CStyle(), lines);
    forall i | 0 <= i < |lines| ensures !Starts(Removed(CStyle(), lines)[i]) {
      assert !CStyle().starts(Removed(CStyle(), lines)[i]);
    }
  }

  // ---------------------------------------------------------------------------------------------
  // The markers in the text
  // ---------------------------------------------------------------------------------------------

  /** The end marker stands at this index. */
  predicate EndMarkerAt(s: string, i: nat) {
    i + 1 < |s| && s[i] == '*' && s[i + 1] == '/'
  }

  lemma {:induction false} HasEndMarkerMeans(s: string)
    ensures HasEndMarker(s) <==> exists i :: EndMarkerAt(s, i)
  {
    if |s| >= 2 {
      HasEndMarkerMeans(s[1..]);
      if i: nat :| EndMarkerAt(s[1..], i) {
        assert EndMarkerAt(s, i + 1);
      }
      if i: nat :| EndMarkerAt(s, i) {
        assert i > 0 ==> EndMarkerAt(s[1..], i - 1);
      }
      assert s[0] == '*' && s[1] == '/' ==> EndMarkerAt(s, 0);
    }
  }

  /** The line consists of anything, the end marker and white space. */
  ghost predicate EndsInMarker(line: string) {
    exists body, space :: AllSpaces(space) && line == body + "*/" + space
  }

  /** The line consists of white space, the start marker and a rest without end marker. */
  ghost predicate StartsOpen(line: string) {
    exists space, rest :: AllSpaces(space) && line == space + "/*" + rest && !exists i :: EndMarkerAt(rest, i)
  }

  /** Stripping leaves what stands between two white spaces. */
  lemma StripMeans(left: string, s: string, right: string)
    requires AllSpaces(left) && AllSpaces(right) && s != [] && !IsSpace(s[0]) && !IsSpace(s[|s| - 1])
    ensures Strip(left + s + right) == s
  {
    assert left + s + right == left + (s + right);
    TrimLeftMeans(left, s + right);
    TrimRightMeans(s, right);
  }

  /** Every line is its stripped form between white space. */
  lemma StripSplits(line: string) returns (left: string, right: string)
    ensures AllSpaces(left) && AllSpaces(right) && line == left + Strip(line) + right
  {
    left := SplitLeft(line);
    right := SplitRight(TrimLeft(line));
    assert left + (Strip(line) + right) == left + Strip(line) + right;
  }

  lemma EndsMeans(line: string)
    ensures Ends(line) <==> EndsInMarker(line)
  {
    if Ends(line) {
      var left, right := StripSplits(line);
      var s := Strip(line);
      assert s == s[..|s| - 2] + "*/";
      assert line == left + s[..|s| - 2] + "*/" + right;
    }
    if body, space :| AllSpaces(space) && line == body + "*/" + space {
      EndsWithMarker(body, space);
    }
  }

  lemma EndsWithMarker(body: string, space: string)
    requires AllSpaces(space)
    ensures Ends(body + "*/" + space)
  {
    var left := SplitLeft(body + "*/");
    var s := TrimLeft(body + "*/");
    assert !IsSpace((body + "*/")[|body|]);
    assert s == (body + "*/")[|left|..];
    assert s == body[|left|..] + "*/";
    StripMeans(left, s, space);
  }

  lemma StartsMeans(line: string)
    ensures Starts(line) <==> StartsOpen(line)
  {
    if Starts(line) {
      var left, right := StripSplits(line);
      var s := Strip(line);
      assert s == "/*" + s[2..];
      HasEndMarkerMeans(s[2..]);
      NoMarkerInSpace(s[2..], right);
      assert line == left + "/*" + (s[2..] + right);
    }
    if space, rest :| AllSpaces(space) && line == space + "/*" + rest && !exists i :: EndMarkerAt(rest, i) {
      StartsWithMarker(space, rest);
    }
  }

  /** White space at the end adds no end marker. */
  lemma NoMarkerInSpace(s: string, space: string)
    requires AllSpaces(space)
    ensures (exists i :: EndMarkerAt(s + space, i)) <==> exists i :: EndMarkerAt(s, i)
  {
    if i: nat :| EndMarkerAt(s, i) {
      assert EndMarkerAt(s + space, i);
    }
    if i: nat :| EndMarkerAt(s + space, i) {
      assert !IsSpace((s + space)[i + 1]);
      assert EndMarkerAt(s, i);
    }
  }

  lemma StartsWithMarker(space: string, rest: string)
    requires AllSpaces(space) && !exists i :: EndMarkerAt(rest, i)
    ensures Starts(space + "/*" + rest)
  {
    var right := SplitRight(rest);
    var s := "/*" + TrimRight(rest);
    assert space + "/*" + rest == space + s + right;
    StripMeans(space, s, right);
    NoMarkerInSpace(TrimRight(rest), right);
    HasEndMarkerMeans(TrimRight(rest));
    assert s[2..] == TrimRight(rest);
  }

  // ---------------------------------------------------------------------------------------------
  // One comment in its surroundings
  // ---------------------------------------------------------------------------------------------

  lemma {:induction false} OpenInFront(m: Markers, a: seq<string>, b: seq<string>, n: nat)
    requires n <= |a|
    ensures OpenAfter(m, a + b, n) == OpenAfter(m, a, n)
  {
    if n > 0 {
      OpenInFront(m, a, b, n - 1);
    }
  }

  lemma {:induction false} OpenBehind(m: Markers, a: seq<string>, b: seq<string>, n: nat)
    requires n <= |b| && !OpenAfter(m, a, |a|)
    ensures OpenAfter(m, a + b, |a| + n) == OpenAfter(m, b, n)
    ensures OpenAfter(m, b, n) ==> OpenedAt(m, a + b, |a| + n) == |a| + OpenedAt(m, b, n)
  {
    if n == 0 {
      OpenInFront(m, a, b, |a|);
    } else {
      OpenBehind(m, a, b, n - 1);
      assert (a + b)[|a| + n - 1] == b[n - 1];
    }
  }

  /** After lines that leave no comment open, the rest is treated on its own. */
  lemma RemovedConcat(m: Markers, a: seq<string>, b: seq<string>)
    requires !OpenAfter(m, a, |a|)
    ensures Removed(m, a + b) == Removed(m, a) + Removed(m, b)
    ensures Reported(m, a + b) == if Reported(m, b).None? then None else Some(|a| + Reported(m, b).value)
  {
    LimitConcat(m, a, b);
    forall i | 0 <= i < |a| ensures Removed(m, a + b)[i] == Removed(m, a)[i] {
      LineInFront(m, a, b, i);
    }
    forall i | 0 <= i < |b| ensures Removed(m, a + b)[|a| + i] == Removed(m, b)[i] {
      LineBehind(m, a, b, i);
    }
    assert Removed(m, a + b) == Removed(m, a) + Removed(m, b);
  }

  lemma LimitConcat(m: Markers, a: seq<string>, b: seq<string>)
    requires !OpenAfter(m, a, |a|)
    ensures Limit(m, a + b) == |a| + Limit(m, b) && Limit(m, a) == |a|
    ensures Reported(m, a + b) == if Reported(m, b).None? then None else Some(|a| + Reported(m, b).value)
  {
    OpenBehind(m, a, b, |b|);
  }

  lemma LineInFront(m: Markers, a: seq<string>, b: seq<string>, i: nat)
    requires i < |a|
    ensures LineAfter(m, a + b, i) == LineAfter(m, a, i)
  {
    OpenInFront(m, a, b, i);
  }

  lemma LineBehind(m: Markers, a: seq<string>, b: seq<string>, i: nat)
    requires i < |b| && !OpenAfter(m, a, |a|)
    ensures LineAfter(m, a + b, |a| + i) == LineAfter(m, b, i) && (a + b)[|a| + i] == b[i]
  {
    OpenBehind(m, a, b, i);
  }

  /** A comment: its first line starts it, its last line is the first one that ends it. */
  ghost predicate IsComment(block: seq<string>) {
    && block != [] && StartsOpen(block[0]) && EndsInMarker(block[|block| - 1])
    && forall i :: 0 <= i < |block| - 1 ==> !EndsInMarker(block[i])
  }

  /** After any lines that leave no comment open, exactly the lines of a comment become the placeholder; the
      lines around it are treated as if it were not there. */
  lemma CommentIsOverwritten(before: seq<string>, block: seq<string>, after: seq<string>)
    requires Reported(CStyle(), before).None? && IsComment(block)
    ensures Removed(CStyle(), before + block + after)
         == Removed(CStyle(), before) + seq(|block|, _ => "/**/") + Removed(CStyle(), after)
    ensures Reported(CStyle(), before + block + after)
         == var r := Reported(CStyle(), after); if r.None? then None else Some(|before| + |block| + r.value)
  {
    var m := CStyle();
    WholeComment(block);
    RemovedConcat(m, before, block);
    RemovedConcat(m, before + block, after);
  }

  lemma WholeComment(block: seq<string>)
    requires IsComment(block)
    ensures !OpenAfter(CStyle(), block, |block|)
    ensures Removed(CStyle(), block) == seq(|block|, _ => "/**/")
  {
    var m := CStyle();
    assert m.starts(block[0]) by {
      StartsMeans(block[0]);
    }
    forall i | 0 <= i < |block| ensures m.ends(block[i]) <==> EndsInMarker(block[i]) {
      EndsMeans(block[i]);
    }
    CommentBlock(m, block);
  }

  lemma CommentBlock(m: Markers, block: seq<string>)
    requires block != [] && m.starts(block[0]) && m.ends(block[|block| - 1])
    requires forall i :: 0 <= i < |block| - 1 ==> !m.ends(block[i])
    ensures !OpenAfter(m, block, |block|)
    ensures Removed(m, block) == seq(|block|, _ => PLACEHOLDER)
  {
    CommentRange(m, block, 0, |block| - 1);
  }

  /** A comment that is never closed stays as it is and is reported with the number of its first line, counted
      from 1. */
  lemma UnclosedIsReported(before: seq<string>, open: seq<string>)
    requires Reported(CStyle(), before).None? && open != [] && StartsOpen(open[0])
    requires forall i :: 0 <= i < |open| ==> !EndsInMarker(open[i])
    ensures Removed(CStyle(), before + open) == Removed(CStyle(), before) + open
    ensures Reported(CStyle(), before + open) == Some(|before| + 1)
  {
    var m := CStyle();
    assert m.starts(open[0]) by {
      StartsMeans(open[0]);
    }
    forall i | 0 <= i < |open| ensures !m.ends(open[i]) {
      EndsMeans(open[i]);
    }
    UnclosedBlock(m, open);
    RemovedConcat(m, before, open);
  }

  lemma UnclosedBlock(m: Markers, open: seq<string>)
    requires open != [] && m.starts(open[0]) && forall i :: 0 <= i < |open| ==> !m.ends(open[i])
    ensures Removed(m, open) == open && Reported(m, open) == Some(1)
  {
    BecomesOpen(m, open, 0, |open|);
  }

  /** Lines of which none starts a comment stay as they are. */
  lemma QuietLinesStay(lines: seq<string>)
    requires forall i :: 0 <= i < |lines| ==> !StartsOpen(lines[i])
    ensures Removed(CStyle(), lines) == lines && Reported(CStyle(), lines).None?
  {
    forall i | 0 <= i < |lines| ensures !Starts(lines[i]) {
      StartsMeans(lines[i]);
    }
    QuietRange(CStyle(), lines, 0, |lines|);
  }
}
