/** What the bracket matchers find when they start on an angle bracket: the first angle bracket of the other
    direction, outside of groups in hard brackets, at which those outside of groups balance. */
module AngleTheory {
  import opened Sequences
  import opened Wrappers
  import opened TextClasses
  import opened Brackets
  import opened BracketTheory
  import opened Angles

  // ---------------------------------------------------------------------------------------------
  // What characters are to the matchers
  // ---------------------------------------------------------------------------------------------

  /** The text ends in the word `operator`, up to white space. */
  ghost predicate OperatorBefore(text: string) {
    exists before, space :: OperatorAfter(text, before, space)
  }

  predicate OperatorAfter(text: string, before: string, space: string) {
    && AllSpaces(space) && (before == [] || !IsWord(before[|before| - 1]))
    && text == before + "operator" + space
  }

  /** Reading forwards: a `<` after the word `operator` does not count and the second one of `<<` takes the
      first back; a `>` after `-`, or one character after the word `operator`, does not count. */
  ghost function ForwardMark(line: string, i: nat): Mark
    requires i < |line|
  {
    if Opener(line[i]) then Begin(line[i])
    else if Closer(line[i]) then Finish(line[i])
    else if line[i] == ';' then Stop
    else if line[i] == '<' then
      if i > 0 && line[i - 1] == '<' then Back else if OperatorBefore(line[..i]) then Neutral else Up
    else if line[i] == '>' then
      if i > 0 && (line[i - 1] == '-' || OperatorBefore(line[..i - 1])) then Neutral else Down
    else Neutral
  }

  /** This `<` is the left one of a `<<`, counted from the right end of a row of them. */
  predicate LeftOfShift(line: string, i: nat)
    requires i < |line|
    decreases |line| - i
  {
    line[i] == '<' && i + 1 < |line| && line[i + 1] == '<' && !LeftOfShift(line, i + 1)
  }

  /** Reading backwards: a `>` after `-` or after the word `operator`, or of a `>=` between white space, does
      not count, nor does any `<` of a `<<`. */
  ghost function BackwardMark(line: string, i: nat): Mark
    requires i < |line|
  {
    if Closer(line[i]) then Begin(line[i])
    else if Opener(line[i]) then Finish(line[i])
    else if line[i] == ';' then Stop
    else if line[i] == '>' then
      if i > 0 && (line[i - 1] == '-' || OperatorBefore(line[..i]) || GreaterEqualAt(line, i)) then Neutral else Up
    else if line[i] == '<' then
      if LeftOfShift(line, i) || (i > 0 && line[i - 1] == '<') then Neutral else Down
    else Neutral
  }

  predicate GreaterEqualAt(line: string, i: nat) {
    && 0 < i && i + 2 < |line| && IsSpace(line[i - 1]) && line[i] == '>' && line[i + 1] == '=' && IsSpace(line[i + 2])
  }

  /** The search for the word `operator` at the end of a text finds it exactly when it is there. */
  lemma OperatorMeans(text: string)
    ensures EndsWithOperator(text) <==> OperatorBefore(text)
  {
    if EndsWithOperator(text) {
      var space := SplitRight(text);
      var t := TrimRight(text);
      assert t == t[..|t| - 8] + "operator";
      assert OperatorAfter(text, t[..|t| - 8], space);
    }
    if before, space :| OperatorAfter(text, before, space) {
      OperatorTrimmed(before, space);
    }
  }

  lemma OperatorTrimmed(before: string, space: string)
    requires OperatorAfter(before + "operator" + space, before, space)
    ensures EndsWithOperator(before + "operator" + space)
  {
    var t := before + "operator";
    assert Last(t) == "operator"[7];
    TrimRightMeans(t, space);
    assert t[|t| - 8..] == "operator";
  }

  lemma ForwardStepMarks(line: string, i: nat, stack: string)
    requires i < |line|
    ensures ForwardStep(line, i, stack) == MarkStep(ForwardMark(line, i), '<', stack)
  {
    ForwardMarkMeans(line, i);
    ForwardCharMarks(line[i], IsShift(line, i), IsIgnored(line, i), stack);
  }

  function ForwardCharMark(c: char, shift: bool, ignored: bool): Mark {
    if Opener(c) then Begin(c)
    else if Closer(c) then Finish(c)
    else if c == ';' then Stop
    else if c == '<' then if shift then Back else if ignored then Neutral else Up
    else if c == '>' && !ignored then Down
    else Neutral
  }

  lemma ForwardCharMarks(c: char, shift: bool, ignored: bool, stack: string)
    ensures ForwardChar(c, shift, ignored, stack) == MarkStep(ForwardCharMark(c, shift, ignored), '<', stack)
  {}

  lemma ForwardMarkMeans(line: string, i: nat)
    requires i < |line|
    ensures ForwardMark(line, i) == ForwardCharMark(line[i], IsShift(line, i), IsIgnored(line, i))
  {
    OperatorMeans(line[..i]);
    if i > 0 {
      OperatorMeans(line[..i - 1]);
    } else {
      assert !EndsWithOperator(line[..0]);
    }
  }

  /** A character the backward matcher stops at is what its mark says. */
  lemma BackwardStepMarks(line: string, i: nat, stack: string)
    requires i < |line| && !LeftOfShift(line, i)
    ensures BackwardStep(line, i, stack) == MarkStep(BackwardMark(line, i), '>', stack)
    ensures SkipsTwo(line, i) ==> BackwardMark(line, i) == Neutral && BackwardMark(line, i - 1) == Neutral
  {
    OperatorMeans(line[..i]);
    if SkipsTwo(line, i) {
      SkippedIsPlain(line, i);
      if line[i] == '>' {
        SkippedBeforeGreater(line, i);
      }
    }
  }

  lemma SkippedBeforeGreater(line: string, i: nat)
    requires i < |line| && SkipsTwo(line, i) && line[i] == '>'
    ensures i > 0 && (line[i - 1] == '-' || IsSpace(line[i - 1]) || line[i - 1] == 'r')
  {
    if EndsWithOperator(line[..i]) {
      var t := TrimRight(line[..i]);
      TrimmedEnd(line[..i]);
      if t == line[..i] {
        assert t[|t| - 8..][7] == 'r';
      }
    }
  }

  /** The matcher never stops at the left half of a `<<`. */
  lemma NextStop(line: string, i: nat)
    requires i < |line| && !LeftOfShift(line, i)
    ensures SkipsTwo(line, i) ==> i > 0 && (i > 1 ==> !LeftOfShift(line, i - 2))
    ensures !SkipsTwo(line, i) && i > 0 ==> !LeftOfShift(line, i - 1)
  {
    if SkipsTwo(line, i) && line[i] == '>' {
      SkippedBeforeGreater(line, i);
    }
  }

  // ---------------------------------------------------------------------------------------------
  // The marks of all lines
  // ---------------------------------------------------------------------------------------------

  ghost function LineMarks(line: string, forwards: bool): (ms: seq<Mark>)
    ensures |ms| == |line|
    ensures forall i :: 0 <= i < |line| ==> ms[i] == if forwards then ForwardMark(line, i) else BackwardMark(line, i)
  {
    seq(|line|, i requires 0 <= i < |line| => if forwards then ForwardMark(line, i) else BackwardMark(line, i))
  }

  ghost function MarkLists(lines: seq<string>, forwards: bool): (mss: seq<seq<Mark>>)
    ensures |mss| == |lines| && forall l :: 0 <= l < |lines| ==> mss[l] == LineMarks(lines[l], forwards)
  {
    seq(|lines|, l requires 0 <= l < |lines| => LineMarks(lines[l], forwards))
  }

  /** The marks of the lines, one after the other. */
  ghost function TextMarks(lines: seq<string>, forwards: bool): seq<Mark> {
    Flatten(MarkLists(lines, forwards))
  }

  ghost predicate MarkedAt(ms: seq<Mark>, off: nat, line: string, forwards: bool) {
    off + |line| <= |ms| && ms[off..off + |line|] == LineMarks(line, forwards)
  }

  lemma {:induction false} MarksLength(lines: seq<string>, mss: seq<seq<Mark>>, l: nat)
    requires |mss| == |lines| && l <= |lines| && forall k :: 0 <= k < |lines| ==> |mss[k]| == |lines[k]|
    ensures |Flatten(mss[..l])| == Offset(lines, l)
  {
    if l > 0 {
      MarksLength(lines, mss, l - 1);
      PrefixSnoc(mss, l - 1);
      FlattenSnoc(mss[..l - 1], mss[l - 1]);
    }
  }

  /** The marks of a line stand where the line stands. */
  lemma TextMarksAt(lines: seq<string>, forwards: bool, l: nat)
    requires l < |lines|
    ensures MarkedAt(TextMarks(lines, forwards), Offset(lines, l), lines[l], forwards)
  {
    var mss := MarkLists(lines, forwards);
    MarksLength(lines, mss, l);
    FlattenSplit(mss, l);
  }

  lemma TextMarksLength(lines: seq<string>, forwards: bool)
    ensures |TextMarks(lines, forwards)| == Offset(lines, |lines|)
  {
    var mss := MarkLists(lines, forwards);
    MarksLength(lines, mss, |lines|);
    assert mss[..|lines|] == mss;
  }

  // ---------------------------------------------------------------------------------------------
  // Forwards
  // ---------------------------------------------------------------------------------------------

  /** What scanning a line finds is what the machine finds in the marks, or the machine arrives at the end of
      the line with the same stack. */
  ghost predicate FollowsSearch(
      ms: seq<Mark>, off: nat, line: string, r: (int, Option<string>), found: Option<nat>)
    requires off + |line| <= |ms|
  {
    if r.0 > -1 then 1 <= r.0 <= |line| && found == Some(off + r.0 - 1)
    else if r.1.None? then found == None
    else r.1.value != [] && found == Search(ms, off + |line|, r.1.value, '<')
  }

  lemma SearchStep(ms: seq<Mark>, i: nat, stack: string, angle: char)
    requires i < |ms|
    ensures match MarkStep(ms[i], angle, stack)
      case Found => Search(ms, i, stack, angle) == Some(i)
      case Failed => Search(ms, i, stack, angle) == None
      case More(s) => Search(ms, i, stack, angle) == Search(ms, i + 1, s, angle)
  {}

  lemma {:induction false} FindEndSearches(ms: seq<Mark>, off: nat, line: string, i: nat, stack: string)
    requires MarkedAt(ms, off, line, true) && i <= |line| && stack != []
    ensures FollowsSearch(ms, off, line, FindEnd(line, i, stack), Search(ms, off + i, stack, '<'))
    decreases |line| - i
  {
    if i < |line| {
      assert ms[off + i] == ms[off..off + |line|][i] == ForwardMark(line, i);
      ForwardStepMarks(line, i, stack);
      SearchStep(ms, off + i, stack, '<');
      match ForwardStep(line, i, stack)
      case Found =>
      case Failed =>
      case More(s) =>
        MarkStepNonEmpty(ms[off + i], '<', stack);
        FindEndSearches(ms, off, line, i + 1, s);
    }
  }

  /** The machine follows the scan of line `l` from anywhere. */
  ghost predicate LineFollows(lines: seq<string>, ms: seq<Mark>, l: nat)
    requires l < |lines|
  {
    && Offset(lines, l) + |lines[l]| == Offset(lines, l + 1) <= |ms|
    && forall i: nat, stack {:trigger FindEnd(lines[l], i, stack)} :: i <= |lines[l]| && stack != [] ==>
         FollowsSearch(ms, Offset(lines, l), lines[l], FindEnd(lines[l], i, stack),
                       Search(ms, Offset(lines, l) + i, stack, '<'))
  }

  ghost predicate LinesFollow(lines: seq<string>, ms: seq<Mark>) {
    |ms| == Offset(lines, |lines|) && forall l :: 0 <= l < |lines| ==> LineFollows(lines, ms, l)
  }

  lemma TextFollows(lines: seq<string>)
    ensures LinesFollow(lines, TextMarks(lines, true))
  {
    var ms := TextMarks(lines, true);
    TextMarksLength(lines, true);
    forall l | 0 <= l < |lines| ensures LineFollows(lines, ms, l) {
      TextMarksAt(lines, true, l);
      LineFollowsMarks(lines, ms, l);
    }
  }

  lemma LineFollowsMarks(lines: seq<string>, ms: seq<Mark>, l: nat)
    requires l < |lines| && MarkedAt(ms, Offset(lines, l), lines[l], true)
    ensures LineFollows(lines, ms, l)
  {
    var off, line := Offset(lines, l), lines[l];
    forall i: nat, stack | i <= |line| && stack != []
      ensures FollowsSearch(ms, off, line, FindEnd(line, i, stack), Search(ms, off + i, stack, '<'))
    {
      FindEndSearches(ms, off, line, i, stack);
    }
  }

  lemma {:induction false} CloseSearches(lines: seq<string>, ms: seq<Mark>, l: nat, i: nat, stack: string)
    requires LinesFollow(lines, ms) && l < |lines| && i <= |lines[l]| && stack != []
    ensures Offset(lines, l) + i <= |ms|
    ensures SameEnd(lines, Close(lines, l, i, stack), Search(ms, Offset(lines, l) + i, stack, '<'))
    decreases |lines| - l
  {
    assert LineFollows(lines, ms, l);
    var found := FindEnd(lines[l], i, stack);
    if found.0 <= -1 && found.1.Some? && l < |lines| - 1 {
      CloseSearches(lines, ms, l + 1, 0, found.1.value);
    }
    CloseLineSearches(lines, ms, l, i, stack, Search(ms, Offset(lines, l) + i, stack, '<'));
  }

  /** What one line contributes: the match, a failure, or what the lines after it give. */
  lemma CloseLineSearches(
      lines: seq<string>, ms: seq<Mark>, l: nat, i: nat, stack: string, found: Option<nat>)
    requires l < |lines| && i <= |lines[l]| && Offset(lines, l) + |lines[l]| <= |ms|
    requires FollowsSearch(ms, Offset(lines, l), lines[l], FindEnd(lines[l], i, stack), found)
    requires var (end, rest) := FindEnd(lines[l], i, stack); end <= -1 && rest.Some? ==>
      var after := Search(ms, Offset(lines, l) + |lines[l]|, rest.value, '<');
      if l < |lines| - 1 then SameEnd(lines, Close(lines, l + 1, 0, rest.value), after) else after == None
    ensures SameEnd(lines, Close(lines, l, i, stack), found)
  {}

  lemma {:induction false} NoAngleBegins(mss: seq<seq<Mark>>, angle: char)
    requires forall k :: 0 <= k < |mss| ==> HardBegins(mss[k], angle)
    ensures HardBegins(Flatten(mss), angle)
  {
    if mss != [] {
      NoAngleBegins(mss[..|mss| - 1], angle);
    }
  }

  lemma TextHardBegins(lines: seq<string>, forwards: bool, angle: char)
    requires angle == '<' || angle == '>'
    ensures HardBegins(TextMarks(lines, forwards), angle)
  {
    forall l | 0 <= l < |lines| ensures HardBegins(LineMarks(lines[l], forwards), angle) {
    }
    NoAngleBegins(MarkLists(lines, forwards), angle);
  }

  lemma FromAngle(lines: seq<string>, l: nat, pos: nat)
    requires l < |lines| && pos < |lines[l]| && lines[l][pos] == '<' && ForwardMark(lines[l], pos) == Up
    ensures Close(lines, l, pos, []) == Close(lines, l, pos + 1, ['<'])
  {
    ForwardStepMarks(lines[l], pos, []);
    assert [] + ['<'] == ['<'];
    assert FindEnd(lines[l], pos, []) == FindEnd(lines[l], pos + 1, ['<']);
  }

  /** A `<` that `CloseExpression` may be started on: not the first half of `<<` or `<=`, and one that
      counts. */
  ghost predicate StartsAngle(line: string, pos: nat) {
    && pos < |line| && line[pos] == '<' && ForwardMark(line, pos) == Up
    && !(pos + 1 < |line| && (line[pos + 1] == '<' || line[pos + 1] == '='))
  }

  /** The place is the position after the match of the angle bracket before mark `k`. */
  ghost predicate EndsAt(lines: seq<string>, ms: seq<Mark>, k: nat, place: (nat, nat)) {
    && place.0 < |lines| && 1 <= place.1 <= |lines[place.0]|
    && Match(ms, k, Offset(lines, place.0) + place.1 - 1)
  }

  /** What is found is the one place where the match ends, or there is no match. */
  ghost predicate FindsEnd(lines: seq<string>, ms: seq<Mark>, k: nat, found: Option<(nat, nat)>) {
    && (forall place :: EndsAt(lines, ms, k, place) <==> found == Some(place))
    && (found == None ==> NoMatch(ms, k))
  }

  lemma FoundIsMatch(lines: seq<string>, ms: seq<Mark>, k: nat, found: Option<(nat, nat)>, plain: Option<nat>)
    requires SameEnd(lines, found, plain) && IsMatch(ms, k, plain)
    ensures FindsEnd(lines, ms, k, found)
  {
    forall place | EndsAt(lines, ms, k, place) ensures found == Some(place) {
      SameMatch(ms, k, plain.value, Offset(lines, place.0) + place.1 - 1);
      PositionUnique(lines, place.0, place.1 - 1, found.value.0, found.value.1 - 1);
    }
  }

  lemma ClosingSearches(lines: seq<string>, ms: seq<Mark>, l: nat, pos: nat)
    requires LinesFollow(lines, ms) && l < |lines| && StartsAngle(lines[l], pos)
    ensures Offset(lines, l) + pos + 1 <= |ms|
    ensures SameEnd(lines, Closing(lines, l, pos), Search(ms, Offset(lines, l) + pos + 1, ['<'], '<'))
  {
    CloseSearches(lines, ms, l, pos + 1, ['<']);
    FromAngle(lines, l, pos);
  }

  /** From such a `<` the forward matcher finds the match among the marks of all lines, and fails exactly when
      there is none. */
  lemma ClosingFromAngle(lines: seq<string>, l: nat, pos: nat)
    requires l < |lines| && StartsAngle(lines[l], pos)
    ensures FindsEnd(lines, TextMarks(lines, true), Offset(lines, l) + pos + 1, Closing(lines, l, pos))
  {
    TextFollows(lines);
    TextHardBegins(lines, true, '<');
    SearchedIsMatch(lines, TextMarks(lines, true), l, pos);
  }

  lemma SearchedIsMatch(lines: seq<string>, ms: seq<Mark>, l: nat, pos: nat)
    requires LinesFollow(lines, ms) && HardBegins(ms, '<') && l < |lines| && StartsAngle(lines[l], pos)
    ensures FindsEnd(lines, ms, Offset(lines, l) + pos + 1, Closing(lines, l, pos))
  {
    var k := Offset(lines, l) + pos + 1;
    ClosingSearches(lines, ms, l, pos);
    SearchFindsMatch(ms, k, '<');
    FoundIsMatch(lines, ms, k, Closing(lines, l, pos), Search(ms, k, ['<'], '<'));
  }

  lemma SameMatch(ms: seq<Mark>, k: nat, i: nat, j: nat)
    requires Match(ms, k, i) && Match(ms, k, j)
    ensures i == j
  {
    MatchUnique(ms, k, i, j);
    MatchUnique(ms, k, j, i);
  }

  // ---------------------------------------------------------------------------------------------
  // Backwards
  // ---------------------------------------------------------------------------------------------

  function Reversed<T>(s: seq<T>): (r: seq<T>)
    ensures |r| == |s| && forall i :: 0 <= i < |s| ==> r[i] == s[|s| - 1 - i]
  {
    seq(|s|, i requires 0 <= i < |s| => s[|s| - 1 - i])
  }

  /** The marks of all lines as the backward matcher meets them, from the last one to the first. */
  ghost function BackMarks(lines: seq<string>): seq<Mark> {
    Reversed(TextMarks(lines, false))
  }

  /** The marks of a line, read from its end, stand before `base`. */
  ghost predicate MarkedBefore(ms: seq<Mark>, base: nat, line: string) {
    |line| <= base <= |ms| && ms[base - |line|..base] == Reversed(LineMarks(line, false))
  }

  lemma MarkBefore(ms: seq<Mark>, base: nat, line: string, i: nat)
    requires MarkedBefore(ms, base, line) && i < |line|
    ensures ms[base - 1 - i] == BackwardMark(line, i)
  {
    assert ms[base - |line|..base][|line| - 1 - i] == ms[base - 1 - i];
  }

  ghost predicate FollowsSearchBack(
      ms: seq<Mark>, base: nat, line: string, r: (int, Option<string>), found: Option<nat>)
    requires |line| <= base <= |ms|
  {
    if r.0 > -1 then r.0 < |line| && found == Some(base - 1 - r.0)
    else if r.1.None? then found == None
    else r.1.value != [] && found == Search(ms, base, r.1.value, '>')
  }

  /** The backward matcher may stop here. */
  predicate Stops(line: string, i: int)
    requires -1 <= i < |line|
  {
    i >= 0 ==> !LeftOfShift(line, i)
  }

  lemma FindStartStep(line: string, i: nat, stack: string)
    requires i < |line|
    ensures SkipsTwo(line, i) ==> i > 0 && FindStart(line, i, stack) == FindStart(line, i - 2, stack)
    ensures !SkipsTwo(line, i) ==>
      match BackwardStep(line, i, stack)
      case Found => FindStart(line, i, stack) == (i, None)
      case Failed => FindStart(line, i, stack) == (-1, None)
      case More(s) => FindStart(line, i, stack) == FindStart(line, i - 1, s)
  {}

  /** A step of the backward matcher is one step of the machine, or two that change nothing. */
  ghost predicate StepFollows(ms: seq<Mark>, base: nat, line: string, i: nat, stack: string)
    requires i < |line| <= base <= |ms|
  {
    var found := Search(ms, base - 1 - i, stack, '>');
    if SkipsTwo(line, i) then i > 0 && found == Search(ms, base + 1 - i, stack, '>')
    else
      match BackwardStep(line, i, stack)
      case Found => found == Some(base - 1 - i)
      case Failed => found == None
      case More(s) => s != [] && found == Search(ms, base - i, s, '>')
  }

  lemma SearchBack(ms: seq<Mark>, base: nat, line: string, i: nat, stack: string)
    requires MarkedBefore(ms, base, line) && i < |line| && Stops(line, i) && stack != []
    ensures StepFollows(ms, base, line, i, stack)
  {
    MarkBefore(ms, base, line, i);
    BackwardStepMarks(line, i, stack);
    if SkipsTwo(line, i) {
      MarkBefore(ms, base, line, i - 1);
      TwoNeutral(ms, base - 1 - i, stack);
    } else {
      SearchStep(ms, base - 1 - i, stack, '>');
      if BackwardStep(line, i, stack).More? {
        MarkStepNonEmpty(BackwardMark(line, i), '>', stack);
      }
    }
  }

  lemma TwoNeutral(ms: seq<Mark>, i: nat, stack: string)
    requires i + 1 < |ms| && ms[i] == Neutral && ms[i + 1] == Neutral
    ensures Search(ms, i, stack, '>') == Search(ms, i + 2, stack, '>')
  {
    SearchStep(ms, i, stack, '>');
    SearchStep(ms, i + 1, stack, '>');
  }

  ghost predicate StepsFollow(ms: seq<Mark>, base: nat, line: string) {
    && |line| <= base <= |ms|
    && forall i: nat, stack :: i < |line| && Stops(line, i) && stack != [] ==> StepFollows(ms, base, line, i, stack)
  }

  lemma {:induction false} FindStartSearches(ms: seq<Mark>, base: nat, line: string, i: int, stack: string)
    requires StepsFollow(ms, base, line) && -1 <= i < |line| && Stops(line, i) && stack != []
    ensures FollowsSearchBack(ms, base, line, FindStart(line, i, stack), Search(ms, base - 1 - i, stack, '>'))
    decreases i + 1
  {
    if i >= 0 {
      var next := GoOn(ms, base, line, i, stack);
      if next.Some? {
        FindStartSearches(ms, base, line, next.value.0, next.value.1);
      }
    }
  }

  /** Where matcher and machine go on together, unless both are done. */
  lemma GoOn(ms: seq<Mark>, base: nat, line: string, i: nat, stack: string) returns (next: Option<(int, string)>)
    requires StepsFollow(ms, base, line) && i < |line| && Stops(line, i) && stack != []
    ensures next.None? ==>
      FollowsSearchBack(ms, base, line, FindStart(line, i, stack), Search(ms, base - 1 - i, stack, '>'))
    ensures next.Some? ==>
      && -1 <= next.value.0 < i && Stops(line, next.value.0) && next.value.1 != []
      && FindStart(line, i, stack) == FindStart(line, next.value.0, next.value.1)
      && Search(ms, base - 1 - i, stack, '>') == Search(ms, base - 1 - next.value.0, next.value.1, '>')
  {
    NextStop(line, i);
    FindStartStep(line, i, stack);
    assert StepFollows(ms, base, line, i, stack);
    if SkipsTwo(line, i) {
      next := Some((i - 2, stack));
    } else {
      match BackwardStep(line, i, stack)
      case Found => next := None;
      case Failed => next := None;
      case More(s) => next := Some((i - 1, s));
    }
  }

  /** The machine follows the backward scan of line `l` from any stop. */
  ghost predicate LineFollowsBack(lines: seq<string>, ms: seq<Mark>, l: nat)
    requires l < |lines|
  {
    && Offset(lines, l) + |lines[l]| == Offset(lines, l + 1) <= |ms|
    && forall i, stack {:trigger FindStart(lines[l], i, stack)} ::
         -1 <= i < |lines[l]| && Stops(lines[l], i) && stack != [] ==>
         FollowsSearchBack(ms, |ms| - Offset(lines, l), lines[l], FindStart(lines[l], i, stack),
                           Search(ms, |ms| - Offset(lines, l) - 1 - i, stack, '>'))
  }

  ghost predicate LinesFollowBack(lines: seq<string>, ms: seq<Mark>) {
    forall l :: 0 <= l < |lines| ==> LineFollowsBack(lines, ms, l)
  }

  lemma TextFollowsBack(lines: seq<string>)
    ensures LinesFollowBack(lines, BackMarks(lines))
  {
    var ms := BackMarks(lines);
    forall l | 0 <= l < |lines| ensures LineFollowsBack(lines, ms, l) {
      TextMarksAt(lines, false, l);
      ReversedMarks(TextMarks(lines, false), Offset(lines, l), lines[l]);
      LineFollowsBackMarks(lines, ms, l);
    }
  }

  lemma ReversedMarks(ms: seq<Mark>, off: nat, line: string)
    requires MarkedAt(ms, off, line, false)
    ensures MarkedBefore(Reversed(ms), |ms| - off, line)
  {
    var base, marks := |ms| - off, LineMarks(line, false);
    forall j | 0 <= j < |line| ensures Reversed(ms)[base - |line|..base][j] == Reversed(marks)[j] {
      assert ms[off..off + |line|][|line| - 1 - j] == ms[off + |line| - 1 - j];
    }
    assert Reversed(ms)[base - |line|..base] == Reversed(marks);
  }

  lemma AllStepsFollow(ms: seq<Mark>, base: nat, line: string)
    requires MarkedBefore(ms, base, line)
    ensures StepsFollow(ms, base, line)
  {
    forall i: nat, stack | i < |line| && Stops(line, i) && stack != [] ensures StepFollows(ms, base, line, i, stack) {
      SearchBack(ms, base, line, i, stack);
    }
  }

  lemma LineFollowsBackMarks(lines: seq<string>, ms: seq<Mark>, l: nat)
    requires l < |lines| && Offset(lines, l) <= |ms| && MarkedBefore(ms, |ms| - Offset(lines, l), lines[l])
    ensures LineFollowsBack(lines, ms, l)
  {
    var base, line := |ms| - Offset(lines, l), lines[l];
    AllStepsFollow(ms, base, line);
    forall i, stack | -1 <= i < |line| && Stops(line, i) && stack != []
      ensures FollowsSearchBack(ms, base, line, FindStart(line, i, stack), Search(ms, base - 1 - i, stack, '>'))
    {
      FindStartSearches(ms, base, line, i, stack);
    }
  }

  /** The position found in the lines is the mark found in a text of this length, counted from its end. */
  ghost predicate SameStartBack(lines: seq<string>, length: nat, found: Option<(nat, nat)>, plain: Option<nat>) {
    match found
    case None => plain == None
    case Some((m, s)) =>
      m < |lines| && s < |lines[m]| && Offset(lines, m) + s < length
      && plain == Some(length - 1 - (Offset(lines, m) + s))
  }

  lemma {:induction false} OpenSearches(lines: seq<string>, ms: seq<Mark>, l: nat, i: int, stack: string)
    requires LinesFollowBack(lines, ms) && l < |lines| && -1 <= i < |lines[l]| && Stops(lines[l], i) && stack != []
    ensures Offset(lines, l) + i < |ms| || i == -1
    ensures Offset(lines, l) + 1 + i <= |ms|
    ensures SameStartBack(
              lines, |ms|, Open(lines, l, i, stack), Search(ms, |ms| - Offset(lines, l) - 1 - i, stack, '>'))
    decreases l
  {
    assert LineFollowsBack(lines, ms, l);
    var found := FindStart(lines[l], i, stack);
    if found.0 <= -1 && found.1.Some? && l > 0 {
      assert LineFollowsBack(lines, ms, l - 1);
      OpenSearches(lines, ms, l - 1, |lines[l - 1]| - 1, found.1.value);
    }
    OpenLineSearches(lines, ms, l, i, stack, Search(ms, |ms| - Offset(lines, l) - 1 - i, stack, '>'));
  }

  lemma OpenLineSearches(
      lines: seq<string>, ms: seq<Mark>, l: nat, i: int, stack: string, found: Option<nat>)
    requires l < |lines| && -1 <= i < |lines[l]| && Offset(lines, l) + |lines[l]| <= |ms|
    requires FollowsSearchBack(ms, |ms| - Offset(lines, l), lines[l], FindStart(lines[l], i, stack), found)
    requires var (start, rest) := FindStart(lines[l], i, stack); start <= -1 && rest.Some? ==>
      var before := Search(ms, |ms| - Offset(lines, l), rest.value, '>');
      if l > 0 then SameStartBack(lines, |ms|, Open(lines, l - 1, |lines[l - 1]| - 1, rest.value), before)
      else before == None
    ensures SameStartBack(lines, |ms|, Open(lines, l, i, stack), found)
  {}

  /** A `>` that counts. */
  ghost predicate StartsAngleBack(line: string, pos: nat) {
    pos < |line| && line[pos] == '>' && BackwardMark(line, pos) == Up
  }

  lemma FromAngleBack(lines: seq<string>, l: nat, pos: nat)
    requires l < |lines| && StartsAngleBack(lines[l], pos)
    ensures Opening(lines, l, pos) == Open(lines, l, pos - 1, ['>']) && Stops(lines[l], pos - 1)
  {
    BackwardStepMarks(lines[l], pos, []);
    NextStop(lines[l], pos);
    UpIsNotSkipped(lines[l], pos);
    assert [] + ['>'] == ['>'];
    assert FindStart(lines[l], pos, []) == FindStart(lines[l], pos - 1, ['>']);
  }

  lemma UpIsNotSkipped(line: string, i: nat)
    requires i < |line| && BackwardMark(line, i) == Up
    ensures !SkipsTwo(line, i)
  {
    OperatorMeans(line[..i]);
  }

  /** The place is the position of the match of the angle bracket at (l, pos), among marks read from the end
      of the text. */
  ghost predicate StartsAt(lines: seq<string>, ms: seq<Mark>, l: nat, pos: nat, place: (nat, nat))
    requires l < |lines| && Offset(lines, l) + pos <= |ms|
  {
    && place.0 < |lines| && place.1 < |lines[place.0]| && Offset(lines, place.0) + place.1 < |ms|
    && Match(ms, |ms| - (Offset(lines, l) + pos), |ms| - 1 - (Offset(lines, place.0) + place.1))
  }

  ghost predicate FindsStart(lines: seq<string>, ms: seq<Mark>, l: nat, pos: nat, found: Option<(nat, nat)>)
    requires l < |lines|
  {
    && Offset(lines, l) + pos <= |ms|
    && (forall place :: StartsAt(lines, ms, l, pos, place) <==> found == Some(place))
    && (found == None ==> NoMatch(ms, |ms| - (Offset(lines, l) + pos)))
  }

  lemma FoundIsMatchBack(
      lines: seq<string>, ms: seq<Mark>, l: nat, pos: nat, found: Option<(nat, nat)>, plain: Option<nat>)
    requires l < |lines| && Offset(lines, l) + pos <= |ms|
    requires SameStartBack(lines, |ms|, found, plain) && IsMatch(ms, |ms| - (Offset(lines, l) + pos), plain)
    ensures FindsStart(lines, ms, l, pos, found)
  {
    var k := |ms| - (Offset(lines, l) + pos);
    forall place | StartsAt(lines, ms, l, pos, place) ensures found == Some(place) {
      SameMatch(ms, k, plain.value, |ms| - 1 - (Offset(lines, place.0) + place.1));
      PositionUnique(lines, place.0, place.1, found.value.0, found.value.1);
    }
  }

  /** From a `>` that counts the backward matcher finds the match among the marks of all lines, read
      backwards, and fails exactly when there is none. */
  lemma OpeningFromAngle(lines: seq<string>, l: nat, pos: nat)
    requires l < |lines| && StartsAngleBack(lines[l], pos)
    ensures FindsStart(lines, BackMarks(lines), l, pos, Opening(lines, l, pos))
  {
    TextFollowsBack(lines);
    TextHardBegins(lines, false, '>');
    SearchedIsMatchBack(lines, BackMarks(lines), l, pos);
  }

  lemma SearchedIsMatchBack(lines: seq<string>, ms: seq<Mark>, l: nat, pos: nat)
    requires LinesFollowBack(lines, ms) && HardBegins(ms, '>') && l < |lines| && StartsAngleBack(lines[l], pos)
    ensures FindsStart(lines, ms, l, pos, Opening(lines, l, pos))
  {
    var start := Open(lines, l, pos - 1, ['>']);
    FromAngleBack(lines, l, pos);
    OpenSearches(lines, ms, l, pos - 1, ['>']);
    var k := |ms| - (Offset(lines, l) + pos);
    SearchFindsMatch(ms, k, '>');
    FoundIsMatchBack(lines, ms, l, pos, start, Search(ms, k, ['>'], '>'));
  }

  // ---------------------------------------------------------------------------------------------
  // Round trips
  // ---------------------------------------------------------------------------------------------

  /** From mark `a` to mark `b` both matchers read alike, and no shift occurs. */
  ghost predicate Alike(ms: seq<Mark>, bs: seq<Mark>, a: nat, b: nat) {
    && a < b < |ms| == |bs|
    && forall i {:trigger ms[i]} :: a <= i <= b ==> ms[i] != Back && bs[i] == Turned(ms[i])
  }

  lemma AlikeMirrored(ms: seq<Mark>, bs: seq<Mark>, a: nat, b: nat)
    requires Alike(ms, bs, a, b)
    ensures Mirrored(ms, Reversed(bs), a + 1, b)
  {}

  lemma AlikeMirroredBack(ms: seq<Mark>, bs: seq<Mark>, a: nat, b: nat)
    requires Alike(ms, bs, a, b)
    ensures Mirrored(Reversed(bs), ms, |ms| - b, |ms| - 1 - a)
  {
    var rs, n := Reversed(bs), |ms|;
    forall q | n - b - 1 <= q <= n - 1 - a ensures rs[q] != Back && ms[n - 1 - q] == Turned(rs[q]) {
      assert rs[q] == bs[n - 1 - q] == Turned(ms[n - 1 - q]);
    }
  }

  lemma MatchForth(ms: seq<Mark>, bs: seq<Mark>, a: nat, b: nat)
    requires Alike(ms, bs, a, b) && ms[a] == Up && Match(ms, a + 1, b)
    ensures Match(Reversed(bs), |ms| - b, |ms| - 1 - a)
  {
    AlikeMirrored(ms, bs, a, b);
    MatchTurned(ms, Reversed(bs), a + 1, b, |ms| - b, |ms| - 1 - a);
  }

  lemma MatchBack(ms: seq<Mark>, bs: seq<Mark>, a: nat, b: nat)
    requires Alike(ms, bs, a, b) && bs[b] == Up && Match(Reversed(bs), |ms| - b, |ms| - 1 - a)
    ensures Match(ms, a + 1, b)
  {
    AlikeMirroredBack(ms, bs, a, b);
    assert Reversed(bs)[|ms| - b - 1] == bs[b];
    MatchTurned(Reversed(bs), ms, |ms| - b, |ms| - 1 - a, a + 1, b);
  }

  lemma MatchTurned(ms: seq<Mark>, rs: seq<Mark>, k: nat, j: nat, start: nat, end: nat)
    requires Mirrored(ms, rs, k, j) && Match(ms, k, j) && ms[k - 1] == Up
    requires start == |ms| - j && end == |ms| - k
    ensures Match(rs, start, end)
  {
    MatchTurns(ms, rs, k, j);
  }

  lemma PlacesInvert(
      lines: seq<string>, ms: seq<Mark>, bs: seq<Mark>, l: nat, p: nat, m: nat, q: nat,
      closing: Option<(nat, nat)>, opening: Option<(nat, nat)>)
    requires l < |lines| && p < |lines[l]| && m < |lines| && q < |lines[m]|
    requires Alike(ms, bs, Offset(lines, l) + p, Offset(lines, m) + q)
    requires FindsEnd(lines, ms, Offset(lines, l) + p + 1, closing) && FindsStart(lines, Reversed(bs), m, q, opening)
    requires ms[Offset(lines, l) + p] == Up && bs[Offset(lines, m) + q] == Up
    ensures closing == Some((m, q + 1)) <==> opening == Some((l, p))
  {
    var start, end := Offset(lines, l) + p, Offset(lines, m) + q;
    assert closing == Some((m, q + 1)) <==> EndsAt(lines, ms, start + 1, (m, q + 1));
    assert opening == Some((l, p)) <==> StartsAt(lines, Reversed(bs), m, q, (l, p));
    if closing == Some((m, q + 1)) {
      MatchForth(ms, bs, start, end);
    }
    if opening == Some((l, p)) {
      MatchBack(ms, bs, start, end);
    }
  }

  lemma MarkAt(lines: seq<string>, forwards: bool, l: nat, p: nat)
    requires l < |lines| && p < |lines[l]|
    ensures Offset(lines, l) + p < |TextMarks(lines, forwards)|
    ensures TextMarks(lines, forwards)[Offset(lines, l) + p]
         == if forwards then ForwardMark(lines[l], p) else BackwardMark(lines[l], p)
  {
    var ms, off, line := TextMarks(lines, forwards), Offset(lines, l), lines[l];
    TextMarksAt(lines, forwards, l);
    assert ms[off..off + |line|][p] == ms[off + p];
  }

  /** Where both read alike, an angle bracket is matched with another one by the forward matcher exactly when
      it is by the backward matcher. */
  lemma AnglesInvert(lines: seq<string>, l: nat, p: nat, m: nat, q: nat)
    requires l < |lines| && StartsAngle(lines[l], p) && m < |lines| && StartsAngleBack(lines[m], q)
    requires Alike(TextMarks(lines, true), TextMarks(lines, false), Offset(lines, l) + p, Offset(lines, m) + q)
    ensures Closing(lines, l, p) == Some((m, q + 1)) <==> Opening(lines, m, q) == Some((l, p))
  {
    ClosingFromAngle(lines, l, p);
    OpeningFromAngle(lines, m, q);
    MarkAt(lines, true, l, p);
    MarkAt(lines, false, m, q);
    PlacesInvert(
      lines, TextMarks(lines, true), TextMarks(lines, false), l, p, m, q,
      Closing(lines, l, p), Opening(lines, m, q));
  }

  // ---------------------------------------------------------------------------------------------
  // Lines that both matchers read alike
  // ---------------------------------------------------------------------------------------------

  predicate WordAt(text: string, i: nat, word: string) {
    i + |word| <= |text| && text[i..i + |word|] == word
  }

  /** The text contains this word. */
  ghost predicate Contains(text: string, word: string) {
    exists i :: WordAt(text, i, word)
  }

  /** In a line without `<<`, `>=` and the word `operator`, every character is read alike. */
  lemma PlainLineReadAlike(line: string, i: nat)
    requires i < |line| && !Contains(line, "<<") && !Contains(line, ">=") && !Contains(line, "operator")
    ensures ForwardMark(line, i) != Back && BackwardMark(line, i) == Turned(ForwardMark(line, i))
  {
    NoOperator(line, i);
    if i > 0 {
      NoOperator(line, i - 1);
      assert !WordAt(line, i - 1, "<<");
    }
    assert !WordAt(line, i, "<<") && !WordAt(line, i, ">=");
  }

  lemma NoOperator(line: string, i: nat)
    requires i <= |line| && !Contains(line, "operator")
    ensures !OperatorBefore(line[..i])
  {
    forall before, space | OperatorAfter(line[..i], before, space) ensures WordAt(line, |before|, "operator") {
      assert line[..i][|before|..|before| + 8] == line[|before|..|before| + 8];
    }
  }

  ghost predicate PlainLine(line: string) {
    !Contains(line, "<<") && !Contains(line, ">=") && !Contains(line, "operator")
  }

  ghost predicate AllAlike(ms: seq<Mark>, bs: seq<Mark>) {
    |ms| == |bs| && forall i {:trigger ms[i]} :: 0 <= i < |ms| ==> ms[i] != Back && bs[i] == Turned(ms[i])
  }

  lemma {:induction false} FlattenAlike(mss: seq<seq<Mark>>, bss: seq<seq<Mark>>)
    requires |mss| == |bss| && forall l :: 0 <= l < |mss| ==> AllAlike(mss[l], bss[l])
    ensures AllAlike(Flatten(mss), Flatten(bss))
  {
    if mss != [] {
      var n := |mss| - 1;
      FlattenAlike(mss[..n], bss[..n]);
      assert AllAlike(mss[n], bss[n]);
      AlikeConcat(Flatten(mss[..n]), Flatten(bss[..n]), mss[n], bss[n]);
    }
  }

  lemma AlikeConcat(ms: seq<Mark>, bs: seq<Mark>, ms': seq<Mark>, bs': seq<Mark>)
    requires AllAlike(ms, bs) && AllAlike(ms', bs')
    ensures AllAlike(ms + ms', bs + bs')
  {}

  lemma PlainTextAlike(lines: seq<string>)
    requires forall l :: 0 <= l < |lines| ==> PlainLine(lines[l])
    ensures AllAlike(TextMarks(lines, true), TextMarks(lines, false))
  {
    forall l | 0 <= l < |lines| ensures AllAlike(LineMarks(lines[l], true), LineMarks(lines[l], false)) {
      forall i | 0 <= i < |lines[l]|
        ensures ForwardMark(lines[l], i) != Back && BackwardMark(lines[l], i) == Turned(ForwardMark(lines[l], i))
      {
        PlainLineReadAlike(lines[l], i);
      }
    }
    FlattenAlike(MarkLists(lines, true), MarkLists(lines, false));
  }

  /** In lines without `<<`, `>=` and the word `operator` the two matchers invert each other on angle
      brackets too. */
  lemma AnglesInvertInPlainLines(lines: seq<string>, l: nat, p: nat, m: nat, q: nat)
    requires forall k :: 0 <= k < |lines| ==> PlainLine(lines[k])
    requires l < |lines| && StartsAngle(lines[l], p) && m < |lines| && StartsAngleBack(lines[m], q)
    requires Offset(lines, l) + p < Offset(lines, m) + q
    ensures Closing(lines, l, p) == Some((m, q + 1)) <==> Opening(lines, m, q) == Some((l, p))
  {
    PlainTextAlike(lines);
    MarkAt(lines, true, m, q);
    AnglesInvert(lines, l, p, m, q);
  }

  // ---------------------------------------------------------------------------------------------
  // Special cases
  // ---------------------------------------------------------------------------------------------

  /** A `<` and the next `>`, with nothing of interest between them, match. */
  lemma SimpleTemplate(line: string, pos: nat, q: nat)
    requires StartsAngle(line, pos) && pos < q < |line| && ForwardMark(line, q) == Down
    requires forall i :: pos < i < q ==> ForwardMark(line, i) == Neutral
    ensures Closing([line], 0, pos) == Some((0, q + 1))
  {
    var lines := [line];
    var ms := TextMarks(lines, true);
    assert Offset(lines, 0) == 0;
    MarkAt(lines, true, 0, q);
    forall i | pos + 1 <= i < q ensures ms[i] == Neutral {
      MarkAt(lines, true, 0, i);
    }
    NeutralStretch(ms, pos + 1, q);
    ClosingFromAngle(lines, 0, pos);
    assert EndsAt(lines, ms, pos + 1, (0, q + 1));
  }

  /** From any other character, and from the first half of `<<` and `<=`, the forward matcher finds nothing;
      from any character but a closer or `>` the backward matcher does not. */
  lemma NoStart(lines: seq<string>, l: nat, pos: nat)
    requires l < |lines| && pos < |lines[l]|
    ensures lines[l][pos] !in "([{<" ==> Closing(lines, l, pos) == None
    ensures lines[l][pos] == '<' && pos + 1 < |lines[l]| && lines[l][pos + 1] in "<=" ==> Closing(lines, l, pos) == None
    ensures lines[l][pos] !in ")]}>" ==> Opening(lines, l, pos) == None
  {}

  /** These marks do nothing as long as no bracket is open. */
  predicate Harmless(m: Mark) {
    m == Down || m == Back || m == Neutral
  }

  lemma {:induction false} NothingOpen(line: string, i: nat, q: nat)
    requires i <= q <= |line| && forall j :: i <= j < q ==> Harmless(ForwardMark(line, j))
    ensures FindEnd(line, i, []) == FindEnd(line, q, [])
    decreases q - i
  {
    if i < q {
      ForwardStepMarks(line, i, []);
      NothingOpen(line, i + 1, q);
    }
  }

  /** From a `<` that does not count, the search goes on to the next bracket of the line that opens something,
      as if it had been started there. It fails if there is none or a closer or `;` comes first. */
  lemma IgnoredStart(lines: seq<string>, l: nat, pos: nat, q: nat)
    requires l < |lines| && pos < q <= |lines[l]| && StartsForward(lines[l], pos)
    requires forall i :: pos <= i < q ==> Harmless(ForwardMark(lines[l], i))
    ensures Closing(lines, l, pos) == Close(lines, l, q, [])
    ensures q == |lines[l]| ==> Closing(lines, l, pos) == None
    ensures q < |lines[l]| && (ForwardMark(lines[l], q).Finish? || ForwardMark(lines[l], q) == Stop) ==>
      Closing(lines, l, pos) == None
  {
    NothingOpen(lines[l], pos, q);
    if q < |lines[l]| {
      ForwardStepMarks(lines[l], q, []);
    }
  }

  // ---------------------------------------------------------------------------------------------
  // Angle brackets of operator functions
  // ---------------------------------------------------------------------------------------------

  /** A `>` after the word `operator` never counts backwards, and counts forwards exactly when it follows the
      word at once. */
  lemma OperatorGreater(line: string, i: nat, before: string, space: string)
    requires i < |line| && line[i] == '>' && OperatorAfter(line[..i], before, space)
    ensures BackwardMark(line, i) == Neutral
    ensures ForwardMark(line, i) == if space == [] then Down else Neutral
  {
    assert OperatorBefore(line[..i]);
    assert line[i - 1] == line[..i][i - 1];
    if space == [] {
      ShortenedOperator(before);
      assert line[..i - 1] == before + "operato";
    } else {
      assert line[..i - 1] == before + "operator" + space[..|space| - 1];
      assert OperatorAfter(line[..i - 1], before, space[..|space| - 1]);
    }
  }

  lemma ShortenedOperator(before: string)
    ensures !OperatorBefore(before + "operato")
  {
    var t := before + "operato";
    OperatorMeans(t);
    assert Last(t) == "operato"[6];
    TrimRightMeans(t, []);
    assert t + [] == t;
    assert |t| >= 8 ==> t[|t| - 8..][7] == t[|t| - 1];
  }
}
