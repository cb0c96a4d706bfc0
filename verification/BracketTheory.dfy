/** From a parenthesis, square bracket or brace, both matchers agree with a plain bracket matcher on the
    text of all lines, and invert each other. */
module BracketTheory {
  import opened Sequences
  import opened Wrappers
  import opened TextClasses
  import opened Brackets

  // ---------------------------------------------------------------------------------------------
  // The plain matchers
  // ---------------------------------------------------------------------------------------------

  function PlainStep(stack: string, c: char): Outcome {
    if Opener(c) then More(stack + [c])
    else if Closer(c) then
      if stack != [] && Last(stack) == OpenerOf(c) then PopOrFind(stack) else Failed
    else More(stack)
  }

  /** Reading forwards from k, the position of the closer that empties the stack. */
  function PlainClose(text: string, k: nat, stack: string): Option<nat>
    requires k <= |text|
    decreases |text| - k
  {
    if k == |text| then None
    else
      match PlainStep(stack, text[k])
      case Found => Some(k)
      case Failed => None
      case More(s) => PlainClose(text, k + 1, s)
  }

  function PlainStepBack(stack: string, c: char): Outcome {
    if Closer(c) then More(stack + [c])
    else if Opener(c) then
      if stack != [] && Last(stack) == CloserOf(c) then PopOrFind(stack) else Failed
    else More(stack)
  }

  /** Reading backwards from k, the position of the opener that empties the stack. */
  function PlainOpen(text: string, k: int, stack: string): Option<nat>
    requires -1 <= k < |text|
    decreases k + 1
  {
    if k == -1 then None
    else
      match PlainStepBack(stack, text[k])
      case Found => Some(k)
      case Failed => None
      case More(s) => PlainOpen(text, k - 1, s)
  }

  // ---------------------------------------------------------------------------------------------
  // The plain matchers invert each other
  // ---------------------------------------------------------------------------------------------

  predicate Openers(s: string) {
    forall i :: 0 <= i < |s| ==> Opener(s[i])
  }

  predicate Closers(s: string) {
    forall i :: 0 <= i < |s| ==> Closer(s[i])
  }

  /** The closers expected for a stack of openers. */
  function Mirror(s: string): (r: string)
    requires Openers(s)
    ensures |r| == |s| && Closers(r)
    ensures forall i :: 0 <= i < |s| ==> r[i] == CloserOf(s[i])
  {
    seq(|s|, i requires 0 <= i < |s| => CloserOf(s[i]))
  }

  /** The openers that a stack of closers waits for. */
  function Unmirror(s: string): (r: string)
    requires Closers(s)
    ensures |r| == |s| && Openers(r)
    ensures forall i :: 0 <= i < |s| ==> r[i] == OpenerOf(s[i])
  {
    seq(|s|, i requires 0 <= i < |s| => OpenerOf(s[i]))
  }

  /** Undoing a forward step is a backward step on the mirrored stacks. */
  lemma StepBackUndoes(s: string, c: char)
    requires Openers(s) && s != []
    ensures PlainStep(s, c).More? ==>
      Openers(PlainStep(s, c).stack) && PlainStepBack(Mirror(PlainStep(s, c).stack), c) == More(Mirror(s))
    ensures PlainStep(s, c).Found? ==> PlainStepBack([], c) == More(Mirror(s))
  {
    match PlainStep(s, c)
    case More(t) =>
      if Opener(c) {
        assert Pop(Mirror(t)) == Mirror(s);
      } else if Closer(c) {
        assert Mirror(t) + [c] == Mirror(s);
      }
    case Found =>
      assert Mirror(s) == [c];
    case Failed =>
  }

  lemma StepUndoesBack(s: string, c: char)
    requires Closers(s) && s != []
    ensures PlainStepBack(s, c).More? ==>
      Closers(PlainStepBack(s, c).stack) && PlainStep(Unmirror(PlainStepBack(s, c).stack), c) == More(Unmirror(s))
    ensures PlainStepBack(s, c).Found? ==> PlainStep([], c) == More(Unmirror(s))
  {
    match PlainStepBack(s, c)
    case More(t) =>
      if Closer(c) {
        assert Pop(Unmirror(t)) == Unmirror(s);
      } else if Opener(c) {
        assert Unmirror(t) + [c] == Unmirror(s);
      }
    case Found =>
      assert Unmirror(s) == [c];
    case Failed =>
  }

  /** A stack never empties without the search ending. */
  lemma MoreIsNonEmpty(s: string, c: char)
    requires s != []
    ensures PlainStep(s, c).More? ==> PlainStep(s, c).stack != []
    ensures PlainStepBack(s, c).More? ==> PlainStepBack(s, c).stack != []
  {}

  /** From the closer found at j, reading back to k rebuilds the stack held at k. */
  lemma {:induction false} BackFromCloser(text: string, k: nat, s: string, j: nat)
    requires k <= |text| && s != [] && Openers(s)
    requires PlainClose(text, k, s) == Some(j)
    ensures k <= j < |text| && Closer(text[j])
    ensures PlainOpen(text, j, []) == PlainOpen(text, k - 1, Mirror(s))
    decreases |text| - k
  {
    var c := text[k];
    StepBackUndoes(s, c);
    MoreIsNonEmpty(s, c);
    match PlainStep(s, c)
    case Found =>
    case Failed =>
    case More(t) => BackFromCloser(text, k + 1, t, j);
  }

  lemma {:induction false} ForthFromOpener(text: string, k: int, s: string, i: nat)
    requires -1 <= k < |text| && s != [] && Closers(s)
    requires PlainOpen(text, k, s) == Some(i)
    ensures i <= k && Opener(text[i])
    ensures PlainClose(text, i, []) == PlainClose(text, k + 1, Unmirror(s))
    decreases k + 1
  {
    var c := text[k];
    StepUndoesBack(s, c);
    MoreIsNonEmpty(s, c);
    match PlainStepBack(s, c)
    case Found =>
    case Failed =>
    case More(t) => ForthFromOpener(text, k - 1, t, i);
  }

  lemma PlainCloseStarts(text: string, i: nat)
    requires i < |text| && Opener(text[i])
    ensures PlainClose(text, i, []) == PlainClose(text, i + 1, [text[i]])
  {
    assert [] + [text[i]] == [text[i]];
  }

  lemma PlainOpenStarts(text: string, j: nat)
    requires j < |text| && Closer(text[j])
    ensures PlainOpen(text, j, []) == PlainOpen(text, j - 1, [text[j]])
  {
    assert [] + [text[j]] == [text[j]];
  }

  /** Matching a bracket forwards and backwards are inverse to each other. */
  lemma PlainInverse(text: string, i: nat, j: nat)
    requires i < |text| && j < |text| && Opener(text[i]) && Closer(text[j])
    ensures PlainClose(text, i, []) == Some(j) <==> PlainOpen(text, j, []) == Some(i)
  {
    var open, close := [text[i]], [text[j]];
    PlainCloseStarts(text, i);
    PlainOpenStarts(text, j);
    if PlainClose(text, i, []) == Some(j) {
      BackFromCloser(text, i + 1, open, j);
    }
    if PlainOpen(text, j, []) == Some(i) {
      ForthFromOpener(text, j - 1, close, i);
    }
  }

  // ---------------------------------------------------------------------------------------------
  // Tentative brackets do not matter
  // ---------------------------------------------------------------------------------------------

  /** The stack without its tentative brackets. */
  function Hard(s: string, angle: char): (r: string) {
    if s == [] then []
    else if Last(s) == angle then Hard(Pop(s), angle)
    else Hard(Pop(s), angle) + [Last(s)]
  }

  /** The bottom of the stack is a real bracket, and so are all entries that are not tentative. */
  predicate ForwardStack(s: string) {
    s != [] && Opener(s[0]) && forall i :: 0 <= i < |s| ==> Opener(s[i]) || s[i] == '<'
  }

  predicate BackwardStack(s: string) {
    s != [] && Closer(s[0]) && forall i :: 0 <= i < |s| ==> Closer(s[i]) || s[i] == '>'
  }

  lemma HardPush(s: string, c: char, angle: char)
    ensures Hard(s + [c], angle) == if c == angle then Hard(s, angle) else Hard(s, angle) + [c]
  {
    assert Pop(s + [c]) == s;
  }

  lemma {:induction false} HardPopTentative(s: string, angle: char)
    ensures Hard(PopTentative(s, angle), angle) == Hard(s, angle)
  {
    if s != [] && Last(s) == angle {
      HardPopTentative(Pop(s), angle);
    }
  }

  /** With a real bracket at the bottom, the tentative ones on top never expose an empty stack. */
  lemma {:induction false} BottomStays(s: string, angle: char)
    requires s != [] && s[0] != angle
    ensures PopTentative(s, angle) != []
    ensures Hard(s, angle) != [] && |Hard(s, angle)| <= |s|
    ensures Last(s) == angle ==> |s| > 1
  {
    if Last(s) == angle {
      BottomStays(Pop(s), angle);
    } else if |s| > 1 {
      BottomStays(Pop(s), angle);
    }
  }

  /** The hard stack has one entry exactly when the popped stack has. */
  lemma TopOfHard(s: string, angle: char)
    requires s != [] && s[0] != angle && Last(s) != angle
    ensures Hard(s, angle) == Hard(Pop(s), angle) + [Last(s)]
    ensures Pop(s) == [] <==> Hard(Pop(s), angle) == []
  {
    if |s| > 1 {
      BottomStays(Pop(s), angle);
    }
  }

  /** A closer meets the same top on both stacks. */
  lemma HardTop(s: string, angle: char)
    requires s != [] && s[0] != angle
    ensures var t := PopTentative(s, angle); var h := Hard(s, angle);
      && t != [] && h != [] && t <= s && t[0] == s[0] && Last(t) == Last(h) && (|t| == 1 <==> |h| == 1)
      && Pop(h) == Hard(Pop(t), angle)
  {
    BottomStays(s, angle);
    HardPopTentative(s, angle);
    var t := PopTentative(s, angle);
    TopOfHard(t, angle);
    assert Pop(Hard(s, angle)) == Hard(Pop(t), angle);
  }

  /** An outcome seen without tentative brackets. */
  function HardOutcome(o: Outcome, angle: char): Outcome {
    match o
    case More(s) => More(Hard(s, angle))
    case Found => Found
    case Failed => Failed
  }

  lemma ForwardStackPrefix(s: string, t: string)
    requires ForwardStack(s) && t <= s && t != []
    ensures ForwardStack(t)
  {}

  lemma BackwardStackPrefix(s: string, t: string)
    requires BackwardStack(s) && t <= s && t != []
    ensures BackwardStack(t)
  {}

  /** Matching against the top: tentative brackets above it do not matter. */
  lemma TopMatches(s: string, c: char, angle: char)
    requires s != [] && s[0] != angle
    ensures var t := PopTentative(s, angle);
      && t != [] && t <= s && Hard(s, angle) != [] && Last(t) == Last(Hard(s, angle))
      && HardOutcome(PopOrFind(t), angle) == PopOrFind(Hard(s, angle))
  {
    HardTop(s, angle);
  }

  /** Dropping or adding tentative brackets on top does not change the hard stack. */
  lemma TentativeTop(s: string, angle: char)
    requires s != [] && s[0] != angle
    ensures Hard(s + [angle], angle) == Hard(s, angle)
    ensures Last(s) == angle ==> |s| > 1 && Hard(Pop(s), angle) == Hard(s, angle)
    ensures PopTentative(s, angle) != [] && Hard(PopTentative(s, angle), angle) == Hard(s, angle)
  {
    BottomStays(s, angle);
    HardPush(s, angle, angle);
    HardPopTentative(s, angle);
  }

  lemma ForwardOpener(c: char, shift: bool, ignored: bool, stack: string)
    requires ForwardStack(stack) && Opener(c)
    ensures HardOutcome(ForwardChar(c, shift, ignored, stack), '<') == PlainStep(Hard(stack, '<'), c)
  {
    HardPush(stack, c, '<');
  }

  lemma ForwardCloser(c: char, shift: bool, ignored: bool, stack: string)
    requires ForwardStack(stack) && Closer(c)
    ensures HardOutcome(ForwardChar(c, shift, ignored, stack), '<') == PlainStep(Hard(stack, '<'), c)
  {
    TopMatches(stack, c, '<');
  }

  lemma ForwardAngle(c: char, shift: bool, ignored: bool, stack: string)
    requires ForwardStack(stack) && (c == '<' || c == '>')
    ensures HardOutcome(ForwardChar(c, shift, ignored, stack), '<') == More(Hard(stack, '<'))
  {
    TentativeTop(stack, '<');
  }

  lemma ForwardSemicolon(shift: bool, ignored: bool, stack: string)
    requires ForwardStack(stack)
    ensures HardOutcome(ForwardChar(';', shift, ignored, stack), '<') == More(Hard(stack, '<'))
  {
    TentativeTop(stack, '<');
  }

  /** Restricted to hard brackets, one step of the forward matcher is one step of the plain matcher,
      whatever it makes of angle brackets. */
  lemma ForwardSimulates(c: char, shift: bool, ignored: bool, stack: string)
    requires ForwardStack(stack)
    ensures HardOutcome(ForwardChar(c, shift, ignored, stack), '<') == PlainStep(Hard(stack, '<'), c)
  {
    if Opener(c) {
      ForwardOpener(c, shift, ignored, stack);
    } else if Closer(c) {
      ForwardCloser(c, shift, ignored, stack);
    } else if c == '<' || c == '>' {
      ForwardAngle(c, shift, ignored, stack);
    } else if c == ';' {
      ForwardSemicolon(shift, ignored, stack);
    }
  }

  lemma ForwardKeepsStack(c: char, shift: bool, ignored: bool, stack: string)
    requires ForwardStack(stack) && ForwardChar(c, shift, ignored, stack).More?
    ensures ForwardStack(ForwardChar(c, shift, ignored, stack).stack)
  {
    var after := ForwardChar(c, shift, ignored, stack).stack;
    if !Opener(c) && after != stack + ['<'] {
      TentativeTop(stack, '<');
      ForwardStackPrefix(stack, after);
    }
  }

  lemma BackwardCloser(c: char, stack: string)
    requires BackwardStack(stack) && Closer(c)
    ensures HardOutcome(BackwardChar(c, false, stack), '>') == PlainStepBack(Hard(stack, '>'), c)
  {
    HardPush(stack, c, '>');
  }

  lemma BackwardOpener(c: char, stack: string)
    requires BackwardStack(stack) && Opener(c)
    ensures HardOutcome(BackwardChar(c, false, stack), '>') == PlainStepBack(Hard(stack, '>'), c)
  {
    TopMatches(stack, c, '>');
  }

  lemma BackwardAngle(c: char, skipped: bool, stack: string)
    requires BackwardStack(stack) && (c == '<' || c == '>')
    ensures HardOutcome(BackwardChar(c, skipped, stack), '>') == More(Hard(stack, '>'))
  {
    TentativeTop(stack, '>');
  }

  lemma BackwardSemicolon(skipped: bool, stack: string)
    requires BackwardStack(stack)
    ensures HardOutcome(BackwardChar(';', skipped, stack), '>') == More(Hard(stack, '>'))
  {
    TentativeTop(stack, '>');
  }

  /** Restricted to hard brackets, one step of the backward matcher is one step of the plain matcher. */
  lemma BackwardSimulates(c: char, skipped: bool, stack: string)
    requires BackwardStack(stack) && (skipped ==> !Opener(c) && !Closer(c))
    ensures HardOutcome(BackwardChar(c, skipped, stack), '>') == PlainStepBack(Hard(stack, '>'), c)
  {
    if Opener(c) {
      BackwardOpener(c, stack);
    } else if Closer(c) {
      BackwardCloser(c, stack);
    } else if c == '<' || c == '>' {
      BackwardAngle(c, skipped, stack);
    } else if c == ';' {
      BackwardSemicolon(skipped, stack);
    }
  }

  lemma BackwardKeepsStack(c: char, skipped: bool, stack: string)
    requires BackwardStack(stack) && BackwardChar(c, skipped, stack).More?
    ensures BackwardStack(BackwardChar(c, skipped, stack).stack)
  {
    var after := BackwardChar(c, skipped, stack).stack;
    if !Closer(c) && after != stack + ['>'] {
      TentativeTop(stack, '>');
      BackwardStackPrefix(stack, after);
    }
  }

  /** The character skipped together with an operator is never a bracket. */
  lemma SkippedIsPlain(line: string, i: nat)
    requires i < |line| && SkipsTwo(line, i)
    ensures i >= 1 && !Opener(line[i - 1]) && !Closer(line[i - 1]) && !Opener(line[i]) && !Closer(line[i])
  {
    if line[i] == '>' && EndsWithOperator(line[..i]) {
      var t := TrimRight(line[..i]);
      TrimmedEnd(line[..i]);
      if t == line[..i] {
        assert t[|t| - 8..][7] == 'r';
      }
    }
  }

  lemma TrimmedEnd(s: string)
    requires s != []
    ensures TrimRight(s) == s || IsSpace(Last(s))
  {}

  // ---------------------------------------------------------------------------------------------
  // Lines and the text they make up
  // ---------------------------------------------------------------------------------------------

  /** Where a line starts in the text of all lines. */
  ghost function Offset(lines: seq<string>, l: nat): nat
    requires l <= |lines|
  {
    if l == 0 then 0 else Offset(lines, l - 1) + |lines[l - 1]|
  }

  /** `line` stands at `off` in the text. */
  ghost predicate At(text: string, off: nat, line: string) {
    off + |line| <= |text| && forall i :: 0 <= i < |line| ==> text[off + i] == line[i]
  }

  ghost predicate LineAt(lines: seq<string>, text: string, l: nat)
    requires l < |lines|
  {
    At(text, Offset(lines, l), lines[l])
  }

  /** The text consists of the lines, one after the other. */
  ghost predicate LaidOut(lines: seq<string>, text: string) {
    && |text| == Offset(lines, |lines|)
    && forall l :: 0 <= l < |lines| ==> LineAt(lines, text, l)
  }

  lemma {:induction false} FlattenedLength(lines: seq<string>, l: nat)
    requires l <= |lines|
    ensures |Flatten(lines[..l])| == Offset(lines, l)
  {
    if l > 0 {
      FlattenedLength(lines, l - 1);
      assert lines[..l] == lines[..l - 1] + [lines[l - 1]];
      FlattenSnoc(lines[..l - 1], lines[l - 1]);
    }
  }

  /** The concatenated lines are laid out. */
  lemma TextIsLaidOut(lines: seq<string>)
    ensures LaidOut(lines, Flatten(lines))
  {
    FlattenedLength(lines, |lines|);
    assert lines[..|lines|] == lines;
    forall l | 0 <= l < |lines| ensures LineAt(lines, Flatten(lines), l) {
      FlattenSplit(lines, l);
      FlattenedLength(lines, l);
    }
  }

  lemma {:induction false} OffsetsIncrease(lines: seq<string>, l: nat, m: nat)
    requires l < m <= |lines|
    ensures Offset(lines, l) + |lines[l]| <= Offset(lines, m)
  {
    if l + 1 < m {
      OffsetsIncrease(lines, l, m - 1);
    }
  }

  /** A position in the text belongs to one line and column only. */
  lemma PositionUnique(lines: seq<string>, l: nat, i: nat, m: nat, j: nat)
    requires l < |lines| && i < |lines[l]| && m < |lines| && j < |lines[m]|
    requires Offset(lines, l) + i == Offset(lines, m) + j
    ensures l == m && i == j
  {
    if l < m {
      OffsetsIncrease(lines, l, m);
    } else if m < l {
      OffsetsIncrease(lines, m, l);
    }
  }

  // ---------------------------------------------------------------------------------------------
  // The line matchers are the plain matchers on the text
  // ---------------------------------------------------------------------------------------------

  /** The position after the match found in the lines is the one after the match in the text. */
  ghost predicate SameEnd(lines: seq<string>, found: Option<(nat, nat)>, plain: Option<nat>) {
    match found
    case None => plain == None
    case Some((m, e)) => m < |lines| && 1 <= e <= |lines[m]| && plain == Some(Offset(lines, m) + e - 1)
  }

  ghost predicate SameStart(lines: seq<string>, found: Option<(nat, nat)>, plain: Option<nat>) {
    match found
    case None => plain == None
    case Some((m, s)) => m < |lines| && s < |lines[m]| && plain == Some(Offset(lines, m) + s)
  }

  /** What the forward matcher finds in a line is what the plain matcher finds in the text, or the plain
      matcher arrives at the end of the line with the same hard stack. */
  ghost predicate FollowsEnd(text: string, off: nat, line: string, result: (int, Option<string>), plain: Option<nat>)
    requires off + |line| <= |text|
  {
    if result.0 > -1 then 1 <= result.0 <= |line| && plain == Some(off + result.0 - 1)
    else if result.1.None? then plain == None
    else ForwardStack(result.1.value) && plain == PlainClose(text, off + |line|, Hard(result.1.value, '<'))
  }

  ghost predicate FollowsStart(text: string, off: nat, line: string, result: (int, Option<string>), plain: Option<nat>)
    requires off + |line| <= |text| && 0 <= off <= |text|
  {
    if result.0 > -1 then result.0 < |line| && plain == Some(off + result.0)
    else if result.1.None? then plain == None
    else BackwardStack(result.1.value) && plain == PlainOpen(text, off - 1, Hard(result.1.value, '>'))
  }

  lemma PlainCloseStep(text: string, k: nat, stack: string)
    requires k < |text|
    ensures match PlainStep(stack, text[k])
      case Found => PlainClose(text, k, stack) == Some(k)
      case Failed => PlainClose(text, k, stack) == None
      case More(s) => PlainClose(text, k, stack) == PlainClose(text, k + 1, s)
  {}

  lemma PlainOpenStep(text: string, k: nat, stack: string)
    requires k < |text|
    ensures match PlainStepBack(stack, text[k])
      case Found => PlainOpen(text, k, stack) == Some(k)
      case Failed => PlainOpen(text, k, stack) == None
      case More(s) => PlainOpen(text, k, stack) == PlainOpen(text, k - 1, s)
  {}

  /** Within a line, the forward matcher follows the plain one. */
  lemma {:induction false} FindEndFollows(text: string, off: nat, line: string, i: nat, stack: string)
    requires At(text, off, line) && i <= |line| && ForwardStack(stack)
    ensures FollowsEnd(text, off, line, FindEnd(line, i, stack), PlainClose(text, off + i, Hard(stack, '<')))
    decreases |line| - i
  {
    if i < |line| {
      ForwardSimulates(line[i], IsShift(line, i), IsIgnored(line, i), stack);
      PlainCloseStep(text, off + i, Hard(stack, '<'));
      match ForwardStep(line, i, stack)
      case Found =>
      case Failed =>
      case More(s) =>
        ForwardKeepsStack(line[i], IsShift(line, i), IsIgnored(line, i), stack);
        FindEndFollows(text, off, line, i + 1, s);
    }
  }

  /** One step back in the line, over one or two characters, is one or two steps back in the text. */
  lemma BackwardMore(text: string, off: nat, line: string, i: nat, stack: string)
    requires At(text, off, line) && i < |line| && BackwardStack(stack) && BackwardStep(line, i, stack).More?
    ensures var s := BackwardStep(line, i, stack).stack; var next := if SkipsTwo(line, i) then i - 2 else i - 1;
      && -1 <= next && BackwardStack(s)
      && PlainOpen(text, off + i, Hard(stack, '>')) == PlainOpen(text, off + next, Hard(s, '>'))
  {
    var skips := SkipsTwo(line, i);
    BackwardKeepsStack(line[i], skips, stack);
    PlainOpenStep(text, off + i, Hard(stack, '>'));
    if skips {
      SkippedIsPlain(line, i);
      PlainOpenStep(text, off + i - 1, Hard(stack, '>'));
    } else {
      BackwardSimulates(line[i], false, stack);
    }
  }

  /** Within a line, the backward matcher follows the plain one. */
  lemma {:induction false} FindStartFollows(text: string, off: nat, line: string, i: int, stack: string)
    requires At(text, off, line) && -1 <= i < |line| && BackwardStack(stack)
    ensures FollowsStart(text, off, line, FindStart(line, i, stack), PlainOpen(text, off + i, Hard(stack, '>')))
    decreases i + 1
  {
    if i >= 0 {
      match BackwardStep(line, i, stack)
      case More(s) =>
        BackwardMore(text, off, line, i, stack);
        FindStartFollows(text, off, line, if SkipsTwo(line, i) then i - 2 else i - 1, s);
      case _ =>
        BackwardEnds(text, off, line, i, stack);
    }
  }

  lemma BackwardEnds(text: string, off: nat, line: string, i: nat, stack: string)
    requires At(text, off, line) && i < |line| && BackwardStack(stack) && !BackwardStep(line, i, stack).More?
    ensures PlainOpen(text, off + i, Hard(stack, '>'))
         == if BackwardStep(line, i, stack).Found? then Some(off + i) else None
  {
    if SkipsTwo(line, i) {
      SkippedIsPlain(line, i);
    }
    BackwardSimulates(line[i], SkipsTwo(line, i), stack);
    PlainOpenStep(text, off + i, Hard(stack, '>'));
  }

  lemma NothingAtEnd(text: string, stack: string)
    ensures PlainClose(text, |text|, stack) == None
  {}

  lemma {:induction false} CloseFollows(lines: seq<string>, text: string, l: nat, i: nat, stack: string)
    requires LaidOut(lines, text) && l < |lines| && i <= |lines[l]| && ForwardStack(stack)
    ensures Offset(lines, l) + i <= |text|
    ensures SameEnd(lines, Close(lines, l, i, stack), PlainClose(text, Offset(lines, l) + i, Hard(stack, '<')))
    decreases |lines| - l
  {
    assert LineAt(lines, text, l);
    var found := FindEnd(lines[l], i, stack);
    FindEndFollows(text, Offset(lines, l), lines[l], i, stack);
    if found.0 <= -1 && found.1.Some? {
      if l < |lines| - 1 {
        CloseFollows(lines, text, l + 1, 0, found.1.value);
      } else {
        NothingAtEnd(text, Hard(found.1.value, '<'));
      }
    }
    CloseLine(lines, text, l, i, stack, PlainClose(text, Offset(lines, l) + i, Hard(stack, '<')));
  }

  /** What one line contributes: the match, a failure, or what the lines after it give. */
  lemma CloseLine(lines: seq<string>, text: string, l: nat, i: nat, stack: string, plain: Option<nat>)
    requires l < |lines| && i <= |lines[l]| && Offset(lines, l) + |lines[l]| <= |text|
    requires FollowsEnd(text, Offset(lines, l), lines[l], FindEnd(lines[l], i, stack), plain)
    requires var (end, rest) := FindEnd(lines[l], i, stack); end <= -1 && rest.Some? ==>
      var after := PlainClose(text, Offset(lines, l) + |lines[l]|, Hard(rest.value, '<'));
      if l < |lines| - 1 then SameEnd(lines, Close(lines, l + 1, 0, rest.value), after) else after == None
    ensures SameEnd(lines, Close(lines, l, i, stack), plain)
  {}

  lemma {:induction false} OpenFollows(lines: seq<string>, text: string, l: nat, i: int, stack: string)
    requires LaidOut(lines, text) && l < |lines| && -1 <= i < |lines[l]| && BackwardStack(stack)
    ensures Offset(lines, l) + i < |text|
    ensures SameStart(lines, Open(lines, l, i, stack), PlainOpen(text, Offset(lines, l) + i, Hard(stack, '>')))
    decreases l
  {
    assert LineAt(lines, text, l);
    if i == -1 && l > 0 {
      assert LineAt(lines, text, l - 1);
    }
    var (start, rest) := FindStart(lines[l], i, stack);
    FindStartFollows(text, Offset(lines, l), lines[l], i, stack);
    if start <= -1 && rest.Some? && l > 0 {
      OpenFollows(lines, text, l - 1, |lines[l - 1]| - 1, rest.value);
    }
  }

  // ---------------------------------------------------------------------------------------------
  // Main results
  // ---------------------------------------------------------------------------------------------

  lemma FindEndStarts(line: string, pos: nat)
    requires pos < |line| && Opener(line[pos])
    ensures FindEnd(line, pos, []) == FindEnd(line, pos + 1, [line[pos]])
  {
    assert [] + [line[pos]] == [line[pos]];
  }

  lemma ClosingStarts(lines: seq<string>, l: nat, pos: nat)
    requires l < |lines| && pos < |lines[l]| && Opener(lines[l][pos])
    ensures Closing(lines, l, pos) == Close(lines, l, pos + 1, [lines[l][pos]])
  {
    FindEndStarts(lines[l], pos);
  }

  lemma OpeningStarts(lines: seq<string>, l: nat, pos: nat)
    requires l < |lines| && pos < |lines[l]| && Closer(lines[l][pos])
    ensures Opening(lines, l, pos) == Open(lines, l, pos - 1, [lines[l][pos]])
  {
    FindStartStarts(lines[l], pos);
  }

  lemma HardSingle(c: char, angle: char)
    requires c != angle
    ensures Hard([c], angle) == [c]
  {
    HardPush([], c, angle);
    assert [] + [c] == [c];
  }

  lemma FindStartStarts(line: string, pos: nat)
    requires pos < |line| && Closer(line[pos])
    ensures FindStart(line, pos, []) == FindStart(line, pos - 1, [line[pos]])
  {
    assert [] + [line[pos]] == [line[pos]];
    assert !SkipsTwo(line, pos);
  }

  /** From `(`, `[` or `{`, the forward matcher finds exactly what a matcher that ignores `<`, `>` and `;`
      finds, or fails with it. */
  lemma ClosingIsPlain(lines: seq<string>, text: string, l: nat, pos: nat)
    requires LaidOut(lines, text) && l < |lines| && pos < |lines[l]| && Opener(lines[l][pos])
    ensures Offset(lines, l) + pos < |text| && text[Offset(lines, l) + pos] == lines[l][pos]
    ensures SameEnd(lines, Closing(lines, l, pos), PlainClose(text, Offset(lines, l) + pos, []))
  {
    assert LineAt(lines, text, l);
    ClosingStarts(lines, l, pos);
    CloseFollowsSingle(lines, text, l, pos + 1, lines[l][pos]);
    PlainCloseStarts(text, Offset(lines, l) + pos);
  }

  lemma CloseFollowsSingle(lines: seq<string>, text: string, l: nat, i: nat, c: char)
    requires LaidOut(lines, text) && l < |lines| && i <= |lines[l]| && Opener(c)
    ensures Offset(lines, l) + i <= |text|
    ensures SameEnd(lines, Close(lines, l, i, [c]), PlainClose(text, Offset(lines, l) + i, [c]))
  {
    HardSingle(c, '<');
    CloseFollows(lines, text, l, i, [c]);
  }

  lemma OpeningIsPlain(lines: seq<string>, text: string, l: nat, pos: nat)
    requires LaidOut(lines, text) && l < |lines| && pos < |lines[l]| && Closer(lines[l][pos])
    ensures Offset(lines, l) + pos < |text| && text[Offset(lines, l) + pos] == lines[l][pos]
    ensures SameStart(lines, Opening(lines, l, pos), PlainOpen(text, Offset(lines, l) + pos, []))
  {
    assert LineAt(lines, text, l);
    OpeningStarts(lines, l, pos);
    OpenFollowsSingle(lines, text, l, pos - 1, lines[l][pos]);
    PlainOpenStarts(text, Offset(lines, l) + pos);
  }

  lemma OpenFollowsSingle(lines: seq<string>, text: string, l: nat, i: int, c: char)
    requires LaidOut(lines, text) && l < |lines| && -1 <= i < |lines[l]| && Closer(c)
    ensures Offset(lines, l) + i < |text|
    ensures SameStart(lines, Open(lines, l, i, [c]), PlainOpen(text, Offset(lines, l) + i, [c]))
  {
    HardSingle(c, '>');
    OpenFollows(lines, text, l, i, [c]);
  }

  /** Round trip: an opening bracket at (l, p) and a closing bracket at (m, q) are matched by
      `CloseExpression` exactly when they are matched by `ReverseCloseExpression`, whatever angle
      brackets, arrows, shifts and semicolons lie between. */
  lemma MatchersInvert(lines: seq<string>, l: nat, p: nat, m: nat, q: nat)
    requires l < |lines| && p < |lines[l]| && Opener(lines[l][p])
    requires m < |lines| && q < |lines[m]| && Closer(lines[m][q])
    ensures Closing(lines, l, p) == Some((m, q + 1)) <==> Opening(lines, m, q) == Some((l, p))
  {
    var text, i, j := Flatten(lines), Offset(lines, l) + p, Offset(lines, m) + q;
    TextIsLaidOut(lines);
    ClosingIsPlain(lines, text, l, p);
    OpeningIsPlain(lines, text, m, q);
    PlainInverse(text, i, j);
    if PlainClose(text, i, []) == Some(j) {
      var (m', e) := Closing(lines, l, p).value;
      PositionUnique(lines, m', e - 1, m, q);
      var (l', s) := Opening(lines, m, q).value;
      PositionUnique(lines, l', s, l, p);
    }
  }

  /** Whenever the forward matcher succeeds from a bracket, it stops after a closing bracket from which
      the backward matcher returns to the start. */
  lemma CloseThenReverse(lines: seq<string>, l: nat, p: nat)
    requires l < |lines| && p < |lines[l]| && Opener(lines[l][p])
    requires Closing(lines, l, p).Some?
    ensures var (m, e) := Closing(lines, l, p).value;
      m < |lines| && 1 <= e <= |lines[m]| && Closer(lines[m][e - 1]) && Opening(lines, m, e - 1) == Some((l, p))
  {
    var text, i := Flatten(lines), Offset(lines, l) + p;
    TextIsLaidOut(lines);
    ClosingIsPlain(lines, text, l, p);
    var (m, e) := Closing(lines, l, p).value;
    var j := Offset(lines, m) + e - 1;
    PlainCloseStarts(text, i);
    BackFromCloser(text, i + 1, [lines[l][p]], j);
    assert LineAt(lines, text, m);
    assert text[Offset(lines, m) + (e - 1)] == lines[m][e - 1];
    MatchersInvert(lines, l, p, m, e - 1);
  }

  // ---------------------------------------------------------------------------------------------
  // The expected-closer loop
  // ---------------------------------------------------------------------------------------------

  /** One round of the loop with expected closers is one step of plain matching. */
  lemma ExpectedCloserStep(openers: string, c: char)
    requires Openers(openers) && openers != []
    ensures c == Last(Mirror(openers)) ==>
      && PlainStep(openers, c) == PopOrFind(openers)
      && Openers(Pop(openers)) && Pop(Mirror(openers)) == Mirror(Pop(openers))
    ensures c != Last(Mirror(openers)) && Closer(c) ==> PlainStep(openers, c) == Failed
    ensures Opener(c) ==>
      && PlainStep(openers, c) == More(openers + [c]) && Openers(openers + [c])
      && Mirror(openers) + [CloserOf(c)] == Mirror(openers + [c])
  {
    assert Last(Mirror(openers)) == CloserOf(Last(openers));
    assert Pop(Mirror(openers)) == Mirror(Pop(openers));
  }

  /** The scan loop of `_GetTextInside` keeps a stack of expected closers and finds the plain match. */
  method FindExpectedCloser(text: string, start: nat) returns (end: Option<nat>)
    requires 0 < start <= |text| && Opener(text[start - 1])
    ensures end == PlainClose(text, start, [text[start - 1]])
    ensures end.Some? ==> start <= end.value < |text|
  {
    ghost var openers := [text[start - 1]];
    var stack := [CloserOf(text[start - 1])];
    var position := start;
    while position < |text|
      invariant start <= position <= |text|
      invariant openers != [] && Openers(openers) && stack == Mirror(openers)
      invariant PlainClose(text, start, [text[start - 1]]) == PlainClose(text, position, openers)
    {
      PlainCloseStep(text, position, openers);
      ExpectedCloserStep(openers, text[position]);
      if text[position] == Last(stack) {
        stack := Pop(stack);
        if stack == [] {
          return Some(position);
        }
        openers := Pop(openers);
      } else if Closer(text[position]) {
        return None;
      } else if Opener(text[position]) {
        stack := stack + [CloserOf(text[position])];
        openers := openers + [text[position]];
      }
      position := position + 1;
    }
    NothingAtEnd(text, openers);
    return None;
  }

  /** From the bracket before `start`, `_GetTextInside` agrees with `FindEndOfExpressionInLine`: it returns
      the text up to the same closing bracket, and fails exactly when the other fails or runs out of text. */
  method GetTextInside(text: string, start: nat) returns (r: Option<string>)
    requires 0 < start <= |text| && Opener(text[start - 1])
    ensures r.Some? <==> FindEnd(text, start - 1, []).0 > -1
    ensures r.Some? ==> start < FindEnd(text, start - 1, []).0 <= |text|
    ensures r.Some? ==> r.value == text[start..FindEnd(text, start - 1, []).0 - 1]
  {
    FindEndAgrees(text, start - 1);
    var end := FindExpectedCloser(text, start);
    return if end.Some? then Some(text[start..end.value]) else None;
  }

  /** On a single text, the forward matcher finds the plain match or none. */
  lemma FindEndAgrees(text: string, pos: nat)
    requires pos < |text| && Opener(text[pos])
    ensures FindEnd(text, pos, []).0 > -1 <==> PlainClose(text, pos + 1, [text[pos]]).Some?
    ensures FindEnd(text, pos, []).0 > -1 ==>
      PlainClose(text, pos + 1, [text[pos]]) == Some(FindEnd(text, pos, []).0 - 1)
    ensures FindEnd(text, pos, []).0 <= |text|
  {
    FindEndStarts(text, pos);
    HardSingle(text[pos], '<');
    FindEndIsPlain(text, pos + 1, [text[pos]]);
  }

  lemma FindEndIsPlain(text: string, i: nat, stack: string)
    requires i <= |text| && ForwardStack(stack)
    ensures FindEnd(text, i, stack).0 > -1 <==> PlainClose(text, i, Hard(stack, '<')).Some?
    ensures FindEnd(text, i, stack).0 > -1 ==>
      PlainClose(text, i, Hard(stack, '<')) == Some(FindEnd(text, i, stack).0 - 1)
    ensures FindEnd(text, i, stack).0 <= |text|
  {
    FindEndFollows(text, 0, text, i, stack);
    var rest := FindEnd(text, i, stack).1;
    if rest.Some? {
      NothingAtEnd(text, Hard(rest.value, '<'));
    }
  }
}
