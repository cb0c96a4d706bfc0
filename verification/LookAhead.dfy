/** What a class declaration reads beyond its own line: the line on which its braces are balanced again.
    Through it a later branch of a conditional can reach the nesting stack. A file is the list of its lines
    without comments and strings, which is what the linter counts braces in. */
module LookAhead {
  import opened TextClasses
  import opened Preprocessor

  // ---------------------------------------------------------------------------------------------
  // The end of a class
  // ---------------------------------------------------------------------------------------------

  function Count(s: string, c: char): nat {
    if s == [] then 0 else Count(s[..|s| - 1], c) + if s[|s| - 1] == c then 1 else 0
  }

  /** The count is the number of occurrences. */
  lemma {:induction false} CountMeans(s: string, c: char)
    ensures Count(s, c) == multiset(s)[c]
  {
    if s != [] {
      CountMeans(s[..|s| - 1], c);
      assert s == s[..|s| - 1] + [s[|s| - 1]];
    }
  }

  /** How many more braces a line opens than it closes. */
  function BraceBalance(line: string): int {
    Count(line, '{') - Count(line, '}')
  }

  /** How many more braces the lines [lo, hi) open than they close. */
  function Depth(file: seq<string>, lo: nat, hi: nat): int
    requires lo <= hi <= |file|
  {
    if lo == hi then 0 else Depth(file, lo, hi - 1) + BraceBalance(file[hi - 1])
  }

  /** All braces opened from line `n` on are closed at the end of line `i`. */
  predicate ClosedAt(file: seq<string>, n: nat, i: nat) {
    n <= i < |file| && Depth(file, n, i + 1) == 0
  }

  /** The first line from `i` on at whose end the braces since line `n` are closed; 0 without one. */
  function LastLineFrom(file: seq<string>, n: nat, i: nat): nat
    decreases |file| - i
  {
    if i >= |file| then 0 else if ClosedAt(file, n, i) then i else LastLineFrom(file, n, i + 1)
  }

  /** `last_line` of a class that is declared in line `n`. */
  function LastLine(file: seq<string>, n: nat): nat {
    LastLineFrom(file, n, n)
  }

  lemma {:induction false} LastLineFromIsFirst(file: seq<string>, n: nat, i: nat)
    requires n <= i
    ensures var last := LastLineFrom(file, n, i);
      || (i <= last && ClosedAt(file, n, last) && forall j :: i <= j < last ==> !ClosedAt(file, n, j))
      || (last == 0 && forall j :: i <= j ==> !ClosedAt(file, n, j))
    decreases |file| - i
  {
    if i < |file| && !ClosedAt(file, n, i) {
      LastLineFromIsFirst(file, n, i + 1);
    }
  }

  /** The loop of the class constructor, which counts the depth up line by line. */
  method FindLastLine(file: seq<string>, linenum: nat) returns (lastLine: nat)
    requires linenum < |file|
    ensures lastLine == LastLine(file, linenum)
    ensures ClosedAt(file, linenum, lastLine) || (lastLine == 0 && forall i :: !ClosedAt(file, linenum, i))
    ensures forall i :: linenum <= i < lastLine ==> !ClosedAt(file, linenum, i)
  {
    LastLineFromIsFirst(file, linenum, linenum);
    lastLine := 0;
    var depth := 0;
    for i := linenum to |file|
      invariant depth == Depth(file, linenum, i)
      invariant LastLine(file, linenum) == LastLineFrom(file, linenum, i)
    {
      depth := depth + BraceBalance(file[i]);
      if depth == 0 {
        return i;
      }
    }
  }

  /** The end of a class depends on the brace balance of the lines from its declaration on, and on nothing
      else in them. */
  lemma {:induction false} LastLineByBraces(file: seq<string>, other: seq<string>, n: nat)
    requires |file| == |other| && forall i :: n <= i < |file| ==> BraceBalance(file[i]) == BraceBalance(other[i])
    ensures LastLine(file, n) == LastLine(other, n)
  {
    forall i | n <= i ensures ClosedAt(file, n, i) == ClosedAt(other, n, i) {
      if i < |file| {
        SameDepth(file, other, n, i + 1);
      }
    }
    SameLastLine(file, other, n, n);
  }

  lemma {:induction false} SameDepth(file: seq<string>, other: seq<string>, lo: nat, hi: nat)
    requires lo <= hi <= |file| == |other|
    requires forall i :: lo <= i < hi ==> BraceBalance(file[i]) == BraceBalance(other[i])
    ensures Depth(file, lo, hi) == Depth(other, lo, hi)
  {
    if lo < hi {
      SameDepth(file, other, lo, hi - 1);
    }
  }

  lemma {:induction false} SameLastLine(file: seq<string>, other: seq<string>, n: nat, i: nat)
    requires |file| == |other| && n <= i && forall j :: i <= j ==> ClosedAt(file, n, j) == ClosedAt(other, n, j)
    ensures LastLineFrom(file, n, i) == LastLineFrom(other, n, i)
    decreases |file| - i
  {
    if i < |file| && !ClosedAt(file, n, i) {
      SameLastLine(file, other, n, i + 1);
    }
  }

  // ---------------------------------------------------------------------------------------------
  // Effects that look ahead
  // ---------------------------------------------------------------------------------------------

  /** What a line does, given the stack it meets and the end of the class it may declare. */
  type OwnEffect<!B> = (seq<B>, Line, nat) -> seq<Edit<B>>

  /** The effect of the lines in a file. */
  function Reading<B>(file: seq<string>, own: OwnEffect<B>): Effect<B> {
    (stack, line: Line) => own(stack, line, LastLine(file, line.number))
  }

  /** From each of these lines on, the braces close at the same line in both files. */
  predicate SameEnds(file: seq<string>, other: seq<string>, lines: seq<Line>) {
    forall i :: 0 <= i < |lines| ==> LastLine(file, lines[i].number) == LastLine(other, lines[i].number)
  }

  /** Whatever lines do, later branches make no difference between two files in which the classes declared
      outside of them end alike. */
  lemma SameEndsSameResult<B(!new)>(
      own: OwnEffect<B>, s: Nesting<B>,
      file: seq<string>, other: seq<string>, lines: seq<Line>, otherLines: seq<Line>)
    requires Balanced(lines) && Balanced(otherLines) && Counting(lines) == Counting(otherLines)
    requires SameEnds(file, other, Counting(lines))
    ensures Run(Reading(file, own), s, lines) == Run(Reading(other, own), s, otherLines)
  {
    SameEditsSameResult(Reading(file, own), Reading(other, own), s, lines, otherLines);
  }

  /** Later branches make no difference, whatever lines do, exactly when the classes declared outside of
      them end alike. */
  lemma LookAheadDecides(
      s: Nesting<nat>, file: seq<string>, other: seq<string>, lines: seq<Line>, otherLines: seq<Line>)
    requires Balanced(lines) && Balanced(otherLines) && Counting(lines) == Counting(otherLines)
    ensures (forall own: OwnEffect<nat> ::
              Run(Reading(file, own), s, lines) == Run(Reading(other, own), s, otherLines))
       <==> SameEnds(file, other, Counting(lines))
  {
    if SameEnds(file, other, Counting(lines)) {
      forall own: OwnEffect<nat> ensures Run(Reading(file, own), s, lines) == Run(Reading(other, own), s, otherLines) {
        SameEndsSameResult(own, s, file, other, lines, otherLines);
      }
    }
    if Run(Reading(file, PushEnd()), s, lines) == Run(Reading(other, PushEnd()), s, otherLines) {
      LaterBranchesInterchangeable(Reading(file, PushEnd()), Reading(other, PushEnd()), s, lines, otherLines);
      PushedEnds(file, other, s.stack, Counting(lines));
    }
  }

  /** Every line leaves the end of a class declared in it on the stack. */
  function PushEnd(): OwnEffect<nat> {
    (stack, line, last) => [Push(last)]
  }

  lemma AffectPushEnd(file: seq<string>, stack: seq<nat>, line: Line)
    ensures Affect(Reading(file, PushEnd()), stack, line) == stack + [LastLine(file, line.number)]
  {
    var edits := [Push(LastLine(file, line.number))];
    assert edits[..0] == [];
    assert ApplyEdits(stack, edits) == ApplyEdit(ApplyEdits(stack, []), edits[0]);
  }

  lemma {:induction false} PushedEnds(file: seq<string>, other: seq<string>, stack: seq<nat>, lines: seq<Line>)
    requires Affects(Reading(file, PushEnd()), stack, lines) == Affects(Reading(other, PushEnd()), stack, lines)
    ensures SameEnds(file, other, lines)
  {
    if lines != [] {
      var init, last := lines[..|lines| - 1], lines[|lines| - 1];
      var before, otherBefore :=
        Affects(Reading(file, PushEnd()), stack, init), Affects(Reading(other, PushEnd()), stack, init);
      AffectPushEnd(file, before, last);
      AffectPushEnd(other, otherBefore, last);
      var after := before + [LastLine(file, last.number)];
      assert after[..|after| - 1] == before && after[..|after| - 1] == otherBefore;
      PushedEnds(file, other, stack, init);
    }
  }

  /** A condition on the text: exchanging lines for lines with the same brace balance. */
  lemma SameBracesSameResult<B(!new)>(
      own: OwnEffect<B>, s: Nesting<B>,
      file: seq<string>, other: seq<string>, lines: seq<Line>, otherLines: seq<Line>)
    requires Balanced(lines) && Balanced(otherLines) && Counting(lines) == Counting(otherLines)
    requires |file| == |other| && forall i :: 0 <= i < |file| ==> BraceBalance(file[i]) == BraceBalance(other[i])
    ensures Run(Reading(file, own), s, lines) == Run(Reading(other, own), s, otherLines)
  {
    var counting := Counting(lines);
    forall i | 0 <= i < |counting|
      ensures LastLine(file, counting[i].number) == LastLine(other, counting[i].number)
    {
      LastLineByBraces(file, other, counting[i].number);
    }
    SameEndsSameResult(own, s, file, other, lines, otherLines);
  }

  // ---------------------------------------------------------------------------------------------
  // A later branch that reaches the stack
  // ---------------------------------------------------------------------------------------------

  /** A class with two heads, one in each branch of a conditional: all its lines but the second head. */
  datatype Frame = Frame(ifText: string, first: string, elseText: string, endifText: string, closer: string) {
    function File(second: string): seq<string> {
      [ifText, first, elseText, second, endifText, closer]
    }

    /** The lines of the conditional. */
    function Heads(second: string): seq<Line> {
      [Line(0, ifText)] + [Line(1, first)] + [Line(2, elseText)] + [Line(3, second)] + [Line(4, endifText)]
    }

    /** The first head opens a brace, which the closing line closes. */
    predicate Valid() {
      && DirectiveOf(Line(0, ifText)) == If && DirectiveOf(Line(2, elseText)) == Else
      && DirectiveOf(Line(4, endifText)) == Endif
      && BraceBalance(elseText) == 0 && BraceBalance(endifText) == 0
      && ClassHead(first) && BraceBalance(first) == 1 && BraceBalance(closer) == -1
    }
  }

  predicate ClassHead(text: string) {
    StartsWith(text, "class ")
  }

  /** A declaration leaves its class on the stack unless it is a forward declaration. */
  function ClassHeads(): OwnEffect<nat> {
    (stack, line: Line, last) =>
      if !ClassHead(line.text) then [] else if BraceBalance(line.text) > 0 then [Push(last)] else [Push(last), PopTop]
  }

  lemma OneLine(line: Line)
    requires DirectiveOf(line) == NoDirective
    ensures Balanced([line]) && Counting([line]) == [line]
  {
    StageLine([], [], [], line);
    FlagValues();
    assert [] + [line] == [line];
  }

  lemma HeadIsNoDirective(line: Line)
    requires ClassHead(line.text)
    ensures DirectiveOf(line) == NoDirective
  {
    assert line.text[0] == line.text[..6][0];
  }

  lemma DirectiveIsNoHead(line: Line)
    requires DirectiveOf(line) != NoDirective
    ensures !ClassHead(line.text)
  {
    if ClassHead(line.text) {
      HeadIsNoDirective(line);
    }
  }

  /** A conditional with one line in each branch keeps what its first branch did, if the directives do
      nothing themselves. */
  lemma FirstLineActs<B>(
      e: Effect<B>, s: Nesting<B>, ifLine: Line, first: Line, elseLine: Line, later: Line, endifLine: Line)
    requires DirectiveOf(ifLine) == If && DirectiveOf(elseLine) == Else && DirectiveOf(endifLine) == Endif
    requires DirectiveOf(first) == NoDirective && DirectiveOf(later) == NoDirective
    requires e(s.stack, ifLine) == [] && e(Affect(e, s.stack, first), endifLine) == []
    ensures var lines := [ifLine] + [first] + [elseLine] + [later] + [endifLine];
      && Balanced(lines) && Counting(lines) == [ifLine] + [first] + [endifLine]
      && Run(e, s, lines) == s.(stack := Affect(e, s.stack, first))
  {
    OneLine(first);
    OneLine(later);
    ConditionalCounting(ifLine, [first], elseLine, [later], endifLine);
    ConditionalIsFirstBranch(e, s, ifLine, [first], elseLine, [later], endifLine);
    AffectsSnoc(e, s.stack, [ifLine] + [first], endifLine);
    AffectsSnoc(e, s.stack, [ifLine], first);
    AffectsSnoc(e, s.stack, [], ifLine);
    assert [] + [ifLine] == [ifLine];
  }

  /** Whatever the second head, the kept stack is the class of the first, with the end the file gives it. */
  lemma HeadsKeepFirst(f: Frame, second: string)
    requires f.Valid() && ClassHead(second)
    ensures Balanced(f.Heads(second))
    ensures Counting(f.Heads(second)) == [Line(0, f.ifText)] + [Line(1, f.first)] + [Line(4, f.endifText)]
    ensures Run(Reading(f.File(second), ClassHeads()), Nesting([], []), f.Heads(second))
         == Nesting([LastLine(f.File(second), 1)], [])
  {
    var e, ifLine, first, endifLine :=
      Reading(f.File(second), ClassHeads()), Line(0, f.ifText), Line(1, f.first), Line(4, f.endifText);
    DirectiveIsNoHead(ifLine);
    DirectiveIsNoHead(endifLine);
    HeadIsNoDirective(first);
    HeadIsNoDirective(Line(3, second));
    AffectPushEnd(f.File(second), [], first);
    FirstLineActs(e, Nesting([], []), ifLine, first, Line(2, f.elseText), Line(3, second), endifLine);
  }

  /** The end of the class is found when the second head opens no brace, and not when it opens one. */
  lemma EndOfHeads(f: Frame, second: string)
    requires f.Valid() && 0 <= BraceBalance(second) <= 1
    ensures LastLine(f.File(second), 1) == if BraceBalance(second) == 0 then 5 else 0
  {
    var file := f.File(second);
    assert Depth(file, 1, 2) == Depth(file, 1, 1) + BraceBalance(file[1]);
    assert Depth(file, 1, 3) == Depth(file, 1, 2) + BraceBalance(file[2]);
    assert Depth(file, 1, 4) == Depth(file, 1, 3) + BraceBalance(file[3]);
    assert Depth(file, 1, 5) == Depth(file, 1, 4) + BraceBalance(file[4]);
    assert Depth(file, 1, 6) == Depth(file, 1, 5) + BraceBalance(file[5]);
    assert !ClosedAt(file, 1, 1) && !ClosedAt(file, 1, 2) && !ClosedAt(file, 1, 3) && !ClosedAt(file, 1, 4);
    assert ClosedAt(file, 1, 5) <==> BraceBalance(second) == 0;
    LastLineFromIsFirst(file, 1, 1);
  }

  /** In every such frame, a forward declaration and a head as the second head give two files with the same
      counting lines, of which one keeps a class that ends in line 5 and the other one without an end. */
  lemma LaterBranchReachesStack(f: Frame, declaration: string, head: string)
    requires f.Valid() && ClassHead(declaration) && ClassHead(head)
    requires BraceBalance(declaration) == 0 && BraceBalance(head) == 1
    ensures Counting(f.Heads(declaration)) == Counting(f.Heads(head))
    ensures Run(Reading(f.File(declaration), ClassHeads()), Nesting([], []), f.Heads(declaration)) == Nesting([5], [])
    ensures Run(Reading(f.File(head), ClassHeads()), Nesting([], []), f.Heads(head)) == Nesting([0], [])
  {
    HeadsKeepFirst(f, declaration);
    HeadsKeepFirst(f, head);
    EndOfHeads(f, declaration);
    EndOfHeads(f, head);
  }

  // The frame and the two heads in the shape of the example in the documentation of `UpdatePreprocessor`.

  function ExampleFrame(): Frame {
    Frame("#" + "if", "class X " + "{", "#" + "else", "#" + "endif", "}" + ";")
  }

  lemma {:induction false} NoneCounted(s: string, c: char)
    requires c !in s
    ensures Count(s, c) == 0
  {
    if s != [] {
      NoneCounted(s[..|s| - 1], c);
    }
  }

  lemma NoBraces(s: string)
    requires '{' !in s && '}' !in s
    ensures BraceBalance(s) == 0
  {
    NoneCounted(s, '{');
    NoneCounted(s, '}');
  }

  lemma OneBrace(before: string, after: char)
    requires '{' !in before && '}' !in before
    ensures BraceBalance(before + "{") == 1
    ensures after != '{' && after != '}' ==> BraceBalance("}" + [after]) == -1
  {
    NoBraces(before);
    assert (before + "{")[..|before|] == before;
    assert ("}" + [after])[..1] == "}" && "}"[..0] == [];
    assert Count("}", '}') == 1 && Count("}", '{') == 0;
  }

  lemma DirectiveOfWord(number: nat, word: string)
    requires word != [] && AllWord(word)
    ensures word == "if" ==> DirectiveOf(Line(number, "#" + word)) == If
    ensures word == "else" ==> DirectiveOf(Line(number, "#" + word)) == Else
    ensures word == "endif" ==> DirectiveOf(Line(number, "#" + word)) == Endif
  {
    SpelledName([], [], word, []);
    assert [] + "#" + [] + word + [] == "#" + word;
    assert word == "if" ==> |word| == 2;
    assert word == "else" ==> |word| == 4;
    assert word == "endif" ==> |word| == 5;
  }

  lemma ExampleDirectives()
    ensures DirectiveOf(Line(0, "#" + "if")) == If && DirectiveOf(Line(2, "#" + "else")) == Else
    ensures DirectiveOf(Line(4, "#" + "endif")) == Endif
  {
    DirectiveOfWord(0, "if");
    DirectiveOfWord(2, "else");
    DirectiveOfWord(4, "endif");
  }

  lemma ExampleFrameValid()
    ensures ExampleFrame().Valid()
  {
    ExampleDirectives();
    ExampleBraces();
  }

  lemma ExampleBraces()
    ensures BraceBalance("#" + "else") == 0 && BraceBalance("#" + "endif") == 0
    ensures ClassHead("class X " + "{") && BraceBalance("class X " + "{") == 1 && BraceBalance("}" + ";") == -1
  {
    NoBraces("#" + "else");
    NoBraces("#" + "endif");
    OneBrace("class X ", ';');
  }

  lemma ExampleHeads()
    ensures ClassHead("class X;") && BraceBalance("class X;") == 0
    ensures ClassHead("class X: Y " + "{") && BraceBalance("class X: Y " + "{") == 1
  {
    NoBraces("class X;");
    OneBrace("class X: Y ", ';');
  }

  lemma ExampleLaterBranch()
    ensures var f, declaration, head := ExampleFrame(), "class X;", "class X: Y " + "{";
      && Counting(f.Heads(declaration)) == Counting(f.Heads(head))
      && Run(Reading(f.File(declaration), ClassHeads()), Nesting([], []), f.Heads(declaration))
      != Run(Reading(f.File(head), ClassHeads()), Nesting([], []), f.Heads(head))
  {
    ExampleFrameValid();
    ExampleHeads();
    LaterBranchReachesStack(ExampleFrame(), "class X;", "class X: Y " + "{");
  }
}
