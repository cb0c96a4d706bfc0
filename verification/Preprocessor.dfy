/** The nesting stack across preprocessor conditionals: `#if` saves it, the first `#else` or `#elif` saves
    it again and every later branch restarts from the first copy, `#endif` restores the second. What a line
    itself does to the stack is a parameter. */
module Preprocessor {
  import opened Sequences
  import opened TextClasses

  // ---------------------------------------------------------------------------------------------
  // Directives
  // ---------------------------------------------------------------------------------------------

  /** A line of a file: the effect of a line may depend on where it stands. */
  datatype Line = Line(number: nat, text: string)

  datatype Directive = If | Else | Endif | NoDirective

  function LeadingWord(s: string): string {
    if s != [] && IsWord(s[0]) then [s[0]] + LeadingWord(s[1..]) else []
  }

  /** The word after white space, `#` and white space, or nothing. */
  function NameOf(text: string): string {
    var t := TrimLeft(text);
    if t == [] || t[0] != '#' then [] else LeadingWord(TrimLeft(t[1..]))
  }

  /** The three patterns, each with a word boundary after the name. */
  function DirectiveOf(line: Line): Directive {
    var word := NameOf(line.text);
    if word == "if" || word == "ifdef" || word == "ifndef" then If
    else if word == "else" || word == "elif" then Else
    else if word == "endif" then Endif
    else NoDirective
  }

  // ---------------------------------------------------------------------------------------------
  // The nesting state
  // ---------------------------------------------------------------------------------------------

  /** What a line can do to the stack: push, pop, or change the top block in place. */
  datatype Edit<B> = Push(block: B) | PopTop | ChangeTop(block: B)

  /** The edits a line makes, given the stack it meets. In the file at hand the line may look at any other
      line, so two files have two effects. */
  type Effect<!B> = (seq<B>, Line) -> seq<Edit<B>>

  function ApplyEdit<B>(stack: seq<B>, e: Edit<B>): seq<B> {
    match e
    case Push(b) => stack + [b]
    case PopTop => if stack == [] then stack else stack[..|stack| - 1]
    case ChangeTop(b) => if stack == [] then stack else stack[|stack| - 1 := b]
  }

  function ApplyEdits<B>(stack: seq<B>, edits: seq<Edit<B>>): seq<B> {
    if edits == [] then stack else ApplyEdit(ApplyEdits(stack, edits[..|edits| - 1]), edits[|edits| - 1])
  }

  function Affect<B>(effect: Effect<B>, stack: seq<B>, line: Line): seq<B> {
    ApplyEdits(stack, effect(stack, line))
  }

  datatype Saved<B> = Saved(beforeIf: seq<B>, beforeElse: seq<B>, seenElse: bool)

  datatype Nesting<B> = Nesting(stack: seq<B>, pp: seq<Saved<B>>)

  function TopSaved<B>(s: Nesting<B>): Saved<B>
    requires s.pp != []
  {
    s.pp[|s.pp| - 1]
  }

  function DropSaved<B>(s: Nesting<B>): seq<Saved<B>>
    requires s.pp != []
  {
    s.pp[..|s.pp| - 1]
  }

  /** `UpdatePreprocessor`. */
  function Preprocess<B>(s: Nesting<B>, d: Directive): Nesting<B> {
    match d
    case If => s.(pp := s.pp + [Saved(s.stack, [], false)])
    case Else =>
      if s.pp == [] then s
      else
        var top := TopSaved(s);
        var saved := if top.seenElse then top else top.(seenElse := true, beforeElse := s.stack);
        Nesting(top.beforeIf, DropSaved(s) + [saved])
    case Endif =>
      if s.pp == [] then s
      else Nesting(if TopSaved(s).seenElse then TopSaved(s).beforeElse else s.stack, DropSaved(s))
    case NoDirective => s
  }

  /** `Update`: the directive first, then the line's own effect. */
  function LineStep<B>(effect: Effect<B>, s: Nesting<B>, line: Line): Nesting<B> {
    var p := Preprocess(s, DirectiveOf(line));
    p.(stack := Affect(effect, p.stack, line))
  }

  function Run<B>(effect: Effect<B>, s: Nesting<B>, lines: seq<Line>): Nesting<B> {
    if lines == [] then s else LineStep(effect, Run(effect, s, lines[..|lines| - 1]), lines[|lines| - 1])
  }

  // ---------------------------------------------------------------------------------------------
  // Which lines count
  // ---------------------------------------------------------------------------------------------

  /** For each conditional open after the lines, whether an `#else` or `#elif` of it has been passed. */
  function Passed(lines: seq<Line>): seq<bool> {
    if lines == [] then []
    else NextPassed(Passed(lines[..|lines| - 1]), DirectiveOf(lines[|lines| - 1]))
  }

  function NextPassed(flags: seq<bool>, d: Directive): seq<bool> {
    match d
    case If => flags + [false]
    case Else => if flags == [] then flags else flags[|flags| - 1 := true]
    case Endif => if flags == [] then flags else flags[..|flags| - 1]
    case NoDirective => flags
  }

  predicate InFirstBranches(flags: seq<bool>) {
    forall i :: 0 <= i < |flags| ==> !flags[i]
  }

  /** The lines outside every later branch. */
  function Counting(lines: seq<Line>): seq<Line> {
    if lines == [] then []
    else
      var before := Counting(lines[..|lines| - 1]);
      if InFirstBranches(Passed(lines)) then before + [lines[|lines| - 1]] else before
  }

  /** The effects of lines one after the other, directives ignored. */
  function Affects<B>(effect: Effect<B>, stack: seq<B>, lines: seq<Line>): seq<B> {
    if lines == [] then stack
    else Affect(effect, Affects(effect, stack, lines[..|lines| - 1]), lines[|lines| - 1])
  }

  // ---------------------------------------------------------------------------------------------
  // Later branches are invisible
  // ---------------------------------------------------------------------------------------------

  /** The stack that will be kept: the one saved at the first `#else` of the outermost conditional past
      it, or the stack itself. */
  function Kept<B>(stack: seq<B>, pp: seq<Saved<B>>): seq<B> {
    if pp == [] then stack
    else if pp[0].seenElse then pp[0].beforeElse
    else Kept(stack, pp[1..])
  }

  predicate Matches<B>(pp: seq<Saved<B>>, flags: seq<bool>) {
    |pp| == |flags| && forall i :: 0 <= i < |pp| ==> pp[i].seenElse == flags[i]
  }

  /** In first branches only, the kept stack is the stack. */
  lemma {:induction false} KeptIsStack<B>(stack: seq<B>, pp: seq<Saved<B>>, flags: seq<bool>)
    requires Matches(pp, flags) && InFirstBranches(flags)
    ensures Kept(stack, pp) == stack
  {
    if pp != [] {
      KeptIsStack(stack, pp[1..], flags[1..]);
    }
  }

  /** Past some `#else`, the kept stack does not depend on the stack or on inner conditionals. */
  lemma {:induction false} KeptIsSaved<B>(
      stack: seq<B>, other: seq<B>, pp: seq<Saved<B>>, inner: seq<Saved<B>>, flags: seq<bool>)
    requires Matches(pp, flags) && !InFirstBranches(flags)
    ensures Kept(stack, pp + inner) == Kept(other, pp)
  {
    assert pp != [];
    assert (pp + inner)[0] == pp[0];
    if !pp[0].seenElse {
      assert (pp + inner)[1..] == pp[1..] + inner;
      assert !InFirstBranches(flags[1..]) by {
        var i :| 0 <= i < |flags| && flags[i];
        assert flags[1..][i - 1];
      }
      KeptIsSaved(stack, other, pp[1..], inner, flags[1..]);
    }
  }

  /** In first branches only, an inner conditional decides. */
  lemma {:induction false} KeptIsInner<B>(stack: seq<B>, pp: seq<Saved<B>>, top: Saved<B>, flags: seq<bool>)
    requires Matches(pp, flags) && InFirstBranches(flags)
    ensures Kept(stack, pp + [top]) == if top.seenElse then top.beforeElse else stack
  {
    if pp == [] {
      assert (pp + [top])[1..] == [];
    } else {
      assert (pp + [top])[1..] == pp[1..] + [top];
      KeptIsInner(stack, pp[1..], top, flags[1..]);
    }
  }

  lemma PreprocessMatches<B>(s: Nesting<B>, flags: seq<bool>, d: Directive)
    requires Matches(s.pp, flags)
    ensures Matches(Preprocess(s, d).pp, NextPassed(flags, d))
  {}

  /** A directive never changes the kept stack. */
  lemma PreprocessKeeps<B>(s: Nesting<B>, flags: seq<bool>, d: Directive)
    requires Matches(s.pp, flags)
    ensures Kept(Preprocess(s, d).stack, Preprocess(s, d).pp) == Kept(s.stack, s.pp)
  {
    var after := Preprocess(s, d);
    if d.If? {
      if InFirstBranches(flags) {
        KeptIsInner(s.stack, s.pp, Saved(s.stack, [], false), flags);
        KeptIsStack(s.stack, s.pp, flags);
      } else {
        KeptIsSaved(s.stack, s.stack, s.pp, [Saved(s.stack, [], false)], flags);
      }
    } else if !d.NoDirective? && s.pp != [] {
      var outer, top, outerFlags := DropSaved(s), TopSaved(s), flags[..|flags| - 1];
      assert s.pp == outer + [top];
      if InFirstBranches(outerFlags) {
        KeptIsInner(s.stack, outer, top, outerFlags);
        if d.Else? {
          KeptIsInner(after.stack, outer, TopSaved(after), outerFlags);
        } else {
          KeptIsStack(after.stack, outer, outerFlags);
        }
      } else {
        KeptIsSaved(s.stack, s.stack, outer, [top], outerFlags);
        if d.Else? {
          KeptIsSaved(after.stack, s.stack, outer, [TopSaved(after)], outerFlags);
        } else {
          KeptIsSaved(after.stack, s.stack, outer, [], outerFlags);
          assert outer + [] == outer;
        }
      }
    }
  }

  /** A line's own effect reaches the kept stack exactly in first branches. */
  lemma AffectKept<B>(effect: Effect<B>, s: Nesting<B>, flags: seq<bool>, line: Line)
    requires Matches(s.pp, flags)
    ensures Kept(Affect(effect, s.stack, line), s.pp)
         == if InFirstBranches(flags) then Affect(effect, Kept(s.stack, s.pp), line) else Kept(s.stack, s.pp)
  {
    var stack := Affect(effect, s.stack, line);
    if InFirstBranches(flags) {
      KeptIsStack(s.stack, s.pp, flags);
      KeptIsStack(stack, s.pp, flags);
    } else {
      KeptIsSaved(stack, s.stack, s.pp, [], flags);
      assert s.pp + [] == s.pp;
    }
  }

  /** After any lines, balanced or not, the kept stack is the effect of the counting lines alone: no line
      in a later branch of any conditional has an influence. */
  lemma {:induction false} LaterBranchesInvisible<B>(effect: Effect<B>, stack: seq<B>, lines: seq<Line>)
    ensures var r := Run(effect, Nesting(stack, []), lines);
      Matches(r.pp, Passed(lines)) && Kept(r.stack, r.pp) == Affects(effect, stack, Counting(lines))
  {
    if lines != [] {
      var init, last := lines[..|lines| - 1], lines[|lines| - 1];
      LaterBranchesInvisible(effect, stack, init);
      var s := Run(effect, Nesting(stack, []), init);
      var d := DirectiveOf(last);
      PreprocessMatches(s, Passed(init), d);
      PreprocessKeeps(s, Passed(init), d);
      AffectKept(effect, Preprocess(s, d), Passed(lines), last);
      if InFirstBranches(Passed(lines)) {
        AffectsSnoc(effect, stack, Counting(init), last);
      }
    }
  }

  lemma AffectsSnoc<B>(effect: Effect<B>, stack: seq<B>, lines: seq<Line>, line: Line)
    ensures Affects(effect, stack, lines + [line]) == Affect(effect, Affects(effect, stack, lines), line)
  {
    assert (lines + [line])[..|lines|] == lines;
  }

  // ---------------------------------------------------------------------------------------------
  // Conditionals inside conditionals
  // ---------------------------------------------------------------------------------------------

  /** The directive belongs to an open conditional or to none. */
  predicate Fits(flags: seq<bool>, d: Directive) {
    flags == [] ==> d.If? || d.NoDirective?
  }

  /** Every `#else`, `#elif` and `#endif` belongs to an `#if` among the lines. */
  predicate WellNested(lines: seq<Line>) {
    lines == [] ||
    (WellNested(lines[..|lines| - 1]) && Fits(Passed(lines[..|lines| - 1]), DirectiveOf(lines[|lines| - 1])))
  }

  /** Well-nested lines leave the conditionals around them alone and do not depend on them. */
  lemma {:induction false} OuterUntouched<B>(effect: Effect<B>, stack: seq<B>, outer: seq<Saved<B>>, lines: seq<Line>)
    requires WellNested(lines)
    ensures var inner := Run(effect, Nesting(stack, []), lines);
      && |inner.pp| == |Passed(lines)|
      && Run(effect, Nesting(stack, outer), lines) == Nesting(inner.stack, outer + inner.pp)
  {
    if lines == [] {
      assert outer + [] == outer;
    } else {
      var init, d := lines[..|lines| - 1], DirectiveOf(lines[|lines| - 1]);
      OuterUntouched(effect, stack, outer, init);
      LaterBranchesInvisible(effect, stack, init);
      PreprocessInside(Run(effect, Nesting(stack, []), init), outer, d);
      LaterBranchesInvisible(effect, stack, lines);
    }
  }

  lemma PreprocessInside<B>(s: Nesting<B>, outer: seq<Saved<B>>, d: Directive)
    requires s.pp == [] ==> d.If? || d.NoDirective?
    ensures Preprocess(Nesting(s.stack, outer + s.pp), d)
         == Nesting(Preprocess(s, d).stack, outer + Preprocess(s, d).pp)
  {
    var whole := Nesting(s.stack, outer + s.pp);
    match d
    case If =>
      assert outer + s.pp + [Saved(s.stack, [], false)] == outer + (s.pp + [Saved(s.stack, [], false)]);
    case NoDirective =>
    case Endif =>
      assert DropSaved(whole) == outer + DropSaved(s);
    case Else =>
      assert DropSaved(whole) == outer + DropSaved(s);
      assert TopSaved(whole) == TopSaved(s);
      var saved := TopSaved(Preprocess(s, d));
      assert outer + DropSaved(s) + [saved] == outer + (DropSaved(s) + [saved]);
  }

  /** Non-interference: after well-nested lines with every conditional closed, in any surroundings, the
      saved stacks are as before and the nesting stack is the effect of the lines outside later branches. */
  lemma ConditionalsNonInterference<B>(effect: Effect<B>, s: Nesting<B>, lines: seq<Line>)
    requires WellNested(lines) && Passed(lines) == []
    ensures Run(effect, s, lines) == Nesting(Affects(effect, s.stack, Counting(lines)), s.pp)
  {
    OuterUntouched(effect, s.stack, s.pp, lines);
    LaterBranchesInvisible(effect, s.stack, lines);
    assert s.pp + [] == s.pp;
  }

  /** Lines of two files, each with its own effect, that differ in later branches only have the same
      result exactly when the counting lines, one after the other, act alike in both. What later branches
      hold is of no other consequence. */
  lemma LaterBranchesInterchangeable<B>(
      e: Effect<B>, f: Effect<B>, s: Nesting<B>, lines: seq<Line>, other: seq<Line>)
    requires WellNested(lines) && Passed(lines) == []
    requires WellNested(other) && Passed(other) == []
    requires Counting(lines) == Counting(other)
    ensures Run(e, s, lines) == Run(f, s, other)
       <==> Affects(e, s.stack, Counting(lines)) == Affects(f, s.stack, Counting(lines))
  {
    ConditionalsNonInterference(e, s, lines);
    ConditionalsNonInterference(f, s, other);
  }

  /** Both effects make the same edits for these lines. */
  ghost predicate SameEdits<B(!new)>(e: Effect<B>, f: Effect<B>, lines: seq<Line>) {
    forall stack, line :: line in lines ==> e(stack, line) == f(stack, line)
  }

  /** In particular they have the same result if every counting line makes the same edits in both files. */
  lemma SameEditsSameResult<B(!new)>(
      e: Effect<B>, f: Effect<B>, s: Nesting<B>, lines: seq<Line>, other: seq<Line>)
    requires WellNested(lines) && Passed(lines) == []
    requires WellNested(other) && Passed(other) == []
    requires Counting(lines) == Counting(other) && SameEdits(e, f, Counting(lines))
    ensures Run(e, s, lines) == Run(f, s, other)
  {
    SameEditsSameAffects(e, f, s.stack, Counting(lines));
    LaterBranchesInterchangeable(e, f, s, lines, other);
  }

  lemma {:induction false} SameEditsSameAffects<B(!new)>(e: Effect<B>, f: Effect<B>, stack: seq<B>, lines: seq<Line>)
    requires SameEdits(e, f, lines)
    ensures Affects(e, stack, lines) == Affects(f, stack, lines)
  {
    if lines != [] {
      SameEditsSameAffects(e, f, stack, lines[..|lines| - 1]);
      assert lines[|lines| - 1] in lines;
    }
  }

  // ---------------------------------------------------------------------------------------------
  // Later branches restart
  // ---------------------------------------------------------------------------------------------

  /** The lines open a conditional and stay inside it. */
  predicate OpensConditional(lines: seq<Line>) {
    && lines != [] && DirectiveOf(lines[0]).If?
    && forall k :: 1 <= k <= |lines| ==> Passed(lines[..k]) != []
  }

  lemma OpensConditionalInit(lines: seq<Line>)
    requires OpensConditional(lines) && |lines| > 1
    ensures OpensConditional(lines[..|lines| - 1])
  {
    var init := lines[..|lines| - 1];
    forall k | 1 <= k <= |init| ensures Passed(init[..k]) != [] {
      assert init[..k] == lines[..k];
    }
  }

  /** As long as the outermost conditional is open, its saved stack stays. */
  lemma OutermostStays<B>(s: Nesting<B>, d: Directive)
    requires s.pp != [] && Preprocess(s, d).pp != []
    ensures Preprocess(s, d).pp[0].beforeIf == s.pp[0].beforeIf
  {}

  lemma {:induction false} StackBeforeIfStays<B>(effect: Effect<B>, stack: seq<B>, lines: seq<Line>)
    requires OpensConditional(lines)
    ensures var r := Run(effect, Nesting(stack, []), lines);
      |r.pp| == |Passed(lines)| > 0 && r.pp[0].beforeIf == stack
  {
    LaterBranchesInvisible(effect, stack, lines);
    var init := lines[..|lines| - 1];
    assert lines[..|lines|] == lines;
    if |lines| == 1 {
      assert init == [];
    } else {
      OpensConditionalInit(lines);
      StackBeforeIfStays(effect, stack, init);
      OutermostStays(Run(effect, Nesting(stack, []), init), DirectiveOf(lines[|lines| - 1]));
    }
  }

  /** Lines that open a conditional and stay inside it are well nested. */
  lemma {:induction false} OpensConditionalNested(lines: seq<Line>)
    requires OpensConditional(lines)
    ensures WellNested(lines)
  {
    var init := lines[..|lines| - 1];
    if |lines| == 1 {
      WellNestedSnoc([], lines[0]);
      assert [] + [lines[0]] == lines;
    } else {
      OpensConditionalInit(lines);
      OpensConditionalNested(init);
      assert init == lines[..|init|];
    }
  }

  /** Whatever happened in the branches before and whatever conditionals are around, each `#else` or
      `#elif` of a conditional meets the stack as it was before the `#if`, and leaves the surrounding
      conditionals alone. */
  lemma BranchRestarts<B>(effect: Effect<B>, s: Nesting<B>, lines: seq<Line>, elseLine: Line)
    requires OpensConditional(lines) && |Passed(lines)| == 1 && DirectiveOf(elseLine).Else?
    ensures Run(effect, s, lines + [elseLine]).stack == Affect(effect, s.stack, elseLine)
    ensures |Run(effect, s, lines + [elseLine]).pp| == |s.pp| + 1 && s.pp <= Run(effect, s, lines + [elseLine]).pp
  {
    OpensConditionalNested(lines);
    OuterUntouched(effect, s.stack, s.pp, lines);
    StackBeforeIfStays(effect, s.stack, lines);
    assert (lines + [elseLine])[..|lines|] == lines;
    PreprocessInside(Run(effect, Nesting(s.stack, []), lines), s.pp, Else);
  }

  // ---------------------------------------------------------------------------------------------
  // One conditional, line by line
  // ---------------------------------------------------------------------------------------------

  lemma NextPassedInside(outer: seq<bool>, flags: seq<bool>, d: Directive)
    requires Fits(flags, d)
    ensures NextPassed(outer + flags, d) == outer + NextPassed(flags, d)
  {}

  lemma {:induction false} PassedConcat(a: seq<Line>, b: seq<Line>)
    requires WellNested(b)
    ensures Passed(a + b) == Passed(a) + Passed(b)
  {
    if b == [] {
      assert a + b == a;
    } else {
      var init, d := b[..|b| - 1], DirectiveOf(b[|b| - 1]);
      PassedConcat(a, init);
      ConcatInit(a, b);
      NextPassedInside(Passed(a), Passed(init), d);
    }
  }

  lemma InFirstBranchesConcat(a: seq<bool>, b: seq<bool>)
    ensures InFirstBranches(a + b) <==> InFirstBranches(a) && InFirstBranches(b)
  {
    if InFirstBranches(a + b) {
      forall i | 0 <= i < |a| ensures !a[i] {
        assert !(a + b)[i];
      }
      forall i | 0 <= i < |b| ensures !b[i] {
        assert !(a + b)[|a| + i];
      }
    }
  }

  /** Well-nested lines count in a first branch as they count on their own, and not at all in a later one. */
  lemma {:induction false} CountingConcat(a: seq<Line>, b: seq<Line>)
    requires WellNested(b)
    ensures Counting(a + b) == if InFirstBranches(Passed(a)) then Counting(a) + Counting(b) else Counting(a)
  {
    if b == [] {
      assert a + b == a;
    } else {
      var init := b[..|b| - 1];
      CountingConcat(a, init);
      PassedConcat(a, b);
      InFirstBranchesConcat(Passed(a), Passed(b));
      ConcatInit(a, b);
    }
  }

  lemma CountingSnoc(lines: seq<Line>, line: Line)
    ensures Passed(lines + [line]) == NextPassed(Passed(lines), DirectiveOf(line))
    ensures Counting(lines + [line])
         == if InFirstBranches(Passed(lines + [line])) then Counting(lines) + [line] else Counting(lines)
  {
    assert (lines + [line])[..|lines|] == lines;
  }

  predicate Balanced(lines: seq<Line>) {
    WellNested(lines) && Passed(lines) == []
  }

  lemma {:induction false} WellNestedConcat(a: seq<Line>, b: seq<Line>)
    requires WellNested(a) && WellNested(b)
    ensures WellNested(a + b)
  {
    if b == [] {
      assert a + b == a;
    } else {
      var init, last := b[..|b| - 1], b[|b| - 1];
      WellNestedConcat(a, init);
      PassedConcat(a, init);
      WellNestedSnoc(a + init, last);
      InitLast(b);
      Associative(a, init, [last]);
    }
  }

  lemma WellNestedSnoc(lines: seq<Line>, line: Line)
    requires WellNested(lines) && Fits(Passed(lines), DirectiveOf(line))
    ensures WellNested(lines + [line])
  {
    assert (lines + [line])[..|lines|] == lines;
  }

  /** The lines are well nested, with these conditionals open and these lines counting. */
  predicate Stage(lines: seq<Line>, flags: seq<bool>, counting: seq<Line>) {
    WellNested(lines) && Passed(lines) == flags && Counting(lines) == counting
  }

  lemma StageLine(lines: seq<Line>, flags: seq<bool>, counting: seq<Line>, line: Line)
    requires Stage(lines, flags, counting) && Fits(flags, DirectiveOf(line))
    ensures var next := NextPassed(flags, DirectiveOf(line));
      Stage(lines + [line], next, if InFirstBranches(next) then counting + [line] else counting)
  {
    WellNestedSnoc(lines, line);
    CountingSnoc(lines, line);
  }

  lemma StageBranch(lines: seq<Line>, flags: seq<bool>, counting: seq<Line>, branch: seq<Line>)
    requires Stage(lines, flags, counting) && Balanced(branch)
    ensures Stage(lines + branch, flags, if InFirstBranches(flags) then counting + Counting(branch) else counting)
  {
    WellNestedConcat(lines, branch);
    PassedConcat(lines, branch);
    CountingConcat(lines, branch);
    assert flags + [] == flags;
  }

  /** In `#if` first `#else` later `#endif`, with any balanced lines as branches, only the `#if` line, the
      first branch and the `#endif` line count. */
  lemma ConditionalCounting(ifLine: Line, first: seq<Line>, elseLine: Line, later: seq<Line>, endifLine: Line)
    requires DirectiveOf(ifLine) == If && DirectiveOf(elseLine) == Else && DirectiveOf(endifLine) == Endif
    requires Balanced(first) && Balanced(later)
    ensures Stage([ifLine] + first + [elseLine] + later + [endifLine], [], [ifLine] + Counting(first) + [endifLine])
  {
    StageIf(ifLine);
    StageBranch([ifLine], [false], [ifLine], first);
    FlagValues();
    var counting := [ifLine] + Counting(first);
    StageElse([ifLine] + first, counting, elseLine);
    StageBranch([ifLine] + first + [elseLine], [true], counting, later);
    StageEndif([ifLine] + first + [elseLine] + later, counting, endifLine);
  }

  lemma FlagValues()
    ensures InFirstBranches([]) && InFirstBranches([false]) && !InFirstBranches([true])
  {
    assert [true][0];
  }

  lemma StageIf(ifLine: Line)
    requires DirectiveOf(ifLine) == If
    ensures Stage([ifLine], [false], [ifLine])
  {
    StageLine([], [], [], ifLine);
    FlagValues();
    assert [] + [ifLine] == [ifLine] && [] + [false] == [false];
  }

  lemma StageElse(lines: seq<Line>, counting: seq<Line>, elseLine: Line)
    requires Stage(lines, [false], counting) && DirectiveOf(elseLine) == Else
    ensures Stage(lines + [elseLine], [true], counting)
  {
    StageLine(lines, [false], counting, elseLine);
    FlagValues();
    assert [false][0 := true] == [true];
  }

  lemma StageEndif(lines: seq<Line>, counting: seq<Line>, endifLine: Line)
    requires Stage(lines, [true], counting) && DirectiveOf(endifLine) == Endif
    ensures Stage(lines + [endifLine], [], counting + [endifLine])
  {
    StageLine(lines, [true], counting, endifLine);
    FlagValues();
    assert [true][..0] == [];
  }

  /** A conditional with an `#else` leaves the saved stacks as they were and the nesting stack as if the
      `#else` line and the later branch were not there. */
  lemma ConditionalIsFirstBranch<B>(
      effect: Effect<B>, s: Nesting<B>,
      ifLine: Line, first: seq<Line>, elseLine: Line, later: seq<Line>, endifLine: Line)
    requires DirectiveOf(ifLine) == If && DirectiveOf(elseLine) == Else && DirectiveOf(endifLine) == Endif
    requires Balanced(first) && Balanced(later)
    ensures Run(effect, s, [ifLine] + first + [elseLine] + later + [endifLine])
         == Nesting(Affects(effect, s.stack, [ifLine] + Counting(first) + [endifLine]), s.pp)
  {
    ConditionalCounting(ifLine, first, elseLine, later, endifLine);
    ConditionalsNonInterference(effect, s, [ifLine] + first + [elseLine] + later + [endifLine]);
  }

  // ---------------------------------------------------------------------------------------------
  // Directives in the text
  // ---------------------------------------------------------------------------------------------

  predicate AllWord(s: string) {
    forall i :: 0 <= i < |s| ==> IsWord(s[i])
  }

  /** The text is a directive of this name: white space, `#`, white space, the name, and nothing that
      would make it a longer word. */
  ghost predicate Spells(text: string, word: string) {
    exists before, between, rest :: SpelledAs(text, before, between, word, rest)
  }

  predicate SpelledAs(text: string, before: string, between: string, word: string, rest: string) {
    && AllSpaces(before) && AllSpaces(between) && (rest == [] || !IsWord(rest[0]))
    && text == before + "#" + between + word + rest
  }

  lemma {:induction false} LeadingWordMeans(word: string, rest: string)
    requires AllWord(word) && (rest == [] || !IsWord(rest[0]))
    ensures LeadingWord(word + rest) == word
  {
    if word == [] {
      assert word + rest == rest;
    } else {
      assert (word + rest)[1..] == word[1..] + rest;
      LeadingWordMeans(word[1..], rest);
    }
  }

  lemma {:induction false} SplitWord(s: string) returns (rest: string)
    ensures AllWord(LeadingWord(s)) && s == LeadingWord(s) + rest && (rest == [] || !IsWord(rest[0]))
  {
    if s != [] && IsWord(s[0]) {
      rest := SplitWord(s[1..]);
      assert s == [s[0]] + s[1..];
    } else {
      rest := s;
    }
  }

  lemma SpelledName(before: string, between: string, word: string, rest: string)
    requires AllSpaces(before) && AllSpaces(between) && word != [] && AllWord(word)
    requires rest == [] || !IsWord(rest[0])
    ensures NameOf(before + "#" + between + word + rest) == word
  {
    var t := "#" + between + word + rest;
    assert before + "#" + between + word + rest == before + t;
    TrimLeftMeans(before, t);
    assert t[1..] == between + (word + rest);
    WordIsNoSpace(word[0]);
    TrimLeftMeans(between, word + rest);
    LeadingWordMeans(word, rest);
  }

  lemma WordIsNoSpace(c: char)
    requires IsWord(c)
    ensures !IsSpace(c)
  {}

  lemma NameIsSpelled(text: string)
    requires NameOf(text) != []
    ensures Spells(text, NameOf(text))
  {
    var before := SplitLeft(text);
    var t := TrimLeft(text);
    var between := SplitLeft(t[1..]);
    var rest := SplitWord(TrimLeft(t[1..]));
    var word := NameOf(text);
    SameText(before, t, between, word, rest);
    assert SpelledAs(text, before, between, word, rest);
  }

  lemma SameText(before: string, t: string, between: string, word: string, rest: string)
    requires t != [] && t[0] == '#' && t[1..] == between + (word + rest)
    ensures before + t == before + "#" + between + word + rest
  {
    assert t == "#" + t[1..];
  }

  lemma NameMeans(text: string, word: string)
    requires word != [] && AllWord(word)
    ensures NameOf(text) == word <==> Spells(text, word)
  {
    if NameOf(text) == word {
      NameIsSpelled(text);
    }
    if before, between, rest :| SpelledAs(text, before, between, word, rest) {
      SpelledName(before, between, word, rest);
    }
  }

  /** A line opens, switches or closes a conditional exactly when it is one of these directives. */
  lemma DirectiveMeans(line: Line)
    ensures DirectiveOf(line).If?
       <==> Spells(line.text, "if") || Spells(line.text, "ifdef") || Spells(line.text, "ifndef")
    ensures DirectiveOf(line).Else? <==> Spells(line.text, "else") || Spells(line.text, "elif")
    ensures DirectiveOf(line).Endif? <==> Spells(line.text, "endif")
  {
    NameMeans(line.text, "if");
    NameMeans(line.text, "ifdef");
    NameMeans(line.text, "ifndef");
    NameMeans(line.text, "else");
    NameMeans(line.text, "elif");
    NameMeans(line.text, "endif");
  }

  /** A line whose first character other than white space is not `#` is no directive. */
  lemma OtherLines(line: Line, space: string, rest: string)
    requires AllSpaces(space) && line.text == space + rest && (rest == [] || (!IsSpace(rest[0]) && rest[0] != '#'))
    ensures DirectiveOf(line) == NoDirective
  {
    TrimLeftMeans(space, rest);
  }

  /** `ConditionalIsFirstBranch` on the text of the lines. */
  lemma ConditionalInText<B>(
      effect: Effect<B>, s: Nesting<B>,
      ifLine: Line, first: seq<Line>, elseLine: Line, later: seq<Line>, endifLine: Line)
    requires Spells(ifLine.text, "if") || Spells(ifLine.text, "ifdef") || Spells(ifLine.text, "ifndef")
    requires Spells(elseLine.text, "else") || Spells(elseLine.text, "elif")
    requires Spells(endifLine.text, "endif")
    requires Balanced(first) && Balanced(later)
    ensures Run(effect, s, [ifLine] + first + [elseLine] + later + [endifLine])
         == Nesting(Affects(effect, s.stack, [ifLine] + Counting(first) + [endifLine]), s.pp)
  {
    DirectiveMeans(ifLine);
    DirectiveMeans(elseLine);
    DirectiveMeans(endifLine);
    ConditionalIsFirstBranch(effect, s, ifLine, first, elseLine, later, endifLine);
  }
}
