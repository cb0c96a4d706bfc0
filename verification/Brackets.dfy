/** The two bracket matchers of the linter. Forwards and backwards, each keeps a stack on which `<` and
    `>` are only tentative, with special treatment of `;`, `->`, `<<`, `>=` and `operator`. Started on a
    parenthesis, square bracket or brace they behave as plain bracket matchers, and so invert each
    other. */
module Brackets {
  import opened Wrappers
  import opened TextClasses

  predicate Opener(c: char) {
    c == '(' || c == '[' || c == '{'
  }

  predicate Closer(c: char) {
    c == ')' || c == ']' || c == '}'
  }

  function CloserOf(c: char): (r: char)
    requires Opener(c)
    ensures Closer(r)
  {
    if c == '(' then ')' else if c == '[' then ']' else '}'
  }

  function OpenerOf(c: char): (r: char)
    requires Closer(c)
    ensures Opener(r) && CloserOf(r) == c
  {
    if c == ')' then '(' else if c == ']' then '[' else '{'
  }

  /** The six brackets and their pairs. */
  lemma BracketPairs(c: char)
    ensures Opener(c) <==> c in {'(', '[', '{'}
    ensures Closer(c) <==> c in {')', ']', '}'}
    ensures CloserOf('(') == ')' && CloserOf('[') == ']' && CloserOf('{') == '}'
  {}

  /** `\boperator\s*$` matches somewhere in the text. */
  predicate EndsWithOperator(text: string) {
    var t := TrimRight(text);
    EndsWith(t, "operator") && (|t| == 8 || !IsWord(t[|t| - 9]))
  }

  /** `\s>=\s` matches at position i - 1. */
  predicate SpacedGreaterEqual(line: string, i: nat) {
    0 < i && i + 2 < |line| && IsSpace(line[i - 1]) && line[i] == '>' && line[i + 1] == '=' && IsSpace(line[i + 2])
  }

  function Last(s: string): char
    requires s != []
  {
    s[|s| - 1]
  }

  function Pop(s: string): (r: string)
    requires s != []
    ensures |r| == |s| - 1
  {
    s[..|s| - 1]
  }

  /** The stack without the tentative brackets on top. */
  function PopTentative(s: string, angle: char): (r: string)
    ensures r <= s
    ensures r == [] || Last(r) != angle
  {
    if s != [] && Last(s) == angle then PopTentative(Pop(s), angle) else s
  }

  /** What reading one character does. */
  datatype Outcome = More(stack: string) | Found | Failed

  /** The stack after removing the top, which ends the search when it was the only entry. */
  function PopOrFind(s: string): Outcome
    requires s != []
  {
    if |s| == 1 then Found else More(Pop(s))
  }

  // ---------------------------------------------------------------------------------------------
  // Forwards
  // ---------------------------------------------------------------------------------------------

  /** This `<` is the second one of a shift. */
  predicate IsShift(line: string, i: nat)
    requires i < |line|
  {
    i > 0 && line[i] == '<' && line[i - 1] == '<'
  }

  /** This `<` or `>` is part of an operator function, or of an arrow. */
  predicate IsIgnored(line: string, i: nat)
    requires i < |line|
  {
    i > 0 &&
    if line[i] == '<' then EndsWithOperator(line[..i])
    else line[i] == '>' && (line[i - 1] == '-' || EndsWithOperator(line[..i - 1]))
  }

  /** The effect of one character, given what the text before it makes of an angle bracket. */
  function ForwardChar(c: char, shift: bool, ignored: bool, stack: string): Outcome {
    if Opener(c) then More(stack + [c])
    else if c == '<' then
      if shift then
        if stack != [] && Last(stack) == '<' then
          (if |stack| == 1 then Failed else More(Pop(stack)))
        else More(stack)
      else if ignored then More(stack)
      else More(stack + ['<'])
    else if Closer(c) then
      var s := PopTentative(stack, '<');
      if s != [] && Last(s) == OpenerOf(c) then PopOrFind(s) else Failed
    else if c == '>' then
      if !ignored && stack != [] && Last(stack) == '<' then PopOrFind(stack) else More(stack)
    else if c == ';' then
      var s := PopTentative(stack, '<');
      if s == [] then Failed else More(s)
    else More(stack)
  }

  function ForwardStep(line: string, i: nat, stack: string): Outcome
    requires i < |line|
  {
    ForwardChar(line[i], IsShift(line, i), IsIgnored(line, i), stack)
  }

  /** The result of scanning a line from position i: the position after the match, or -1 and the stack
      at the end of the line unless the search is over. */
  function FindEnd(line: string, i: nat, stack: string): (int, Option<string>)
    requires i <= |line|
    decreases |line| - i
  {
    if i == |line| then (-1, Some(stack))
    else
      match ForwardStep(line, i, stack)
      case Found => (i + 1, None)
      case Failed => (-1, None)
      case More(s) => FindEnd(line, i + 1, s)
  }

  method PopTentatives(stack: string, angle: char) returns (r: string)
    ensures r == PopTentative(stack, angle)
  {
    r := stack;
    while r != [] && Last(r) == angle
      invariant PopTentative(r, angle) == PopTentative(stack, angle)
    {
      r := Pop(r);
    }
  }

  method FindEndOfExpressionInLine(line: string, startpos: nat, stack0: string)
      returns (end: int, rest: Option<string>)
    requires startpos <= |line|
    ensures (end, rest) == FindEnd(line, startpos, stack0)
  {
    var stack := stack0;
    for i := startpos to |line|
      invariant FindEnd(line, i, stack) == FindEnd(line, startpos, stack0)
    {
      var c := line[i];
      if Opener(c) {
        stack := stack + [c];
      } else if c == '<' {
        if i > 0 && line[i - 1] == '<' {
          if stack != [] && Last(stack) == '<' {
            stack := Pop(stack);
            if stack == [] {
              return -1, None;
            }
          }
        } else if i > 0 && EndsWithOperator(line[..i]) {
        } else {
          stack := stack + ['<'];
        }
      } else if Closer(c) {
        stack := PopTentatives(stack, '<');
        if stack == [] {
          return -1, None;
        }
        if (Last(stack) == '(' && c == ')') || (Last(stack) == '[' && c == ']') || (Last(stack) == '{' && c == '}') {
          stack := Pop(stack);
          if stack == [] {
            return i + 1, None;
          }
        } else {
          return -1, None;
        }
      } else if c == '>' {
        if i > 0 && (line[i - 1] == '-' || EndsWithOperator(line[..i - 1])) {
        } else if stack != [] && Last(stack) == '<' {
          stack := Pop(stack);
          if stack == [] {
            return i + 1, None;
          }
        }
      } else if c == ';' {
        stack := PopTentatives(stack, '<');
        if stack == [] {
          return -1, None;
        }
      }
    }
    return -1, Some(stack);
  }

  /** Scanning on from a line: the line and the position after the match. */
  function Close(lines: seq<string>, l: nat, i: nat, stack: string): Option<(nat, nat)>
    requires l < |lines| && i <= |lines[l]|
    decreases |lines| - l
  {
    var (end, rest) := FindEnd(lines[l], i, stack);
    if end > -1 then Some((l, end))
    else if rest.Some? && rest.value != [] && l < |lines| - 1 then Close(lines, l + 1, 0, rest.value)
    else None
  }

  /** The last line that scanning on from a line looks at. */
  function CloseStop(lines: seq<string>, l: nat, i: nat, stack: string): (stop: nat)
    requires l < |lines| && i <= |lines[l]|
    ensures l <= stop < |lines|
    ensures Close(lines, l, i, stack).Some? ==> Close(lines, l, i, stack).value.0 == stop
    decreases |lines| - l
  {
    var (end, rest) := FindEnd(lines[l], i, stack);
    if end <= -1 && rest.Some? && rest.value != [] && l < |lines| - 1 then CloseStop(lines, l + 1, 0, rest.value) else l
  }

  predicate StartsForward(line: string, pos: nat)
    requires pos < |line|
  {
    (Opener(line[pos]) || line[pos] == '<')
    && !(line[pos] == '<' && pos + 1 < |line| && (line[pos + 1] == '<' || line[pos + 1] == '='))
  }

  /** What `CloseExpression` finds. */
  function Closing(lines: seq<string>, l: nat, pos: nat): Option<(nat, nat)>
    requires l < |lines| && pos < |lines[l]|
  {
    if StartsForward(lines[l], pos) then Close(lines, l, pos, []) else None
  }

  /** The line `CloseExpression` returns: the one of the match, or the last one looked at. */
  function ClosingStop(lines: seq<string>, l: nat, pos: nat): (stop: nat)
    requires l < |lines| && pos < |lines[l]|
    ensures l <= stop < |lines|
    ensures Closing(lines, l, pos).Some? ==> Closing(lines, l, pos).value.0 == stop
  {
    if StartsForward(lines[l], pos) then CloseStop(lines, l, pos, []) else l
  }

  /** The match in the lines after `l`, given the stack that is left after it. */
  function CloseAfter(lines: seq<string>, l: nat, rest: Option<string>): Option<(nat, nat)>
    requires l < |lines|
  {
    if rest.Some? && rest.value != [] && l < |lines| - 1 then Close(lines, l + 1, 0, rest.value) else None
  }

  function StopAfter(lines: seq<string>, l: nat, rest: Option<string>): nat
    requires l < |lines|
  {
    if rest.Some? && rest.value != [] && l < |lines| - 1 then CloseStop(lines, l + 1, 0, rest.value) else l
  }

  /** The loop over the following lines. */
  method ScanLinesAfter(lines: seq<string>, linenum: nat, rest: Option<string>)
      returns (line: string, endLine: nat, endPos: int)
    requires linenum < |lines|
    ensures StopAfter(lines, linenum, rest) < |lines| && line == lines[StopAfter(lines, linenum, rest)]
    ensures match CloseAfter(lines, linenum, rest)
      case None => endLine == |lines| && endPos == -1
      case Some((l, e)) => endLine == l && endPos == e
  {
    var l, stack := linenum, rest;
    line := lines[l];
    while stack.Some? && stack.value != [] && l < |lines| - 1
      invariant l < |lines| && line == lines[l]
      invariant CloseAfter(lines, linenum, rest) == CloseAfter(lines, l, stack)
      invariant StopAfter(lines, linenum, rest) == StopAfter(lines, l, stack)
      decreases |lines| - l
    {
      l := l + 1;
      line := lines[l];
      var end;
      end, stack := FindEndOfExpressionInLine(line, 0, stack.value);
      if end > -1 {
        return line, l, end;
      }
    }
    return line, |lines|, -1;
  }

  method CloseExpression(lines: seq<string>, linenum: nat, pos: nat)
      returns (line: string, endLine: nat, endPos: int)
    requires linenum < |lines| && pos < |lines[linenum]|
    ensures line == lines[ClosingStop(lines, linenum, pos)]
    ensures match Closing(lines, linenum, pos)
      case None => endLine == |lines| && endPos == -1
      case Some((l, e)) => endLine == l && endPos == e
  {
    line := lines[linenum];
    if !StartsForward(line, pos) {
      return line, |lines|, -1;
    }
    var end, stack := FindEndOfExpressionInLine(line, pos, []);
    if end > -1 {
      return line, linenum, end;
    }
    line, endLine, endPos := ScanLinesAfter(lines, linenum, stack);
  }

  // ---------------------------------------------------------------------------------------------
  // Backwards
  // ---------------------------------------------------------------------------------------------

  /** This `>` or `<` is skipped together with the character before it. */
  predicate SkipsTwo(line: string, i: nat)
    requires i < |line|
  {
    i > 0 &&
    if line[i] == '>' then line[i - 1] == '-' || SpacedGreaterEqual(line, i) || EndsWithOperator(line[..i])
    else line[i] == '<' && line[i - 1] == '<'
  }

  function BackwardChar(c: char, skipped: bool, stack: string): Outcome {
    if Closer(c) then More(stack + [c])
    else if skipped then More(stack)
    else if c == '>' then More(stack + ['>'])
    else if c == '<' then
      if stack != [] && Last(stack) == '>' then PopOrFind(stack) else More(stack)
    else if Opener(c) then
      var s := PopTentative(stack, '>');
      if s != [] && Last(s) == CloserOf(c) then PopOrFind(s) else Failed
    else if c == ';' then
      var s := PopTentative(stack, '>');
      if s == [] then Failed else More(s)
    else More(stack)
  }

  function BackwardStep(line: string, i: nat, stack: string): Outcome
    requires i < |line|
  {
    BackwardChar(line[i], SkipsTwo(line, i), stack)
  }

  /** The result of scanning a line backwards from position i: the position of the match, or -1 and the
      stack at the start of the line unless the search is over. */
  function FindStart(line: string, i: int, stack: string): (int, Option<string>)
    requires -1 <= i < |line|
    decreases i + 1
  {
    if i == -1 then (-1, Some(stack))
    else
      match BackwardStep(line, i, stack)
      case Found => (i, None)
      case Failed => (-1, None)
      case More(s) => FindStart(line, if SkipsTwo(line, i) then i - 2 else i - 1, s)
  }

  method FindStartOfExpressionInLine(line: string, endpos: int, stack0: string)
      returns (start: int, rest: Option<string>)
    requires -1 <= endpos < |line|
    ensures (start, rest) == FindStart(line, endpos, stack0)
  {
    var stack := stack0;
    var i := endpos;
    while i >= 0
      invariant -1 <= i < |line|
      invariant FindStart(line, i, stack) == FindStart(line, endpos, stack0)
    {
      var c := line[i];
      var next := i;
      if Closer(c) {
        stack := stack + [c];
      } else if c == '>' {
        if i > 0 && (line[i - 1] == '-' || SpacedGreaterEqual(line, i) || EndsWithOperator(line[..i])) {
          next := next - 1;
        } else {
          stack := stack + ['>'];
        }
      } else if c == '<' {
        if i > 0 && line[i - 1] == '<' {
          next := next - 1;
        } else if stack != [] && Last(stack) == '>' {
          stack := Pop(stack);
          if stack == [] {
            return i, None;
          }
        }
      } else if Opener(c) {
        stack := PopTentatives(stack, '>');
        if stack == [] {
          return -1, None;
        }
        if (c == '(' && Last(stack) == ')') || (c == '[' && Last(stack) == ']') || (c == '{' && Last(stack) == '}') {
          stack := Pop(stack);
          if stack == [] {
            return i, None;
          }
        } else {
          return -1, None;
        }
      } else if c == ';' {
        stack := PopTentatives(stack, '>');
        if stack == [] {
          return -1, None;
        }
      }
      i := next - 1;
    }
    return -1, Some(stack);
  }

  /** Scanning backwards from a line: the line and the position of the match. */
  function Open(lines: seq<string>, l: nat, i: int, stack: string): Option<(nat, nat)>
    requires l < |lines| && -1 <= i < |lines[l]|
  {
    var (start, rest) := FindStart(lines[l], i, stack);
    if start > -1 then Some((l, start))
    else if rest.Some? && rest.value != [] && l > 0 then Open(lines, l - 1, |lines[l - 1]| - 1, rest.value)
    else None
  }

  /** The last line that scanning backwards from a line looks at. */
  function OpenStop(lines: seq<string>, l: nat, i: int, stack: string): (stop: nat)
    requires l < |lines| && -1 <= i < |lines[l]|
    ensures stop <= l
    ensures Open(lines, l, i, stack).Some? ==> Open(lines, l, i, stack).value.0 == stop
  {
    var (start, rest) := FindStart(lines[l], i, stack);
    if start <= -1 && rest.Some? && rest.value != [] && l > 0
    then OpenStop(lines, l - 1, |lines[l - 1]| - 1, rest.value) else l
  }

  /** What `ReverseCloseExpression` finds. */
  function Opening(lines: seq<string>, l: nat, pos: nat): Option<(nat, nat)>
    requires l < |lines| && pos < |lines[l]|
  {
    if Closer(lines[l][pos]) || lines[l][pos] == '>' then Open(lines, l, pos, []) else None
  }

  /** The line `ReverseCloseExpression` returns: the one of the match, or the last one looked at. */
  function OpeningStop(lines: seq<string>, l: nat, pos: nat): (stop: nat)
    requires l < |lines| && pos < |lines[l]|
    ensures stop <= l
    ensures Opening(lines, l, pos).Some? ==> Opening(lines, l, pos).value.0 == stop
  {
    if Closer(lines[l][pos]) || lines[l][pos] == '>' then OpenStop(lines, l, pos, []) else l
  }

  /** The match in the lines before `l`, given the stack that is left after it. */
  function OpenBefore(lines: seq<string>, l: nat, rest: Option<string>): Option<(nat, nat)>
    requires l < |lines|
  {
    if rest.Some? && rest.value != [] && l > 0 then Open(lines, l - 1, |lines[l - 1]| - 1, rest.value) else None
  }

  function StopBefore(lines: seq<string>, l: nat, rest: Option<string>): nat
    requires l < |lines|
  {
    if rest.Some? && rest.value != [] && l > 0 then OpenStop(lines, l - 1, |lines[l - 1]| - 1, rest.value) else l
  }

  /** The loop over the preceding lines. */
  method ScanLinesBefore(lines: seq<string>, linenum: nat, rest: Option<string>)
      returns (line: string, startLine: nat, startPos: int)
    requires linenum < |lines|
    ensures StopBefore(lines, linenum, rest) < |lines| && line == lines[StopBefore(lines, linenum, rest)]
    ensures match OpenBefore(lines, linenum, rest)
      case None => startLine == 0 && startPos == -1
      case Some((l, s)) => startLine == l && startPos == s
  {
    var l, stack := linenum, rest;
    line := lines[l];
    while stack.Some? && stack.value != [] && l > 0
      invariant l < |lines| && line == lines[l]
      invariant OpenBefore(lines, linenum, rest) == OpenBefore(lines, l, stack)
      invariant StopBefore(lines, linenum, rest) == StopBefore(lines, l, stack)
      decreases l
    {
      l := l - 1;
      line := lines[l];
      var start;
      start, stack := FindStartOfExpressionInLine(line, |line| - 1, stack.value);
      if start > -1 {
        return line, l, start;
      }
    }
    return line, 0, -1;
  }

  method ReverseCloseExpression(lines: seq<string>, linenum: nat, pos: nat)
      returns (line: string, startLine: nat, startPos: int)
    requires linenum < |lines| && pos < |lines[linenum]|
    ensures line == lines[OpeningStop(lines, linenum, pos)]
    ensures match Opening(lines, linenum, pos)
      case None => startLine == 0 && startPos == -1
      case Some((l, s)) => startLine == l && startPos == s
  {
    line := lines[linenum];
    if !(Closer(line[pos]) || line[pos] == '>') {
      return line, 0, -1;
    }
    var start, stack := FindStartOfExpressionInLine(line, pos, []);
    if start > -1 {
      return line, linenum, start;
    }
    line, startLine, startPos := ScanLinesBefore(lines, linenum, stack);
  }
}
