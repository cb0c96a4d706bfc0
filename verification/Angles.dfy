/** Matching angle brackets among marks. A mark says what a character is to a matcher that started on an
    angle bracket, in its reading direction: another angle bracket of the same direction (`Up`), one of the
    other direction (`Down`), the second half of a shift, which takes the first half back (`Back`), the begin
    or end of a group in hard brackets, a statement end (`Stop`), or nothing of interest. */
module Angles {
  import opened Wrappers
  import opened Brackets
  import opened BracketTheory

  datatype Mark = Up | Down | Back | Begin(c: char) | Finish(c: char) | Stop | Neutral

  /** The other bracket of a pair. */
  function Mate(c: char): char {
    if Opener(c) then CloserOf(c) else if Closer(c) then OpenerOf(c) else c
  }

  // ---------------------------------------------------------------------------------------------
  // What the match is
  // ---------------------------------------------------------------------------------------------

  /** The hard brackets that are open after the marks [k, i), or none if one was closed wrongly. */
  function HardAfter(ms: seq<Mark>, k: nat, i: nat): Option<string>
    requires k <= i <= |ms|
  {
    if i == k then Some([])
    else
      var before := HardAfter(ms, k, i - 1);
      if before.None? then None
      else
        match ms[i - 1]
        case Begin(c) => Some(before.value + [c])
        case Finish(c) =>
          if before.value != [] && Last(before.value) == Mate(c) then Some(Pop(before.value)) else None
        case _ => before
  }

  /** Mark `i` lies in no group opened since `k`. */
  predicate Outer(ms: seq<Mark>, k: nat, i: nat)
    requires k <= i <= |ms|
  {
    HardAfter(ms, k, i) == Some([])
  }

  function Weight(m: Mark): int {
    match m
    case Up => 1
    case Down => -1
    case Back => -1
    case _ => 0
  }

  /** How many angle brackets are open after the marks [k, i), counting the one before `k` and those outside
      of groups. */
  function Level(ms: seq<Mark>, k: nat, i: nat): int
    requires k <= i <= |ms|
  {
    if i == k then 1 else Level(ms, k, i - 1) + if Outer(ms, k, i - 1) then Weight(ms[i - 1]) else 0
  }

  /** Mark `i`, if outside of groups, neither ends the statement nor closes the last open angle bracket. */
  predicate Passes(ms: seq<Mark>, k: nat, i: nat)
    requires k <= i < |ms|
  {
    Outer(ms, k, i) ==> ms[i] != Stop && Level(ms, k, i + 1) > 0
  }

  /** Up to `i` groups are properly nested, no statement ends outside of them and an angle bracket is open
      throughout. */
  predicate Clean(ms: seq<Mark>, k: nat, i: nat)
    requires k <= i <= |ms|
  {
    HardAfter(ms, k, i).Some? && forall j :: k <= j < i ==> Passes(ms, k, j)
  }

  /** The match of the angle bracket before `k`: the first mark of the other direction outside of groups at
      which the angle brackets outside of groups balance. */
  predicate Match(ms: seq<Mark>, k: nat, j: nat) {
    k <= j < |ms| && Clean(ms, k, j) && Outer(ms, k, j) && ms[j] == Down && Level(ms, k, j) == 1
  }

  ghost predicate NoMatch(ms: seq<Mark>, k: nat) {
    forall j :: !Match(ms, k, j)
  }

  lemma {:induction false} HardAfterPrefix(ms: seq<Mark>, k: nat, i: nat, j: nat)
    requires k <= i <= j <= |ms| && HardAfter(ms, k, j).Some?
    ensures HardAfter(ms, k, i).Some?
  {
    if i < j {
      HardAfterPrefix(ms, k, i, j - 1);
    }
  }

  /** There is at most one match, and none before a point up to which all is clean. */
  lemma MatchUnique(ms: seq<Mark>, k: nat, i: nat, j: nat)
    requires Match(ms, k, i) && k <= j <= |ms| && Clean(ms, k, j)
    ensures j <= i
  {
    assert Level(ms, k, i + 1) == 0 && !Passes(ms, k, i);
  }

  lemma CleanBefore(ms: seq<Mark>, k: nat, i: nat, j: nat)
    requires k <= i < j <= |ms| && Clean(ms, k, j)
    ensures HardAfter(ms, k, i + 1).Some? && Passes(ms, k, i)
  {
    HardAfterPrefix(ms, k, i + 1, j);
  }

  // ---------------------------------------------------------------------------------------------
  // The stack machine
  // ---------------------------------------------------------------------------------------------

  /** What reading a mark does to a stack on which angle brackets are tentative. */
  function MarkStep(m: Mark, angle: char, stack: string): Outcome {
    match m
    case Begin(c) => More(stack + [c])
    case Up => More(stack + [angle])
    case Back =>
      if stack == [] || Last(stack) != angle then More(stack) else if |stack| == 1 then Failed else More(Pop(stack))
    case Down => if stack != [] && Last(stack) == angle then PopOrFind(stack) else More(stack)
    case Finish(c) =>
      var s := PopTentative(stack, angle);
      if s != [] && Last(s) == Mate(c) then PopOrFind(s) else Failed
    case Stop =>
      var s := PopTentative(stack, angle);
      if s == [] then Failed else More(s)
    case Neutral => More(stack)
  }

  /** The stack of a group that began since: a hard bracket at the bottom. */
  predicate Group(inner: string, hard: string, angle: char) {
    inner != [] && inner[0] != angle && Hard(inner, angle) == hard
  }

  /** The stack is the open angle brackets followed by the stack of the group the reader is in, if any. */
  predicate Shape(stack: string, level: int, hard: string, angle: char) {
    && 1 <= level <= |stack|
    && (forall p :: 0 <= p < level ==> stack[p] == angle)
    && (if hard == [] then |stack| == level else Group(stack[level..], hard, angle))
  }

  predicate Tracks(ms: seq<Mark>, k: nat, i: nat, stack: string, angle: char)
    requires k <= i <= |ms|
  {
    Clean(ms, k, i) && Shape(stack, Level(ms, k, i), HardAfter(ms, k, i).value, angle)
  }

  // ---------------------------------------------------------------------------------------------
  // Outside of groups
  // ---------------------------------------------------------------------------------------------

  lemma {:induction false} AllTentative(stack: string, angle: char)
    requires forall p :: 0 <= p < |stack| ==> stack[p] == angle
    ensures PopTentative(stack, angle) == []
  {
    if stack != [] {
      AllTentative(Pop(stack), angle);
    }
  }

  /** The step of a mark outside of groups. */
  lemma OuterStep(m: Mark, angle: char, stack: string, level: int)
    requires Shape(stack, level, [], angle) && (m.Begin? ==> m.c != angle)
    ensures match MarkStep(m, angle, stack)
      case Found => m == Down && level == 1
      case Failed => m.Finish? || m == Stop || (m == Back && level == 1)
      case More(s) =>
        && !m.Finish? && m != Stop && level + Weight(m) > 0
        && Shape(s, level + Weight(m), if m.Begin? then [m.c] else [], angle)
  {
    AllTentative(stack, angle);
    if m.Begin? {
      HardPush([], m.c, angle);
      assert (stack + [m.c])[level..] == [m.c] && [] + [m.c] == [m.c];
    }
  }

  // ---------------------------------------------------------------------------------------------
  // Inside groups
  // ---------------------------------------------------------------------------------------------

  /** What a mark does to the open hard brackets. */
  function HardStep(m: Mark, hard: string): Outcome {
    match m
    case Begin(c) => More(hard + [c])
    case Finish(c) => if hard != [] && Last(hard) == Mate(c) then PopOrFind(hard) else Failed
    case _ => More(hard)
  }

  lemma GroupStep(m: Mark, angle: char, inner: string, hard: string)
    requires Group(inner, hard, angle) && (m.Begin? ==> m.c != angle)
    ensures hard != []
    ensures match MarkStep(m, angle, inner)
      case Found => HardStep(m, hard) == Found
      case Failed => HardStep(m, hard) == Failed
      case More(s) => HardStep(m, hard).More? && Group(s, HardStep(m, hard).stack, angle)
  {
    TentativeTop(inner, angle);
    TopMatches(inner, angle, angle);
    HardTop(inner, angle);
    if m.Begin? {
      HardPush(inner, m.c, angle);
    }
  }

  lemma {:induction false} PopTentativeBehind(prefix: string, inner: string, angle: char)
    requires inner != [] && inner[0] != angle
    ensures PopTentative(prefix + inner, angle) == prefix + PopTentative(inner, angle)
    ensures PopTentative(inner, angle) != []
  {
    if Last(inner) == angle {
      assert Pop(prefix + inner) == prefix + Pop(inner);
      PopTentativeBehind(prefix, Pop(inner), angle);
    }
  }

  /** The angle brackets below a group are out of reach until it ends. */
  lemma Framed(m: Mark, angle: char, prefix: string, inner: string)
    requires prefix != [] && inner != [] && inner[0] != angle
    ensures MarkStep(m, angle, prefix + inner) ==
      match MarkStep(m, angle, inner)
      case Found => More(prefix)
      case Failed => Failed
      case More(s) => More(prefix + s)
  {
    var stack := prefix + inner;
    PopTentativeBehind(prefix, inner, angle);
    assert Last(stack) == Last(inner) && Pop(stack) == prefix + Pop(inner);
    var s := PopTentative(inner, angle);
    assert Last(prefix + s) == Last(s) && Pop(prefix + s) == prefix + Pop(s);
    assert |s| == 1 ==> prefix + Pop(s) == prefix;
    match m
    case Begin(c) => assert stack + [c] == prefix + (inner + [c]);
    case Up => assert stack + [angle] == prefix + (inner + [angle]);
    case _ =>
  }

  lemma InnerStep(m: Mark, angle: char, stack: string, level: int, hard: string)
    requires Shape(stack, level, hard, angle) && hard != [] && (m.Begin? ==> m.c != angle)
    ensures match HardStep(m, hard)
      case Failed => MarkStep(m, angle, stack) == Failed
      case Found =>
        MarkStep(m, angle, stack).More? && Shape(MarkStep(m, angle, stack).stack, level, [], angle)
      case More(h) =>
        h != [] && MarkStep(m, angle, stack).More? && Shape(MarkStep(m, angle, stack).stack, level, h, angle)
  {
    var prefix, inner := stack[..level], stack[level..];
    assert stack == prefix + inner;
    GroupStep(m, angle, inner, hard);
    Framed(m, angle, prefix, inner);
    match MarkStep(m, angle, inner)
    case Found =>
    case Failed =>
    case More(s) =>
      assert (prefix + s)[level..] == s;
      GroupStep(Neutral, angle, s, HardStep(m, hard).stack);
  }

  // ---------------------------------------------------------------------------------------------
  // The machine finds the match
  // ---------------------------------------------------------------------------------------------

  /** Groups begin with hard brackets. */
  ghost predicate HardBegins(ms: seq<Mark>, angle: char) {
    forall i :: 0 <= i < |ms| && ms[i].Begin? ==> ms[i].c != angle
  }

  lemma TracksStart(ms: seq<Mark>, k: nat, angle: char)
    requires k <= |ms|
    ensures Tracks(ms, k, k, [angle], angle)
  {}

  lemma HardAfterStep(ms: seq<Mark>, k: nat, i: nat)
    requires k <= i < |ms| && HardAfter(ms, k, i).Some?
    ensures match HardStep(ms[i], HardAfter(ms, k, i).value)
      case Failed => HardAfter(ms, k, i + 1) == None
      case Found => HardAfter(ms, k, i + 1) == Some([])
      case More(h) => HardAfter(ms, k, i + 1) == Some(h)
  {}

  /** Beyond a mark that fails, nothing is clean. */
  lemma DeadEnd(ms: seq<Mark>, k: nat, i: nat)
    requires k <= i < |ms| && Clean(ms, k, i) && !(ms[i] == Down && Outer(ms, k, i))
    requires HardAfter(ms, k, i + 1).None? || !Passes(ms, k, i)
    ensures NoMatch(ms, k)
  {
    forall j: nat | Match(ms, k, j) ensures false {
      if j < i {
        MatchUnique(ms, k, j, i);
      } else if j > i {
        CleanBefore(ms, k, i, j);
      }
    }
  }

  lemma CleanStep(ms: seq<Mark>, k: nat, i: nat)
    requires k <= i < |ms| && Clean(ms, k, i) && HardAfter(ms, k, i + 1).Some? && Passes(ms, k, i)
    ensures Clean(ms, k, i + 1)
  {}

  /** The outcome of a step says how the reader stands towards the match. */
  ghost predicate Follows(ms: seq<Mark>, k: nat, i: nat, o: Outcome, angle: char)
    requires k <= i < |ms|
  {
    match o
    case Found => Match(ms, k, i)
    case Failed => NoMatch(ms, k)
    case More(s) => Tracks(ms, k, i + 1, s, angle)
  }

  lemma StepTracks(ms: seq<Mark>, k: nat, i: nat, stack: string, angle: char)
    requires k <= i < |ms| && Tracks(ms, k, i, stack, angle) && HardBegins(ms, angle)
    ensures Follows(ms, k, i, MarkStep(ms[i], angle, stack), angle)
  {
    if HardAfter(ms, k, i).value == [] {
      OuterTracks(ms, k, i, stack, angle);
    } else {
      InnerTracks(ms, k, i, stack, angle);
    }
  }

  lemma OuterTracks(ms: seq<Mark>, k: nat, i: nat, stack: string, angle: char)
    requires k <= i < |ms| && Tracks(ms, k, i, stack, angle) && HardBegins(ms, angle) && Outer(ms, k, i)
    ensures Follows(ms, k, i, MarkStep(ms[i], angle, stack), angle)
  {
    var level := Level(ms, k, i);
    OuterStep(ms[i], angle, stack, level);
    HardAfterStep(ms, k, i);
    match MarkStep(ms[i], angle, stack)
    case Found =>
    case Failed => DeadEnd(ms, k, i);
    case More(s) =>
      assert Level(ms, k, i + 1) == level + Weight(ms[i]);
      CleanStep(ms, k, i);
  }

  lemma InnerTracks(ms: seq<Mark>, k: nat, i: nat, stack: string, angle: char)
    requires k <= i < |ms| && Tracks(ms, k, i, stack, angle) && HardBegins(ms, angle) && !Outer(ms, k, i)
    ensures Follows(ms, k, i, MarkStep(ms[i], angle, stack), angle)
  {
    var hard := HardAfter(ms, k, i).value;
    InnerStep(ms[i], angle, stack, Level(ms, k, i), hard);
    HardAfterStep(ms, k, i);
    assert Level(ms, k, i + 1) == Level(ms, k, i);
    match HardStep(ms[i], hard)
    case Failed => DeadEnd(ms, k, i);
    case _ => CleanStep(ms, k, i);
  }

  /** The machine over the marks from `i` on: the mark that empties the stack. */
  function Search(ms: seq<Mark>, i: nat, stack: string, angle: char): Option<nat>
    requires i <= |ms|
    decreases |ms| - i
  {
    if i == |ms| then None
    else
      match MarkStep(ms[i], angle, stack)
      case Found => Some(i)
      case Failed => None
      case More(s) => Search(ms, i + 1, s, angle)
  }

  /** A stack never empties without the search ending. */
  lemma MarkStepNonEmpty(m: Mark, angle: char, stack: string)
    requires stack != [] && MarkStep(m, angle, stack).More?
    ensures MarkStep(m, angle, stack).stack != []
  {}

  /** The result is the match, or there is none. */
  ghost predicate IsMatch(ms: seq<Mark>, k: nat, found: Option<nat>) {
    match found
    case Some(j) => Match(ms, k, j)
    case None => NoMatch(ms, k)
  }

  lemma {:induction false} SearchTracks(ms: seq<Mark>, k: nat, i: nat, stack: string, angle: char)
    requires k <= i <= |ms| && Tracks(ms, k, i, stack, angle) && HardBegins(ms, angle)
    ensures IsMatch(ms, k, Search(ms, i, stack, angle))
    decreases |ms| - i
  {
    if i == |ms| {
      forall j: nat | Match(ms, k, j) ensures false {
        MatchUnique(ms, k, j, |ms|);
      }
    } else {
      StepTracks(ms, k, i, stack, angle);
      match MarkStep(ms[i], angle, stack)
      case Found =>
      case Failed =>
      case More(s) => SearchTracks(ms, k, i + 1, s, angle);
    }
  }

  /** Started with one angle bracket, the machine finds its match, and fails exactly when there is none. */
  lemma SearchFindsMatch(ms: seq<Mark>, k: nat, angle: char)
    requires k <= |ms| && HardBegins(ms, angle)
    ensures IsMatch(ms, k, Search(ms, k, [angle], angle))
  {
    TracksStart(ms, k, angle);
    SearchTracks(ms, k, k, [angle], angle);
  }

  // ---------------------------------------------------------------------------------------------
  // Matches read from the other end
  // ---------------------------------------------------------------------------------------------

  /** What a mark is to a reader in the other direction, unless it is the second half of a shift. */
  function Turned(m: Mark): Mark {
    match m
    case Up => Down
    case Down => Up
    case Begin(c) => Finish(c)
    case Finish(c) => Begin(c)
    case _ => m
  }

  /** From the angle bracket before `k` to mark `j`, both readers see the same, without shifts. */
  ghost predicate Mirrored(ms: seq<Mark>, rs: seq<Mark>, k: nat, j: nat) {
    && 1 <= k <= j < |ms| == |rs|
    && forall i :: k - 1 <= i <= j ==> ms[i] != Back && rs[|ms| - 1 - i] == Turned(ms[i])
  }

  function Mates(s: string): (r: string)
    ensures |r| == |s| && forall i :: 0 <= i < |s| ==> r[i] == Mate(s[i])
  {
    seq(|s|, i requires 0 <= i < |s| => Mate(s[i]))
  }

  lemma MateTwice(c: char)
    ensures Mate(Mate(c)) == c
  {}

  lemma {:induction false} LevelPositive(ms: seq<Mark>, k: nat, i: nat, j: nat)
    requires k <= i <= j <= |ms| && Clean(ms, k, j)
    ensures Level(ms, k, i) > 0
  {
    if i > k {
      LevelPositive(ms, k, i - 1, j);
      assert Passes(ms, k, i - 1);
    }
  }

  /** The hard brackets open to one reader are the mates of those open to the other. */
  lemma {:induction false} HardTurns(ms: seq<Mark>, rs: seq<Mark>, k: nat, j: nat, i: nat)
    requires Mirrored(ms, rs, k, j) && k <= i <= j && HardAfter(ms, k, j) == Some([])
    ensures HardAfter(ms, k, i).Some?
    ensures HardAfter(rs, |ms| - j, |ms| - i) == Some(Mates(HardAfter(ms, k, i).value))
    decreases j - i
  {
    HardAfterPrefix(ms, k, i, j);
    if i < j {
      HardTurns(ms, rs, k, j, i + 1);
      assert rs[|ms| - 1 - i] == Turned(ms[i]);
      HardTurnsStep(ms[i], HardAfter(ms, k, i).value, HardAfter(ms, k, i + 1).value);
    } else {
      assert Mates([]) == [];
    }
  }

  /** One step of a reader is undone by the step of the other. */
  lemma HardTurnsStep(m: Mark, before: string, after: string)
    requires match m
      case Begin(c) => after == before + [c]
      case Finish(c) => before != [] && Last(before) == Mate(c) && after == Pop(before)
      case _ => after == before
    ensures match Turned(m)
      case Begin(c) => Mates(before) == Mates(after) + [c]
      case Finish(c) => Mates(after) != [] && Last(Mates(after)) == Mate(c) && Mates(before) == Pop(Mates(after))
      case _ => Mates(before) == Mates(after)
  {
    if m.Finish? {
      MateTwice(m.c);
      assert before == after + [Mate(m.c)];
    }
  }

  /** As many angle brackets are open to one reader as to the other. */
  lemma {:induction false} LevelTurns(ms: seq<Mark>, rs: seq<Mark>, k: nat, j: nat, i: nat)
    requires Mirrored(ms, rs, k, j) && k <= i <= j && HardAfter(ms, k, j) == Some([]) && Level(ms, k, j) == 1
    ensures Level(rs, |ms| - j, |ms| - i) == Level(ms, k, i)
    decreases j - i
  {
    if i < j {
      LevelTurns(ms, rs, k, j, i + 1);
      OuterTurns(ms, rs, k, j, i);
      assert rs[|ms| - 1 - i] == Turned(ms[i]);
    }
  }

  /** Apart from hard brackets, both readers see the same marks outside of groups. */
  lemma OuterTurns(ms: seq<Mark>, rs: seq<Mark>, k: nat, j: nat, i: nat)
    requires Mirrored(ms, rs, k, j) && k <= i < j && HardAfter(ms, k, j) == Some([])
    ensures !ms[i].Begin? && !ms[i].Finish? ==> (Outer(rs, |ms| - j, |ms| - 1 - i) <==> Outer(ms, k, i))
  {
    HardTurns(ms, rs, k, j, i);
    HardTurns(ms, rs, k, j, i + 1);
  }

  /** The match of the match is the start. */
  lemma MatchTurns(ms: seq<Mark>, rs: seq<Mark>, k: nat, j: nat)
    requires Mirrored(ms, rs, k, j) && Match(ms, k, j) && ms[k - 1] == Up
    ensures Match(rs, |ms| - j, |ms| - k)
  {
    var start, end := |ms| - j, |ms| - k;
    HardTurns(ms, rs, k, j, k);
    LevelTurns(ms, rs, k, j, k);
    assert rs[|ms| - 1 - (k - 1)] == Turned(ms[k - 1]);
    assert Mates([]) == [];
    forall q | start <= q < end ensures Passes(rs, start, q) {
      PassesTurned(ms, rs, k, j, q);
    }
  }

  lemma PassesTurned(ms: seq<Mark>, rs: seq<Mark>, k: nat, j: nat, q: nat)
    requires Mirrored(ms, rs, k, j) && Match(ms, k, j) && |ms| - j <= q < |ms| - k
    ensures Passes(rs, |ms| - j, q)
  {
    var i := |ms| - 1 - q;
    OuterTurns(ms, rs, k, j, i);
    LevelTurns(ms, rs, k, j, i);
    LevelPositive(ms, k, i, j);
    assert Passes(ms, k, i);
    assert rs[|ms| - 1 - i] == Turned(ms[i]);
  }

  /** Nothing of interest between an angle bracket and the next one of the other direction: they match. */
  lemma {:induction false} NeutralStretch(ms: seq<Mark>, k: nat, j: nat)
    requires k <= j <= |ms| && forall i :: k <= i < j ==> ms[i] == Neutral
    ensures Clean(ms, k, j) && Outer(ms, k, j) && Level(ms, k, j) == 1
  {
    if k < j {
      NeutralStretch(ms, k, j - 1);
    }
  }
}
