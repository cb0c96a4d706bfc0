/** The linter's nesting state as objects. Blocks are mutable and shared by reference, so the saved stacks
    are deep copies; every method is proved against the state machine of Preprocessor. */
module NestingObjects {
  import opened Preprocessor

  class BlockObject<B> {
    var info: B

    constructor (info: B)
      ensures this.info == info
    {
      this.info := info;
    }
  }

  /** The objects hold these blocks. */
  ghost predicate Shows<B>(objects: seq<BlockObject<B>>, blocks: seq<B>)
    reads objects
  {
    |objects| == |blocks| && forall i :: 0 <= i < |objects| ==> objects[i].info == blocks[i]
  }

  ghost predicate AllDistinct<B>(objects: seq<BlockObject<B>>) {
    forall i, j :: 0 <= i < j < |objects| ==> objects[i] != objects[j]
  }

  ghost predicate Within<B>(objects: seq<BlockObject<B>>, owned: set<BlockObject<B>>) {
    forall i :: 0 <= i < |objects| ==> objects[i] in owned
  }

  /** `copy.deepcopy` of a stack: new objects with the same contents. */
  method DeepCopy<B>(objects: seq<BlockObject<B>>, ghost blocks: seq<B>)
      returns (copy: seq<BlockObject<B>>, ghost owned: set<BlockObject<B>>)
    requires Shows(objects, blocks)
    ensures Shows(copy, blocks) && AllDistinct(copy)
    ensures Within(copy, owned) && fresh(owned)
  {
    copy, owned := [], {};
    for n := 0 to |objects|
      invariant |copy| == n && AllDistinct(copy) && Within(copy, owned) && fresh(owned)
      invariant forall i :: 0 <= i < n ==> copy[i].info == blocks[i]
    {
      var o := new BlockObject<B>(objects[n].info);
      copy, owned := copy + [o], owned + {o};
    }
  }

  /** `_PreprocessorInfo`. */
  class SavedStacks<B> {
    var stackBeforeIf: seq<BlockObject<B>>
    var stackBeforeElse: seq<BlockObject<B>>
    var seenElse: bool
    ghost var saved: Saved<B>
    ghost var blocks: set<BlockObject<B>>

    ghost predicate Valid()
      reads this, blocks
    {
      && Within(stackBeforeIf, blocks) && Within(stackBeforeElse, blocks)
      && Shows(stackBeforeIf, saved.beforeIf) && Shows(stackBeforeElse, saved.beforeElse)
      && AllDistinct(stackBeforeElse) && seenElse == saved.seenElse
    }

    constructor (copy: seq<BlockObject<B>>, ghost stack: seq<B>, ghost owned: set<BlockObject<B>>)
      requires Shows(copy, stack) && Within(copy, owned)
      ensures Valid() && saved == Saved(stack, [], false) && blocks == owned
    {
      stackBeforeIf, stackBeforeElse, seenElse := copy, [], false;
      saved := Saved(stack, [], false);
      blocks := owned;
    }

    /** Remembers the stack at the first `#else` or `#elif`. */
    method RememberElse(copy: seq<BlockObject<B>>, ghost stack: seq<B>, ghost owned: set<BlockObject<B>>)
      requires Valid() && Shows(copy, stack) && AllDistinct(copy) && Within(copy, owned)
      modifies this
      ensures Valid() && blocks == old(blocks) + owned
      ensures saved == old(saved).(seenElse := true, beforeElse := stack)
    {
      seenElse := true;
      stackBeforeElse := copy;
      saved := saved.(seenElse := true, beforeElse := stack);
      blocks := blocks + owned;
    }
  }

  class NestingState<B> {
    var stack: seq<BlockObject<B>>
    var ppStack: seq<SavedStacks<B>>
    /** The state in the state machine. */
    ghost var state: Nesting<B>
    ghost var stackBlocks: set<BlockObject<B>>
    ghost var Repr: set<object>

    /** The k-th saved pair of stacks is owned, holds what the state says and shares no block with the stack. */
    ghost predicate Entry(k: nat)
      requires k < |ppStack| == |state.pp|
      reads this, Repr
    {
      && ppStack[k] in Repr && ppStack[k].blocks <= Repr && ppStack[k].Valid()
      && ppStack[k].saved == state.pp[k]
      && stackBlocks !! ppStack[k].blocks
    }

    /** Two conditionals share no block. */
    ghost predicate Separate(k: nat, m: nat)
      requires k < |ppStack| && m < |ppStack|
      reads this, Repr
    {
      && ppStack[k] in Repr && ppStack[m] in Repr
      && ppStack[k] != ppStack[m] && ppStack[k].blocks !! ppStack[m].blocks
    }

    ghost predicate StackOk()
      reads this, Repr
    {
      stackBlocks <= Repr && Within(stack, stackBlocks) && AllDistinct(stack) && Shows(stack, state.stack)
    }

    /** The blocks of the stack are distinct objects, and no saved stack shares a block with the stack or
        with another conditional's. */
    ghost predicate Valid()
      reads this, Repr
    {
      && this in Repr && StackOk()
      && |ppStack| == |state.pp|
      && (forall k :: 0 <= k < |ppStack| ==> Entry(k))
      && (forall k, m :: 0 <= k < m < |ppStack| ==> Separate(k, m))
    }

    constructor ()
      ensures Valid() && fresh(Repr) && state == Nesting([], [])
    {
      stack, ppStack, stackBlocks := [], [], {};
      state := Nesting([], []);
      Repr := {this};
    }

    method UpdatePreprocessor(line: Line)
      requires Valid()
      modifies Repr
      ensures Valid() && fresh(Repr - old(Repr))
      ensures state == Preprocess(old(state), DirectiveOf(line))
    {
      match DirectiveOf(line)
      case If => SaveBeforeIf();
      case Else =>
        if ppStack != [] {
          SwitchBranch();
        }
      case Endif =>
        if ppStack != [] {
          CloseConditional();
        }
      case NoDirective =>
    }

    method SaveBeforeIf()
      requires Valid()
      modifies this
      ensures Valid() && fresh(Repr - old(Repr))
      ensures state == Preprocess(old(state), If)
    {
      var copy, owned := DeepCopy(stack, state.stack);
      var saved := new SavedStacks<B>(copy, state.stack, owned);
      PushSaved(saved);
    }

    method PushSaved(saved: SavedStacks<B>)
      requires Valid() && saved.Valid() && saved !in Repr && saved.blocks !! Repr
      modifies this
      ensures Valid() && Repr == old(Repr) + {saved} + saved.blocks
      ensures state == old(state).(pp := old(state.pp) + [saved.saved])
    {
      ppStack := ppStack + [saved];
      Repr := Repr + {saved} + saved.blocks;
      state := state.(pp := state.pp + [saved.saved]);
      forall k | 0 <= k < |ppStack| ensures Entry(k) {
        assert k < |ppStack| - 1 ==> old(Entry(k));
      }
      forall k, m | 0 <= k < m < |ppStack| ensures Separate(k, m) {
        assert old(Entry(k)) && (m < |ppStack| - 1 ==> old(Separate(k, m)));
      }
    }

    method SwitchBranch()
      requires Valid() && ppStack != []
      modifies Repr
      ensures Valid() && fresh(Repr - old(Repr))
      ensures state == Preprocess(old(state), Else)
    {
      assert Entry(|ppStack| - 1);
      if !ppStack[|ppStack| - 1].seenElse {
        RememberElse();
      }
      RestoreBeforeIf();
      assert state.pp == DropSaved(old(state)) + [TopSaved(state)];
    }

    /** The first `#else` or `#elif` of the innermost conditional: a copy of the stack is kept for the
        `#endif`. */
    method RememberElse()
      requires Valid() && ppStack != []
      modifies this, ppStack[|ppStack| - 1]
      ensures Valid() && fresh(Repr - old(Repr)) && ppStack == old(ppStack)
      ensures var saved := TopSaved(old(state)).(seenElse := true, beforeElse := old(state.stack));
        state == old(state).(pp := old(state.pp)[|state.pp| - 1 := saved])
    {
      var copy, owned := DeepCopy(stack, state.stack);
      KeepForEndif(copy, owned);
    }

    method KeepForEndif(copy: seq<BlockObject<B>>, ghost owned: set<BlockObject<B>>)
      requires Valid() && ppStack != []
      requires Shows(copy, state.stack) && AllDistinct(copy) && Within(copy, owned) && owned !! Repr
      modifies `Repr, `state, ppStack[|ppStack| - 1]
      ensures Valid() && Repr == old(Repr) + owned
      ensures var saved := TopSaved(old(state)).(seenElse := true, beforeElse := old(state.stack));
        state == old(state).(pp := old(state.pp)[|state.pp| - 1 := saved])
    {
      var last := |ppStack| - 1;
      assert Entry(last);
      ppStack[last].RememberElse(copy, state.stack, owned);
      Repr := Repr + owned;
      state := state.(pp := state.pp[last := ppStack[last].saved]);
      forall k | 0 <= k < |ppStack| ensures Entry(k) {
        assert old(Entry(k)) && (k < last ==> old(Separate(k, last)));
      }
      forall k, m | 0 <= k < m < |ppStack| ensures Separate(k, m) {
        assert old(Separate(k, m)) && old(Entry(k)) && old(Entry(m)) && (m < last ==> old(Separate(m, last)));
      }
    }

    /** A copy of the stack before the `#if` becomes the stack. */
    method RestoreBeforeIf()
      requires Valid() && ppStack != []
      modifies this
      ensures Valid() && fresh(Repr - old(Repr)) && ppStack == old(ppStack)
      ensures state == old(state).(stack := TopSaved(old(state)).beforeIf)
    {
      assert Entry(|ppStack| - 1);
      var copy, owned := DeepCopy(ppStack[|ppStack| - 1].stackBeforeIf, TopSaved(state).beforeIf);
      ReplaceStack(copy, TopSaved(state).beforeIf, owned);
    }

    method ReplaceStack(copy: seq<BlockObject<B>>, ghost blocks: seq<B>, ghost owned: set<BlockObject<B>>)
      requires Valid()
      requires Shows(copy, blocks) && AllDistinct(copy) && Within(copy, owned) && owned !! Repr
      modifies `stack, `stackBlocks, `Repr, `state
      ensures Valid() && Repr == old(Repr) + owned
      ensures state == old(state).(stack := blocks)
    {
      stack, stackBlocks := copy, owned;
      Repr := Repr + owned;
      state := state.(stack := blocks);
      forall k | 0 <= k < |ppStack| ensures Entry(k) {
        assert old(Entry(k));
      }
      forall k, m | 0 <= k < m < |ppStack| ensures Separate(k, m) {
        assert old(Separate(k, m));
      }
    }

    /** `#endif`: the list saved at the `#else` becomes the stack without being copied. */
    method CloseConditional()
      requires Valid() && ppStack != []
      modifies this
      ensures Valid() && Repr == old(Repr)
      ensures state == Preprocess(old(state), Endif)
    {
      var last := |ppStack| - 1;
      var top := ppStack[last];
      assert Entry(last);
      if top.seenElse {
        stack, stackBlocks := top.stackBeforeElse, top.blocks;
      }
      ppStack := ppStack[..last];
      state := Preprocess(state, Endif);
      forall k | 0 <= k < |ppStack| ensures Entry(k) {
        assert old(Entry(k)) && old(Separate(k, last));
      }
      forall k, m | 0 <= k < m < |ppStack| ensures Separate(k, m) {
        assert old(Separate(k, m));
      }
    }

    /** One change a line makes to the stack; the top block is changed in place. */
    method Apply(e: Edit<B>)
      requires Valid()
      modifies Repr
      ensures Valid() && fresh(Repr - old(Repr))
      ensures state == old(state).(stack := ApplyEdit(old(state.stack), e))
    {
      match e
      case Push(b) =>
        PushBlock(b);
      case PopTop =>
        if stack != [] {
          PopBlock();
        }
      case ChangeTop(b) =>
        if stack != [] {
          ChangeTopInPlace(b);
        }
    }

    method PushBlock(b: B)
      requires Valid()
      modifies `stack, `stackBlocks, `Repr, `state
      ensures Valid() && fresh(Repr - old(Repr))
      ensures state == old(state).(stack := old(state.stack) + [b])
    {
      var o := new BlockObject<B>(b);
      stack, stackBlocks := stack + [o], stackBlocks + {o};
      Repr := Repr + {o};
      state := state.(stack := state.stack + [b]);
      forall k | 0 <= k < |ppStack| ensures Entry(k) {
        assert old(Entry(k));
      }
      forall k, m | 0 <= k < m < |ppStack| ensures Separate(k, m) {
        assert old(Separate(k, m));
      }
    }

    method PopBlock()
      requires Valid() && stack != []
      modifies `stack, `state
      ensures Valid()
      ensures state == old(state).(stack := ApplyEdit(old(state.stack), PopTop))
    {
      stack := stack[..|stack| - 1];
      state := state.(stack := state.stack[..|state.stack| - 1]);
      forall k | 0 <= k < |ppStack| ensures Entry(k) {
        assert old(Entry(k));
      }
      forall k, m | 0 <= k < m < |ppStack| ensures Separate(k, m) {
        assert old(Separate(k, m));
      }
    }

    method ChangeTopInPlace(b: B)
      requires Valid() && stack != []
      modifies `state, stack[|stack| - 1]
      ensures Valid()
      ensures state == old(state).(stack := ApplyEdit(old(state.stack), ChangeTop(b)))
    {
      var top := stack[|stack| - 1];
      top.info := b;
      state := state.(stack := state.stack[|stack| - 1 := b]);
      forall k | 0 <= k < |ppStack| ensures Entry(k) {
        assert old(Entry(k)) && top !in ppStack[k].blocks;
      }
      forall k, m | 0 <= k < m < |ppStack| ensures Separate(k, m) {
        assert old(Separate(k, m));
      }
    }

    /** The contents of the stack, as a line's effect sees them. */
    method Snapshot() returns (blocks: seq<B>)
      requires Valid()
      ensures blocks == state.stack
    {
      blocks := [];
      for n := 0 to |stack|
        invariant blocks == state.stack[..n]
      {
        blocks := blocks + [stack[n].info];
      }
    }

    /** `Update`: the preprocessor first, then the line's own edits. */
    method Update(effect: Effect<B>, line: Line)
      requires Valid()
      modifies Repr
      ensures Valid() && fresh(Repr - old(Repr))
      ensures state == LineStep(effect, old(state), line)
    {
      UpdatePreprocessor(line);
      var blocks := Snapshot();
      var edits := effect(blocks, line);
      ghost var before := state;
      for n := 0 to |edits|
        invariant Valid() && fresh(Repr - old(Repr))
        invariant state == before.(stack := ApplyEdits(before.stack, edits[..n]))
      {
        Apply(edits[n]);
        assert edits[..n + 1][..n] == edits[..n];
      }
      assert edits[..|edits|] == edits;
    }

    /** Processing the lines of a file in order is a run of the state machine. */
    method UpdateAll(effect: Effect<B>, lines: seq<Line>)
      requires Valid()
      modifies Repr
      ensures Valid() && fresh(Repr - old(Repr))
      ensures state == Run(effect, old(state), lines)
    {
      ghost var before := state;
      for n := 0 to |lines|
        invariant Valid() && fresh(Repr - old(Repr))
        invariant state == Run(effect, before, lines[..n])
      {
        Update(effect, lines[n]);
        assert lines[..n + 1][..n] == lines[..n];
      }
      assert lines[..|lines|] == lines;
    }
  }
}
