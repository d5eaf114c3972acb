// NestingState with its block objects: what is copied, what is handed over, what is shared.
module NestingStates {
  import P = Preprocessor

  // _BlockInfo and its subclasses; info stands for all their fields, which Update assigns in place.
  class Block<V> {
    var info: V

    constructor (info: V)
      ensures this.info == info
    {
      this.info := info;
    }
  }

  type Blocks<V> = set<Block<V>>

  ghost predicate NoRepeat<V>(s: seq<Block<V>>) {
    forall i, j :: 0 <= i < j < |s| ==> s[i] != s[j]
  }

  ghost predicate Holds<V>(s: seq<Block<V>>, values: seq<V>)
    reads s
  {
    |s| == |values| && forall i :: 0 <= i < |s| ==> s[i].info == values[i]
  }

  ghost function Objects<V>(s: seq<Block<V>>): Blocks<V> { set b | b in s }

  method NewBlocks<V>(infos: seq<V>) returns (t: seq<Block<V>>)
    ensures fresh(Objects(t)) && NoRepeat(t) && Holds(t, infos)
  {
    t := [];
    for k := 0 to |infos|
      invariant |t| == k && (forall b :: b in t ==> fresh(b)) && NoRepeat(t)
      invariant forall i :: 0 <= i < k ==> t[i].info == infos[i]
    {
      var b := new Block(infos[k]);
      t := t + [b];
    }
  }

  method Read<V>(s: seq<Block<V>>, ghost values: seq<V>) returns (infos: seq<V>)
    requires Holds(s, values)
    ensures infos == values
  {
    infos := [];
    for i := 0 to |s|
      invariant infos == values[..i]
    {
      infos := infos + [s[i].info];
    }
  }

  method Overwrite<V>(s: seq<Block<V>>, infos: seq<V>)
    requires NoRepeat(s) && |s| == |infos|
    modifies s
    ensures Holds(s, infos)
  {
    for i := 0 to |s|
      invariant forall j :: 0 <= j < i ==> s[j].info == infos[j]
    {
      s[i].info := infos[i];
    }
  }

  lemma NoRepeatConcat<V>(s: seq<Block<V>>, t: seq<Block<V>>)
    requires NoRepeat(s) && NoRepeat(t) && Objects(s) !! Objects(t)
    ensures NoRepeat(s + t)
  {
    forall i, j | 0 <= i < |s| && 0 <= j < |t| ensures s[i] != t[j] {
      assert s[i] in Objects(s) && t[j] in Objects(t);
    }
  }

  // copy.deepcopy of a stack of blocks
  method DeepCopy<V>(s: seq<Block<V>>, ghost values: seq<V>) returns (t: seq<Block<V>>)
    requires Holds(s, values)
    ensures fresh(Objects(t)) && NoRepeat(t) && Holds(t, values)
  {
    var infos := Read(s, values);
    t := NewBlocks(infos);
  }

  class PreprocessorInfo<V> {
    var stackBeforeIf: seq<Block<V>>
    var stackBeforeElse: seq<Block<V>>
    var seenElse: bool
    ghost var info: P.Info<V>     // the contents
    ghost var own: Blocks<V>  // the blocks of both stacks

    // No block occurs twice.
    ghost predicate Valid()
      reads this, own
    {
      && NoRepeat(stackBeforeIf) && NoRepeat(stackBeforeElse)
      && Objects(stackBeforeIf) !! Objects(stackBeforeElse)
      && own == Objects(stackBeforeIf) + Objects(stackBeforeElse)
      && Holds(stackBeforeIf, info.beforeIf) && Holds(stackBeforeElse, info.beforeElse)
      && seenElse == info.seenElse
    }

    constructor (stackBeforeIf: seq<Block<V>>, ghost values: seq<V>)
      requires NoRepeat(stackBeforeIf) && Holds(stackBeforeIf, values)
      ensures Valid() && info == P.Info(values, [], false) && own == Objects(stackBeforeIf)
    {
      this.stackBeforeIf := stackBeforeIf;
      stackBeforeElse := [];
      seenElse := false;
      info := P.Info(values, [], false);
      own := Objects(stackBeforeIf);
    }

    method Remember(copy: seq<Block<V>>, ghost values: seq<V>)
      requires Valid() && !seenElse && NoRepeat(copy) && Holds(copy, values) && Objects(copy) !! own
      modifies this
      ensures Valid() && info == old(info).(seenElse := true, beforeElse := values)
      ensures own <= old(own) + Objects(copy)
    {
      seenElse := true;
      stackBeforeElse := copy;
      info := info.(seenElse := true, beforeElse := values);
      own := Objects(stackBeforeIf) + Objects(copy);
    }
  }

  // The live stack and the saved stacks, each given by its blocks, never share a block; all holds
  // every block.
  ghost predicate Apart<V>(live: Blocks<V>, owns: seq<Blocks<V>>, all: Blocks<V>) {
    && live <= all
    && (forall i :: 0 <= i < |owns| ==> owns[i] <= all && live !! owns[i])
    && (forall i, j :: 0 <= i < j < |owns| ==> owns[i] !! owns[j])
  }

  // New blocks may go to the live stack, to a new saved stack and to one that is there.
  lemma ApartLive<V>(live: Blocks<V>, owns: seq<Blocks<V>>, all: Blocks<V>, live': Blocks<V>, extra: Blocks<V>)
    requires Apart(live, owns, all) && extra !! all && live' <= live + extra
    ensures Apart(live', owns, all + extra)
  {
  }

  lemma ApartSave<V>(live: Blocks<V>, owns: seq<Blocks<V>>, all: Blocks<V>, extra: Blocks<V>)
    requires Apart(live, owns, all) && extra !! all
    ensures Apart(live, owns + [extra], all + extra)
  {
  }

  lemma ApartGrow<V>(live: Blocks<V>, owns: seq<Blocks<V>>, all: Blocks<V>, own: Blocks<V>, extra: Blocks<V>)
    requires Apart(live, owns, all) && extra !! all && owns != [] && own <= owns[|owns| - 1] + extra
    ensures Apart(live, owns[|owns| - 1 := own], all + extra)
  {
  }

  // The last saved stack, or a part of it, becomes the live one.
  lemma ApartLeave<V>(live: Blocks<V>, owns: seq<Blocks<V>>, all: Blocks<V>, live': Blocks<V>)
    requires Apart(live, owns, all) && owns != [] && (live' <= owns[|owns| - 1] || live' <= live)
    ensures Apart(live', owns[..|owns| - 1], all)
  {
  }

  // The entries of pp_stack with their blocks, all of them among all, and their contents.
  ghost predicate Entered<V>(s: seq<PreprocessorInfo<V>>, owns: seq<Blocks<V>>, infos: seq<P.Info<V>>, all: Blocks<V>)
    reads s, all
  {
    && |s| == |owns| == |infos|
    && forall i :: 0 <= i < |s| ==> s[i].own == owns[i] <= all && s[i].Valid() && s[i].info == infos[i]
  }

  lemma EnteredOneMore<V>(
    s: seq<PreprocessorInfo<V>>, owns: seq<Blocks<V>>, infos: seq<P.Info<V>>, all: Blocks<V>, x: PreprocessorInfo<V>)
    requires Entered(s, owns, infos, all) && x.Valid()
    ensures Entered(s + [x], owns + [x.own], infos + [x.info], all + x.own)
  {
  }

  class NestingState<V> {
    var stack: seq<Block<V>>
    var ppStack: seq<PreprocessorInfo<V>>
    ghost var state: P.State<V>      // the contents of all stacks
    ghost var owns: seq<Blocks<V>>  // the blocks of every saved entry
    ghost var blocks: Blocks<V>  // every block ever on a stack

    // Live and saved stacks never share a block, and no stack holds a block twice.
    ghost predicate Valid()
      reads this, ppStack, blocks
    {
      && NoRepeat(stack) && Apart(Objects(stack), owns, blocks) && (forall b :: b in stack ==> b in blocks)
      && Holds(stack, state.stack)
      && Entered(ppStack, owns, state.pp, blocks)
      && (forall i, j :: 0 <= i < j < |ppStack| ==> ppStack[i] != ppStack[j])
    }

    ghost function Entries(s: seq<PreprocessorInfo<V>>): set<PreprocessorInfo<V>> { set x | x in s }

    constructor ()
      ensures Valid() && state == P.State([], []) && blocks == {}
    {
      stack, ppStack := [], [];
      state, owns, blocks := P.State([], []), [], {};
    }

    method UpdatePreprocessor(d: P.Directive)
      requires Valid()
      modifies this, ppStack
      ensures Valid() && state == P.UpdatePp(d, old(state)) && fresh(blocks - old(blocks))
      ensures fresh(Entries(ppStack) - Entries(old(ppStack)))
    {
      match d
      case If => PushIf();
      case Else => if ppStack != [] { EnterElse(); }
      case Endif => if ppStack != [] { LeaveIf(); }
      case Other =>
    }

    method NewInfo() returns (info: PreprocessorInfo<V>)
      requires Valid()
      ensures fresh(info) && fresh(info.own) && info.Valid() && info.info == P.Info(state.stack, [], false)
    {
      var copy := DeepCopy(stack, state.stack);
      info := new PreprocessorInfo(copy, state.stack);
    }

    method PushIf()
      requires Valid()
      modifies this
      ensures Valid() && state == P.UpdatePp(P.If, old(state)) && fresh(blocks - old(blocks))
      ensures fresh(Entries(ppStack) - Entries(old(ppStack)))
    {
      ghost var all := blocks;
      var info := NewInfo();
      assert info.own !! all;
      ApartSave(Objects(stack), owns, all, info.own);
      EnteredOneMore(ppStack, owns, state.pp, all, info);
      ppStack := ppStack + [info];
      owns := owns + [info.own];
      state := P.UpdatePp(P.If, state);
      blocks := all + info.own;
    }

    method EnterElse()
      requires Valid() && ppStack != []
      modifies this, ppStack
      ensures Valid() && state == P.UpdatePp(P.Else, old(state)) && fresh(blocks - old(blocks))
      ensures ppStack == old(ppStack)
    {
      if !ppStack[|ppStack| - 1].seenElse { RememberElse(); }
      RestoreStack();
    }

    // The stack up to the first #else is saved for after #endif.
    method RememberElse()
      requires Valid() && ppStack != [] && !ppStack[|ppStack| - 1].seenElse
      modifies `state, `owns, `blocks, ppStack[|ppStack| - 1]
      ensures Valid() && fresh(blocks - old(blocks))
      ensures var n := |old(state).pp|;
              state == old(state).(pp := old(state).pp[n - 1 :=
                old(state).pp[n - 1].(seenElse := true, beforeElse := old(state).stack)])
    {
      ghost var all := blocks;
      var copy := DeepCopy(stack, state.stack);
      assert Objects(copy) !! all;
      KeepCopy(copy);
    }

    method KeepCopy(copy: seq<Block<V>>)
      requires Valid() && ppStack != [] && !ppStack[|ppStack| - 1].seenElse
      requires NoRepeat(copy) && Holds(copy, state.stack) && Objects(copy) !! blocks
      modifies `state, `owns, `blocks, ppStack[|ppStack| - 1]
      ensures Valid() && blocks == old(blocks) + Objects(copy)
      ensures var n := |old(state).pp|;
              state == old(state).(pp := old(state).pp[n - 1 :=
                old(state).pp[n - 1].(seenElse := true, beforeElse := old(state).stack)])
    {
      var n, top := |ppStack|, ppStack[|ppStack| - 1];
      assert Entered(ppStack[..n - 1], owns[..n - 1], state.pp[..n - 1], blocks);
      assert top !in ppStack[..n - 1];
      top.Remember(copy, state.stack);
      assert Entered(ppStack[..n - 1], owns[..n - 1], state.pp[..n - 1], blocks);
      ApartGrow(Objects(stack), owns, blocks, top.own, Objects(copy));
      owns := owns[n - 1 := top.own];
      blocks := blocks + Objects(copy);
      state := state.(pp := state.pp[n - 1 := top.info]);
    }

    method RestoreStack()
      requires Valid() && ppStack != []
      modifies this
      ensures Valid() && ppStack == old(ppStack) && fresh(blocks - old(blocks))
      ensures state == old(state).(stack := old(state).pp[|old(state).pp| - 1].beforeIf)
    {
      ghost var all := blocks;
      var top := ppStack[|ppStack| - 1];
      var copy := DeepCopy(top.stackBeforeIf, top.info.beforeIf);
      assert Objects(copy) !! all;
      ApartLive(Objects(stack), owns, all, Objects(copy), Objects(copy));
      stack := copy;
      blocks := all + Objects(copy);
      state := state.(stack := top.info.beforeIf);
    }

    // At #endif the saved stack itself becomes the live one: this is the last reference to it.
    method LeaveIf()
      requires Valid() && ppStack != []
      modifies this
      ensures Valid() && state == P.UpdatePp(P.Endif, old(state)) && blocks == old(blocks)
      ensures ppStack == old(ppStack)[..|old(ppStack)| - 1]
    {
      var n := |ppStack|;
      var top := ppStack[n - 1];
      ghost var live := Objects(stack);
      if top.seenElse { stack := top.stackBeforeElse; }
      ApartLeave(live, owns, blocks, Objects(stack));
      ppStack := ppStack[..n - 1];
      owns := owns[..n - 1];
      state := P.UpdatePp(P.Endif, state);
    }

    // The rest of Update: blocks that stay on the stack are overwritten in place, blocks above
    // are popped or newly made. step gives the contents.
    method ChangeStack(k: nat, step: P.Step<V>)
      requires Valid()
      modifies this, stack
      ensures Valid() && state == old(state).(stack := step(k, old(state).stack)) && fresh(blocks - old(blocks))
      ensures ppStack == old(ppStack)
    {
      var values := Read(stack, state.stack);
      var infos := step(k, values);
      if |infos| < |stack| { Pop(|infos|); }
      OverwriteAll(infos[..|stack|]);
      var n := |stack|;
      Push(infos[n..]);
      assert infos == infos[..n] + infos[n..];
    }

    method Pop(n: nat)
      requires Valid() && n <= |stack|
      modifies this
      ensures Valid() && state == old(state).(stack := old(state).stack[..n])
      ensures ppStack == old(ppStack) && blocks == old(blocks) && stack == old(stack)[..n]
    {
      ApartLive(Objects(stack), owns, blocks, Objects(stack[..n]), {});
      stack := stack[..n];
      state := state.(stack := state.stack[..n]);
    }

    method OverwriteAll(infos: seq<V>)
      requires Valid() && |infos| == |stack|
      modifies `state, stack
      ensures Valid() && state == old(state).(stack := infos)
    {
      Overwrite(stack, infos);
      state := state.(stack := infos);
    }

    method Push(infos: seq<V>)
      requires Valid()
      modifies this
      ensures Valid() && state == old(state).(stack := old(state).stack + infos)
      ensures ppStack == old(ppStack) && fresh(blocks - old(blocks))
    {
      ghost var all := blocks;
      var pushed := NewBlocks(infos);
      NoRepeatConcat(stack, pushed);
      ApartLive(Objects(stack), owns, all, Objects(stack + pushed), Objects(pushed));
      stack := stack + pushed;
      state := state.(stack := state.stack + infos);
      blocks := blocks + Objects(pushed);
    }

    // seen is the stack that the line itself is read with.
    method Update(line: string, k: nat, step: P.Step<V>) returns (ghost seen: seq<V>)
      requires Valid()
      modifies this, ppStack, blocks
      ensures Valid() && fresh(blocks - old(blocks))
      ensures state == P.Update(P.DirectiveOf(line), step, k, old(state))
      ensures seen == P.UpdatePp(P.DirectiveOf(line), old(state)).stack && state.stack == step(k, seen)
      ensures fresh(Entries(ppStack) - Entries(old(ppStack)))
    {
      UpdatePreprocessor(P.DirectiveOf(line));
      seen := state.stack;
      assert forall b :: b in stack ==> b in blocks;
      ChangeStack(k, step);
    }

    // A whole file, line by line: the objects end up as the run on values says, and with that as
    // the run that never enters an #else branch, unless the file ends in one. before has the stack
    // of objects before each line and after the last, seen the one that each line is read with.
    method UpdateFile(lines: seq<string>, step: P.Step<V>)
      returns (ghost before: seq<seq<V>>, ghost seen: seq<seq<V>>)
      requires Valid() && state == P.State([], [])
      modifies this, ppStack, blocks
      ensures Valid()
      ensures P.IsFileRun(P.Directives(lines), step, before, seen, state)
    {
      ghost var ds := P.Directives(lines);
      before, seen := [state.stack], [];
      for k := 0 to |lines|
        invariant Valid() && fresh(blocks - old(blocks))
        invariant fresh(Entries(ppStack) - Entries(old(ppStack)))
        invariant state == P.StateAt(ds, step, k) && P.Recorded(ds, step, before, seen, k)
      {
        ghost var read := Update(lines[k], k, step);
        P.RecordedNext(ds, step, before, seen, k);
        before, seen := before + [state.stack], seen + [read];
      }
      P.RecordIsFileRun(ds, step, before, seen);
    }
  }
}
