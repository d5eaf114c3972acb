// NestingState.UpdatePreprocessor and the frame of NestingState.Update, on values.
module Preprocessor {
  import opened Text

  datatype Directive = If | Else | Endif | Other

  function TrimLeft(s: string): string {
    if s != [] && IsSpace(s[0]) then TrimLeft(s[1..]) else s
  }

  function Word(s: string): string {
    if s != [] && IsWordChar(s[0]) then [s[0]] + Word(s[1..]) else []
  }

  function Keyword(w: string): Directive {
    if w == "if" || w == "ifdef" || w == "ifndef" then If
    else if w == "else" || w == "elif" then Else
    else if w == "endif" then Endif
    else Other
  }

  // The three regular expressions of UpdatePreprocessor.
  function DirectiveOf(line: string): Directive {
    var s := TrimLeft(line);
    if s == [] || s[0] != '#' then Other else Keyword(Word(TrimLeft(s[1..])))
  }

  predicate AllSpace(s: string) { forall i :: 0 <= i < |s| ==> IsSpace(s[i]) }

  lemma {:induction false} TrimLeftOf(a: string, s: string)
    requires AllSpace(a) && (s == [] || !IsSpace(s[0]))
    ensures TrimLeft(a + s) == s
  {
    if a == [] {
      assert a + s == s;
    } else {
      assert (a + s)[1..] == a[1..] + s;
      TrimLeftOf(a[1..], s);
    }
  }

  lemma {:induction false} TrimmedPart(s: string) returns (a: string)
    ensures AllSpace(a) && s == a + TrimLeft(s) && (TrimLeft(s) == [] || !IsSpace(TrimLeft(s)[0]))
  {
    a := [];
    if s != [] && IsSpace(s[0]) {
      var rest := TrimmedPart(s[1..]);
      a := [s[0]] + rest;
    }
  }

  lemma {:induction false} WordOf(w: string, rest: string)
    requires forall i :: 0 <= i < |w| ==> IsWordChar(w[i])
    requires rest == [] || !IsWordChar(rest[0])
    ensures Word(w + rest) == w
  {
    if w == [] {
      assert w + rest == rest;
    } else {
      assert (w + rest)[1..] == w[1..] + rest;
      WordOf(w[1..], rest);
    }
  }

  lemma {:induction false} WordPart(s: string) returns (rest: string)
    ensures s == Word(s) + rest && (rest == [] || !IsWordChar(rest[0]))
    ensures forall i :: 0 <= i < |Word(s)| ==> IsWordChar(Word(s)[i])
  {
    rest := s;
    if s != [] && IsWordChar(s[0]) { rest := WordPart(s[1..]); }
  }

  // line reads a # b w rest with space a and b, and the word w ends there.
  predicate Reads(line: string, a: string, b: string, w: string, rest: string) {
    line == a + "#" + b + w + rest && (forall c <- a + b :: c in SPACES) && !InWord(rest, 0)
  }

  lemma ReadsKeyword(line: string, a: string, b: string, w: string, rest: string)
    requires Reads(line, a, b, w, rest) && w != [] && forall i :: 0 <= i < |w| ==> IsWordChar(w[i])
    ensures DirectiveOf(line) == Keyword(w)
  {
    forall i | 0 <= i < |a| ensures IsSpace(a[i]) { assert a[i] in a + b; SpaceMeaning(a[i]); }
    forall i | 0 <= i < |b| ensures IsSpace(b[i]) { assert b[i] in a + b; SpaceMeaning(b[i]); }
    var after := b + (w + rest);
    assert line == a + (['#'] + after);
    TrimLeftOf(a, ['#'] + after);
    assert (['#'] + after)[1..] == after;
    TrimLeftOf(b, w + rest);
    WordOf(w, rest);
  }

  lemma DirectiveReads(line: string) returns (a: string, b: string, w: string, rest: string)
    requires DirectiveOf(line) != Other
    ensures Reads(line, a, b, w, rest) && Keyword(w) == DirectiveOf(line)
  {
    var s := TrimLeft(line);
    var t := TrimLeft(s[1..]);
    a := TrimmedPart(line);
    b := TrimmedPart(s[1..]);
    w, rest := Word(t), [];
    rest := WordPart(t);
    forall c <- a + b ensures c in SPACES { SpaceMeaning(c); }
    assert s == ['#'] + s[1..];
    Regroup(a, b, w, rest);
  }

  lemma Regroup(a: string, b: string, w: string, rest: string)
    ensures a + (['#'] + (b + (w + rest))) == a + "#" + b + w + rest
  {
  }

  ghost predicate ReadsOneOf(line: string, words: seq<string>) {
    exists a, b, w, rest :: w in words && Reads(line, a, b, w, rest)
  }

  lemma KeywordsAreWords(w: string)
    ensures Keyword(w) == If <==> w in ["if", "ifdef", "ifndef"]
    ensures Keyword(w) == Else <==> w in ["else", "elif"]
    ensures Keyword(w) == Endif <==> w in ["endif"]
    ensures Keyword(w) != Other ==> w != [] && forall i :: 0 <= i < |w| ==> IsWordChar(w[i])
  {
  }

  lemma OneOfIsDirective(line: string, words: seq<string>, d: Directive)
    requires d != Other && forall w :: Keyword(w) == d <==> w in words
    ensures DirectiveOf(line) == d <==> ReadsOneOf(line, words)
  {
    if DirectiveOf(line) == d { var a, b, w, rest := DirectiveReads(line); }
    if a, b, w, rest :| w in words && Reads(line, a, b, w, rest) {
      KeywordsAreWords(w);
      ReadsKeyword(line, a, b, w, rest);
    }
  }

  // The classification is what the regular expressions say: space, '#', space, one of the
  // keywords, and the end of a word.
  lemma DirectiveMeaning(line: string)
    ensures DirectiveOf(line) == If <==> ReadsOneOf(line, ["if", "ifdef", "ifndef"])
    ensures DirectiveOf(line) == Else <==> ReadsOneOf(line, ["else", "elif"])
    ensures DirectiveOf(line) == Endif <==> ReadsOneOf(line, ["endif"])
  {
    forall w {:trigger Keyword(w)} ensures
      && (Keyword(w) == If <==> w in ["if", "ifdef", "ifndef"]) && (Keyword(w) == Else <==> w in ["else", "elif"])
      && (Keyword(w) == Endif <==> w in ["endif"])
    {
      KeywordsAreWords(w);
    }
    OneOfIsDirective(line, ["if", "ifdef", "ifndef"], If);
    OneOfIsDirective(line, ["else", "elif"], Else);
    OneOfIsDirective(line, ["endif"], Endif);
  }

  // _PreprocessorInfo and NestingState with the contents of the blocks in place of the blocks.
  datatype Info<V> = Info(beforeIf: seq<V>, beforeElse: seq<V>, seenElse: bool)
  datatype State<V> = State(stack: seq<V>, pp: seq<Info<V>>)

  function UpdatePp<V>(d: Directive, st: State<V>): State<V> {
    var n := |st.pp|;
    match d
    case If => st.(pp := st.pp + [Info(st.stack, [], false)])
    case Else =>
      if n == 0 then st
      else
        var top := st.pp[n - 1];
        var top' := if top.seenElse then top else top.(seenElse := true, beforeElse := st.stack);
        State(top.beforeIf, st.pp[n - 1 := top'])
    case Endif =>
      if n == 0 then st
      else
        var top := st.pp[n - 1];
        State(if top.seenElse then top.beforeElse else st.stack, st.pp[..n - 1])
    case Other => st
  }

  function Directives(lines: seq<string>): (ds: seq<Directive>)
    ensures |ds| == |lines|
  {
    seq(|lines|, k requires 0 <= k < |lines| => DirectiveOf(lines[k]))
  }

  // What the rest of Update does to the stack on a line: any function of line number and stack.
  type Step<!V> = (nat, seq<V>) -> seq<V>

  function Update<V>(d: Directive, step: Step<V>, k: nat, st: State<V>): State<V> {
    var st' := UpdatePp(d, st);
    st'.(stack := step(k, st'.stack))
  }

  function RunAll<V>(ds: seq<Directive>, step: Step<V>, k: nat, st: State<V>): State<V>
    requires k <= |ds|
    decreases |ds| - k
  {
    if k == |ds| then st else RunAll(ds, step, k + 1, Update(ds[k], step, k, st))
  }

  // For every open #if, whether its #else or #elif has been seen. No states are involved.
  type Flags = seq<bool>

  function Next(d: Directive, fs: Flags): Flags {
    match d
    case If => fs + [false]
    case Else => if fs == [] then fs else fs[|fs| - 1 := true]
    case Endif => if fs == [] then fs else fs[..|fs| - 1]
    case Other => fs
  }

  function FlagsAt(ds: seq<Directive>, k: nat, fs: Flags): Flags
    requires k <= |ds|
    decreases |ds| - k
  {
    if k == |ds| then fs else FlagsAt(ds, k + 1, Next(ds[k], fs))
  }

  predicate Live(fs: Flags) { forall i :: 0 <= i < |fs| ==> !fs[i] }

  // The run that skips every line from an #else or #elif up to, not including, its #endif.
  function RunFirstBranches<V>(ds: seq<Directive>, step: Step<V>, k: nat, fs: Flags, st: State<V>): State<V>
    requires k <= |ds|
    decreases |ds| - k
  {
    if k == |ds| then st
    else
      var fs' := Next(ds[k], fs);
      RunFirstBranches(ds, step, k + 1, fs', if Live(fs') then Update(ds[k], step, k, st) else st)
  }

  function FirstDead(fs: Flags): (d: nat)
    requires !Live(fs)
    ensures d < |fs| && fs[d] && Live(fs[..d])
  {
    if fs[0] then 0 else
      assert !Live(fs[1..]) by { var i :| 0 <= i < |fs| && fs[i]; assert fs[1..][i - 1]; }
      1 + FirstDead(fs[1..])
  }

  lemma FirstDeadUnique(fs: Flags, d: nat)
    requires d < |fs| && fs[d] && Live(fs[..d])
    ensures !Live(fs) && FirstDead(fs) == d
  {
    var e := FirstDead(fs);
    assert forall i :: 0 <= i < d ==> fs[..d][i] == fs[i];
    assert forall i :: 0 <= i < e ==> fs[..e][i] == fs[i];
  }

  // How the full run relates to the run that skips: equal in a first branch; elsewhere the
  // outermost #if already left by its #else keeps what the skipping run still has live.
  predicate Related<V(==)>(full: State<V>, skip: State<V>, fs: Flags) {
    && |full.pp| == |fs|
    && (forall i :: 0 <= i < |fs| ==> full.pp[i].seenElse == fs[i])
    && (forall i :: 0 <= i < |fs| && !fs[i] ==> full.pp[i].beforeElse == [])
    && if Live(fs) then full == skip
       else
         var d := FirstDead(fs);
         && skip.stack == full.pp[d].beforeElse
         && skip.pp == full.pp[..d] + [Info(full.pp[d].beforeIf, [], false)]
  }

  lemma RelatedDead<V>(full: State<V>, skip: State<V>, fs: Flags, d: nat)
    requires d < |fs| && fs[d] && Live(fs[..d]) && |full.pp| == |fs|
    requires forall i :: 0 <= i < |fs| ==> full.pp[i].seenElse == fs[i]
    requires forall i :: 0 <= i < |fs| && !fs[i] ==> full.pp[i].beforeElse == []
    requires skip.stack == full.pp[d].beforeElse
    requires skip.pp == full.pp[..d] + [Info(full.pp[d].beforeIf, [], false)]
    ensures Related(full, skip, fs)
  {
    FirstDeadUnique(fs, d);
  }

  lemma LiveLine<V>(ds: seq<Directive>, step: Step<V>, k: nat, st: State<V>, fs: Flags)
    requires k < |ds| && Live(fs) && Related(st, st, fs)
    ensures var fs' := Next(ds[k], fs);
            Related(Update(ds[k], step, k, st), if Live(fs') then Update(ds[k], step, k, st) else st, fs')
  {
    var n, fs' := |fs|, Next(ds[k], fs);
    if ds[k] == Else && n > 0 {
      var full := Update(ds[k], step, k, st);
      assert fs'[..n - 1] == fs[..n - 1];
      assert st.pp == full.pp[..n - 1] + [Info(full.pp[n - 1].beforeIf, [], false)];
      RelatedDead(full, st, fs', n - 1);
    }
  }

  lemma DeadLine<V>(ds: seq<Directive>, step: Step<V>, k: nat, full: State<V>, skip: State<V>, fs: Flags)
    requires k < |ds| && !Live(fs) && Related(full, skip, fs)
    ensures var fs' := Next(ds[k], fs);
            Related(Update(ds[k], step, k, full), if Live(fs') then Update(ds[k], step, k, skip) else skip, fs')
  {
    var n, d, fs' := |fs|, FirstDead(fs), Next(ds[k], fs);
    var full' := Update(ds[k], step, k, full);
    if ds[k] == Endif && d == n - 1 {
      assert fs' == fs[..d] && full'.pp == full.pp[..d] == skip.pp[..d];
    } else {
      DeadPrefix(ds[k], full, fs, d);
      RelatedDead(full', skip, fs', d);
    }
  }

  // In a skipped branch nothing up to the innermost open #if changes, and of that only the tail.
  lemma DeadPrefix<V>(c: Directive, full: State<V>, fs: Flags, d: nat)
    requires |full.pp| == |fs| && d < |fs| && fs[d] && Live(fs[..d]) && (c == Endif ==> d < |fs| - 1)
    requires forall i :: 0 <= i < |fs| ==> full.pp[i].seenElse == fs[i]
    requires forall i :: 0 <= i < |fs| && !fs[i] ==> full.pp[i].beforeElse == []
    ensures var pp', fs' := UpdatePp(c, full).pp, Next(c, fs);
            && |pp'| == |fs'| > d && fs'[..d] == fs[..d] && fs'[d] && pp'[..d] == full.pp[..d] && pp'[d] == full.pp[d]
            && (forall i :: 0 <= i < |fs'| ==> pp'[i].seenElse == fs'[i])
            && (forall i :: 0 <= i < |fs'| && !fs'[i] ==> pp'[i].beforeElse == [])
  {
  }

  lemma {:induction false} RunsStayRelated<V>(
    ds: seq<Directive>, step: Step<V>, k: nat, full: State<V>, skip: State<V>, fs: Flags)
    requires k <= |ds| && Related(full, skip, fs)
    ensures Related(RunAll(ds, step, k, full), RunFirstBranches(ds, step, k, fs, skip), FlagsAt(ds, k, fs))
    decreases |ds| - k
  {
    if k < |ds| {
      if Live(fs) { LiveLine(ds, step, k, full, fs); } else { DeadLine(ds, step, k, full, skip, fs); }
      var fs' := Next(ds[k], fs);
      RunsStayRelated(ds, step, k + 1, Update(ds[k], step, k, full),
                      if Live(fs') then Update(ds[k], step, k, skip) else skip, fs');
    }
  }

  // For every file, well nested or not, and every step: at the end stack and pp_stack are those of
  // the run that skips all #else and #elif branches, exactly when the file does not end in one.
  lemma BranchesDoNotInterfere<V>(ds: seq<Directive>, step: Step<V>)
    ensures RunAll(ds, step, 0, State([], [])) == RunFirstBranches(ds, step, 0, [], State([], [])) <==>
            Live(FlagsAt(ds, 0, []))
  {
    RunsStayRelated(ds, step, 0, State([], []), State([], []), []);
    var fs := FlagsAt(ds, 0, []);
    if !Live(fs) {
      var d, skip := FirstDead(fs), RunFirstBranches(ds, step, 0, [], State([], []));
      assert !skip.pp[d].seenElse;
    }
  }

  // The grammar's condition: no #endif without its #if, and none missing at the end.
  predicate WellNested(ds: seq<Directive>, k: nat, depth: nat)
    requires k <= |ds|
    decreases |ds| - k
  {
    if k == |ds| then depth == 0
    else match ds[k]
      case If => WellNested(ds, k + 1, depth + 1)
      case Else => depth > 0 && WellNested(ds, k + 1, depth)
      case Endif => depth > 0 && WellNested(ds, k + 1, depth - 1)
      case Other => WellNested(ds, k + 1, depth)
  }

  lemma {:induction false} WellNestedEndsLive(ds: seq<Directive>, k: nat, fs: Flags)
    requires k <= |ds| && WellNested(ds, k, |fs|)
    ensures FlagsAt(ds, k, fs) == []
    decreases |ds| - k
  {
    if k < |ds| { WellNestedEndsLive(ds, k + 1, Next(ds[k], fs)); }
  }

  lemma WellNestedFiles<V>(ds: seq<Directive>, step: Step<V>)
    requires WellNested(ds, 0, 0)
    ensures RunAll(ds, step, 0, State([], [])) == RunFirstBranches(ds, step, 0, [], State([], []))
    ensures RunAll(ds, step, 0, State([], [])).pp == []
  {
    WellNestedEndsLive(ds, 0, []);
    BranchesDoNotInterfere(ds, step);
    RunsStayRelated(ds, step, 0, State([], []), State([], []), []);
  }

  // Is line j, counted from line k, outside every #else branch?
  predicate Kept(ds: seq<Directive>, k: nat, fs: Flags, j: nat)
    requires k <= j < |ds|
    decreases j - k
  {
    var fs' := Next(ds[k], fs);
    if j == k then Live(fs') else Kept(ds, k + 1, fs', j)
  }

  lemma {:induction false} SkippedLinesUnread<V>(
    ds: seq<Directive>, step: Step<V>, step': Step<V>, k: nat, fs: Flags, st: State<V>)
    requires k <= |ds|
    requires forall j, s :: k <= j < |ds| && Kept(ds, k, fs, j) ==> step(j, s) == step'(j, s)
    ensures RunFirstBranches(ds, step, k, fs, st) == RunFirstBranches(ds, step', k, fs, st)
    decreases |ds| - k
  {
    if k < |ds| {
      var fs' := Next(ds[k], fs);
      assert Kept(ds, k, fs, k) == Live(fs');
      forall j, s | k + 1 <= j < |ds| && Kept(ds, k + 1, fs', j) ensures step(j, s) == step'(j, s) {
        assert Kept(ds, k, fs, j);
      }
      SkippedLinesUnread(ds, step, step', k + 1, fs', if Live(fs') then Update(ds[k], step, k, st) else st);
    }
  }

  // Whatever the lines of the #else branches do to the stack, the end of the file shows nothing of it.
  lemma ElseBranchesAreInvisible<V(!new)>(ds: seq<Directive>, step: Step<V>, step': Step<V>)
    requires Live(FlagsAt(ds, 0, []))
    requires forall j, s :: 0 <= j < |ds| && Kept(ds, 0, [], j) ==> step(j, s) == step'(j, s)
    ensures RunAll(ds, step, 0, State([], [])) == RunAll(ds, step', 0, State([], []))
  {
    BranchesDoNotInterfere(ds, step);
    BranchesDoNotInterfere(ds, step');
    SkippedLinesUnread(ds, step, step', 0, [], State([], []));
  }

  // Each line outside the #else branches applied once, in order, and nothing else.
  function RunKept<V>(ds: seq<Directive>, step: Step<V>, k: nat, fs: Flags, s: seq<V>): seq<V>
    requires k <= |ds|
    decreases |ds| - k
  {
    if k == |ds| then s
    else
      var fs' := Next(ds[k], fs);
      RunKept(ds, step, k + 1, fs', if Live(fs') then step(k, s) else s)
  }

  // The skipping run saves as many stacks as #ifs are open for it and has seen the #else of none.
  predicate SkipsAll<V>(st: State<V>, fs: Flags) {
    && |st.pp| == (if Live(fs) then |fs| else FirstDead(fs) + 1)
    && forall i :: 0 <= i < |st.pp| ==> !st.pp[i].seenElse
  }

  lemma SkipNext<V>(d: Directive, step: Step<V>, k: nat, fs: Flags, st: State<V>)
    requires SkipsAll(st, fs)
    ensures var fs' := Next(d, fs);
            var st' := if Live(fs') then Update(d, step, k, st) else st;
            SkipsAll(st', fs') && st'.stack == if Live(fs') then step(k, st.stack) else st.stack
  {
    var n, fs' := |fs|, Next(d, fs);
    if d.If? {
      assert fs'[..n] == fs;
      if !Live(fs) { FirstDeadUnique(fs', FirstDead(fs)); }
    } else if d.Else? && n > 0 {
      assert fs'[n - 1];
      if Live(fs) {
        assert fs'[..n - 1] == fs[..n - 1];
        FirstDeadUnique(fs', n - 1);
      } else {
        FirstDeadUnique(fs', FirstDead(fs));
      }
    } else if d.Endif? && n > 0 && !Live(fs) {
      var e := FirstDead(fs);
      if e < n - 1 { FirstDeadUnique(fs', e); }
    }
  }

  lemma {:induction false} SkippingIsKept<V>(ds: seq<Directive>, step: Step<V>, k: nat, fs: Flags, st: State<V>)
    requires k <= |ds| && SkipsAll(st, fs)
    ensures RunFirstBranches(ds, step, k, fs, st).stack == RunKept(ds, step, k, fs, st.stack)
    decreases |ds| - k
  {
    if k < |ds| {
      var fs' := Next(ds[k], fs);
      SkipNext(ds[k], step, k, fs, st);
      SkippingIsKept(ds, step, k + 1, fs', if Live(fs') then Update(ds[k], step, k, st) else st);
    }
  }

  // Unless the file ends in an #else branch, the stack at its end is what the lines outside of
  // #else branches make of the empty stack, as if there were no directives.
  lemma FinalStackIsKept<V>(ds: seq<Directive>, step: Step<V>)
    requires Live(FlagsAt(ds, 0, []))
    ensures RunAll(ds, step, 0, State([], [])).stack == RunKept(ds, step, 0, [], [])
  {
    BranchesDoNotInterfere(ds, step);
    SkippingIsKept(ds, step, 0, [], State([], []));
  }

  // The state before line k, and the stack that line k itself is read with, right after the
  // preprocessor step.
  function StateAt<V>(ds: seq<Directive>, step: Step<V>, k: nat): State<V>
    requires k <= |ds|
  {
    if k == 0 then State([], []) else Update(ds[k - 1], step, k - 1, StateAt(ds, step, k - 1))
  }

  function SeenAt<V>(ds: seq<Directive>, step: Step<V>, k: nat): seq<V>
    requires k < |ds|
  {
    UpdatePp(ds[k], StateAt(ds, step, k)).stack
  }

  lemma {:induction false} StateAtIsRun<V>(ds: seq<Directive>, step: Step<V>, k: nat)
    requires k <= |ds|
    ensures RunAll(ds, step, k, StateAt(ds, step, k)) == RunAll(ds, step, 0, State([], []))
  {
    if k > 0 { StateAtIsRun(ds, step, k - 1); }
  }

  // How many conditionals that start in lines from..k are open before line k; None if one was
  // closed that does not start there.
  function Depth(ds: seq<Directive>, from: nat, k: nat): Option<nat>
    requires from <= k <= |ds|
    decreases k
  {
    if k == from then Some(0)
    else match Depth(ds, from, k - 1)
      case None => None
      case Some(d) =>
        match ds[k - 1]
        case If => Some(d + 1)
        case Endif => if d == 0 then None else Some(d - 1)
        case _ => Some(d)
  }

  // The #if in line i is the innermost one that is open before line k.
  predicate Encloses(ds: seq<Directive>, i: nat, k: nat) {
    i < k <= |ds| && ds[i] == If && Depth(ds, i + 1, k) == Some(0)
  }

  // The first #else or #elif of the #if in line i, if there is one before line k.
  function FirstElse(ds: seq<Directive>, i: nat, k: nat): (r: Option<nat>)
    requires k <= |ds|
    ensures match r
            case None => forall j :: i < j < k && Encloses(ds, i, j) ==> ds[j] != Else
            case Some(m) => i < m < k && Encloses(ds, i, m) && ds[m] == Else &&
                            forall j :: i < j < m && Encloses(ds, i, j) ==> ds[j] != Else
  {
    if k == 0 then None
    else match FirstElse(ds, i, k - 1)
      case Some(m) => Some(m)
      case None => if Encloses(ds, i, k - 1) && ds[k - 1] == Else then Some(k - 1) else None
  }

  // An #if keeps its entry of pp_stack while it is open: the stack before it and, if an #else has
  // been met, the stack before the first. before is the state before the #if, d the number of
  // conditionals open inside it.
  predicate Keeps<V(==)>(before: State<V>, beforeElse: Option<seq<V>>, st: State<V>, d: nat) {
    var n := |before.pp|;
    && |st.pp| == n + 1 + d && st.pp[n].beforeIf == before.stack
    && match beforeElse
       case None => !st.pp[n].seenElse
       case Some(s) => st.pp[n].seenElse && st.pp[n].beforeElse == s
  }

  lemma KeepsNext<V>(before: State<V>, beforeElse: Option<seq<V>>, st: State<V>, d: nat, c: Directive)
    requires Keeps(before, beforeElse, st, d) && (c.Endif? ==> d > 0)
    ensures Keeps(before, if c.Else? && d == 0 && beforeElse.None? then Some(st.stack) else beforeElse,
                  UpdatePp(c, st), if c.If? then d + 1 else if c.Endif? then d - 1 else d)
  {
  }

  // The stack before the first #else of the #if in line i.
  function StackBeforeElse<V>(ds: seq<Directive>, step: Step<V>, i: nat, k: nat): Option<seq<V>>
    requires k <= |ds|
  {
    match FirstElse(ds, i, k) case None => None case Some(m) => Some(StateAt(ds, step, m).stack)
  }

  lemma {:induction false} OpenIfKeeps<V>(ds: seq<Directive>, step: Step<V>, i: nat, k: nat)
    requires i < k <= |ds| && ds[i] == If && Depth(ds, i + 1, k).Some?
    ensures Keeps(StateAt(ds, step, i), StackBeforeElse(ds, step, i, k), StateAt(ds, step, k),
                  Depth(ds, i + 1, k).value)
    decreases k
  {
    if k > i + 1 {
      OpenIfKeeps(ds, step, i, k - 1);
      KeepsNext(StateAt(ds, step, i), StackBeforeElse(ds, step, i, k - 1), StateAt(ds, step, k - 1),
                Depth(ds, i + 1, k - 1).value, ds[k - 1]);
    }
  }

  // How many #ifs are open before line k.
  function OpenIfs(ds: seq<Directive>, k: nat): nat
    requires k <= |ds|
  {
    if k == 0 then 0
    else
      var n := OpenIfs(ds, k - 1);
      match ds[k - 1] case If => n + 1 case Endif => if n == 0 then 0 else n - 1 case _ => n
  }

  lemma {:induction false} EntriesAreOpenIfs<V>(ds: seq<Directive>, step: Step<V>, k: nat)
    requires k <= |ds|
    ensures |StateAt(ds, step, k).pp| == OpenIfs(ds, k)
  {
    if k > 0 { EntriesAreOpenIfs(ds, step, k - 1); }
  }

  lemma {:induction false} OpenIfAt(ds: seq<Directive>, k: nat, e: nat) returns (i: nat)
    requires k <= |ds| && e < OpenIfs(ds, k)
    ensures i < k && ds[i] == If && Depth(ds, i + 1, k) == Some(OpenIfs(ds, k) - 1 - e)
  {
    if ds[k - 1] == If && e == OpenIfs(ds, k - 1) { i := k - 1; } else { i := OpenIfAt(ds, k - 1, e); }
  }

  // An #else or #elif goes back to the stack before its #if.
  lemma ElseGoesBack<V>(ds: seq<Directive>, step: Step<V>, i: nat, k: nat)
    requires k < |ds| && Encloses(ds, i, k) && ds[k] == Else
    ensures SeenAt(ds, step, k) == StateAt(ds, step, i).stack
  {
    OpenIfKeeps(ds, step, i, k);
  }

  // The stack a line is read with, given the stacks before all lines: under the #if in line i an
  // #else or #elif goes back to the stack before line i, an #endif to the stack before the first
  // #else of that #if.
  predicate SeenUnder<V(==)>(ds: seq<Directive>, before: seq<seq<V>>, i: nat, k: nat, seen: seq<V>)
    requires k < |ds| == |before| - 1 && Encloses(ds, i, k)
  {
    match ds[k]
    case Else => seen == before[i]
    case Endif => (match FirstElse(ds, i, k) case None => seen == before[k] case Some(m) => seen == before[m])
    case _ => true
  }

  // Every other line, also an #else or #endif without #if, goes on with the stack before it.
  ghost predicate GoesOn(ds: seq<Directive>, k: nat)
    requires k < |ds|
  {
    ds[k].If? || ds[k].Other? || forall i {:trigger Encloses(ds, i, k)} :: !Encloses(ds, i, k)
  }

  ghost predicate IsSeen<V>(ds: seq<Directive>, before: seq<seq<V>>, k: nat, seen: seq<V>)
    requires k < |ds| == |before| - 1
  {
    && (forall i :: Encloses(ds, i, k) ==> SeenUnder(ds, before, i, k, seen))
    && (GoesOn(ds, k) ==> seen == before[k])
  }

  lemma EnclosedIsSeen<V>(ds: seq<Directive>, step: Step<V>, before: seq<seq<V>>, i: nat, k: nat)
    requires k < |ds| == |before| - 1 && forall j :: 0 <= j <= |ds| ==> before[j] == StateAt(ds, step, j).stack
    requires Encloses(ds, i, k)
    ensures SeenUnder(ds, before, i, k, SeenAt(ds, step, k))
  {
    OpenIfKeeps(ds, step, i, k);
  }

  lemma OtherIsSeen<V>(ds: seq<Directive>, step: Step<V>, k: nat)
    requires k < |ds| && GoesOn(ds, k)
    ensures SeenAt(ds, step, k) == StateAt(ds, step, k).stack
  {
    EntriesAreOpenIfs(ds, step, k);
    if OpenIfs(ds, k) > 0 {
      var i := OpenIfAt(ds, k, OpenIfs(ds, k) - 1);
      assert Encloses(ds, i, k);
    }
  }

  lemma LineIsSeen<V>(ds: seq<Directive>, step: Step<V>, before: seq<seq<V>>, k: nat) returns (seen: seq<V>)
    requires k < |ds| == |before| - 1 && forall j :: 0 <= j <= |ds| ==> before[j] == StateAt(ds, step, j).stack
    ensures seen == SeenAt(ds, step, k) && IsSeen(ds, before, k, seen)
  {
    seen := SeenAt(ds, step, k);
    forall i | Encloses(ds, i, k) ensures SeenUnder(ds, before, i, k, seen) {
      EnclosedIsSeen(ds, step, before, i, k);
    }
    if GoesOn(ds, k) { OtherIsSeen(ds, step, k); }
  }

  // The stacks of a whole run: before each line and after the last, and those the lines are read
  // with.
  ghost predicate AreStacks<V>(ds: seq<Directive>, step: Step<V>, before: seq<seq<V>>, seen: seq<seq<V>>) {
    && |before| == |ds| + 1 && |seen| == |ds| && before[0] == []
    && (forall k :: 0 <= k < |ds| ==> IsSeen(ds, before, k, seen[k]))
    && (forall k :: 0 <= k < |ds| ==> before[k + 1] == step(k, seen[k]))
  }

  ghost predicate Recorded<V>(
    ds: seq<Directive>, step: Step<V>, before: seq<seq<V>>, seen: seq<seq<V>>, k: nat)
  {
    && k <= |ds| && |before| == k + 1 && |seen| == k
    && (forall j :: 0 <= j <= k ==> before[j] == StateAt(ds, step, j).stack)
    && (forall j :: 0 <= j < k ==> seen[j] == SeenAt(ds, step, j))
  }

  lemma RecordedNext<V>(ds: seq<Directive>, step: Step<V>, before: seq<seq<V>>, seen: seq<seq<V>>, k: nat)
    requires k < |ds| && Recorded(ds, step, before, seen, k)
    ensures Recorded(ds, step, before + [StateAt(ds, step, k + 1).stack], seen + [SeenAt(ds, step, k)], k + 1)
  {
  }

  lemma RecordIsRun<V>(ds: seq<Directive>, step: Step<V>, before: seq<seq<V>>, seen: seq<seq<V>>)
    requires Recorded(ds, step, before, seen, |ds|)
    ensures AreStacks(ds, step, before, seen)
  {
    forall k | 0 <= k < |ds| ensures IsSeen(ds, before, k, seen[k]) {
      var read := LineIsSeen(ds, step, before, k);
    }
    forall k | 0 <= k < |ds| ensures before[k + 1] == step(k, seen[k]) { NextStack(ds, step, k); }
  }

  lemma NextStack<V>(ds: seq<Directive>, step: Step<V>, k: nat)
    requires k < |ds|
    ensures StateAt(ds, step, k + 1).stack == step(k, SeenAt(ds, step, k))
  {
  }

  // A whole file: the stacks of its lines, and the state at its end.
  ghost predicate IsFileRun<V>(
    ds: seq<Directive>, step: Step<V>, before: seq<seq<V>>, seen: seq<seq<V>>, end: State<V>)
  {
    && AreStacks(ds, step, before, seen) && end.stack == before[|ds|]
    && end == RunAll(ds, step, 0, State([], []))
    && (Live(FlagsAt(ds, 0, [])) ==>
          && end == RunFirstBranches(ds, step, 0, [], State([], []))
          && end.stack == RunKept(ds, step, 0, [], []))
  }

  lemma RecordIsFileRun<V>(ds: seq<Directive>, step: Step<V>, before: seq<seq<V>>, seen: seq<seq<V>>)
    requires Recorded(ds, step, before, seen, |ds|)
    ensures IsFileRun(ds, step, before, seen, StateAt(ds, step, |ds|))
  {
    RecordIsRun(ds, step, before, seen);
    StateAtIsRun(ds, step, |ds|);
    BranchesDoNotInterfere(ds, step);
    if Live(FlagsAt(ds, 0, [])) { FinalStackIsKept(ds, step); }
  }
}
