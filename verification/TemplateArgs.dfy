// NestingState.InTemplateArgumentList.
module TemplateArgs {
  import opened Text
  import opened Lines
  import opened Marking
  import opened ForwardScan
  import opened ForwardAngles

  // A closing position lies strictly after the bracket it closes.
  lemma {:induction false} FoundIsLater(line: string, i: nat, stack: string)
    ensures var r := ScanLine(line, i, stack); r.Found? ==> i < r.pos <= |line|
    decreases |line| - i
  {
    if i < |line| {
      var r := EndStep(line, i, stack);
      if r.Carry? { FoundIsLater(line, i + 1, r.stack); }
    }
  }

  lemma {:induction false} CloseAdvances(lines: seq<string>, l: nat, i: nat, stack: string)
    requires l < |lines|
    ensures var r := CloseLines(lines, l, i, stack);
            r.Some? ==> var (m, e) := r.value;
              l <= m < |lines| && 0 < e <= |lines[m]| && (m == l ==> i < e)
    decreases |lines| - l
  {
    FoundIsLater(lines[l], i, stack);
    var r := ScanLine(lines[l], i, stack);
    if r.Carry? && l < |lines| - 1 { CloseAdvances(lines, l + 1, 0, r.stack); }
  }

  predicate IsToken(c: char) {
    c == '{' || c == '}' || c == ';' || c == '=' || c == '[' || c == ']' || c == '.' || c == '<' || c == '>'
  }

  lemma TokenMeaning(c: char)
    ensures IsToken(c) <==> c in "{};=[].<>"
  {
  }

  // The first character of t from i on that is one of cs stands at k.
  predicate FirstOf(t: string, cs: string, i: nat, k: nat) {
    i <= k < |t| && t[k] in cs && forall j :: i <= j < k ==> t[j] !in cs
  }

  // The verdict read off one character at a time: what comes first after (l, pos), where a '<' is
  // passed over together with everything up to its '>'.
  function Verdict(lines: seq<string>, l: nat, pos: nat): bool
    decreases |lines| - l, if l < |lines| then |lines[l]| - pos else 0
  {
    if l >= |lines| then false
    else if pos >= |lines[l]| then Verdict(lines, l + 1, 0)
    else
      var c := lines[l][pos];
      if c == '{' || c == '}' || c == ';' then false
      else if IsToken(c) && c != '<' then true
      else if c != '<' then Verdict(lines, l, pos + 1)
      else
        CloseAdvances(lines, l, pos, []);
        match Close(lines, l, pos)
        case None => false
        case Some((m, e)) => Verdict(lines, m, e)
  }

  // What the token expression matches: everything up to the first token character and that one;
  // failing that, the rest of the line.
  method MatchToken(line: string, pos: nat) returns (end: nat)
    requires pos < |line|
    ensures pos < end <= |line| && forall k :: pos <= k < end - 1 ==> line[k] !in "{};=[].<>"
    ensures FirstOf(line, "{};=[].<>", pos, end - 1) || end == |line|
  {
    end := pos + 1;
    while end < |line| && !IsToken(line[end - 1])
      invariant pos < end <= |line|
      invariant forall k :: pos <= k < end - 1 ==> line[k] !in "{};=[].<>"
    {
      TokenMeaning(line[end - 1]);
      end := end + 1;
    }
    TokenMeaning(line[end - 1]);
  }

  lemma {:induction false} SkipPlain(lines: seq<string>, l: nat, pos: nat, end: nat)
    requires l < |lines| && pos <= end <= |lines[l]|
    requires forall k :: pos <= k < end ==> lines[l][k] !in "{};=[].<>"
    ensures Verdict(lines, l, pos) == Verdict(lines, l, end)
    decreases end - pos
  {
    if pos < end {
      TokenMeaning(lines[l][pos]);
      SkipPlain(lines, l, pos + 1, end);
    }
  }

  // The loop ends on every text: each turn moves (line, column) forwards.
  method InTemplateArgumentList(lines: seq<string>, linenum: nat, pos: nat) returns (b: bool)
    ensures b == Verdict(lines, linenum, pos)
  {
    var l: nat, p: nat := linenum, pos;
    while l < |lines|
      invariant Verdict(lines, linenum, pos) == Verdict(lines, l, p)
      decreases |lines| - l, if l < |lines| then |lines[l]| - p else 0
    {
      var line := lines[l];
      if p >= |line| {
        l, p := l + 1, 0;
        continue;
      }
      var end := MatchToken(line, p);
      SkipPlain(lines, l, p, end - 1);
      var token := line[end - 1];
      p := end;
      if token == '{' || token == '}' || token == ';' { return false; }
      if token == '>' || token == '=' || token == '[' || token == ']' || token == '.' { return true; }
      if token != '<' {
        p := p + 1;
        if p >= |line| { l, p := l + 1, 0; }
        continue;
      }
      CloseAdvances(lines, l, p - 1, []);
      var _, endLine, endPos := CloseExpression(lines, l, p - 1);
      if endPos < 0 { return false; }
      l, p := endLine, endPos;
    }
    return false;
  }

  // What CloseExpression takes for the end of the '<' at p: of a skipped one, the end of the next
  // bracket or angle on its line.
  ghost predicate EndsAt(lines: seq<string>, p: Position, q: Position)
    requires OnLine(lines, p) && OnLine(lines, q)
  {
    && !(p.1 + 1 < |lines[p.0]| && lines[p.0][p.1 + 1] in "<=")
    && if SkipsLess(lines[p.0], p.1) then
         var s := FirstNotable(lines[p.0], p.1 + 1);
         s.Some? && ClosedAt(lines, p.0, s.value, q.0, q.1)
       else
         ClosesAt(lines, p, q)
  }

  lemma CloseIsEnd(lines: seq<string>, p: Position, q: Position)
    requires OnLine(lines, p) && OnLine(lines, q) && lines[p.0][p.1] == '<'
    ensures Close(lines, p.0, p.1) == Some((q.0, q.1 + 1)) <==> EndsAt(lines, p, q)
  {
    if MayOpen(lines[p.0], p.1) {
      if SkipsLess(lines[p.0], p.1) {
        SkippedAngleMeaning(lines, p.0, p.1, q.0, q.1);
      } else {
        AngleMeaning(lines, p.0, p.1, q.0, q.1);
      }
    }
  }

  type Argument = (Position, Position)  // a '<' and its end

  ghost predicate IsArgument(lines: seq<string>, a: Argument) {
    OnLine(lines, a.0) && OnLine(lines, a.1) && lines[a.0.0][a.0.1] == '<' && EndsAt(lines, a.0, a.1)
  }

  ghost function Arguments(lines: seq<string>): iset<Argument> { iset a: Argument | IsArgument(lines, a) }

  // The argument starts at the first token from index i on.
  predicate StartsAt(lines: seq<string>, i: nat, a: Argument) {
    OnLine(lines, a.0) && OnLine(lines, a.1) && FirstOf(Flat(lines), "{};=[].<>", i, Index(lines, a.0))
  }

  // From index i on, arguments follow each other, and the first token after them, at k, is one that
  // only argument lists have.
  ghost predicate IsChain(lines: seq<string>, args: iset<Argument>, i: nat, chain: seq<Argument>, k: nat)
    decreases |chain|
  {
    if chain == [] then FirstOf(Flat(lines), "{};=[].<>", i, k) && Flat(lines)[k] in ">=[]."
    else
      var a := chain[0];
      a in args && StartsAt(lines, i, a) && IsChain(lines, args, Index(lines, a.1) + 1, chain[1..], k)
  }

  // The place in the flat text from which the loop reads on.
  function From(lines: seq<string>, l: nat, pos: nat): nat {
    if l >= |lines| then |Flat(lines)|
    else if pos >= |lines[l]| then Offset(lines, l + 1) else Offset(lines, l) + pos
  }

  lemma FromNextLine(lines: seq<string>, l: nat)
    requires l < |lines|
    ensures From(lines, l + 1, 0) == Offset(lines, l + 1)
  {
    OffsetEnd(lines);
    if l + 1 < |lines| { OffsetNext(lines, l + 1); }
  }

  lemma FromAfter(lines: seq<string>, q: Position)
    requires OnLine(lines, q)
    ensures From(lines, q.0, q.1 + 1) == Index(lines, q) + 1
  {
    OffsetNext(lines, q.0);
  }

  // Such a set holds what CloseExpression finds.
  ghost predicate AreResults(lines: seq<string>, args: iset<Argument>) {
    forall a: Argument {:trigger a in args} ::
      a in args <==> && OnLine(lines, a.0) && OnLine(lines, a.1) && lines[a.0.0][a.0.1] == '<'
                     && Close(lines, a.0.0, a.0.1) == Some((a.1.0, a.1.1 + 1))
  }

  lemma ArgumentsAreResults(lines: seq<string>)
    ensures AreResults(lines, Arguments(lines))
  {
    forall a: Argument | OnLine(lines, a.0) && OnLine(lines, a.1) && lines[a.0.0][a.0.1] == '<'
      ensures EndsAt(lines, a.0, a.1) <==> Close(lines, a.0.0, a.0.1) == Some((a.1.0, a.1.1 + 1))
    {
      CloseIsEnd(lines, a.0, a.1);
    }
  }

  lemma FirstIsHere(t: string, i: nat, k: nat)
    requires i < |t| && t[i] in "{};=[].<>"
    ensures FirstOf(t, "{};=[].<>", i, k) <==> k == i
  {
  }

  // A chain starts with the '<' at which it stands.
  lemma StartsHere(lines: seq<string>, p: Position, a: Argument)
    requires OnLine(lines, p) && lines[p.0][p.1] == '<' && OnLine(lines, a.1)
    ensures StartsAt(lines, From(lines, p.0, p.1), a) <==> a.0 == p
  {
    CharAt(lines, p);
    if OnLine(lines, a.0) {
      FirstIsHere(Flat(lines), Index(lines, p), Index(lines, a.0));
      IndexInjective(lines, a.0, p);
    }
  }

  lemma ChainCons(lines: seq<string>, args: iset<Argument>, p: Position, q: Position, chain: seq<Argument>, k: nat)
    requires OnLine(lines, p) && lines[p.0][p.1] == '<' && OnLine(lines, q) && (p, q) in args
    ensures IsChain(lines, args, From(lines, q.0, q.1 + 1), chain, k) ==>
            IsChain(lines, args, From(lines, p.0, p.1), [(p, q)] + chain, k)
  {
    FromAfter(lines, q);
    StartsHere(lines, p, (p, q));
    assert ([(p, q)] + chain)[1..] == chain;
  }

  lemma ChainRest(lines: seq<string>, args: iset<Argument>, p: Position, chain: seq<Argument>, k: nat)
    returns (q: Position)
    requires OnLine(lines, p) && lines[p.0][p.1] == '<' && IsChain(lines, args, From(lines, p.0, p.1), chain, k)
    ensures chain != [] && OnLine(lines, q) && chain[0] == (p, q) && (p, q) in args
    ensures IsChain(lines, args, From(lines, q.0, q.1 + 1), chain[1..], k)
  {
    CharAt(lines, p);
    q := chain[0].1;
    FromAfter(lines, q);
    StartsHere(lines, p, chain[0]);
  }

  // A character that is no token can be left out.
  lemma ChainNext(lines: seq<string>, args: iset<Argument>, l: nat, pos: nat, chain: seq<Argument>, k: nat)
    requires OnLine(lines, (l, pos)) && !IsToken(lines[l][pos])
    ensures IsChain(lines, args, From(lines, l, pos), chain, k) <==>
            IsChain(lines, args, From(lines, l, pos + 1), chain, k)
  {
    var t, i := Flat(lines), From(lines, l, pos);
    CharAt(lines, (l, pos));
    FromAfter(lines, (l, pos));
    var j := if chain == [] || !OnLine(lines, chain[0].0) then k else Index(lines, chain[0].0);
    TokenMeaning(t[i]);
    assert FirstOf(t, "{};=[].<>", i, j) <==> FirstOf(t, "{};=[].<>", i + 1, j);
  }

  lemma ChainEnds(lines: seq<string>, args: iset<Argument>, l: nat, pos: nat, chain: seq<Argument>, k: nat)
    requires OnLine(lines, (l, pos)) && IsToken(lines[l][pos]) && lines[l][pos] != '<'
    requires AreResults(lines, args)
    ensures IsChain(lines, args, From(lines, l, pos), chain, k) ==> lines[l][pos] in ">=[]."
    ensures lines[l][pos] in ">=[]." ==> IsChain(lines, args, From(lines, l, pos), [], From(lines, l, pos))
  {
    CharAt(lines, (l, pos));
    TokenMeaning(lines[l][pos]);
    if chain != [] && OnLine(lines, chain[0].0) { CharAt(lines, chain[0].0); }
  }

  lemma NoChainAtEnd(lines: seq<string>, args: iset<Argument>, l: nat, pos: nat, chain: seq<Argument>, k: nat)
    requires l >= |lines|
    ensures !IsChain(lines, args, From(lines, l, pos), chain, k)
  {
  }

  lemma {:induction false} VerdictHasChain(lines: seq<string>, args: iset<Argument>, l: nat, pos: nat)
    returns (chain: seq<Argument>, k: nat)
    requires AreResults(lines, args) && Verdict(lines, l, pos)
    ensures IsChain(lines, args, From(lines, l, pos), chain, k)
    decreases |lines| - l, if l < |lines| then |lines[l]| - pos else 0
  {
    if pos >= |lines[l]| {
      FromNextLine(lines, l);
      chain, k := VerdictHasChain(lines, args, l + 1, 0);
    } else if !IsToken(lines[l][pos]) {
      chain, k := VerdictHasChain(lines, args, l, pos + 1);
      ChainNext(lines, args, l, pos, chain, k);
    } else if lines[l][pos] == '<' {
      CloseAdvances(lines, l, pos, []);
      var (m, e) := Close(lines, l, pos).value;
      chain, k := VerdictHasChain(lines, args, m, e);
      ChainCons(lines, args, (l, pos), (m, e - 1), chain, k);
      chain := [((l, pos), (m, e - 1))] + chain;
    } else {
      chain, k := [], From(lines, l, pos);
      ChainEnds(lines, args, l, pos, chain, k);
    }
  }

  lemma {:induction false} ChainGivesVerdict(
    lines: seq<string>, args: iset<Argument>, l: nat, pos: nat, chain: seq<Argument>, k: nat)
    requires AreResults(lines, args) && IsChain(lines, args, From(lines, l, pos), chain, k)
    ensures Verdict(lines, l, pos)
    decreases |lines| - l, if l < |lines| then |lines[l]| - pos else 0
  {
    if l >= |lines| {
      NoChainAtEnd(lines, args, l, pos, chain, k);
    } else if pos >= |lines[l]| {
      FromNextLine(lines, l);
      ChainGivesVerdict(lines, args, l + 1, 0, chain, k);
    } else if !IsToken(lines[l][pos]) {
      ChainNext(lines, args, l, pos, chain, k);
      ChainGivesVerdict(lines, args, l, pos + 1, chain, k);
    } else if lines[l][pos] == '<' {
      CloseAdvances(lines, l, pos, []);
      var q := ChainRest(lines, args, (l, pos), chain, k);
      ChainGivesVerdict(lines, args, q.0, q.1 + 1, chain[1..], k);
    } else {
      ChainEnds(lines, args, l, pos, chain, k);
    }
  }

  ghost predicate HasChain(lines: seq<string>, args: iset<Argument>, i: nat) {
    exists chain: seq<Argument>, k: nat :: IsChain(lines, args, i, chain, k)
  }

  lemma VerdictByResults(lines: seq<string>, args: iset<Argument>, l: nat, pos: nat)
    requires AreResults(lines, args)
    ensures Verdict(lines, l, pos) <==> HasChain(lines, args, From(lines, l, pos))
  {
    if Verdict(lines, l, pos) {
      var chain, k := VerdictHasChain(lines, args, l, pos);
    }
    if chain: seq<Argument>, k: nat :| IsChain(lines, args, From(lines, l, pos), chain, k) {
      ChainGivesVerdict(lines, args, l, pos, chain, k);
    }
  }

  // The verdict, on every text: from the given place on, template arguments follow each other, each
  // passed over up to the end that CloseExpression finds, and then comes one of ">=[].".
  lemma VerdictMeaning(lines: seq<string>, l: nat, pos: nat)
    ensures Verdict(lines, l, pos) <==> HasChain(lines, Arguments(lines), From(lines, l, pos))
  {
    ArgumentsAreResults(lines);
    VerdictByResults(lines, Arguments(lines), l, pos);
  }

  lemma EmptyChain(lines: seq<string>, args: iset<Argument>, i: nat, k: nat)
    requires FirstOf(Flat(lines), "{};=[].<>", i, k) && Flat(lines)[k] in ">=[]."
    ensures HasChain(lines, args, i)
  {
    var none: seq<Argument> := [];
    assert IsChain(lines, args, i, none, k);
  }

  lemma PlainChain(lines: seq<string>, args: iset<Argument>, i: nat) returns (k: nat)
    requires AreResults(lines, args) && HasChain(lines, args, i)
    requires forall k :: i <= k < |Flat(lines)| ==> Flat(lines)[k] != '<'
    ensures FirstOf(Flat(lines), "{};=[].<>", i, k) && Flat(lines)[k] in ">=[]."
  {
    var chain: seq<Argument>;
    chain, k :| IsChain(lines, args, i, chain, k);
    if chain != [] { CharAt(lines, chain[0].0); }
  }

  // Where no '<' follows, it is the kind of the first token of the remaining text.
  lemma VerdictOfPlainText(lines: seq<string>, l: nat, pos: nat)
    requires forall k :: From(lines, l, pos) <= k < |Flat(lines)| ==> Flat(lines)[k] != '<'
    ensures Verdict(lines, l, pos) <==>
            exists k: nat :: FirstOf(Flat(lines), "{};=[].<>", From(lines, l, pos), k) && Flat(lines)[k] in ">=[]."
  {
    ArgumentsAreResults(lines);
    var t, args, i := Flat(lines), Arguments(lines), From(lines, l, pos);
    VerdictByResults(lines, args, l, pos);
    if HasChain(lines, args, i) { var k := PlainChain(lines, args, i); }
    if exists k: nat :: FirstOf(t, "{};=[].<>", i, k) && t[k] in ">=[]." {
      var k: nat :| FirstOf(t, "{};=[].<>", i, k) && t[k] in ">=[].";
      EmptyChain(lines, args, i, k);
    }
  }
}
