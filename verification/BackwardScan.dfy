// FindStartOfExpressionInLine and ReverseCloseExpression.
module BackwardScan {
  import opened Text
  import opened Brackets
  import opened Lines
  import opened Marking
  import opened Angles
  import opened ForwardScan

  // One turn of the loop: Next(j, s) goes on at column j.
  datatype Move = Next(i: int, stack: string) | Stop(result: Scan)

  function StartStep(line: string, i: nat, stack: string): Move
    requires i < |line|
  {
    var c := line[i];
    if IsCloser(c) then
      Next(i - 1, stack + [c])
    else if c == '>' then
      if SkipsGreater(line, i) then Next(i - 2, stack) else Next(i - 1, stack + ['>'])
    else if c == '<' then
      if i > 0 && line[i - 1] == '<' then Next(i - 2, stack)
      else if stack != [] && stack[|stack| - 1] == '>' then
        if |stack| == 1 then Stop(Found(i)) else Next(i - 1, stack[..|stack| - 1])
      else Next(i - 1, stack)
    else if IsOpener(c) then
      var rest := PopAll(stack, '>');
      if rest == [] || rest[|rest| - 1] != CloserOf(c) then Stop(Unmatched)
      else if |rest| == 1 then Stop(Found(i))
      else Next(i - 1, rest[..|rest| - 1])
    else if c == ';' then
      var rest := PopAll(stack, '>');
      if rest == [] then Stop(Unmatched) else Next(i - 1, rest)
    else
      Next(i - 1, stack)
  }

  function ScanBack(line: string, i: int, stack: string): Scan
    requires i < |line|
    decreases i + 2
  {
    if i < 0 then Carry(stack)
    else match StartStep(line, i, stack)
      case Next(j, s) => ScanBack(line, j, s)
      case Stop(r) => r
  }

  function OpenLines(lines: seq<string>, l: nat, i: int, stack: string): Option<Position>
    requires l < |lines| && i < |lines[l]|
    decreases l
  {
    match ScanBack(lines[l], i, stack)
    case Found(p) => Some((l, p))
    case Unmatched => None
    case Carry(s) => if s != [] && l > 0 then OpenLines(lines, l - 1, |lines[l - 1]| - 1, s) else None
  }

  predicate MayClose(line: string, pos: nat)
    requires pos < |line|
  {
    IsCloser(line[pos]) || line[pos] == '>'
  }

  // A result points at the opener.
  function ReverseClose(lines: seq<string>, l: nat, pos: nat): Option<Position>
    requires OnLine(lines, (l, pos))
  {
    if MayClose(lines[l], pos) then OpenLines(lines, l, pos, []) else None
  }

  lemma ReverseCloseStarts(lines: seq<string>, l: nat, p: nat)
    requires OnLine(lines, (l, p))
    ensures ReverseClose(lines, l, p) == if lines[l][p] in ")]}>" then OpenLines(lines, l, p, []) else None
  {
  }

  // The body of the loop; Stop leaves it.
  method StartTurn(line: string, i: nat, stack0: string) returns (r: Move)
    requires i < |line|
    ensures r == StartStep(line, i, stack0)
  {
    var c, stack := line[i], stack0;
    if c == ')' || c == ']' || c == '}' {
      stack := stack + [c];
    } else if c == '>' {
      if i > 0 && (line[i - 1] == '-' || GreaterEqualAt(line, i) || EndsInOperator(line[..i])) {
        return Next(i - 2, stack);
      } else {
        stack := stack + ['>'];
      }
    } else if c == '<' {
      if i > 0 && line[i - 1] == '<' {
        return Next(i - 2, stack);
      } else if stack != [] && stack[|stack| - 1] == '>' {
        stack := stack[..|stack| - 1];
        if stack == [] { return Stop(Found(i)); }
      }
    } else if c == '(' || c == '[' || c == '{' {
      stack := PopOperators(stack, '>');
      if stack == [] { return Stop(Unmatched); }
      var top := stack[|stack| - 1];
      if (c == '(' && top == ')') || (c == '[' && top == ']') || (c == '{' && top == '}') {
        stack := stack[..|stack| - 1];
        if stack == [] { return Stop(Found(i)); }
      } else {
        return Stop(Unmatched);
      }
    } else if c == ';' {
      stack := PopOperators(stack, '>');
      if stack == [] { return Stop(Unmatched); }
    }
    return Next(i - 1, stack);
  }

  method FindStartOfExpressionInLine(line: string, endpos: int, stack0: string) returns (r: Scan)
    requires endpos < |line|
    ensures r == ScanBack(line, endpos, stack0)
  {
    var stack := stack0;
    var i := endpos;
    while i >= 0
      invariant i < |line|
      invariant ScanBack(line, endpos, stack0) == ScanBack(line, i, stack)
    {
      var turn := StartTurn(line, i, stack);
      if turn.Stop? { return turn.result; }
      i, stack := turn.i, turn.stack;
    }
    return Carry(stack);
  }

  // startLine is 0 and startPos -1 when nothing opens the bracket.
  method ReverseCloseExpression(lines: seq<string>, linenum: nat, pos: nat)
    returns (line: string, startLine: nat, startPos: int)
    requires OnLine(lines, (linenum, pos))
    ensures match ReverseClose(lines, linenum, pos)
            case None => startLine == 0 && startPos == -1
            case Some(p) => (startLine, startPos) == p && startLine < |lines| && line == lines[startLine]
  {
    line := lines[linenum];
    if !(line[pos] in ")}]>") { return line, 0, -1; }
    startLine := linenum;
    var r := FindStartOfExpressionInLine(line, pos, []);
    if r.Found? { return line, startLine, r.pos; }
    while r.Carry? && r.stack != [] && startLine > 0
      invariant startLine < |lines| && !r.Found?
      invariant OpenLines(lines, linenum, pos, []) ==
        if r.Carry? && r.stack != [] && startLine > 0
        then OpenLines(lines, startLine - 1, |lines[startLine - 1]| - 1, r.stack) else None
      decreases startLine
    {
      startLine := startLine - 1;
      line := lines[startLine];
      r := FindStartOfExpressionInLine(line, |line| - 1, r.stack);
      if r.Found? { return line, startLine, r.pos; }
    }
    return line, 0, -1;
  }

  // The stack as a stack of CloseExpression.
  function FlipAll(stack: string): (r: string)
    ensures |r| == |stack|
  {
    seq(|stack|, k requires 0 <= k < |stack| => Flip(stack[k]))
  }

  lemma FlipSnoc(stack: string, c: char)
    ensures FlipAll(stack + [c]) == FlipAll(stack) + [Flip(c)]
  {
  }

  lemma FlipTop(stack: string)
    requires stack != []
    ensures FlipAll(stack)[..|stack| - 1] == FlipAll(stack[..|stack| - 1])
  {
  }

  lemma {:induction false} FlipPopAll(stack: string)
    ensures FlipAll(PopAll(stack, '>')) == PopAll(FlipAll(stack), '<')
  {
    if stack != [] {
      FlipTop(stack);
      if stack[|stack| - 1] == '>' { FlipPopAll(stack[..|stack| - 1]); }
    }
  }

  // Where the scan stands on a '<', it has passed the ones to the right of it in pairs.
  predicate Paired(line: string, i: int)
    requires i < |line|
  {
    i >= 0 && line[i] == '<' ==> LessRun(line, i) % 2 == 1
  }

  // What one turn does is what CloseExpression does on the flipped character and stack; the
  // column that a turn passes over is of no interest.
  predicate Mirrors(line: string, i: nat, r: Move, f: Scan)
    requires i < |line|
  {
    match r
    case Next(j, s) =>
      && f == Carry(FlipAll(s)) && -1 <= j < i && Paired(line, j)
      && (j == i - 1 || (j == i - 2 && BackMarkAt(line, i - 1).Plain?))
    case Stop(Found(p)) => p == i && f == Found(i)
    case Stop(u) => u == f == Unmatched
  }

  lemma TurnIsMirrored(line: string, i: nat, stack: string)
    requires i < |line| && Paired(line, i)
    ensures Mirrors(line, i, StartStep(line, i, stack), Act(Flip(line[i]), BackMarkAt(line, i), FlipAll(stack), i))
  {
    if line[i] == '>' {
      GreaterIsMirrored(line, i, stack);
    } else if line[i] == '<' {
      LessIsMirrored(line, i, stack);
    } else {
      FlipSnoc(stack, line[i]);
      FlipPopAll(stack);
      var rest := PopAll(stack, '>');
      if rest != [] { FlipTop(rest); }
    }
  }

  lemma GreaterIsMirrored(line: string, i: nat, stack: string)
    requires i < |line| && line[i] == '>'
    ensures Mirrors(line, i, StartStep(line, i, stack), Act(Flip(line[i]), BackMarkAt(line, i), FlipAll(stack), i))
  {
    FlipSnoc(stack, '>');
    if SkipsGreater(line, i) { SkippedIsPlain(line, i); }
  }

  lemma LessIsMirrored(line: string, i: nat, stack: string)
    requires i < |line| && Paired(line, i) && line[i] == '<'
    ensures Mirrors(line, i, StartStep(line, i, stack), Act(Flip(line[i]), BackMarkAt(line, i), FlipAll(stack), i))
  {
    if stack != [] { FlipTop(stack); }
  }

  // The reference over the lines of a file, from right to left.
  function MatchBack(lines: seq<string>, l: nat, i: int, open: Open): Option<Position>
    requires l < |lines| && i < |lines[l]|
    decreases l, i + 1
  {
    if i >= 0 then
      match Read(Flip(lines[l][i]), BackMarkAt(lines[l], i), open)
      case On(open') => MatchBack(lines, l, i - 1, open')
      case Closed => Some((l, i))
      case Failed => None
    else if l > 0 then MatchBack(lines, l - 1, |lines[l - 1]| - 1, open)
    else None
  }

  lemma MatchBackPlain(lines: seq<string>, l: nat, i: nat, open: Open)
    requires OnLine(lines, (l, i)) && BackMarkAt(lines[l], i).Plain? && open != NOTHING
    ensures MatchBack(lines, l, i, open) == MatchBack(lines, l, i - 1, open)
  {
  }

  // A turn of the scan, seen from the whole file.
  lemma MoveOnLines(lines: seq<string>, l: nat, i: nat, stack: string)
    requires OnLine(lines, (l, i))
    ensures var all := OpenLines(lines, l, i, stack);
            match StartStep(lines[l], i, stack)
            case Next(j, s) => all == OpenLines(lines, l, j, s)
            case Stop(Found(p)) => all == Some((l, p))
            case Stop(Unmatched) => all == None
            case Stop(_) => true
  {
  }

  lemma MovesAgree(lines: seq<string>, l: nat, i: nat, stack: string) returns (r: Move)
    requires OnLine(lines, (l, i)) && Paired(lines[l], i) && stack != []
    ensures var all, ref := OpenLines(lines, l, i, stack), MatchBack(lines, l, i, OpenOf(FlipAll(stack)));
            match r
            case Next(j, s) =>
              && s != [] && -1 <= j < i && Paired(lines[l], j) && all == OpenLines(lines, l, j, s)
              && ref == MatchBack(lines, l, j, OpenOf(FlipAll(s)))
            case Stop(_) => all == ref
  {
    var line := lines[l];
    r := StartStep(line, i, stack);
    MoveOnLines(lines, l, i, stack);
    TurnIsMirrored(line, i, stack);
    TurnIsRead(Flip(line[i]), BackMarkAt(line, i), FlipAll(stack), i);
    if r.Next? {
      OpenFacts(FlipAll(r.stack));
      if r.i == i - 2 { MatchBackPlain(lines, l, i - 1, OpenOf(FlipAll(r.stack))); }
    }
  }

  // With anything open, the scan does what the reference does.
  lemma {:induction false} OpenIsMatch(lines: seq<string>, l: nat, i: int, stack: string)
    requires l < |lines| && -1 <= i < |lines[l]| && Paired(lines[l], i) && stack != []
    ensures OpenLines(lines, l, i, stack) == MatchBack(lines, l, i, OpenOf(FlipAll(stack)))
    decreases l, i + 1
  {
    if i >= 0 {
      var r := MovesAgree(lines, l, i, stack);
      if r.Next? { OpenIsMatch(lines, l, r.i, r.stack); }
    } else if l > 0 {
      OpenIsMatch(lines, l - 1, |lines[l - 1]| - 1, stack);
    }
  }

  // The marks of the flat text as they read from right to left.
  function MirrorMarks(lines: seq<string>): (u: seq<Mark>)
    ensures |u| == |Mirror(Flat(lines))|
  {
    Reverse(FileMarks(lines, Backwards))
  }

  // The index of a position in the mirrored text.
  function MirrorIndex(lines: seq<string>, p: Position): int
    requires p.0 < |lines|
  {
    |Flat(lines)| - 1 - Index(lines, p)
  }

  lemma MirroredAt(lines: seq<string>, p: Position)
    requires OnLine(lines, p)
    ensures var t, u, k := Mirror(Flat(lines)), MirrorMarks(lines), MirrorIndex(lines, p);
            0 <= k < |t| && t[k] == Flip(lines[p.0][p.1]) && u[k] == BackMarkAt(lines[p.0], p.1)
  {
    CharAt(lines, p);
    FileMarkAt(lines, p, Backwards);
  }

  // A result at a character of the file stands for its index in the mirrored text.
  predicate AgreesBack(lines: seq<string>, r: Option<Position>, k: Option<int>) {
    match r
    case None => k == None
    case Some(a) => OnLine(lines, a) && k == Some(MirrorIndex(lines, a))
  }

  // t and u are the file and its marks, from right to left.
  ghost predicate ReadsBack(lines: seq<string>, t: string, u: seq<Mark>) {
    && |t| == |u| == |Flat(lines)|
    && forall p: Position {:trigger MirrorIndex(lines, p)} :: OnLine(lines, p) ==>
         var k := MirrorIndex(lines, p);
         0 <= k < |t| && t[k] == Flip(lines[p.0][p.1]) && u[k] == BackMarkAt(lines[p.0], p.1)
  }

  lemma MirrorReadsBack(lines: seq<string>)
    ensures ReadsBack(lines, Mirror(Flat(lines)), MirrorMarks(lines))
  {
    forall p: Position {:trigger MirrorIndex(lines, p)} | OnLine(lines, p) ensures
      var t, u, k := Mirror(Flat(lines)), MirrorMarks(lines), MirrorIndex(lines, p);
      0 <= k < |t| && t[k] == Flip(lines[p.0][p.1]) && u[k] == BackMarkAt(lines[p.0], p.1)
    {
      MirroredAt(lines, p);
    }
  }

  lemma MirrorTurn(lines: seq<string>, t: string, u: seq<Mark>, l: nat, i: nat, k: int, open: Open)
    returns (turn: Turn)
    requires OnLine(lines, (l, i)) && ReadsBack(lines, t, u) && k == MirrorIndex(lines, (l, i))
    ensures 0 <= k < |t|
    ensures var back, all := MatchBack(lines, l, i, open), MatchFrom(t, u, k, open);
            match turn
            case On(open') => back == MatchBack(lines, l, i - 1, open') && all == MatchFrom(t, u, k + 1, open')
            case Closed => back == Some((l, i)) && all == Some(k)
            case Failed => back == None && all == None
  {
    turn := Read(Flip(lines[l][i]), BackMarkAt(lines[l], i), open);
  }

  lemma StartOfLineMatch(lines: seq<string>, t: string, u: seq<Mark>, l: nat, k: int, open: Open)
    requires l < |lines| && ReadsBack(lines, t, u) && k == |t| - Offset(lines, l)
    ensures k >= 0
    ensures if l > 0
            then k == |t| - Offset(lines, l - 1) - |lines[l - 1]| &&
                 MatchBack(lines, l, -1, open) == MatchBack(lines, l - 1, |lines[l - 1]| - 1, open)
            else MatchFrom(t, u, k, open) == None && MatchBack(lines, l, -1, open) == None
  {
    OffsetInFlat(lines, l, 0);
    if l > 0 { OffsetNext(lines, l - 1); }
  }

  lemma {:induction false} MatchBackIsMatch(
    lines: seq<string>, t: string, u: seq<Mark>, l: nat, i: int, k: int, open: Open)
    requires l < |lines| && -1 <= i < |lines[l]| && ReadsBack(lines, t, u) && k == |t| - 1 - Offset(lines, l) - i
    ensures k >= 0 && AgreesBack(lines, MatchBack(lines, l, i, open), MatchFrom(t, u, k, open))
    decreases l, i + 1
  {
    if i >= 0 {
      var turn := MirrorTurn(lines, t, u, l, i, k, open);
      if turn.On? { MatchBackIsMatch(lines, t, u, l, i - 1, k + 1, turn.open); }
    } else {
      StartOfLineMatch(lines, t, u, l, k, open);
      if l > 0 { MatchBackIsMatch(lines, t, u, l - 1, |lines[l - 1]| - 1, k, open); }
    }
  }

  // The reference over lines and the reference on the mirrored flat text.
  lemma MatchOnMirror(lines: seq<string>, l: nat, i: int, k: int, open: Open)
    requires l < |lines| && -1 <= i < |lines[l]| && k == |Flat(lines)| - 1 - Offset(lines, l) - i
    ensures k >= 0
    ensures AgreesBack(lines, MatchBack(lines, l, i, open), MatchFrom(Mirror(Flat(lines)), MirrorMarks(lines), k, open))
  {
    MirrorReadsBack(lines);
    MatchBackIsMatch(lines, Mirror(Flat(lines)), MirrorMarks(lines), l, i, k, open);
  }

  lemma OneOpen(c: char)
    requires IsCloser(c) || c == '>'
    ensures OpenOf(FlipAll([c])) == if c == '>' then Open(1, []) else Open(0, [OpenerOf(c)])
  {
    var none: string := [];
    assert none + [Flip(c)] == FlipAll([c]) && none + [OpenerOf(c)] == [OpenerOf(c)];
    OpenSnoc(none, Flip(c));
  }

  // The bracket the scan starts on is pushed, unless it is a skipped '>'.
  lemma FirstTurnBack(lines: seq<string>, l: nat, q: nat)
    requires OnLine(lines, (l, q)) && MayClose(lines[l], q)
    requires lines[l][q] == '>' ==> !SkipsGreater(lines[l], q)
    ensures ReverseClose(lines, l, q) == OpenLines(lines, l, q - 1, [lines[l][q]]) && Paired(lines[l], q - 1)
  {
    var c := lines[l][q];
    assert [] + [c] == [c];
    MoveOnLines(lines, l, q, []);
  }
}
