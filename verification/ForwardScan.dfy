// FindEndOfExpressionInLine and CloseExpression.
module ForwardScan {
  import opened Text
  import opened Brackets
  import opened Lines
  import opened Marking
  import opened Angles

  // Found(i): (i, None). Unmatched: (-1, None). Carry(s): (-1, s).
  datatype Scan = Found(pos: nat) | Unmatched | Carry(stack: string)

  // The stack without the angle marks on its top.
  function PopAll(stack: string, angle: char): string {
    if stack != [] && stack[|stack| - 1] == angle then PopAll(stack[..|stack| - 1], angle) else stack
  }

  lemma {:induction false} PopAllFacts(stack: string, angle: char)
    ensures var r := PopAll(stack, angle);
            r <= stack && (r != [] ==> r[|r| - 1] != angle) && (stack != [] && stack[0] != angle ==> r != [])
  {
    if stack != [] && stack[|stack| - 1] == angle { PopAllFacts(stack[..|stack| - 1], angle); }
  }

  function PopAngle(stack: string): string {
    if stack != [] && stack[|stack| - 1] == '<' then stack[..|stack| - 1] else stack
  }

  // What one turn of the loop does with character c, of mark m, before column next.
  function Act(c: char, m: Mark, stack: string, next: nat): Scan {
    var popped, rest := PopAngle(stack), PopAll(stack, '<');
    match m
    case Bracket =>
      if IsOpener(c) then Carry(stack + [c])
      else if rest == [] || rest[|rest| - 1] != OpenerOf(c) then Unmatched
      else if |rest| == 1 then Found(next)
      else Carry(rest[..|rest| - 1])
    case Up => Carry(stack + ['<'])
    case Down => if popped == [] && stack != [] then Found(next) else Carry(popped)
    case Shift => if popped == [] && stack != [] then Unmatched else Carry(popped)
    case Semicolon => if rest == [] then Unmatched else Carry(rest)
    case Plain => Carry(stack)
  }

  function EndStep(line: string, i: nat, stack: string): Scan
    requires i < |line|
  {
    Act(line[i], MarkAt(line, i), stack, i + 1)
  }

  function ScanLine(line: string, i: nat, stack: string): Scan
    decreases |line| - i
  {
    if i >= |line| then Carry(stack)
    else match EndStep(line, i, stack)
      case Carry(s) => ScanLine(line, i + 1, s)
      case r => r
  }

  // From line l, column i, over as many lines as it takes; a result points past the closer.
  function CloseLines(lines: seq<string>, l: nat, i: nat, stack: string): Option<Position>
    requires l < |lines|
    decreases |lines| - l
  {
    match ScanLine(lines[l], i, stack)
    case Found(e) => Some((l, e))
    case Unmatched => None
    case Carry(s) => if s != [] && l < |lines| - 1 then CloseLines(lines, l + 1, 0, s) else None
  }

  // The first test of CloseExpression: line[pos] opens something, and is not '<<' or '<='.
  predicate MayOpen(line: string, pos: nat)
    requires pos < |line|
  {
    (IsOpener(line[pos]) || line[pos] == '<') &&
    !(line[pos] == '<' && pos + 1 < |line| && (line[pos + 1] == '<' || line[pos + 1] == '='))
  }

  function Close(lines: seq<string>, l: nat, pos: nat): Option<Position>
    requires OnLine(lines, (l, pos))
  {
    if MayOpen(lines[l], pos) then CloseLines(lines, l, pos, []) else None
  }

  // It fails at once on "<<" and "<=" and on what opens nothing, and scans from everything else.
  lemma CloseStarts(lines: seq<string>, l: nat, p: nat)
    requires OnLine(lines, (l, p))
    ensures var line := lines[l];
            Close(lines, l, p) ==
            if line[p] in "([{" || (line[p] == '<' && !(p + 1 < |line| && line[p + 1] in "<="))
            then CloseLines(lines, l, p, []) else None
  {
  }

  // The body of the loop; a result other than Carry leaves it.
  method EndTurn(line: string, i: nat, stack0: string) returns (r: Scan)
    requires i < |line|
    ensures r == EndStep(line, i, stack0)
  {
    var c, stack := line[i], stack0;
    if c == '(' || c == '[' || c == '{' {
      stack := stack + [c];
    } else if c == '<' {
      if i > 0 && line[i - 1] == '<' {
        if stack != [] && stack[|stack| - 1] == '<' {
          stack := stack[..|stack| - 1];
          if stack == [] { return Unmatched; }
        }
      } else if i > 0 && EndsInOperator(line[..i]) {
        return Carry(stack);
      } else {
        stack := stack + ['<'];
      }
    } else if c == ')' || c == ']' || c == '}' {
      stack := PopOperators(stack, '<');
      if stack == [] { return Unmatched; }
      var top := stack[|stack| - 1];
      if (top == '(' && c == ')') || (top == '[' && c == ']') || (top == '{' && c == '}') {
        stack := stack[..|stack| - 1];
        if stack == [] { return Found(i + 1); }
      } else {
        return Unmatched;
      }
    } else if c == '>' {
      if i > 0 && (line[i - 1] == '-' || EndsInOperator(line[..i - 1])) { return Carry(stack); }
      if stack != [] {
        if stack[|stack| - 1] == '<' {
          stack := stack[..|stack| - 1];
          if stack == [] { return Found(i + 1); }
        }
      }
    } else if c == ';' {
      stack := PopOperators(stack, '<');
      if stack == [] { return Unmatched; }
    }
    return Carry(stack);
  }

  method FindEndOfExpressionInLine(line: string, startpos: nat, stack0: string) returns (r: Scan)
    ensures r == ScanLine(line, startpos, stack0)
  {
    var stack := stack0;
    for i := startpos to if startpos <= |line| then |line| else startpos
      invariant ScanLine(line, startpos, stack0) == ScanLine(line, i, stack)
    {
      r := EndTurn(line, i, stack);
      if !r.Carry? { return; }
      stack := r.stack;
    }
    return Carry(stack);
  }

  // Removes the angle marks on top of the stack.
  method PopOperators(stack0: string, angle: char) returns (stack: string)
    ensures stack == PopAll(stack0, angle)
  {
    stack := stack0;
    while stack != [] && stack[|stack| - 1] == angle
      invariant PopAll(stack, angle) == PopAll(stack0, angle)
    {
      stack := stack[..|stack| - 1];
    }
  }

  // endPos is -1 and endLine the number of lines when nothing closes the bracket.
  method CloseExpression(lines: seq<string>, linenum: nat, pos: nat)
    returns (line: string, endLine: nat, endPos: int)
    requires OnLine(lines, (linenum, pos))
    ensures match Close(lines, linenum, pos)
            case None => endLine == |lines| && endPos == -1
            case Some(p) => (endLine, endPos) == p && endLine < |lines| && line == lines[endLine]
  {
    line := lines[linenum];
    if !(line[pos] in "({[<") || (line[pos] == '<' && pos + 1 < |line| && line[pos + 1] in "<=") {
      return line, |lines|, -1;
    }
    endLine := linenum;
    var r := FindEndOfExpressionInLine(line, pos, []);
    if r.Found? { return line, endLine, r.pos; }
    while r.Carry? && r.stack != [] && endLine < |lines| - 1
      invariant endLine < |lines| && !r.Found?
      decreases |lines| - endLine
      invariant CloseLines(lines, linenum, pos, []) ==
        if r.Carry? && r.stack != [] && endLine < |lines| - 1
        then CloseLines(lines, endLine + 1, 0, r.stack) else None
    {
      endLine := endLine + 1;
      line := lines[endLine];
      r := FindEndOfExpressionInLine(line, 0, r.stack);
      if r.Found? { return line, endLine, r.pos; }
    }
    return line, |lines|, -1;
  }

  // What a stack has open: the '<' marks below all brackets, and the brackets. A '<' above a
  // bracket is pending; whatever closes the bracket drops it.
  function OpenOf(stack: string): Open {
    if stack == [] then Open(0, [])
    else
      var below, top := OpenOf(stack[..|stack| - 1]), stack[|stack| - 1];
      if top != '<' then Open(below.angles, below.core + [top])
      else if below.core == [] then Open(below.angles + 1, [])
      else below
  }

  const NOTHING := Open(0, [])

  lemma {:induction false} OpenFacts(stack: string)
    ensures stack == [] <==> OpenOf(stack) == NOTHING
    ensures var rest := PopAll(stack, '<');
            if OpenOf(stack).core == [] then rest == []
            else rest != [] && OpenOf(rest) == OpenOf(stack) && rest[|rest| - 1] != '<'
  {
    if stack != [] { OpenFacts(stack[..|stack| - 1]); }
  }

  lemma OpenSnoc(stack: string, c: char)
    ensures var open := OpenOf(stack);
            OpenOf(stack + [c]) ==
            if c != '<' then Open(open.angles, open.core + [c])
            else if open.core == [] then Open(open.angles + 1, [])
            else open
  {
    assert (stack + [c])[..|stack|] == stack;
  }

  // What a turn does to the stack is what the reference does to what is open.
  predicate Tracks(turn: Turn, r: Scan, next: nat) {
    match r
    case Carry(s) => s != [] && turn == On(OpenOf(s))
    case Found(e) => e == next && turn == Closed
    case Unmatched => turn == Failed
  }

  lemma TurnIsRead(c: char, m: Mark, stack: string, next: nat)
    requires Fits(c, m) && stack != []
    ensures Tracks(Read(c, m, OpenOf(stack)), Act(c, m, stack, next), next)
  {
    OpenFacts(stack);
    match m
    case Bracket => if IsOpener(c) { OpenSnoc(stack, c); } else { CloserIsRead(c, stack, next); }
    case Up => OpenSnoc(stack, '<');
    case _ => PopIsRead(c, m, stack, next);
  }

  // What a closer finds below the pending angle marks.
  lemma RestOf(stack: string) returns (below: string, top: char)
    requires OpenOf(stack).core != []
    ensures PopAll(stack, '<') == below + [top] && (below == [] <==> OpenOf(below) == NOTHING)
    ensures OpenOf(stack) == Open(OpenOf(below).angles, OpenOf(below).core + [top])
  {
    OpenFacts(stack);
    var rest := PopAll(stack, '<');
    below, top := rest[..|rest| - 1], rest[|rest| - 1];
    OpenFacts(below);
  }

  lemma ActOnCloser(c: char, stack: string, next: nat, below: string, top: char)
    requires IsCloser(c) && PopAll(stack, '<') == below + [top]
    ensures Act(c, Bracket, stack, next) ==
            if top != OpenerOf(c) then Unmatched else if below == [] then Found(next) else Carry(below)
  {
    assert (below + [top])[..|below|] == below;
  }

  lemma ReadCloser(c: char, n: nat, core: string, top: char)
    requires IsCloser(c)
    ensures Read(c, Bracket, Open(n, core + [top])) ==
            if top != OpenerOf(c) then Failed else if core == [] && n == 0 then Closed else On(Open(n, core))
  {
    assert (core + [top])[..|core|] == core;
  }

  lemma CloserIsRead(c: char, stack: string, next: nat)
    requires IsCloser(c) && stack != []
    ensures Tracks(Read(c, Bracket, OpenOf(stack)), Act(c, Bracket, stack, next), next)
  {
    if OpenOf(stack).core == [] {
      OpenFacts(stack);
    } else {
      var below, top := RestOf(stack);
      ActOnCloser(c, stack, next, below, top);
      ReadCloser(c, OpenOf(below).angles, OpenOf(below).core, top);
    }
  }

  lemma PopIsRead(c: char, m: Mark, stack: string, next: nat)
    requires Fits(c, m) && stack != [] && (m.Down? || m.Shift? || m.Plain? || m.Semicolon?)
    ensures Tracks(Read(c, m, OpenOf(stack)), Act(c, m, stack, next), next)
  {
    OpenFacts(stack);
    OpenFacts(PopAngle(stack));
  }

  // A turn of the scan, seen from the whole file.
  lemma TurnOnLines(lines: seq<string>, l: nat, i: nat, stack: string)
    requires OnLine(lines, (l, i))
    ensures var all := CloseLines(lines, l, i, stack);
            match EndStep(lines[l], i, stack)
            case Carry(s) => all == CloseLines(lines, l, i + 1, s)
            case Found(e) => all == Some((l, e))
            case Unmatched => all == None
  {
  }

  // The reference over the lines of a file.
  function MatchLines(lines: seq<string>, l: nat, i: nat, open: Open): Option<Position>
    requires l < |lines|
    decreases |lines| - l, |lines[l]| - i
  {
    if i < |lines[l]| then
      match Read(lines[l][i], MarkAt(lines[l], i), open)
      case On(open') => MatchLines(lines, l, i + 1, open')
      case Closed => Some((l, i + 1))
      case Failed => None
    else if l < |lines| - 1 then MatchLines(lines, l + 1, 0, open)
    else None
  }

  lemma EndOfLine(lines: seq<string>, l: nat, stack: string)
    requires l < |lines| && stack != []
    ensures CloseLines(lines, l, |lines[l]|, stack) ==
            if l < |lines| - 1 then CloseLines(lines, l + 1, 0, stack) else None
  {
  }

  lemma TurnsAgree(lines: seq<string>, l: nat, i: nat, stack: string) returns (r: Scan)
    requires OnLine(lines, (l, i)) && stack != []
    ensures var all, ref := CloseLines(lines, l, i, stack), MatchLines(lines, l, i, OpenOf(stack));
            match r
            case Carry(s) =>
              s != [] && all == CloseLines(lines, l, i + 1, s) && ref == MatchLines(lines, l, i + 1, OpenOf(s))
            case _ => all == ref
  {
    TurnOnLines(lines, l, i, stack);
    TurnIsRead(lines[l][i], MarkAt(lines[l], i), stack, i + 1);
    r := EndStep(lines[l], i, stack);
  }

  // With anything open, the scan does what the reference does.
  lemma {:induction false} CloseIsMatch(lines: seq<string>, l: nat, i: nat, stack: string)
    requires l < |lines| && i <= |lines[l]| && stack != []
    ensures CloseLines(lines, l, i, stack) == MatchLines(lines, l, i, OpenOf(stack))
    decreases |lines| - l, |lines[l]| - i
  {
    if i < |lines[l]| {
      var r := TurnsAgree(lines, l, i, stack);
      if r.Carry? { CloseIsMatch(lines, l, i + 1, r.stack); }
    } else {
      EndOfLine(lines, l, stack);
      if l < |lines| - 1 { CloseIsMatch(lines, l + 1, 0, stack); }
    }
  }

  // A result past a character of the file stands for the index of that character.
  predicate Agrees(lines: seq<string>, r: Option<Position>, k: Option<int>) {
    match r
    case None => k == None
    case Some((m, e)) => e > 0 && OnLine(lines, (m, e - 1)) && k == Some(Index(lines, (m, e - 1)))
  }

  lemma FlatTurn(lines: seq<string>, l: nat, i: nat, open: Open) returns (turn: Turn)
    requires OnLine(lines, (l, i))
    ensures var t, u, k := Flat(lines), FileMarks(lines, Forwards), Index(lines, (l, i));
            var ref, all := MatchLines(lines, l, i, open), MatchFrom(t, u, k, open);
            match turn
            case On(open') => ref == MatchLines(lines, l, i + 1, open') && all == MatchFrom(t, u, k + 1, open')
            case Closed => ref == Some((l, i + 1)) && all == Some(k)
            case Failed => ref == None && all == None
  {
    CharAt(lines, (l, i));
    FileMarkAt(lines, (l, i), Forwards);
    turn := Read(lines[l][i], MarkAt(lines[l], i), open);
  }

  lemma EndOfLineMatch(lines: seq<string>, l: nat, open: Open)
    requires l < |lines|
    ensures var t, u, k := Flat(lines), FileMarks(lines, Forwards), Offset(lines, l) + |lines[l]|;
            if l < |lines| - 1
            then k == Offset(lines, l + 1) &&
                 MatchLines(lines, l, |lines[l]|, open) == MatchLines(lines, l + 1, 0, open)
            else MatchFrom(t, u, k, open) == None && MatchLines(lines, l, |lines[l]|, open) == None
  {
    OffsetNext(lines, l);
  }

  // The reference over lines and the reference on the flat text.
  lemma {:induction false} MatchOnFlat(lines: seq<string>, l: nat, i: nat, k: nat, open: Open)
    requires l < |lines| && i <= |lines[l]| && k == Offset(lines, l) + i
    ensures Agrees(lines, MatchLines(lines, l, i, open), MatchFrom(Flat(lines), FileMarks(lines, Forwards), k, open))
    decreases |lines| - l, |lines[l]| - i
  {
    if i < |lines[l]| {
      var turn := FlatTurn(lines, l, i, open);
      if turn.On? { MatchOnFlat(lines, l, i + 1, k + 1, turn.open); }
    } else {
      EndOfLineMatch(lines, l, open);
      if l < |lines| - 1 { MatchOnFlat(lines, l + 1, 0, k, open); }
    }
  }
}
