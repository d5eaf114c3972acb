// What the two scanners take the characters of a line for, and the marks of a whole file.
module Marking {
  import opened Text
  import opened Brackets
  import opened Lines

  // What a scanner takes a character for: one of the other brackets, an angle bracket that opens
  // or closes, the second half of a shift, the end of a statement, or nothing of interest.
  datatype Mark = Bracket | Up | Down | Shift | Semicolon | Plain

  predicate Fits(c: char, m: Mark) { m.Bracket? <==> IsOpener(c) || IsCloser(c) }

  // u marks the characters of t.
  ghost predicate Marks(t: string, u: seq<Mark>) {
    |t| == |u| && forall k :: 0 <= k < |t| ==> Fits(t[k], u[k])
  }

  // The marks as they read from right to left.
  function Reverse(u: seq<Mark>): (r: seq<Mark>)
    ensures |r| == |u| && forall k :: 0 <= k < |u| ==> r[k] == u[|u| - 1 - k]
  {
    seq(|u|, k requires 0 <= k < |u| => u[|u| - 1 - k])
  }

  // A '<' that the scanner takes for part of a shift or of an operator name.
  predicate SkipsLess(line: string, i: nat)
    requires i < |line|
  {
    i > 0 && (line[i - 1] == '<' || EndsInOperator(line[..i]))
  }

  // What CloseExpression takes line[i] for.
  function MarkAt(line: string, i: nat): Mark
    requires i < |line|
  {
    var c := line[i];
    if IsOpener(c) || IsCloser(c) then Bracket
    else if c == '<' then
      if i > 0 && line[i - 1] == '<' then Shift else if SkipsLess(line, i) then Plain else Up
    else if c == '>' then
      if i > 0 && (line[i - 1] == '-' || EndsInOperator(line[..i - 1])) then Plain else Down
    else if c == ';' then Semicolon
    else Plain
  }

  // A ">=" with space on either side, its first character in column i.
  predicate GreaterEqualAt(line: string, i: nat)
    requires 0 < i < |line|
  {
    IsSpace(line[i - 1]) && line[i] == '>' && i + 2 < |line| && line[i + 1] == '=' && IsSpace(line[i + 2])
  }

  // A '>' that the scanner takes for part of "->", ">=" or an operator name.
  predicate SkipsGreater(line: string, i: nat)
    requires i < |line|
  {
    i > 0 && (line[i - 1] == '-' || GreaterEqualAt(line, i) || EndsInOperator(line[..i]))
  }

  // How many '<' stand in a row from i on.
  function LessRun(line: string, i: nat): nat
    decreases |line| - i
  {
    if i < |line| && line[i] == '<' then 1 + LessRun(line, i + 1) else 0
  }

  // What ReverseCloseExpression takes line[i] for. Going left it takes '<' by twos, so that only
  // the first of an odd number of them is a bracket.
  function BackMarkAt(line: string, i: nat): Mark
    requires i < |line|
  {
    var c := line[i];
    if IsOpener(c) || IsCloser(c) then Bracket
    else if c == '>' then if SkipsGreater(line, i) then Plain else Up
    else if c == '<' then
      if (i > 0 && line[i - 1] == '<') || LessRun(line, i) % 2 == 0 then Plain else Down
    else if c == ';' then Semicolon
    else Plain
  }

  // What that is, in terms of the text. A '<' opens unless another one comes before it, or the word
  // "operator"; a '>' closes unless it belongs to an arrow, or that word ends one column before it.
  lemma MarkMeaning(line: string, i: nat)
    requires i < |line|
    ensures MarkAt(line, i).Bracket? <==> line[i] in "()[]{}"
    ensures MarkAt(line, i).Up? <==>
            line[i] == '<' && (i == 0 || (line[i - 1] != '<' && !IsOperatorText(line[..i])))
    ensures MarkAt(line, i).Shift? <==> line[i] == '<' && i > 0 && line[i - 1] == '<'
    ensures MarkAt(line, i).Down? <==>
            line[i] == '>' && (i == 0 || (line[i - 1] != '-' && !IsOperatorText(line[..i - 1])))
    ensures MarkAt(line, i).Semicolon? <==> line[i] == ';'
  {
    OperatorMeaning(line[..i]);
    if i > 0 { OperatorMeaning(line[..i - 1]); }
  }

  // A row of n '<' starts in column i and goes no further to the right.
  predicate IsRow(line: string, i: nat, n: nat) {
    i + n <= |line| && (forall k :: i <= k < i + n ==> line[k] == '<') && (i + n < |line| ==> line[i + n] != '<')
  }

  lemma {:induction false} LessRunIsRow(line: string, i: nat, n: nat)
    requires i <= |line|
    ensures IsRow(line, i, n) <==> n == LessRun(line, i)
    decreases |line| - i
  {
    if i < |line| && line[i] == '<' && n > 0 { LessRunIsRow(line, i + 1, n - 1); }
  }

  // For the scan backwards a '>' closes unless it belongs to an arrow or to a ">=" between spaces, or
  // comes right after "operator"; the first '<' of an odd row opens.
  lemma BackMarkMeaning(line: string, i: nat)
    requires i < |line|
    ensures BackMarkAt(line, i).Bracket? <==> line[i] in "()[]{}"
    ensures BackMarkAt(line, i).Up? <==>
            line[i] == '>' &&
            (i == 0 ||
             (line[i - 1] != '-' && !IsOperatorText(line[..i]) &&
              !(i + 2 < |line| && line[i - 1] in SPACES && line[i + 1] == '=' && line[i + 2] in SPACES)))
    ensures BackMarkAt(line, i).Down? <==>
            line[i] == '<' && (i > 0 ==> line[i - 1] != '<') && exists n :: IsRow(line, i, n) && n % 2 == 1
    ensures BackMarkAt(line, i).Semicolon? <==> line[i] == ';'
  {
    LessRunIsRow(line, i, LessRun(line, i));
    if n: nat :| IsRow(line, i, n) && n % 2 == 1 { LessRunIsRow(line, i, n); }
    OperatorMeaning(line[..i]);
    if i > 0 { SpaceMeaning(line[i - 1]); }
    if i + 2 < |line| { SpaceMeaning(line[i + 2]); }
  }

  // Which angles are skipped, in the same terms.
  lemma SkipsMeaning(line: string, i: nat)
    requires i < |line|
    ensures SkipsLess(line, i) <==> i > 0 && (line[i - 1] == '<' || IsOperatorText(line[..i]))
    ensures line[i] == '>' ==> (SkipsGreater(line, i) <==> !BackMarkAt(line, i).Up?)
  {
    OperatorMeaning(line[..i]);
  }

  // The character before a skipped '>' is skipped with it; it would not have counted anyway.
  lemma SkippedIsPlain(line: string, i: nat)
    requires i < |line| && SkipsGreater(line, i)
    ensures BackMarkAt(line, i - 1).Plain? && line[i - 1] != '<'
  {
    if line[i - 1] != '-' && !GreaterEqualAt(line, i) { OperatorTail(line[..i]); }
  }

  datatype Direction = Forwards | Backwards

  function LineMarks(line: string, d: Direction): (u: seq<Mark>)
    ensures |u| == |line|
  {
    seq(|line|, i requires 0 <= i < |line| => if d.Forwards? then MarkAt(line, i) else BackMarkAt(line, i))
  }

  // The marks of the flat text. A mark depends on the other characters of its line.
  function FileMarks(lines: seq<string>, d: Direction): (u: seq<Mark>)
    ensures |u| == |Flat(lines)|
  {
    if lines == [] then [] else LineMarks(lines[0], d) + FileMarks(lines[1..], d)
  }

  lemma {:induction false} FileMarkAt(lines: seq<string>, p: Position, d: Direction)
    requires OnLine(lines, p)
    ensures var u, k := FileMarks(lines, d), Index(lines, p);
            k < |u| && u[k] == LineMarks(lines[p.0], d)[p.1]
  {
    if p.0 > 0 { FileMarkAt(lines[1..], (p.0 - 1, p.1), d); }
  }

  lemma LineMarksFit(line: string, d: Direction)
    ensures Marks(line, LineMarks(line, d))
  {
  }

  lemma {:induction false} FileMarksFit(lines: seq<string>, d: Direction)
    ensures Marks(Flat(lines), FileMarks(lines, d))
  {
    if lines != [] {
      LineMarksFit(lines[0], d);
      FileMarksFit(lines[1..], d);
    }
  }
}
