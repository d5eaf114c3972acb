// What ReverseCloseExpression computes for a '>', and exactly when that is not what it promises.
module BackwardAngles {
  import opened Text
  import opened Brackets
  import opened Lines
  import opened Marking
  import opened Angles
  import opened AngleDrift
  import opened ForwardScan
  import opened BackwardScan
  import opened BackwardTheorems
  import opened ForwardAngles

  lemma MirrorMarksFit(lines: seq<string>)
    ensures Marks(Mirror(Flat(lines)), MirrorMarks(lines))
  {
    FileMarksFit(lines, Backwards);
  }

  // A result at a character of the file stands for the index of that character.
  predicate AgreesAt(lines: seq<string>, r: Option<Position>, k: Option<int>) {
    match r
    case None => k == None
    case Some(p) => OnLine(lines, p) && k == Some(Index(lines, p))
  }

  lemma FromTheLeft(lines: seq<string>, r: Option<Position>, k: Option<int>)
    requires AgreesBack(lines, r, k)
    ensures AgreesAt(lines, r, FromRight(|Flat(lines)|, k))
  {
  }

  // With one angle open, the scan from column i to the left ends where the reference does.
  lemma OpenAngleBack(lines: seq<string>, l: nat, i: int)
    requires l < |lines| && -1 <= i < |lines[l]| && Paired(lines[l], i)
    ensures Offset(lines, l) + i + 1 <= |Flat(lines)|
    ensures AgreesAt(lines, OpenLines(lines, l, i, ['>']),
                     BackFrom(Flat(lines), FileMarks(lines, Backwards), Offset(lines, l) + i + 1))
  {
    var k := |Flat(lines)| - (Offset(lines, l) + i + 1);
    OneOpen('>');
    OpenIsMatch(lines, l, i, ['>']);
    MatchOnMirror(lines, l, i, k, Open(1, []));
    FromTheLeft(lines, OpenLines(lines, l, i, ['>']),
                MatchFrom(Mirror(Flat(lines)), MirrorMarks(lines), k, Open(1, [])));
  }

  lemma BackFromPosition(lines: seq<string>, b: nat, p: Position)
    requires b <= |Flat(lines)| && OnLine(lines, p)
    ensures BackFrom(Flat(lines), FileMarks(lines, Backwards), b) == Some(Index(lines, p)) <==>
            AngleOpens(Flat(lines), FileMarks(lines, Backwards), Index(lines, p) + 1, b)
  {
    CharAt(lines, p);
    FileMarksFit(lines, Backwards);
    BackFromMeaning(Flat(lines), FileMarks(lines, Backwards), Index(lines, p), b);
  }

  lemma OpenAngleBackIs(lines: seq<string>, l: nat, i: int, b: nat, p: Position) returns (k: Option<int>)
    requires l < |lines| && -1 <= i < |lines[l]| && Paired(lines[l], i) && OnLine(lines, p)
    requires b == Offset(lines, l) + i + 1
    ensures AgreesAt(lines, OpenLines(lines, l, i, ['>']), k)
    ensures k == Some(Index(lines, p)) <==>
            AngleOpens(Flat(lines), FileMarks(lines, Backwards), Index(lines, p) + 1, b)
  {
    OpenAngleBack(lines, l, i);
    BackFromPosition(lines, b, p);
    k := BackFrom(Flat(lines), FileMarks(lines, Backwards), b);
  }

  lemma OpenAngleBackMeaning(lines: seq<string>, l: nat, i: int, b: nat, p: Position)
    requires l < |lines| && -1 <= i < |lines[l]| && Paired(lines[l], i) && OnLine(lines, p)
    requires b == Offset(lines, l) + i + 1
    ensures OpenLines(lines, l, i, ['>']) == Some(p) <==>
            AngleOpens(Flat(lines), FileMarks(lines, Backwards), Index(lines, p) + 1, b)
  {
    var k := OpenAngleBackIs(lines, l, i, b, p);
    var r := OpenLines(lines, l, i, ['>']);
    if r.Some? { IndexInjective(lines, r.value, p); }
  }

  // The angle at p is the one that is opened from q: in the text read from right to left, the first
  // '<' that leaves no angle open, outside brackets, with no ';' before it there.
  ghost predicate OpensAt(lines: seq<string>, p: Position, q: Position)
    requires OnLine(lines, p) && OnLine(lines, q)
  {
    AngleOpens(Flat(lines), FileMarks(lines, Backwards), Index(lines, p) + 1, Index(lines, q))
  }

  lemma AngleFromMeaning(lines: seq<string>, l: nat, q: nat, p: Position)
    requires OnLine(lines, (l, q)) && OnLine(lines, p) && Paired(lines[l], q - 1)
    ensures OpenLines(lines, l, q - 1, ['>']) == Some(p) <==> OpensAt(lines, p, (l, q))
  {
    var b := Index(lines, (l, q));
    OpenAngleBackMeaning(lines, l, q - 1, b, p);
  }

  // From a '>' taken for a closer, the result is the one place that opens it.
  lemma AngleBackMeaning(lines: seq<string>, l: nat, q: nat, m: nat, p: nat)
    requires OnLine(lines, (l, q)) && OnLine(lines, (m, p)) && lines[l][q] == '>' && !SkipsGreater(lines[l], q)
    ensures ReverseClose(lines, l, q) == Some((m, p)) <==> OpensAt(lines, (m, p), (l, q))
  {
    FirstTurnBack(lines, l, q);
    AngleFromMeaning(lines, l, q, (m, p));
  }

  predicate NotableBack(line: string, i: nat)
    requires i < |line|
  {
    var m := BackMarkAt(line, i);
    m.Bracket? || m.Up? || m.Semicolon?
  }

  // From column i to the left, the first column that a scan with nothing open takes notice of.
  function FirstNotableBack(line: string, i: int): (r: Option<nat>)
    requires i < |line|
    ensures match r
            case None => forall k :: 0 <= k <= i ==> !NotableBack(line, k)
            case Some(s) => s <= i && NotableBack(line, s) && forall k :: s < k <= i ==> !NotableBack(line, k)
    decreases i + 1
  {
    if i < 0 then None else if NotableBack(line, i) then Some(i) else FirstNotableBack(line, i - 1)
  }

  // What such a scan makes of that column.
  function FromNotableBack(lines: seq<string>, l: nat, s: nat): Option<Position>
    requires OnLine(lines, (l, s))
  {
    if IsCloser(lines[l][s]) then ReverseClose(lines, l, s)
    else if BackMarkAt(lines[l], s).Up? then OpenLines(lines, l, s - 1, ['>'])
    else None
  }

  lemma NothingOpenMove(lines: seq<string>, l: nat, i: nat) returns (j: int)
    requires OnLine(lines, (l, i)) && Paired(lines[l], i)
    ensures if NotableBack(lines[l], i) then OpenLines(lines, l, i, []) == FromNotableBack(lines, l, i)
            else
              && -1 <= j < i && Paired(lines[l], j) && OpenLines(lines, l, i, []) == OpenLines(lines, l, j, [])
              && (j == i - 1 || (j == i - 2 && !NotableBack(lines[l], i - 1)))
  {
    var line, r := lines[l], StartStep(lines[l], i, []);
    MoveOnLines(lines, l, i, []);
    TurnIsMirrored(line, i, []);
    assert [] + [line[i]] == [line[i]];
    j := if r.Next? then r.i else i;
  }

  lemma {:induction false} NothingOpenBack(lines: seq<string>, l: nat, i: int)
    requires l < |lines| && -1 <= i < |lines[l]| && Paired(lines[l], i)
    ensures OpenLines(lines, l, i, []) ==
            match FirstNotableBack(lines[l], i) case None => None case Some(s) => FromNotableBack(lines, l, s)
    decreases i + 1
  {
    if i >= 0 {
      var j := NothingOpenMove(lines, l, i);
      if !NotableBack(lines[l], i) { NothingOpenBack(lines, l, j); }
    }
  }

  // Complete: if the text back to p is a word with all four kinds of brackets, p is found.
  lemma AngleBackCompleteness(lines: seq<string>, l: nat, q: nat, m: nat, p: nat)
    requires OnLine(lines, (l, q)) && OnLine(lines, (m, p))
    requires BackMarkAt(lines[l], q).Up? && BackMarkAt(lines[m], p).Down?
    requires 0 <= MirrorIndex(lines, (l, q)) < MirrorIndex(lines, (m, p)) < |Flat(lines)|
    requires FourKinds(Mirror(Flat(lines)), MirrorMarks(lines), MirrorIndex(lines, (l, q)) + 1,
                       MirrorIndex(lines, (m, p)))
    ensures ReverseClose(lines, l, q) == Some((m, p))
  {
    AngleBackMeaning(lines, l, q, m, p);
    MirrorMarksFit(lines);
    MirroredAt(lines, (m, p));
    assert MirrorIndex(lines, (l, q)) + 1 == |Flat(lines)| - Index(lines, (l, q));
    FourKindsClose(Mirror(Flat(lines)), MirrorMarks(lines), MirrorIndex(lines, (l, q)) + 1, MirrorIndex(lines, (m, p)));
  }

  // The first turn passes over a skipped '>' and the character before it.
  lemma SkippedGreaterScan(lines: seq<string>, l: nat, q: nat)
    requires OnLine(lines, (l, q)) && lines[l][q] == '>' && SkipsGreater(lines[l], q)
    ensures ReverseClose(lines, l, q) ==
            match FirstNotableBack(lines[l], q - 1) case None => None case Some(s) => FromNotableBack(lines, l, s)
  {
    MoveOnLines(lines, l, q, []);
    SkippedIsPlain(lines[l], q);
    TurnIsMirrored(lines[l], q, []);
    NothingOpenBack(lines, l, q - 2);
  }

  // The bracket or the closing angle in column s of line l is opened at (m, p).
  ghost predicate OpenedAt(lines: seq<string>, l: nat, s: nat, m: nat, p: nat)
    requires OnLine(lines, (l, s)) && OnLine(lines, (m, p))
  {
    || (IsCloser(lines[l][s]) && Matched(Flat(lines), Index(lines, (m, p)), Index(lines, (l, s))))
    || (BackMarkAt(lines[l], s).Up? && OpensAt(lines, (m, p), (l, s)))
  }

  lemma FromUpBack(lines: seq<string>, l: nat, s: nat, p: Position)
    requires OnLine(lines, (l, s)) && OnLine(lines, p) && BackMarkAt(lines[l], s).Up?
    ensures FromNotableBack(lines, l, s) == Some(p) <==> OpensAt(lines, p, (l, s))
  {
    AngleFromMeaning(lines, l, s, p);
  }

  lemma NotableBackMeaning(lines: seq<string>, l: nat, s: nat, m: nat, p: nat)
    requires OnLine(lines, (l, s)) && OnLine(lines, (m, p))
    ensures FromNotableBack(lines, l, s) == Some((m, p)) <==> OpenedAt(lines, l, s, m, p)
  {
    if IsCloser(lines[l][s]) {
      ReverseCloseMeansMatched(lines, m, p, l, s);
    } else if BackMarkAt(lines[l], s).Up? {
      FromUpBack(lines, l, s, (m, p));
    }
  }

  // A '>' taken for part of an arrow, a comparison or an operator name is no bracket: what is
  // opened is the first bracket or closing angle before it on its line, if nothing else takes
  // notice after that.
  lemma SkippedGreaterMeaning(lines: seq<string>, l: nat, q: nat, m: nat, p: nat)
    requires OnLine(lines, (l, q)) && OnLine(lines, (m, p)) && lines[l][q] == '>' && SkipsGreater(lines[l], q)
    ensures ReverseClose(lines, l, q) == Some((m, p)) <==>
            match FirstNotableBack(lines[l], q - 1)
            case None => false
            case Some(s) => OpenedAt(lines, l, s, m, p)
  {
    SkippedGreaterScan(lines, l, q);
    var r := FirstNotableBack(lines[l], q - 1);
    if r.Some? { NotableBackMeaning(lines, l, r.value, m, p); }
  }

  // What ReverseCloseExpression promises for a '>': a result is at a '<', and the brackets in
  // between are a typed bracket word.
  ghost predicate AngleBackPromise(lines: seq<string>, l: nat, q: nat)
    requires OnLine(lines, (l, q))
  {
    var r := ReverseClose(lines, l, q);
    r.Some? ==>
      && OnLine(lines, r.value) && lines[r.value.0][r.value.1] == '<'
      && Index(lines, r.value) < Index(lines, (l, q)) && Dyck(Between(lines, r.value, (l, q)))
  }

  lemma OpensFacts(lines: seq<string>, p: Position, b: nat)
    requires OnLine(lines, p) && AngleOpens(Flat(lines), FileMarks(lines, Backwards), Index(lines, p) + 1, b)
    ensures lines[p.0][p.1] == '<' && Index(lines, p) < b <= |Flat(lines)|
    ensures Balanced(Flat(lines)[Index(lines, p) + 1..b])
  {
    var a := Index(lines, p) + 1;
    FileMarksFit(lines, Backwards);
    AngleOpensMeaning(Flat(lines), FileMarks(lines, Backwards), a, b);
    DownIsLess(lines, p);
  }

  lemma OpenAngleBackAt(lines: seq<string>, l: nat, i: int, b: nat, p: Position)
    requires l < |lines| && -1 <= i < |lines[l]| && Paired(lines[l], i) && b == Offset(lines, l) + i + 1
    requires OnLine(lines, p) && OpenLines(lines, l, i, ['>']) == Some(p)
    ensures lines[p.0][p.1] == '<' && Index(lines, p) < b <= |Flat(lines)|
    ensures Balanced(Flat(lines)[Index(lines, p) + 1..b])
  {
    OpenAngleBackMeaning(lines, l, i, b, p);
    OpensFacts(lines, p, b);
  }

  lemma OpenAngleBackSound(lines: seq<string>, l: nat, i: int, b: nat)
    requires l < |lines| && -1 <= i < |lines[l]| && Paired(lines[l], i) && b == Offset(lines, l) + i + 1
    ensures b <= |Flat(lines)|
    ensures var r := OpenLines(lines, l, i, ['>']);
            r.Some? ==>
              && OnLine(lines, r.value) && lines[r.value.0][r.value.1] == '<'
              && Index(lines, r.value) < b && Balanced(Flat(lines)[Index(lines, r.value) + 1..b])
  {
    OpenAngleBack(lines, l, i);
    var r := OpenLines(lines, l, i, ['>']);
    if r.Some? { OpenAngleBackAt(lines, l, i, b, r.value); }
  }

  lemma DownIsLess(lines: seq<string>, p: Position)
    requires OnLine(lines, p)
    ensures Index(lines, p) < |Flat(lines)|
    ensures FileMarks(lines, Backwards)[Index(lines, p)].Down? ==> lines[p.0][p.1] == '<'
  {
    FileMarkAt(lines, p, Backwards);
  }

  lemma DyckBefore(lines: seq<string>, l: nat, q: nat, s: nat, p: Position)
    requires OnLine(lines, (l, q)) && OnLine(lines, p) && s <= q && NoBrackets(lines[l], s, q)
    requires Index(lines, p) < Index(lines, (l, s)) <= |Flat(lines)|
    requires Balanced(Flat(lines)[Index(lines, p) + 1..Index(lines, (l, s))])
    ensures Dyck(Between(lines, p, (l, q)))
  {
    var t, i, j, k := Flat(lines), Index(lines, p) + 1, Index(lines, (l, s)), Index(lines, (l, q));
    assert k <= |t| && NoBrackets(t, j, k) by { NoBracketsOnFlat(lines, l, s, q); }
    PlainSuffix(t, i, j, k);
  }

  // A result that opens an angle closed in column s keeps the promise for a later column q with no
  // bracket in between.
  lemma AngleBackKeepsPromise(lines: seq<string>, l: nat, q: nat, s: nat)
    requires OnLine(lines, (l, q)) && s <= q && NoBrackets(lines[l], s, q) && Paired(lines[l], s - 1)
    requires ReverseClose(lines, l, q) == OpenLines(lines, l, s - 1, ['>'])
    ensures AngleBackPromise(lines, l, q)
  {
    var b := Index(lines, (l, s));
    OpenAngleBackSound(lines, l, s - 1, b);
    var r := ReverseClose(lines, l, q);
    if r.Some? { DyckBefore(lines, l, q, s, r.value); }
  }

  // A '>' that the backward scanner takes for a closer keeps the promise.
  lemma BackwardAngleSoundness(lines: seq<string>, l: nat, q: nat)
    requires OnLine(lines, (l, q)) && lines[l][q] == '>' && !SkipsGreater(lines[l], q)
    ensures AngleBackPromise(lines, l, q)
  {
    FirstTurnBack(lines, l, q);
    AngleBackKeepsPromise(lines, l, q, q);
  }

  ghost predicate IsOpened(t: string, k: int) { exists p :: Matched(t, p, k) }

  // The '>' is skipped, and the scan falls for a bracket that comes first before it and is opened.
  ghost predicate FallsForBracketBack(lines: seq<string>, l: nat, q: nat)
    requires OnLine(lines, (l, q))
  {
    var s := FirstNotableBack(lines[l], q - 1);
    && SkipsGreater(lines[l], q) && s.Some? && IsCloser(lines[l][s.value])
    && IsOpened(Flat(lines), Index(lines, (l, s.value)))
  }

  lemma BracketStartsAtOpener(lines: seq<string>, l: nat, s: nat)
    requires OnLine(lines, (l, s)) && IsCloser(lines[l][s])
    ensures var r := ReverseClose(lines, l, s);
            && (r.Some? <==> IsOpened(Flat(lines), Index(lines, (l, s))))
            && (r.Some? ==> OnLine(lines, r.value) && IsOpener(lines[r.value.0][r.value.1]))
  {
    var t, k, r := Flat(lines), Index(lines, (l, s)), ReverseClose(lines, l, s);
    BackwardHeuristicsNeverMatter(lines, l, s);
    CharAt(lines, (l, s));
    if IsOpened(t, k) {
      var p :| Matched(t, p, k);
      MatchersMeet(t, p, k);
    }
    if r.Some? {
      CharAt(lines, r.value);
      MatchersMeet(t, Index(lines, r.value), k);
    }
  }

  lemma AfterNotable(line: string, i: nat, s: nat)
    requires i < |line| && FirstNotableBack(line, i) == Some(s) && BackMarkAt(line, s).Up?
    ensures NoBrackets(line, s, i + 1)
  {
    forall k | s < k <= i ensures !IsOpener(line[k]) && !IsCloser(line[k]) { assert !NotableBack(line, k); }
  }

  lemma SkippedGreaterPromise(lines: seq<string>, l: nat, q: nat)
    requires OnLine(lines, (l, q)) && lines[l][q] == '>' && SkipsGreater(lines[l], q)
    ensures var s := FirstNotableBack(lines[l], q - 1);
            AngleBackPromise(lines, l, q) <==>
            !(s.Some? && IsCloser(lines[l][s.value]) && ReverseClose(lines, l, s.value).Some?)
  {
    SkippedGreaterScan(lines, l, q);
    var s := FirstNotableBack(lines[l], q - 1);
    if s.Some? {
      if IsCloser(lines[l][s.value]) {
        BracketStartsAtOpener(lines, l, s.value);
      } else if BackMarkAt(lines[l], s.value).Up? {
        AfterNotable(lines[l], q - 1, s.value);
        AngleBackKeepsPromise(lines, l, q, s.value);
      }
    }
  }

  // Exactly then the promise is broken.
  lemma BackPromiseIsBrokenExactly(lines: seq<string>, l: nat, q: nat)
    requires OnLine(lines, (l, q)) && lines[l][q] == '>'
    ensures !AngleBackPromise(lines, l, q) <==> FallsForBracketBack(lines, l, q)
  {
    if SkipsGreater(lines[l], q) {
      SkippedGreaterPromise(lines, l, q);
      var s := FirstNotableBack(lines[l], q - 1);
      if s.Some? && IsCloser(lines[l][s.value]) { BracketStartsAtOpener(lines, l, s.value); }
    } else {
      BackwardAngleSoundness(lines, l, q);
    }
  }

  // For instance the '>' of an operator name, which CheckOperatorSpacing asks about.
  lemma BrokenBackPromiseExample()
    ensures var lines := ["f(a) operator>b"];
            ReverseClose(lines, 0, 13) == Some((0, 1)) && !AngleBackPromise(lines, 0, 13)
  {
    var lines := ["f(a) operator>b"];
    OperatorBackExample();
    SkippedGreaterScan(lines, 0, 13);
    assert Flat(lines) == lines[0] by { assert lines[1..] == []; }
    ReverseCloseMeansMatched(lines, 0, 1, 0, 3);
  }

  lemma OperatorBackExample()
    ensures var line := "f(a) operator>b";
            SkipsGreater(line, 13) && FirstNotableBack(line, 12) == Some(3) && Matched(line, 1, 3)
  {
    var line := "f(a) operator>b";
    assert TrimRight(line[..13]) == line[..13];
    assert IsOperatorAt(line[..13], 5);
    assert line[2..3] == "a";
    assert Run("a", []) == Some([]) by { assert "a"[1..] == []; }
    forall k: nat | 3 < k <= 12 ensures !NotableBack(line, k) { assert IsWordChar(line[k]) || line[k] == ' '; }
    assert NotableBack(line, 3);
  }
}
