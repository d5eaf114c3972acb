// When CloseExpression and ReverseCloseExpression undo each other on angle brackets.
module AngleRoundTrips {
  import opened Text
  import opened Brackets
  import opened Lines
  import opened Marking
  import opened Angles
  import opened AngleDrift
  import opened AngleInverse
  import opened ForwardScan
  import opened BackwardScan
  import opened ForwardAngles
  import opened BackwardAngles

  // An angle bracket on which the two scanners agree, in terms of its line. A '<' does not follow
  // an operator name and starts no row of three or more; a '>' belongs to an arrow, or it is an
  // operator for both of them or for neither.
  predicate Ordinary(line: string, i: nat)
    requires i < |line|
  {
    if line[i] == '<' then
      (i > 0 && line[i - 1] == '<') || (!EndsInOperator(line[..i]) && LessRun(line, i) <= 2)
    else if line[i] == '>' then
      || i == 0 || line[i - 1] == '-'
      || (EndsInOperator(line[..i - 1]) <==> GreaterEqualAt(line, i) || EndsInOperator(line[..i]))
    else true
  }

  // A '>' two columns after an operator name, which is an operator for CloseExpression only.
  predicate AfterOperator(line: string, i: nat)
    requires i < |line|
  {
    i > 0 && line[i] == '>' && line[i - 1] != '-' && EndsInOperator(line[..i - 1]) && !SkipsGreater(line, i)
  }

  // The '<' may be opened by the scan forwards.
  predicate IsStart(line: string, i: nat)
    requires i < |line|
  {
    line[i] == '<' && MayOpen(line, i) && !SkipsLess(line, i)
  }

  lemma StartIsOrdinary(line: string, i: nat)
    requires i < |line| && IsStart(line, i)
    ensures Ordinary(line, i)
  {
    assert LessRun(line, i) == 1;
  }

  lemma {:induction false} LineShiftRun(line: string, k: nat)
    requires 0 < k <= |line| && line[k - 1] == '<'
    ensures ShiftRun(LineMarks(line, Forwards), k) == LessRun(line, k)
    decreases |line| - k
  {
    if k < |line| && line[k] == '<' { LineShiftRun(line, k + 1); }
  }

  lemma LineTwoWays(line: string, i: nat)
    requires i < |line|
    ensures TwoWaysAt(line, LineMarks(line, Forwards), LineMarks(line, Backwards), i)
  {
    if line[i] == '<' { LineShiftRun(line, i + 1); }
  }

  lemma LineAgreed(line: string, i: nat)
    requires i < |line|
    ensures Agreed(line, LineMarks(line, Forwards), LineMarks(line, Backwards), i) <==> Ordinary(line, i)
  {
    if line[i] == '<' { LineShiftRun(line, i + 1); }
  }

  lemma LineLate(line: string, i: nat)
    requires i < |line|
    ensures Late(line, LineMarks(line, Forwards), LineMarks(line, Backwards), i) <==> AfterOperator(line, i)
  {
  }

  lemma {:induction false} ShiftRunAppend(u: seq<Mark>, w: seq<Mark>, k: nat)
    requires k <= |u| && (w == [] || !w[0].Shift?)
    ensures ShiftRun(u + w, k) == ShiftRun(u, k)
    decreases |u| - k
  {
    if k < |u| { ShiftRunAppend(u, w, k + 1); }
  }

  lemma {:induction false} ShiftRunSuffix(u: seq<Mark>, w: seq<Mark>, k: nat)
    requires k <= |w|
    ensures ShiftRun(u + w, |u| + k) == ShiftRun(w, k)
    decreases |w| - k
  {
    if k < |w| { ShiftRunSuffix(u, w, k + 1); }
  }

  lemma LineStart(line: string)
    ensures line != [] ==> !LineMarks(line, Forwards)[0].Shift?
  {
  }

  lemma {:induction false} NoShiftFirst(lines: seq<string>)
    ensures var u := FileMarks(lines, Forwards); u == [] || !u[0].Shift?
  {
    if lines != [] {
      LineStart(lines[0]);
      NoShiftFirst(lines[1..]);
    }
  }

  lemma LaterLine(lines: seq<string>, l: nat, i: nat)
    requires 0 < l < |lines| && i <= |lines[l]|
    ensures var rest, k := lines[1..], Offset(lines[1..], l - 1) + i;
            && ShiftRun(FileMarks(lines, Forwards), Offset(lines, l) + i) == ShiftRun(FileMarks(rest, Forwards), k)
  {
    var u, w, k := LineMarks(lines[0], Forwards), FileMarks(lines[1..], Forwards), Offset(lines[1..], l - 1) + i;
    OffsetInFlat(lines[1..], l - 1, i);
    ShiftRunSuffix(u, w, k);
    assert Offset(lines, l) + i == |u| + k;
  }

  // A row of '<' ends with its line.
  lemma {:induction false} FileShiftRun(lines: seq<string>, l: nat, i: nat)
    requires l < |lines| && i <= |lines[l]|
    ensures ShiftRun(FileMarks(lines, Forwards), Offset(lines, l) + i) == ShiftRun(LineMarks(lines[l], Forwards), i)
  {
    if l == 0 {
      NoShiftFirst(lines[1..]);
      ShiftRunAppend(LineMarks(lines[0], Forwards), FileMarks(lines[1..], Forwards), i);
    } else {
      LaterLine(lines, l, i);
      FileShiftRun(lines[1..], l - 1, i);
    }
  }

  // The marks of the flat text at a position are those of its line.
  lemma AtPosition(lines: seq<string>, p: Position)
    requires OnLine(lines, p)
    ensures var t, u, v, k := Flat(lines), FileMarks(lines, Forwards), FileMarks(lines, Backwards), Index(lines, p);
            && k < |t| && t[k] == lines[p.0][p.1]
            && u[k] == LineMarks(lines[p.0], Forwards)[p.1] && v[k] == LineMarks(lines[p.0], Backwards)[p.1]
  {
    CharAt(lines, p);
    FileMarkAt(lines, p, Forwards);
    FileMarkAt(lines, p, Backwards);
  }

  lemma RunAfter(lines: seq<string>, p: Position)
    requires OnLine(lines, p)
    ensures ShiftRun(FileMarks(lines, Forwards), Index(lines, p) + 1) ==
            ShiftRun(LineMarks(lines[p.0], Forwards), p.1 + 1)
  {
    FileShiftRun(lines, p.0, p.1 + 1);
  }

  lemma FileTwoWaysAt(lines: seq<string>, p: Position)
    requires OnLine(lines, p)
    ensures var t, u, v, k := Flat(lines), FileMarks(lines, Forwards), FileMarks(lines, Backwards), Index(lines, p);
            k < |t| && TwoWaysAt(t, u, v, k) && (u[k].Semicolon? <==> v[k].Semicolon?)
  {
    AtPosition(lines, p);
    RunAfter(lines, p);
    LineTwoWays(lines[p.0], p.1);
    if p.1 > 0 { CharAt(lines, (p.0, p.1 - 1)); }
  }

  lemma FileTwoWays(lines: seq<string>)
    ensures TwoWays(Flat(lines), FileMarks(lines, Forwards), FileMarks(lines, Backwards))
  {
    var t, u, v := Flat(lines), FileMarks(lines, Forwards), FileMarks(lines, Backwards);
    FileMarksFit(lines, Forwards);
    FileMarksFit(lines, Backwards);
    forall k: nat | k < |t| ensures TwoWaysAt(t, u, v, k) && (u[k].Semicolon? <==> v[k].Semicolon?) {
      var p := PositionOf(lines, k);
      FileTwoWaysAt(lines, p);
    }
  }

  lemma FileAgreed(lines: seq<string>, p: Position)
    requires OnLine(lines, p)
    ensures var t, u, v, k := Flat(lines), FileMarks(lines, Forwards), FileMarks(lines, Backwards), Index(lines, p);
            && k < |t|
            && (Agreed(t, u, v, k) <==> Ordinary(lines[p.0], p.1))
            && (Late(t, u, v, k) <==> AfterOperator(lines[p.0], p.1))
  {
    AtPosition(lines, p);
    RunAfter(lines, p);
    LineAgreed(lines[p.0], p.1);
    LineLate(lines[p.0], p.1);
  }

  // Position r is between p and q and in no bracket that was opened after p.
  ghost predicate Outside(lines: seq<string>, p: Position, r: Position, q: Position)
    requires OnLine(lines, p) && OnLine(lines, q)
  {
    OnLine(lines, r) && Index(lines, p) < Index(lines, r) < Index(lines, q) && Balanced(Between(lines, p, r))
  }

  ghost predicate OrdinaryBetween(lines: seq<string>, p: Position, q: Position)
    requires OnLine(lines, p) && OnLine(lines, q)
  {
    forall r: Position :: Outside(lines, p, r, q) ==> Ordinary(lines[r.0], r.1)
  }

  ghost predicate NoneAfterOperator(lines: seq<string>, p: Position, q: Position)
    requires OnLine(lines, p) && OnLine(lines, q)
  {
    forall r: Position :: Outside(lines, p, r, q) ==> !AfterOperator(lines[r.0], r.1)
  }

  lemma OutsideAt(lines: seq<string>, p: Position, q: Position, k: nat) returns (r: Position)
    requires OnLine(lines, p) && OnLine(lines, q) && Index(lines, p) < k < Index(lines, q) < |Flat(lines)|
    ensures OnLine(lines, r) && Index(lines, r) == k
    ensures Outside(lines, p, r, q) <==> Balanced(Flat(lines)[Index(lines, p) + 1..k])
  {
    r := PositionOf(lines, k);
  }

  lemma AgreedBetween(lines: seq<string>, p: Position, q: Position, k: nat)
    requires OnLine(lines, p) && OnLine(lines, q) && Index(lines, q) < |Flat(lines)| && OrdinaryBetween(lines, p, q)
    requires Index(lines, p) < k < Index(lines, q) && Balanced(Flat(lines)[Index(lines, p) + 1..k])
    ensures Agreed(Flat(lines), FileMarks(lines, Forwards), FileMarks(lines, Backwards), k)
  {
    var r := OutsideAt(lines, p, q, k);
    FileAgreed(lines, r);
  }

  lemma OrdinaryIsAgreed(lines: seq<string>, p: Position, q: Position)
    requires OnLine(lines, p) && OnLine(lines, q) && Index(lines, q) < |Flat(lines)| && OrdinaryBetween(lines, p, q)
    ensures AllAgreed(Flat(lines), FileMarks(lines, Forwards), FileMarks(lines, Backwards), Index(lines, p) + 1,
                      Index(lines, p) + 1, Index(lines, q))
  {
    var t, u, v := Flat(lines), FileMarks(lines, Forwards), FileMarks(lines, Backwards);
    var a, b := Index(lines, p) + 1, Index(lines, q);
    forall k | a <= k < b && Balanced(t[a..k]) ensures Agreed(t, u, v, k) { AgreedBetween(lines, p, q, k); }
  }

  lemma OutsideIsOrdinary(lines: seq<string>, p: Position, r: Position, q: Position)
    requires OnLine(lines, p) && OnLine(lines, q) && Index(lines, q) < |Flat(lines)| && Outside(lines, p, r, q)
    requires AllAgreed(Flat(lines), FileMarks(lines, Forwards), FileMarks(lines, Backwards), Index(lines, p) + 1,
                       Index(lines, p) + 1, Index(lines, q))
    ensures Ordinary(lines[r.0], r.1)
  {
    var a, k := Index(lines, p) + 1, Index(lines, r);
    FileAgreed(lines, r);
    assert Balanced(Flat(lines)[a..k]);
    assert Agreed(Flat(lines), FileMarks(lines, Forwards), FileMarks(lines, Backwards), k);
  }

  lemma AgreedIsOrdinary(lines: seq<string>, p: Position, q: Position)
    requires OnLine(lines, p) && OnLine(lines, q) && Index(lines, q) < |Flat(lines)|
    requires AllAgreed(Flat(lines), FileMarks(lines, Forwards), FileMarks(lines, Backwards), Index(lines, p) + 1,
                       Index(lines, p) + 1, Index(lines, q))
    ensures OrdinaryBetween(lines, p, q)
  {
    forall r: Position | Outside(lines, p, r, q) ensures Ordinary(lines[r.0], r.1) {
      OutsideIsOrdinary(lines, p, r, q);
    }
  }

  lemma FileNoneLate(lines: seq<string>, p: Position, q: Position)
    requires OnLine(lines, p) && OnLine(lines, q) && Index(lines, q) < |Flat(lines)| && NoneAfterOperator(lines, p, q)
    ensures var t, u, v := Flat(lines), FileMarks(lines, Forwards), FileMarks(lines, Backwards);
            NoneLate(t, u, v, Index(lines, p) + 1, Index(lines, q))
  {
    var t, u, v, a, b := Flat(lines), FileMarks(lines, Forwards), FileMarks(lines, Backwards),
                         Index(lines, p) + 1, Index(lines, q);
    forall k | a <= k < b && Balanced(t[a..k]) ensures !Late(t, u, v, k) {
      var r := OutsideAt(lines, p, q, k);
      FileAgreed(lines, r);
    }
  }

  // The '<' at p is a bracket for both scanners, and the next character is no second half of a shift.
  lemma StartOfAngle(lines: seq<string>, p: Position)
    requires OnLine(lines, p) && IsStart(lines[p.0], p.1)
    ensures var k := Index(lines, p);
            && k < |Flat(lines)| && FileMarks(lines, Backwards)[k].Down?
            && (k + 1 < |Flat(lines)| ==> !FileMarks(lines, Forwards)[k + 1].Shift?)
  {
    AtPosition(lines, p);
    RunAfter(lines, p);
    LineShiftRun(lines[p.0], p.1 + 1);
  }

  // The scan forwards takes q for a closing angle.
  predicate IsEnd(lines: seq<string>, q: Position)
    requires OnLine(lines, q)
  {
    Index(lines, q) < |Flat(lines)| && FileMarks(lines, Forwards)[Index(lines, q)].Down?
  }

  lemma FileInStep(lines: seq<string>, p: Position, q: Position)
    requires OnLine(lines, p) && OnLine(lines, q) && NoneAfterOperator(lines, p, q)
    ensures InStep(Flat(lines), FileMarks(lines, Forwards), FileMarks(lines, Backwards), Index(lines, p) + 1,
                   Index(lines, q))
  {
    CharAt(lines, p);
    CharAt(lines, q);
    FileTwoWays(lines);
    FileNoneLate(lines, p, q);
  }

  lemma FileReady(lines: seq<string>, p: Position, q: Position)
    requires OnLine(lines, p) && OnLine(lines, q) && IsStart(lines[p.0], p.1) && NoneAfterOperator(lines, p, q)
    ensures Ready(Flat(lines), FileMarks(lines, Forwards), FileMarks(lines, Backwards), Index(lines, p) + 1,
                  Index(lines, q))
  {
    StartOfAngle(lines, p);
    FileInStep(lines, p, q);
  }

  lemma OrdinaryIsOpened(lines: seq<string>, p: Position, q: Position)
    requires OnLine(lines, p) && OnLine(lines, q) && IsStart(lines[p.0], p.1) && NoneAfterOperator(lines, p, q)
    requires ClosesAt(lines, p, q) && OrdinaryBetween(lines, p, q)
    ensures OpensAt(lines, p, q)
  {
    var a, b := Index(lines, p) + 1, Index(lines, q);
    FileReady(lines, p, q);
    OrdinaryIsAgreed(lines, p, q);
    ClosedIsOpened(Flat(lines), FileMarks(lines, Forwards), FileMarks(lines, Backwards), a, b);
  }

  lemma OrdinaryIsClosed(lines: seq<string>, p: Position, q: Position)
    requires OnLine(lines, p) && OnLine(lines, q) && IsStart(lines[p.0], p.1) && NoneAfterOperator(lines, p, q)
    requires OpensAt(lines, p, q) && OrdinaryBetween(lines, p, q) && IsEnd(lines, q)
    ensures ClosesAt(lines, p, q)
  {
    var a, b := Index(lines, p) + 1, Index(lines, q);
    FileReady(lines, p, q);
    OrdinaryIsAgreed(lines, p, q);
    OpenedIsClosed(Flat(lines), FileMarks(lines, Forwards), FileMarks(lines, Backwards), a, b);
  }

  lemma BothWaysIsOrdinary(lines: seq<string>, p: Position, q: Position)
    requires OnLine(lines, p) && OnLine(lines, q) && IsStart(lines[p.0], p.1) && NoneAfterOperator(lines, p, q)
    requires ClosesAt(lines, p, q) && OpensAt(lines, p, q)
    ensures OrdinaryBetween(lines, p, q)
  {
    var a, b := Index(lines, p) + 1, Index(lines, q);
    FileReady(lines, p, q);
    ClosedIsOpened(Flat(lines), FileMarks(lines, Forwards), FileMarks(lines, Backwards), a, b);
    AgreedIsOrdinary(lines, p, q);
  }

  lemma EndMark(lines: seq<string>, q: Position)
    requires OnLine(lines, q)
    ensures IsEnd(lines, q) <==> MarkAt(lines[q.0], q.1).Down?
  {
    AtPosition(lines, q);
  }

  lemma StartMark(lines: seq<string>, p: Position, q: Position)
    requires OnLine(lines, p) && OnLine(lines, q) && OpensAt(lines, p, q)
    ensures BackMarkAt(lines[p.0], p.1).Down? && Index(lines, p) < Index(lines, q) <= |Flat(lines)|
  {
    AtPosition(lines, p);
  }

  lemma OpensBalanced(lines: seq<string>, p: Position, s: Position)
    requires OnLine(lines, p) && OnLine(lines, s) && OpensAt(lines, p, s)
    ensures Index(lines, p) < Index(lines, s) && Balanced(Between(lines, p, s))
  {
    CharAt(lines, s);
    FileMarksFit(lines, Backwards);
    AngleOpensMeaning(Flat(lines), FileMarks(lines, Backwards), Index(lines, p) + 1, Index(lines, s));
  }

  lemma LateOrDown(lines: seq<string>, s: Position)
    requires OnLine(lines, s) && BackMarkAt(lines[s.0], s.1).Up? && !AfterOperator(lines[s.0], s.1)
    ensures IsEnd(lines, s)
  {
    AtPosition(lines, s);
    LineLate(lines[s.0], s.1);
    LineTwoWays(lines[s.0], s.1);
  }

  // Between an angle and a place from where it is opened, a '>' that counts backwards counts forwards.
  lemma CloserInside(lines: seq<string>, p: Position, s: Position, q: Position)
    requires OnLine(lines, p) && OnLine(lines, s) && OnLine(lines, q) && Index(lines, s) < Index(lines, q)
    requires NoneAfterOperator(lines, p, q) && OpensAt(lines, p, s) && BackMarkAt(lines[s.0], s.1).Up?
    ensures IsEnd(lines, s)
  {
    OpensBalanced(lines, p, s);
    assert Outside(lines, p, s, q);
    LateOrDown(lines, s);
  }

  lemma StillOpen(lines: seq<string>, p: Position, s: Position, q: Position)
    requires OnLine(lines, p) && OnLine(lines, s) && OnLine(lines, q) && Index(lines, s) < Index(lines, q)
    requires IsStart(lines[p.0], p.1) && NoneAfterOperator(lines, p, q) && ClosesAt(lines, p, q)
    requires BackMarkAt(lines[s.0], s.1).Up?
    ensures !OpensAt(lines, p, s)
  {
    var a, c, b := Index(lines, p) + 1, Index(lines, s), Index(lines, q);
    if OpensAt(lines, p, s) {
      CloserInside(lines, p, s, q);
      FileReady(lines, p, q);
      NotOpenedEarlier(Flat(lines), FileMarks(lines, Forwards), FileMarks(lines, Backwards), a, c, b);
    }
  }

  // A scan back from a skipped '>' does not come back to an angle that is closed there.
  lemma SkippedComesBackElsewhere(lines: seq<string>, l: nat, p: nat, m: nat, q: nat)
    requires OnLine(lines, (l, p)) && OnLine(lines, (m, q)) && IsStart(lines[l], p)
    requires NoneAfterOperator(lines, (l, p), (m, q)) && ClosesAt(lines, (l, p), (m, q))
    requires lines[m][q] == '>' && SkipsGreater(lines[m], q)
    ensures ReverseClose(lines, m, q) != Some((l, p))
  {
    SkippedGreaterMeaning(lines, m, q, l, p);
    CharAt(lines, (l, p));
    var r := FirstNotableBack(lines[m], q - 1);
    if r.Some? && BackMarkAt(lines[m], r.value).Up? { StillOpen(lines, (l, p), (m, r.value), (m, q)); }
  }

  // An angle that is closed at q is found again from there if and only if q and every angle bracket
  // in between that is outside brackets are ordinary.
  lemma ClosedAngleIsOpened(lines: seq<string>, l: nat, p: nat, m: nat, q: nat)
    requires OnLine(lines, (l, p)) && OnLine(lines, (m, q)) && IsStart(lines[l], p)
    requires NoneAfterOperator(lines, (l, p), (m, q)) && Close(lines, l, p) == Some((m, q + 1))
    ensures ReverseClose(lines, m, q) == Some((l, p)) <==>
            Ordinary(lines[m], q) && OrdinaryBetween(lines, (l, p), (m, q))
  {
    AngleMeaning(lines, l, p, m, q);
    EndMark(lines, (m, q));
    if SkipsGreater(lines[m], q) {
      SkippedComesBackElsewhere(lines, l, p, m, q);
    } else {
      AngleBackMeaning(lines, m, q, l, p);
      if OpensAt(lines, (l, p), (m, q)) && ClosesAt(lines, (l, p), (m, q)) {
        BothWaysIsOrdinary(lines, (l, p), (m, q));
      } else if OrdinaryBetween(lines, (l, p), (m, q)) {
        OrdinaryIsOpened(lines, (l, p), (m, q));
      }
    }
  }

  lemma FileNoneClosesFrom(lines: seq<string>, p: Position, q: Position)
    requires OnLine(lines, p) && OnLine(lines, q) && NoneAfterOperator(lines, p, q) && OpensAt(lines, p, q)
    ensures NoneClosesFrom(Flat(lines), FileMarks(lines, Forwards), Index(lines, p) + 1, Index(lines, q))
  {
    var a, b := Index(lines, p) + 1, Index(lines, q);
    FileInStep(lines, p, q);
    NoneStillToOpen(Flat(lines), FileMarks(lines, Forwards), FileMarks(lines, Backwards), a, b);
  }

  lemma StillToOpen(lines: seq<string>, p: Position, s: Position, q: Position)
    requires OnLine(lines, p) && OnLine(lines, s) && OnLine(lines, q) && Index(lines, p) < Index(lines, s)
    requires Balanced(Between(lines, p, s)) && MarkAt(lines[s.0], s.1).Up?
    requires NoneAfterOperator(lines, p, q) && OpensAt(lines, p, q)
    ensures !ClosesAt(lines, s, q)
  {
    FileNoneClosesFrom(lines, p, q);
    FileUpAt(lines, p, s);
  }

  // A scan forwards from a skipped '<' does not come to the place from where it is opened.
  lemma SkippedComesElsewhere(lines: seq<string>, l: nat, p: nat, m: nat, q: nat)
    requires OnLine(lines, (l, p)) && OnLine(lines, (m, q)) && OpensAt(lines, (l, p), (m, q)) && IsEnd(lines, (m, q))
    requires NoneAfterOperator(lines, (l, p), (m, q))
    requires lines[l][p] == '<' && MayOpen(lines[l], p) && SkipsLess(lines[l], p)
    ensures Close(lines, l, p) != Some((m, q + 1))
  {
    SkippedAngleMeaning(lines, l, p, m, q);
    CharAt(lines, (m, q));
    EndMark(lines, (m, q));
    var r := FirstNotable(lines[l], p + 1);
    if r.Some? && MarkAt(lines[l], r.value).Up? {
      BeforeNotable(lines[l], p + 1, r.value);
      BalancedUpTo(lines, l, p, r.value);
      StillToOpen(lines, (l, p), (l, r.value), (m, q));
    }
  }

  // An angle that is opened from q is closed at q by the scan forwards if and only if it may open,
  // and it and every angle bracket in between that is outside brackets are ordinary.
  lemma OpenedAngleIsClosed(lines: seq<string>, l: nat, p: nat, m: nat, q: nat)
    requires OnLine(lines, (l, p)) && OnLine(lines, (m, q)) && lines[m][q] == '>' && !SkipsGreater(lines[m], q)
    requires NoneAfterOperator(lines, (l, p), (m, q)) && !AfterOperator(lines[m], q)
    requires ReverseClose(lines, m, q) == Some((l, p))
    ensures Close(lines, l, p) == Some((m, q + 1)) <==>
            MayOpen(lines[l], p) && Ordinary(lines[l], p) && OrdinaryBetween(lines, (l, p), (m, q))
  {
    AngleBackMeaning(lines, m, q, l, p);
    StartMark(lines, (l, p), (m, q));
    EndMark(lines, (m, q));
    if !MayOpen(lines[l], p) {
    } else if SkipsLess(lines[l], p) {
      SkippedComesElsewhere(lines, l, p, m, q);
    } else {
      StartIsOrdinary(lines[l], p);
      AngleMeaning(lines, l, p, m, q);
      if OpensAt(lines, (l, p), (m, q)) && ClosesAt(lines, (l, p), (m, q)) {
        BothWaysIsOrdinary(lines, (l, p), (m, q));
      } else if OrdinaryBetween(lines, (l, p), (m, q)) {
        OrdinaryIsClosed(lines, (l, p), (m, q));
      }
    }
  }

  // Where both ends count for both scanners and everything in between is ordinary, the two
  // directions are inverse.
  lemma AnglesInverse(lines: seq<string>, l: nat, p: nat, m: nat, q: nat)
    requires OnLine(lines, (l, p)) && OnLine(lines, (m, q)) && IsStart(lines[l], p)
    requires lines[m][q] == '>' && !SkipsGreater(lines[m], q) && Ordinary(lines[m], q)
    requires OrdinaryBetween(lines, (l, p), (m, q))
    ensures Close(lines, l, p) == Some((m, q + 1)) <==> ReverseClose(lines, m, q) == Some((l, p))
  {
    OrdinaryIsNoneAfter(lines, (l, p), (m, q));
    if AfterOperator(lines[m], q) { OrdinaryExcludes(lines[m], q); }
    StartIsOrdinary(lines[l], p);
    if Close(lines, l, p) == Some((m, q + 1)) { ClosedAngleIsOpened(lines, l, p, m, q); }
    if ReverseClose(lines, m, q) == Some((l, p)) { OpenedAngleIsClosed(lines, l, p, m, q); }
  }

  lemma OrdinaryExcludes(line: string, i: nat)
    requires i < |line| && AfterOperator(line, i)
    ensures !Ordinary(line, i)
  {
  }

  lemma OrdinaryIsNoneAfter(lines: seq<string>, p: Position, q: Position)
    requires OnLine(lines, p) && OnLine(lines, q) && OrdinaryBetween(lines, p, q)
    ensures NoneAfterOperator(lines, p, q)
  {
    forall r: Position | Outside(lines, p, r, q) ensures !AfterOperator(lines[r.0], r.1) {
      if AfterOperator(lines[r.0], r.1) { OrdinaryExcludes(lines[r.0], r.1); }
    }
  }

  // What has been counted of the angles between p and q from the left and from the right: in all
  // the same, and on no part up to q as many fewer from the right as there are angles open.
  ghost predicate CountsMeet(lines: seq<string>, p: Position, q: Position)
    requires OnLine(lines, p) && OnLine(lines, q) && Index(lines, p) < Index(lines, q) <= |Flat(lines)|
  {
    var t, u, v := Flat(lines), FileMarks(lines, Forwards), FileMarks(lines, Backwards);
    var a, b := Index(lines, p) + 1, Index(lines, q);
    Drift(t, u, v, a, a, b) == 0 && DriftsLess(t, u, v, a, b)
  }

  lemma FileSameEnds(lines: seq<string>, p: Position)
    requires OnLine(lines, p) && IsStart(lines[p.0], p.1)
    ensures SameEnds(Flat(lines), FileMarks(lines, Forwards), FileMarks(lines, Backwards))
    ensures Index(lines, p) < |Flat(lines)| && FileMarks(lines, Backwards)[Index(lines, p)].Down?
  {
    FileTwoWays(lines);
    StartOfAngle(lines, p);
  }

  lemma ClosesBefore(lines: seq<string>, p: Position, q: Position)
    requires OnLine(lines, p) && OnLine(lines, q) && ClosesAt(lines, p, q)
    ensures Index(lines, p) < Index(lines, q) < |Flat(lines)|
  {
  }

  // Whatever stands in between, also after operator names: exactly when a closed angle is found
  // again from a '>' that counts.
  lemma ClosedAngleByCounts(lines: seq<string>, l: nat, p: nat, m: nat, q: nat)
    requires OnLine(lines, (l, p)) && OnLine(lines, (m, q)) && IsStart(lines[l], p)
    requires Close(lines, l, p) == Some((m, q + 1)) && lines[m][q] == '>' && !SkipsGreater(lines[m], q)
    ensures Index(lines, (l, p)) < Index(lines, (m, q)) <= |Flat(lines)|
    ensures ReverseClose(lines, m, q) == Some((l, p)) <==> CountsMeet(lines, (l, p), (m, q))
  {
    AngleMeaning(lines, l, p, m, q);
    AngleBackMeaning(lines, m, q, l, p);
    ClosesBefore(lines, (l, p), (m, q));
    OpensByCounts(lines, (l, p), (m, q));
  }

  lemma OpensByCounts(lines: seq<string>, p: Position, q: Position)
    requires OnLine(lines, p) && OnLine(lines, q) && IsStart(lines[p.0], p.1) && ClosesAt(lines, p, q)
    requires Index(lines, p) < Index(lines, q) < |Flat(lines)|
    ensures OpensAt(lines, p, q) <==> CountsMeet(lines, p, q)
  {
    var a, b := Index(lines, p) + 1, Index(lines, q);
    FileSameEnds(lines, p);
    DriftDecides(Flat(lines), FileMarks(lines, Forwards), FileMarks(lines, Backwards), a, b);
  }
}
