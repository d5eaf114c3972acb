// Angle brackets on which the scanners part ways, each kind on one line.
module AngleExamples {
  import opened Text
  import opened Brackets
  import opened Marking
  import opened ForwardScan
  import opened ForwardAngles
  import opened BackwardScan
  import opened BackwardAngles
  import opened AnglePromises
  import opened AngleRoundTrips

  // Neither scanner takes notice of such a character.
  predicate Quiet(c: char) { !IsOpener(c) && !IsCloser(c) && c != '<' && c != '>' && c != ';' }

  lemma {:induction false} Pass(line: string, i: nat, j: nat, stack: string)
    requires i <= j <= |line| && AllQuiet(line, i, j)
    ensures ScanLine(line, i, stack) == ScanLine(line, j, stack)
    decreases j - i
  {
    if i < j { Pass(line, i + 1, j, stack); }
  }

  predicate AllQuiet(line: string, i: nat, j: nat)
    requires j <= |line|
  {
    forall k :: i <= k < j ==> Quiet(line[k])
  }

  lemma {:induction false} PassBack(line: string, i: int, j: int, stack: string)
    requires -1 <= i <= j < |line| && forall k :: i < k <= j ==> Quiet(line[k])
    ensures ScanBack(line, j, stack) == ScanBack(line, i, stack)
    decreases j - i
  {
    if i < j { PassBack(line, i, j - 1, stack); }
  }

  // The stack of n open angles.
  function Less(n: nat): (r: string)
    ensures |r| == n && forall k :: 0 <= k < n ==> r[k] == '<'
  {
    seq(n, _ => '<')
  }

  // What each mark does to it.
  lemma Turn(line: string, i: nat, n: nat)
    requires i < |line| && n > 0
    ensures var all := ScanLine(line, i, Less(n));
            match MarkAt(line, i)
            case Plain => all == ScanLine(line, i + 1, Less(n))
            case Up => all == ScanLine(line, i + 1, Less(n + 1))
            case Down => if n == 1 then all == Found(i + 1) else all == ScanLine(line, i + 1, Less(n - 1))
            case Shift => if n == 1 then all == Unmatched else all == ScanLine(line, i + 1, Less(n - 1))
            case _ => true
  {
    assert Less(n) + ['<'] == Less(n + 1);
    assert Less(n)[..n - 1] == Less(n - 1);
  }

  lemma Start(line: string, i: nat)
    requires i < |line| && IsStart(line, i)
    ensures Close([line], 0, i) ==
            match ScanLine(line, i + 1, Less(1)) case Found(e) => Some((0, e)) case _ => None
  {
    assert [] + ['<'] == Less(1);
    assert ScanLine(line, i, []) == ScanLine(line, i + 1, Less(1));
  }

  lemma OperatorBefore(line: string, k: nat)
    requires k + 8 <= |line| && IsOperatorAt(line, k) && (k == 0 || !IsWordChar(line[k - 1]))
    ensures EndsInOperator(line[..k + 8])
  {
    var s := line[..k + 8];
    assert s[k + 7] == 'r' && TrimRight(s) == s && IsOperatorAt(s, k);
  }

  // Without the letter there is no word.
  lemma NoOperator(line: string, i: nat)
    requires i <= |line| && forall k :: 0 <= k < i ==> line[k] != 'p'
    ensures !EndsInOperator(line[..i])
  {
  }

  // A shift, and after it an angle that is closed.
  predicate IsShift(line: string) {
    && |line| == 6 && line[1] == '<' && MayOpen(line, 1) && SkipsLess(line, 1) && MarkAt(line, 1).Shift?
    && Quiet(line[2]) && MarkAt(line, 3).Up? && Quiet(line[4]) && MarkAt(line, 5).Down?
  }

  lemma ShiftScan(line: string)
    requires IsShift(line)
    ensures ScanLine(line, 1, []) == Found(6) && FirstNotable(line, 2) == Some(3)
  {
    Pass(line, 2, 3, []);
    assert [] + ['<'] == Less(1);
    Pass(line, 4, 5, Less(1));
    Turn(line, 5, 1);
    assert ScanLine(line, 3, []) == ScanLine(line, 4, Less(1));
    assert ScanLine(line, 1, []) == ScanLine(line, 2, []);
  }

  // The third angle is closed, not the second one, which is asked for.
  lemma ShiftResult(line: string)
    requires IsShift(line)
    ensures Close([line], 0, 1) == Some((0, 6)) && AnglePromise([line], 0, 1) && !FindsItsEnd([line], 0, 1)
  {
    ShiftScan(line);
    SkippedMissesItsEnd([line], 0, 1);
    PromiseIsBrokenExactly([line], 0, 1);
  }

  lemma ShiftExample()
    ensures IsShift("<< <a>")
  {
    NoOperator("<< <a>", 3);
    NoOperator("<< <a>", 4);
  }

  // A closed angle with an unlike bracket in between is not found again.
  lemma NotFoundAgain(line: string, q: nat, k: nat)
    requires 0 < k <= q < |line| && IsStart(line, 0) && Close([line], 0, 0) == Some((0, q + 1)) && !Ordinary(line, k)
    requires forall i :: 0 < i < q ==> !IsOpener(line[i]) && !IsCloser(line[i]) && !AfterOperator(line, i)
    ensures ReverseClose([line], 0, q) != Some((0, 0))
  {
    var lines := [line];
    ClosedAngleIsOpened(lines, 0, 0, 0, q);
    if k < q {
      BalancedBackTo(lines, 0, k, 0);
      assert Outside(lines, (0, 0), (0, k), (0, q));
    }
  }

  // Angles in columns 0 and q, and in column k what counts for one scanner only: a '<' in between or
  // the '>' at the end.
  predicate OneAngle(line: string, k: nat, q: nat) {
    && 0 < k <= q < |line| && IsStart(line, 0) && AllQuiet(line, 1, k) && AllQuiet(line, k + 1, q)
    && MarkAt(line, q).Down? && (k < q ==> line[k] == '<' && MarkAt(line, k).Plain?)
    && !Ordinary(line, k)
  }

  lemma OneAngleEnd(line: string, k: nat, q: nat)
    requires OneAngle(line, k, q)
    ensures Close([line], 0, 0) == Some((0, q + 1))
  {
    Start(line, 0);
    Pass(line, 1, k, Less(1));
    Turn(line, k, 1);
    if k < q {
      Pass(line, k + 1, q, Less(1));
      Turn(line, q, 1);
    }
  }

  lemma OneAngleIsLost(line: string, k: nat, q: nat)
    requires OneAngle(line, k, q)
    ensures Close([line], 0, 0) == Some((0, q + 1)) && ReverseClose([line], 0, q) != Some((0, 0))
  {
    OneAngleEnd(line, k, q);
    NotFoundAgain(line, q, k);
  }

  lemma ComparisonMark()
    ensures OneAngle("< >= ", 2, 2)
  {
    var line := "< >= ";
    NoOperator(line, 1);
    NoOperator(line, 2);
  }

  // Unlike the other brackets, angles need not be found again from the other end: " >= " ends with
  // a bracket for the one scanner and is an operator for the other.
  lemma AnglesAreNotInverse()
    ensures var lines := ["< >= "];
            Close(lines, 0, 0) == Some((0, 3)) && ReverseClose(lines, 0, 2) == None
  {
    ComparisonMark();
    OneAngleEnd("< >= ", 2, 2);
    NothingToOpen("< >= ");
  }

  lemma NothingToOpen(line: string)
    requires |line| == 5 && line[0] == '<' && Quiet(line[1]) && line[2] == '>' && SkipsGreater(line, 2)
    ensures ReverseClose([line], 0, 2) == None
  {
    SkippedGreaterScan([line], 0, 2);
    assert !NotableBack(line, 1) && !NotableBack(line, 0);
  }

  lemma OperatorLessMarks()
    ensures var line := "<operator<b>";
            MarkAt(line, 9).Plain? && MarkAt(line, 11).Down? && !Ordinary(line, 9)
  {
    var line := "<operator<b>";
    OperatorBefore(line, 1);
    assert !EndsInOperator(line[..10]) by { assert line[..10][9] == '<'; }
  }

  // The '<' of an operator name, which only the scan backwards counts.
  lemma OperatorLess()
    ensures OneAngle("<operator<b>", 9, 11)
  {
    OperatorLessMarks();
  }

  lemma OperatorGreaterMarks()
    ensures var line := "<operator>";
            MarkAt(line, 9).Down? && !Ordinary(line, 9)
  {
    var line := "<operator>";
    OperatorBefore(line, 1);
    assert !EndsInOperator(line[..8]) by { assert line[..8][7] == 'o'; }
  }

  // The '>' of an operator name, which only the scan forwards counts.
  lemma OperatorGreater()
    ensures OneAngle("<operator>", 9, 9)
  {
    OperatorGreaterMarks();
  }

  // With an angle open, a second one is opened in column j.
  lemma TwoOpen(line: string, j: nat, k: nat)
    requires 0 < j < k <= |line| && IsStart(line, 0) && MarkAt(line, j).Up?
    requires AllQuiet(line, 1, j) && AllQuiet(line, j + 1, k)
    ensures ScanLine(line, 1, Less(1)) == ScanLine(line, k, Less(2))
  {
    Pass(line, 1, j, Less(1));
    Turn(line, j, 1);
    Pass(line, j + 1, k, Less(2));
  }

  // One of two is closed before column k, and the other in column q.
  lemma OneLeft(line: string, k: nat, q: nat)
    requires k <= q < |line| && AllQuiet(line, k, q) && MarkAt(line, q).Down?
    requires IsStart(line, 0) && ScanLine(line, 1, Less(1)) == ScanLine(line, k, Less(1))
    ensures Close([line], 0, 0) == Some((0, q + 1))
  {
    Start(line, 0);
    Pass(line, k, q, Less(1));
    Turn(line, q, 1);
  }

  // An inner angle from column j to column k, whose end counts for one scanner only.
  predicate InnerAngle(line: string, j: nat, k: nat, q: nat) {
    && 0 < j < k < q < |line| && IsStart(line, 0)
    && AllQuiet(line, 1, j) && AllQuiet(line, j + 1, k) && AllQuiet(line, k + 1, q)
    && MarkAt(line, j).Up? && MarkAt(line, k).Down? && MarkAt(line, q).Down?
    && !Ordinary(line, k)
  }

  lemma InnerAngleEnd(line: string, j: nat, k: nat, q: nat)
    requires InnerAngle(line, j, k, q)
    ensures Close([line], 0, 0) == Some((0, q + 1))
  {
    TwoOpen(line, j, k);
    Turn(line, k, 2);
    OneLeft(line, k + 1, q);
  }

  lemma InnerAngleIsLost(line: string, j: nat, k: nat, q: nat)
    requires InnerAngle(line, j, k, q)
    ensures Close([line], 0, 0) == Some((0, q + 1)) && ReverseClose([line], 0, q) != Some((0, 0))
  {
    InnerAngleEnd(line, j, k, q);
    NotFoundAgain(line, q, k);
  }

  lemma ComparisonMarks()
    ensures var line := "<a<b >= c>";
            MarkAt(line, 2).Up? && MarkAt(line, 5).Down? && MarkAt(line, 9).Down? && !Ordinary(line, 5)
  {
    var line := "<a<b >= c>";
    NoOperator(line, 2);
    NoOperator(line, 4);
    NoOperator(line, 5);
    NoOperator(line, 8);
  }

  // A comparison, which only the scan forwards counts.
  lemma Comparison()
    ensures InnerAngle("<a<b >= c>", 2, 5, 9)
  {
    ComparisonMarks();
  }

  lemma RowTurns(line: string, k: nat)
    requires k + 2 < |line| && MarkAt(line, k).Up? && MarkAt(line, k + 1).Shift? && MarkAt(line, k + 2).Shift?
    ensures ScanLine(line, k, Less(2)) == ScanLine(line, k + 3, Less(1))
  {
    Turn(line, k, 2);
    Turn(line, k + 1, 3);
    Turn(line, k + 2, 2);
  }

  // With an angle open in column j, a row of three: the scan forwards takes it for a bracket and two
  // second halves of shifts, the scan backwards for one bracket.
  predicate RowOfThree(line: string, j: nat, k: nat, q: nat) {
    && 0 < j < k && k + 2 < q < |line| && IsStart(line, 0)
    && AllQuiet(line, 1, j) && AllQuiet(line, j + 1, k) && AllQuiet(line, k + 3, q)
    && MarkAt(line, j).Up? && MarkAt(line, k).Up? && MarkAt(line, k + 1).Shift? && MarkAt(line, k + 2).Shift?
    && MarkAt(line, q).Down? && !Ordinary(line, k)
  }

  lemma RowOfThreeEnd(line: string, j: nat, k: nat, q: nat)
    requires RowOfThree(line, j, k, q)
    ensures Close([line], 0, 0) == Some((0, q + 1))
  {
    TwoOpen(line, j, k);
    RowTurns(line, k);
    OneLeft(line, k + 3, q);
  }

  lemma RowOfThreeIsLost(line: string, j: nat, k: nat, q: nat)
    requires RowOfThree(line, j, k, q)
    ensures Close([line], 0, 0) == Some((0, q + 1)) && ReverseClose([line], 0, q) != Some((0, 0))
  {
    RowOfThreeEnd(line, j, k, q);
    NotFoundAgain(line, q, k);
  }

  lemma ThreeInARowMarks()
    ensures var line := "<a<b<<<c>";
            && MarkAt(line, 2).Up? && MarkAt(line, 4).Up? && MarkAt(line, 5).Shift? && MarkAt(line, 6).Shift?
            && MarkAt(line, 8).Down? && !Ordinary(line, 4)
  {
    var line := "<a<b<<<c>";
    NoOperator(line, 2);
    NoOperator(line, 4);
    NoOperator(line, 7);
    assert LessRun(line, 4) == 3;
  }

  lemma ThreeInARow()
    ensures RowOfThree("<a<b<<<c>", 2, 4, 8)
  {
    ThreeInARowMarks();
  }

  // The stack of n angles open to the left.
  function Greater(n: nat): (r: string)
    ensures |r| == n && forall k :: 0 <= k < n ==> r[k] == '>'
  {
    seq(n, _ => '>')
  }

  lemma TurnBack(line: string, i: nat, n: nat)
    requires i < |line| && n > 0
    ensures var all := ScanBack(line, i, Greater(n));
            match BackMarkAt(line, i)
            case Up => all == ScanBack(line, i - 1, Greater(n + 1))
            case Down => if n == 1 then all == Found(i) else all == ScanBack(line, i - 1, Greater(n - 1))
            case Plain => line[i] == '>' ==> all == ScanBack(line, i - 2, Greater(n))
            case _ => true
  {
    assert Greater(n) + ['>'] == Greater(n + 1);
    assert Greater(n)[..n - 1] == Greater(n - 1);
  }

  lemma StartBack(line: string, q: nat)
    requires q < |line| && line[q] == '>' && BackMarkAt(line, q).Up?
    ensures ReverseClose([line], 0, q) ==
            match ScanBack(line, q - 1, Greater(1)) case Found(p) => Some((0, p)) case _ => None
  {
    assert [] + ['>'] == Greater(1);
    assert ScanBack(line, q, []) == ScanBack(line, q - 1, Greater(1));
  }

  // Angles in columns 0 and q, and an inner one in column j with two ends: the scan forwards takes
  // the comparison in column k + 2 for its end, the scan backwards the '>' in column k.
  predicate TwoEnds(line: string, j: nat, k: nat, q: nat) {
    && 0 < j < k && k + 2 < q < |line| && IsStart(line, 0)
    && AllQuiet(line, 1, j) && AllQuiet(line, j + 1, k) && AllQuiet(line, k + 1, k + 2) && AllQuiet(line, k + 3, q)
    && line[k] == line[k + 2] == line[q] == '>'
  }

  predicate EndsForwards(line: string, j: nat, k: nat, q: nat)
    requires TwoEnds(line, j, k, q)
  {
    MarkAt(line, j).Up? && MarkAt(line, k).Plain? && MarkAt(line, k + 2).Down? && MarkAt(line, q).Down?
  }

  predicate EndsBackwards(line: string, j: nat, k: nat, q: nat)
    requires TwoEnds(line, j, k, q)
  {
    && BackMarkAt(line, 0).Down? && BackMarkAt(line, j).Down? && BackMarkAt(line, k).Up?
    && BackMarkAt(line, k + 2).Plain? && BackMarkAt(line, q).Up?
  }

  lemma FirstEndTurns(line: string, k: nat)
    requires k + 2 < |line| && MarkAt(line, k).Plain? && AllQuiet(line, k + 1, k + 2) && MarkAt(line, k + 2).Down?
    ensures ScanLine(line, k, Less(2)) == ScanLine(line, k + 3, Less(1))
  {
    Turn(line, k, 2);
    Pass(line, k + 1, k + 2, Less(2));
    Turn(line, k + 2, 2);
  }

  lemma TwoEndsForwards(line: string, j: nat, k: nat, q: nat)
    requires TwoEnds(line, j, k, q) && EndsForwards(line, j, k, q)
    ensures Close([line], 0, 0) == Some((0, q + 1))
  {
    TwoOpen(line, j, k);
    FirstEndTurns(line, k);
    OneLeft(line, k + 3, q);
  }

  lemma SecondEndTurns(line: string, k: nat)
    requires 0 < k && k + 2 < |line| && line[k + 2] == '>'
    requires BackMarkAt(line, k).Up? && BackMarkAt(line, k + 2).Plain?
    ensures ScanBack(line, k + 2, Greater(1)) == ScanBack(line, k - 1, Greater(2))
  {
    TurnBack(line, k + 2, 1);
    TurnBack(line, k, 1);
  }

  lemma TwoOpenBack(line: string, j: nat, k: nat)
    requires 0 < j <= k < |line| && AllQuiet(line, 1, j) && AllQuiet(line, j + 1, k + 1)
    requires BackMarkAt(line, 0).Down? && BackMarkAt(line, j).Down?
    ensures ScanBack(line, k, Greater(2)) == Found(0)
  {
    PassBack(line, j, k, Greater(2));
    TurnBack(line, j, 2);
    PassBack(line, 0, j - 1, Greater(1));
    TurnBack(line, 0, 1);
  }

  lemma TwoEndsScan(line: string, j: nat, k: nat, q: nat)
    requires 0 < j < k && k + 2 < q <= |line| && line[k + 2] == '>'
    requires AllQuiet(line, 1, j) && AllQuiet(line, j + 1, k) && AllQuiet(line, k + 3, q)
    requires BackMarkAt(line, 0).Down? && BackMarkAt(line, j).Down? && BackMarkAt(line, k).Up?
    requires BackMarkAt(line, k + 2).Plain?
    ensures ScanBack(line, q - 1, Greater(1)) == Found(0)
  {
    PassBack(line, k + 2, q - 1, Greater(1));
    SecondEndTurns(line, k);
    TwoOpenBack(line, j, k - 1);
  }

  lemma TwoEndsBackwards(line: string, j: nat, k: nat, q: nat)
    requires TwoEnds(line, j, k, q) && EndsBackwards(line, j, k, q)
    ensures ReverseClose([line], 0, q) == Some((0, 0))
  {
    StartBack(line, q);
    TwoEndsScan(line, j, k, q);
  }

  lemma TwoEndsShape()
    ensures TwoEnds("< <operator+> >= >", 2, 12, 17)
  {
  }

  lemma TwoEndsUpMark()
    ensures MarkAt("< <operator+> >= >", 2).Up?
  {
    NoOperator("< <operator+> >= >", 2);
  }

  lemma TwoEndsLateMark()
    ensures var line := "< <operator+> >= >";
            MarkAt(line, 12).Plain?
  {
    var line := "< <operator+> >= >";
    OperatorBefore(line, 3);
  }

  lemma TwoEndsDownMarks()
    ensures var line := "< <operator+> >= >";
            MarkAt(line, 14).Down? && MarkAt(line, 17).Down?
  {
    var line := "< <operator+> >= >";
    assert !EndsInOperator(line[..13]) by { assert line[..13][12] == '>'; }
    assert !EndsInOperator(line[..16]) by { assert line[..16][15] == '='; }
  }

  lemma TwoEndsBackMarks()
    ensures var line := "< <operator+> >= >";
            && BackMarkAt(line, 0).Down? && BackMarkAt(line, 2).Down? && BackMarkAt(line, 12).Up?
            && BackMarkAt(line, 14).Plain? && BackMarkAt(line, 17).Up?
  {
    var line := "< <operator+> >= >";
    assert !EndsInOperator(line[..12]) by { assert line[..12][11] == '+'; }
    assert !EndsInOperator(line[..17]) by { assert TrimRight(line[..17]) == line[..16] && line[..16][15] == '='; }
  }

  lemma TwoEndsExample()
    ensures var line := "< <operator+> >= >";
            TwoEnds(line, 2, 12, 17) && EndsForwards(line, 2, 12, 17) && EndsBackwards(line, 2, 12, 17)
  {
    TwoEndsShape();
    TwoEndsUpMark();
    TwoEndsLateMark();
    TwoEndsDownMarks();
    TwoEndsBackMarks();
  }

  // Brackets after operator names may make up for others: the round trip holds, though neither of
  // the two ends is ordinary.
  lemma LateMayCancel(line: string, j: nat, k: nat, q: nat)
    requires TwoEnds(line, j, k, q) && EndsForwards(line, j, k, q) && EndsBackwards(line, j, k, q)
    ensures Close([line], 0, 0) == Some((0, q + 1)) && ReverseClose([line], 0, q) == Some((0, 0))
    ensures !Ordinary(line, k) && !Ordinary(line, k + 2)
  {
    TwoEndsForwards(line, j, k, q);
    TwoEndsBackwards(line, j, k, q);
  }
}
