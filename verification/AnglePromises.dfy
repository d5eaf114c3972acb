// Exactly when the result for an angle bracket is not the other end of that bracket.
module AnglePromises {
  import opened Text
  import opened Brackets
  import opened Lines
  import opened Marking
  import opened Angles
  import opened AngleDrift
  import opened AngleInverse
  import opened ForwardScan
  import opened ForwardAngles
  import opened BackwardScan
  import opened BackwardAngles

  // From a cut outside brackets on, the count goes on from what it was there.
  lemma {:induction false} LevelShift(t: string, u: seq<Mark>, a: nat, c: nat, k: nat)
    requires |t| == |u| && a <= c <= k <= |t| && Balanced(t[a..c])
    ensures Level(t, u, a, k) == Level(t, u, a, c) + Level(t, u, c, k) - 1
    decreases k
  {
    if c < k {
      LevelShift(t, u, a, c, k - 1);
      BalancedPrefix(t, a, c, k - 1);
    }
  }

  // Where an inner angle closes, the outer one does not.
  lemma InnerClosesFirst(t: string, u: seq<Mark>, a: nat, s: nat, b: nat)
    requires Marks(t, u) && UpAt(t, u, a, s) && AngleCloses(t, u, s + 1, b)
    ensures !AngleCloses(t, u, a, b)
  {
    if AngleCloses(t, u, a, b) {
      assert IsOpen(t, u, a, s);
      OutsideNext(t, u, a, s);
      LevelShift(t, u, a, s + 1, b);
    }
  }

  ghost predicate NoneClosesInside(t: string, u: seq<Mark>, a: nat, b: nat)
    requires |t| == |u|
  {
    AngleCloses(t, u, a, b) ==> NoneClosesFrom(t, u, a, b)
  }

  lemma InnerNeverCloses(t: string, u: seq<Mark>, a: nat, b: nat)
    requires Marks(t, u)
    ensures NoneClosesInside(t, u, a, b)
  {
    forall s: nat | UpAt(t, u, a, s) && AngleCloses(t, u, s + 1, b) ensures !AngleCloses(t, u, a, b) {
      InnerClosesFirst(t, u, a, s, b);
    }
  }

  lemma InnerEndsElsewhere(lines: seq<string>, p: Position, s: Position, q: Position)
    requires OnLine(lines, p) && OnLine(lines, s) && OnLine(lines, q) && Index(lines, p) < Index(lines, s)
    requires Balanced(Between(lines, p, s)) && MarkAt(lines[s.0], s.1).Up? && ClosesAt(lines, s, q)
    ensures !ClosesAt(lines, p, q)
  {
    FileMarksFit(lines, Forwards);
    InnerNeverCloses(Flat(lines), FileMarks(lines, Forwards), Index(lines, p) + 1, Index(lines, q));
    FileUpAt(lines, p, s);
  }

  // The result for the '<' in column p is the place where this very angle is closed.
  ghost predicate FindsItsEnd(lines: seq<string>, l: nat, p: nat)
    requires OnLine(lines, (l, p))
  {
    var r := Close(lines, l, p);
    r.Some? ==>
      var m, q := r.value.0, r.value.1 - 1;
      q >= 0 && OnLine(lines, (m, q)) && ClosesAt(lines, (l, p), (m, q))
  }

  // The bracket or the opening angle in column s is closed somewhere.
  ghost predicate HasEnd(lines: seq<string>, l: nat, s: nat)
    requires OnLine(lines, (l, s))
  {
    exists q: Position :: OnLine(lines, q) && ClosedAt(lines, l, s, q.0, q.1)
  }

  // The '<' is skipped, and the first column after it that counts is closed.
  ghost predicate FallsForNext(lines: seq<string>, l: nat, p: nat)
    requires OnLine(lines, (l, p))
  {
    var s := FirstNotable(lines[l], p + 1);
    MayOpen(lines[l], p) && SkipsLess(lines[l], p) && s.Some? && HasEnd(lines, l, s.value)
  }

  lemma BracketEndsElsewhere(lines: seq<string>, p: Position, s: Position, q: Position)
    requires OnLine(lines, p) && OnLine(lines, s) && OnLine(lines, q)
    requires Matched(Flat(lines), Index(lines, s), Index(lines, q))
    ensures !ClosesAt(lines, p, q)
  {
    FileMarkAt(lines, q, Forwards);
    CharAt(lines, q);
  }

  lemma NextEndsElsewhere(lines: seq<string>, l: nat, p: nat, s: nat, q: Position)
    requires OnLine(lines, (l, p)) && FirstNotable(lines[l], p + 1) == Some(s)
    requires OnLine(lines, q) && ClosedAt(lines, l, s, q.0, q.1)
    ensures !ClosesAt(lines, (l, p), q)
  {
    if MarkAt(lines[l], s).Up? {
      BeforeNotable(lines[l], p + 1, s);
      BalancedUpTo(lines, l, p, s);
      InnerEndsElsewhere(lines, (l, p), (l, s), q);
    } else {
      BracketEndsElsewhere(lines, (l, p), (l, s), q);
    }
  }

  lemma NextResult(lines: seq<string>, l: nat, s: nat)
    requires OnLine(lines, (l, s))
    ensures var r := FromNotable(lines, l, s);
            r.Some? ==> r.value.1 > 0 && OnLine(lines, (r.value.0, r.value.1 - 1))
  {
    if IsOpener(lines[l][s]) {
      BracketEndsAtCloser(lines, l, s);
    } else if MarkAt(lines[l], s).Up? {
      OpenAngleSound(lines, l, s + 1);
    }
  }

  lemma NextHasEnd(lines: seq<string>, l: nat, s: nat)
    requires OnLine(lines, (l, s))
    ensures FromNotable(lines, l, s).Some? <==> HasEnd(lines, l, s)
  {
    NextResult(lines, l, s);
    var r := FromNotable(lines, l, s);
    if r.Some? {
      var q: Position := (r.value.0, r.value.1 - 1);
      NotableMeaning(lines, l, s, q.0, q.1);
    }
    if HasEnd(lines, l, s) {
      var q: Position :| OnLine(lines, q) && ClosedAt(lines, l, s, q.0, q.1);
      NotableMeaning(lines, l, s, q.0, q.1);
    }
  }

  // A result for a skipped '<' is never its own end.
  lemma SkippedMissesItsEnd(lines: seq<string>, l: nat, p: nat)
    requires OnLine(lines, (l, p)) && lines[l][p] == '<' && MayOpen(lines[l], p) && SkipsLess(lines[l], p)
    ensures FindsItsEnd(lines, l, p) <==> Close(lines, l, p) == None
    ensures Close(lines, l, p).Some? <==> FallsForNext(lines, l, p)
  {
    SkippedAngleScan(lines, l, p);
    var r, s := Close(lines, l, p), FirstNotable(lines[l], p + 1);
    if s.Some? {
      NextHasEnd(lines, l, s.value);
      NextResult(lines, l, s.value);
      if r.Some? {
        SkippedAngleMeaning(lines, l, p, r.value.0, r.value.1 - 1);
        NextEndsElsewhere(lines, l, p, s.value, (r.value.0, r.value.1 - 1));
      }
    }
  }

  // Exactly then the result is not the end of the angle it was asked for.
  lemma EndIsMissedExactly(lines: seq<string>, l: nat, p: nat)
    requires OnLine(lines, (l, p)) && lines[l][p] == '<'
    ensures !FindsItsEnd(lines, l, p) <==> FallsForNext(lines, l, p)
  {
    var r := Close(lines, l, p);
    if MayOpen(lines[l], p) && SkipsLess(lines[l], p) {
      SkippedMissesItsEnd(lines, l, p);
    } else if r.Some? {
      AngleSoundness(lines, l, p);
      AngleMeaning(lines, l, p, r.value.0, r.value.1 - 1);
    }
  }

  // The same from right to left: where an inner angle is opened, the outer one is not.
  lemma InnerOpensFirst(t: string, v: seq<Mark>, a: nat, s: nat, b: nat)
    requires Marks(t, v) && 0 < a <= s < b <= |t| && v[s].Up? && Balanced(t[s + 1..b]) && AngleOpens(t, v, a, s)
    ensures !AngleOpens(t, v, a, b)
  {
    MirrorFits(t, v);
    MirrorSlice(t, s + 1, b);
    InnerClosesFirst(Mirror(t), Reverse(v), |t| - b, |t| - s - 1, |t| - a);
  }

  // Outside brackets, read from right to left, an angle is opened at s.
  ghost predicate BackUpAt(t: string, v: seq<Mark>, s: nat, b: nat) {
    s < b <= |t| && |v| == |t| && v[s].Up? && Balanced(t[s + 1..b])
  }

  ghost predicate NoneOpensInside(t: string, v: seq<Mark>, a: nat, b: nat)
    requires |t| == |v|
  {
    AngleOpens(t, v, a, b) ==> forall s: nat :: BackUpAt(t, v, s, b) ==> !AngleOpens(t, v, a, s)
  }

  lemma InnerNeverOpens(t: string, v: seq<Mark>, a: nat, b: nat)
    requires Marks(t, v) && 0 < a
    ensures NoneOpensInside(t, v, a, b)
  {
    forall s: nat | BackUpAt(t, v, s, b) && AngleOpens(t, v, a, s) ensures !AngleOpens(t, v, a, b) {
      InnerOpensFirst(t, v, a, s, b);
    }
  }

  lemma FileBackUpAt(lines: seq<string>, s: Position, q: Position)
    requires OnLine(lines, s) && OnLine(lines, q) && Index(lines, s) < Index(lines, q)
    requires Balanced(Between(lines, s, q)) && BackMarkAt(lines[s.0], s.1).Up?
    ensures BackUpAt(Flat(lines), FileMarks(lines, Backwards), Index(lines, s), Index(lines, q))
  {
    FileMarkAt(lines, s, Backwards);
    CharAt(lines, q);
  }

  lemma InnerStartsElsewhere(lines: seq<string>, p: Position, s: Position, q: Position)
    requires OnLine(lines, p) && OnLine(lines, s) && OnLine(lines, q) && Index(lines, s) < Index(lines, q)
    requires Balanced(Between(lines, s, q)) && BackMarkAt(lines[s.0], s.1).Up? && OpensAt(lines, p, s)
    ensures !OpensAt(lines, p, q)
  {
    FileMarksFit(lines, Backwards);
    InnerNeverOpens(Flat(lines), FileMarks(lines, Backwards), Index(lines, p) + 1, Index(lines, q));
    FileBackUpAt(lines, s, q);
  }

  lemma BracketStartsElsewhere(lines: seq<string>, p: Position, s: Position, q: Position)
    requires OnLine(lines, p) && OnLine(lines, s) && OnLine(lines, q)
    requires Matched(Flat(lines), Index(lines, p), Index(lines, s))
    ensures !OpensAt(lines, p, q)
  {
    CharAt(lines, p);
    if OpensAt(lines, p, q) {
      AngleOpensDown(Flat(lines), FileMarks(lines, Backwards), Index(lines, p) + 1, Index(lines, q));
      DownIsLess(lines, p);
    }
  }

  lemma AngleOpensDown(t: string, v: seq<Mark>, a: nat, b: nat)
    requires |t| == |v| && 0 < a && AngleOpens(t, v, a, b)
    ensures a <= |t| && v[a - 1].Down?
  {
  }

  // The result for the '>' in column q is the place where this very angle is opened.
  ghost predicate FindsItsStart(lines: seq<string>, l: nat, q: nat)
    requires OnLine(lines, (l, q))
  {
    var r := ReverseClose(lines, l, q);
    r.Some? ==> OnLine(lines, r.value) && OpensAt(lines, r.value, (l, q))
  }

  // The bracket or the closing angle in column s is opened somewhere.
  ghost predicate HasStart(lines: seq<string>, l: nat, s: nat)
    requires OnLine(lines, (l, s))
  {
    exists p: Position :: OnLine(lines, p) && OpenedAt(lines, l, s, p.0, p.1)
  }

  // The '>' is skipped, and the first column before it that counts is opened.
  ghost predicate FallsForPrevious(lines: seq<string>, l: nat, q: nat)
    requires OnLine(lines, (l, q))
  {
    var s := FirstNotableBack(lines[l], q - 1);
    SkipsGreater(lines[l], q) && s.Some? && HasStart(lines, l, s.value)
  }

  lemma PreviousStartsElsewhere(lines: seq<string>, l: nat, q: nat, s: nat, p: Position)
    requires OnLine(lines, (l, q)) && FirstNotableBack(lines[l], q - 1) == Some(s)
    requires OnLine(lines, p) && OpenedAt(lines, l, s, p.0, p.1)
    ensures !OpensAt(lines, p, (l, q))
  {
    if BackMarkAt(lines[l], s).Up? {
      AfterNotable(lines[l], q - 1, s);
      BalancedBackTo(lines, l, q, s);
      InnerStartsElsewhere(lines, p, (l, s), (l, q));
    } else {
      BracketStartsElsewhere(lines, p, (l, s), (l, q));
    }
  }

  lemma BalancedBackTo(lines: seq<string>, l: nat, q: nat, s: nat)
    requires OnLine(lines, (l, q)) && s < q && NoBrackets(lines[l], s, q)
    ensures Balanced(Between(lines, (l, s), (l, q)))
  {
    var t, a, b := Flat(lines), Index(lines, (l, s)) + 1, Index(lines, (l, q));
    assert b <= |t| && NoBrackets(t, a, b) by { NoBracketsOnFlat(lines, l, s + 1, q); }
    PlainRun(t, a, b, []);
  }

  lemma PreviousResult(lines: seq<string>, l: nat, s: nat)
    requires OnLine(lines, (l, s))
    ensures var r := FromNotableBack(lines, l, s); r.Some? ==> OnLine(lines, r.value)
  {
    if IsCloser(lines[l][s]) {
      BracketStartsAtOpener(lines, l, s);
    } else if BackMarkAt(lines[l], s).Up? {
      OpenAngleBackSound(lines, l, s - 1, Index(lines, (l, s)));
    }
  }

  lemma PreviousHasStart(lines: seq<string>, l: nat, s: nat)
    requires OnLine(lines, (l, s))
    ensures FromNotableBack(lines, l, s).Some? <==> HasStart(lines, l, s)
  {
    PreviousResult(lines, l, s);
    var r := FromNotableBack(lines, l, s);
    if r.Some? { NotableBackMeaning(lines, l, s, r.value.0, r.value.1); }
    if HasStart(lines, l, s) {
      var p: Position :| OnLine(lines, p) && OpenedAt(lines, l, s, p.0, p.1);
      NotableBackMeaning(lines, l, s, p.0, p.1);
    }
  }

  // A result for a skipped '>' is never its own start.
  lemma SkippedMissesItsStart(lines: seq<string>, l: nat, q: nat)
    requires OnLine(lines, (l, q)) && lines[l][q] == '>' && SkipsGreater(lines[l], q)
    ensures FindsItsStart(lines, l, q) <==> ReverseClose(lines, l, q) == None
    ensures ReverseClose(lines, l, q).Some? <==> FallsForPrevious(lines, l, q)
  {
    SkippedGreaterScan(lines, l, q);
    var r, s := ReverseClose(lines, l, q), FirstNotableBack(lines[l], q - 1);
    if s.Some? {
      PreviousHasStart(lines, l, s.value);
      PreviousResult(lines, l, s.value);
      if r.Some? {
        SkippedGreaterMeaning(lines, l, q, r.value.0, r.value.1);
        PreviousStartsElsewhere(lines, l, q, s.value, r.value);
      }
    }
  }

  // Exactly then the result is not the start of the angle it was asked for.
  lemma StartIsMissedExactly(lines: seq<string>, l: nat, q: nat)
    requires OnLine(lines, (l, q)) && lines[l][q] == '>'
    ensures !FindsItsStart(lines, l, q) <==> FallsForPrevious(lines, l, q)
  {
    var r := ReverseClose(lines, l, q);
    if SkipsGreater(lines[l], q) {
      SkippedMissesItsStart(lines, l, q);
    } else if r.Some? {
      BackwardAngleSoundness(lines, l, q);
      AngleBackMeaning(lines, l, q, r.value.0, r.value.1);
    }
  }
}
