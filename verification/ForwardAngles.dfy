// What CloseExpression computes for a '<', and exactly when that is not what it promises.
module ForwardAngles {
  import opened Text
  import opened Brackets
  import opened Lines
  import opened Marking
  import opened Angles
  import opened ForwardScan
  import opened ForwardTheorems

  // With one angle open, the scan from column i on ends where the reference does.
  lemma OpenAngle(lines: seq<string>, l: nat, i: nat)
    requires l < |lines| && i <= |lines[l]|
    ensures Agrees(lines, CloseLines(lines, l, i, ['<']),
                   MatchFrom(Flat(lines), FileMarks(lines, Forwards), Offset(lines, l) + i, Open(1, [])))
  {
    OpenSnoc([], '<');
    assert [] + ['<'] == ['<'];
    CloseIsMatch(lines, l, i, ['<']);
    MatchOnFlat(lines, l, i, Offset(lines, l) + i, Open(1, []));
  }

  lemma OpenAngleMatch(lines: seq<string>, l: nat, i: nat, m: nat, q: nat)
    requires l < |lines| && i <= |lines[l]| && OnLine(lines, (m, q))
    ensures CloseLines(lines, l, i, ['<']) == Some((m, q + 1)) <==>
            MatchFrom(Flat(lines), FileMarks(lines, Forwards), Offset(lines, l) + i, Open(1, [])) ==
            Some(Index(lines, (m, q)))
  {
    OpenAngle(lines, l, i);
    var r := CloseLines(lines, l, i, ['<']);
    if r.Some? { IndexInjective(lines, (r.value.0, r.value.1 - 1), (m, q)); }
  }

  lemma OpenAngleMeaning(lines: seq<string>, l: nat, i: nat, m: nat, q: nat)
    requires l < |lines| && i <= |lines[l]| && OnLine(lines, (m, q))
    ensures CloseLines(lines, l, i, ['<']) == Some((m, q + 1)) <==>
            AngleCloses(Flat(lines), FileMarks(lines, Forwards), Offset(lines, l) + i, Index(lines, (m, q)))
  {
    OpenAngleMatch(lines, l, i, m, q);
    OffsetInFlat(lines, l, i);
    FileMarksFit(lines, Forwards);
    AngleMatcherMeaning(Flat(lines), FileMarks(lines, Forwards), Offset(lines, l) + i, Index(lines, (m, q)));
  }

  // The angle at p is closed at q: by the first '>' that leaves no angle open, counting outside
  // brackets only, with no ';' before it there.
  ghost predicate ClosesAt(lines: seq<string>, p: Position, q: Position)
    requires OnLine(lines, p) && OnLine(lines, q)
  {
    AngleCloses(Flat(lines), FileMarks(lines, Forwards), Index(lines, p) + 1, Index(lines, q))
  }

  // From a '<' taken for an opener, the result is the one place that closes it.
  lemma AngleMeaning(lines: seq<string>, l: nat, p: nat, m: nat, q: nat)
    requires OnLine(lines, (l, p)) && OnLine(lines, (m, q))
    requires lines[l][p] == '<' && MayOpen(lines[l], p) && !SkipsLess(lines[l], p)
    ensures Close(lines, l, p) == Some((m, q + 1)) <==> ClosesAt(lines, (l, p), (m, q))
  {
    FirstTurn(lines, l, p);
    CharAt(lines, (l, p));
    OpenAngleMeaning(lines, l, p + 1, m, q);
  }

  // Complete: if the text up to q is a word with all four kinds of brackets, q is found.
  lemma AngleCompleteness(lines: seq<string>, l: nat, p: nat, m: nat, q: nat)
    requires OnLine(lines, (l, p)) && OnLine(lines, (m, q)) && MarkAt(lines[l], p).Up? && MarkAt(lines[m], q).Down?
    requires MayOpen(lines[l], p) && Index(lines, (l, p)) < Index(lines, (m, q)) < |Flat(lines)|
    requires FourKinds(Flat(lines), FileMarks(lines, Forwards), Index(lines, (l, p)) + 1, Index(lines, (m, q)))
    ensures Close(lines, l, p) == Some((m, q + 1))
  {
    AngleMeaning(lines, l, p, m, q);
    FileMarksFit(lines, Forwards);
    FileMarkAt(lines, (m, q), Forwards);
    FourKindsClose(Flat(lines), FileMarks(lines, Forwards), Index(lines, (l, p)) + 1, Index(lines, (m, q)));
  }

  // A column at which a scan with nothing open takes notice.
  predicate Notable(line: string, i: nat)
    requires i < |line|
  {
    var m := MarkAt(line, i);
    m.Bracket? || m.Up? || m.Semicolon?
  }

  function FirstNotable(line: string, i: nat): (r: Option<nat>)
    ensures match r
            case None => forall k :: i <= k < |line| ==> !Notable(line, k)
            case Some(s) => i <= s < |line| && Notable(line, s) && forall k :: i <= k < s ==> !Notable(line, k)
    decreases |line| - i
  {
    if i >= |line| then None else if Notable(line, i) then Some(i) else FirstNotable(line, i + 1)
  }

  // What a scan with nothing open makes of the column it takes notice of.
  function FromNotable(lines: seq<string>, l: nat, s: nat): Option<Position>
    requires OnLine(lines, (l, s))
  {
    if IsOpener(lines[l][s]) then Close(lines, l, s)
    else if MarkAt(lines[l], s).Up? then CloseLines(lines, l, s + 1, ['<'])
    else None
  }

  lemma {:induction false} NothingOpen(lines: seq<string>, l: nat, i: nat)
    requires l < |lines| && i <= |lines[l]|
    ensures CloseLines(lines, l, i, []) ==
            match FirstNotable(lines[l], i) case None => None case Some(s) => FromNotable(lines, l, s)
    decreases |lines[l]| - i
  {
    if i < |lines[l]| {
      var c := lines[l][i];
      assert [] + [c] == [c];
      TurnOnLines(lines, l, i, []);
      if !Notable(lines[l], i) { NothingOpen(lines, l, i + 1); }
    }
  }

  lemma SkippedAngleScan(lines: seq<string>, l: nat, p: nat)
    requires OnLine(lines, (l, p)) && lines[l][p] == '<' && MayOpen(lines[l], p) && SkipsLess(lines[l], p)
    ensures Close(lines, l, p) ==
            match FirstNotable(lines[l], p + 1) case None => None case Some(s) => FromNotable(lines, l, s)
  {
    TurnOnLines(lines, l, p, []);
    NothingOpen(lines, l, p + 1);
  }

  // The bracket or the opening angle in column s of line l is closed at (m, q).
  ghost predicate ClosedAt(lines: seq<string>, l: nat, s: nat, m: nat, q: nat)
    requires OnLine(lines, (l, s)) && OnLine(lines, (m, q))
  {
    || (IsOpener(lines[l][s]) && Matched(Flat(lines), Index(lines, (l, s)), Index(lines, (m, q))))
    || (MarkAt(lines[l], s).Up? && ClosesAt(lines, (l, s), (m, q)))
  }

  lemma NotableMeaning(lines: seq<string>, l: nat, s: nat, m: nat, q: nat)
    requires OnLine(lines, (l, s)) && OnLine(lines, (m, q))
    ensures FromNotable(lines, l, s) == Some((m, q + 1)) <==> ClosedAt(lines, l, s, m, q)
  {
    if IsOpener(lines[l][s]) {
      CloseMeansMatched(lines, l, s, m, q);
    } else {
      OpenAngleMeaning(lines, l, s + 1, m, q);
    }
  }

  // A '<' taken for part of a shift or an operator name is no bracket: what is closed is the first
  // bracket or opening angle after it on its line, if nothing else takes notice before.
  lemma SkippedAngleMeaning(lines: seq<string>, l: nat, p: nat, m: nat, q: nat)
    requires OnLine(lines, (l, p)) && OnLine(lines, (m, q))
    requires lines[l][p] == '<' && MayOpen(lines[l], p) && SkipsLess(lines[l], p)
    ensures Close(lines, l, p) == Some((m, q + 1)) <==>
            match FirstNotable(lines[l], p + 1)
            case None => false
            case Some(s) => ClosedAt(lines, l, s, m, q)
  {
    SkippedAngleScan(lines, l, p);
    var r := FirstNotable(lines[l], p + 1);
    if r.Some? { NotableMeaning(lines, l, r.value, m, q); }
  }

  // The text strictly between two positions of the file.
  function Between(lines: seq<string>, p: Position, q: Position): string
    requires OnLine(lines, p) && OnLine(lines, q)
  {
    var t, a, b := Flat(lines), Index(lines, p) + 1, Index(lines, q);
    if a <= b <= |t| then t[a..b] else []
  }

  // What CloseExpression promises for a '<': a result lies just past a '>', and the brackets in
  // between are a typed bracket word.
  ghost predicate AnglePromise(lines: seq<string>, l: nat, p: nat)
    requires OnLine(lines, (l, p))
  {
    var r := Close(lines, l, p);
    r.Some? ==>
      var m, q := r.value.0, r.value.1 - 1;
      && q >= 0 && OnLine(lines, (m, q)) && lines[m][q] == '>'
      && Index(lines, (l, p)) < Index(lines, (m, q)) && Dyck(Between(lines, (l, p), (m, q)))
  }

  lemma NoBracketsOnFlat(lines: seq<string>, l: nat, i: nat, j: nat)
    requires l < |lines| && i <= j <= |lines[l]| && NoBrackets(lines[l], i, j)
    ensures Offset(lines, l) + j <= |Flat(lines)| && NoBrackets(Flat(lines), Offset(lines, l) + i, Offset(lines, l) + j)
  {
    var a := Offset(lines, l);
    OffsetInFlat(lines, l, j);
    forall k | a + i <= k < a + j ensures Flat(lines)[k] == lines[l][k - a] { CharAt(lines, (l, k - a)); }
  }

  lemma BalancedUpTo(lines: seq<string>, l: nat, p: nat, s: nat)
    requires OnLine(lines, (l, p)) && p < s < |lines[l]| && NoBrackets(lines[l], p + 1, s + 1)
    ensures Index(lines, (l, p)) < Index(lines, (l, s)) && Balanced(Between(lines, (l, p), (l, s)))
  {
    var t, a, c := Flat(lines), Index(lines, (l, p)) + 1, Index(lines, (l, s));
    assert c <= |t| && NoBrackets(t, a, c) by { NoBracketsOnFlat(lines, l, p + 1, s); }
    PlainRun(t, a, c, []);
  }

  lemma FileUpAt(lines: seq<string>, p: Position, s: Position)
    requires OnLine(lines, p) && OnLine(lines, s) && Index(lines, p) < Index(lines, s)
    requires Balanced(Between(lines, p, s)) && MarkAt(lines[s.0], s.1).Up?
    ensures UpAt(Flat(lines), FileMarks(lines, Forwards), Index(lines, p) + 1, Index(lines, s))
  {
    FileMarkAt(lines, s, Forwards);
  }

  lemma OpenAngleSound(lines: seq<string>, l: nat, i: nat)
    requires l < |lines| && i <= |lines[l]|
    ensures var r := CloseLines(lines, l, i, ['<']);
            r.Some? ==>
              var m, q := r.value.0, r.value.1 - 1;
              && q >= 0 && OnLine(lines, (m, q)) && lines[m][q] == '>'
              && Offset(lines, l) + i <= Index(lines, (m, q)) < |Flat(lines)|
              && Balanced(Flat(lines)[Offset(lines, l) + i..Index(lines, (m, q))])
  {
    OpenAngle(lines, l, i);
    OffsetInFlat(lines, l, i);
    FileMarksFit(lines, Forwards);
    AngleMatcherSound(Flat(lines), FileMarks(lines, Forwards), Offset(lines, l) + i);
    var r := CloseLines(lines, l, i, ['<']);
    if r.Some? { FileMarkAt(lines, (r.value.0, r.value.1 - 1), Forwards); }
  }

  lemma DyckAfter(lines: seq<string>, l: nat, p: nat, s: nat, q: Position)
    requires OnLine(lines, (l, p)) && OnLine(lines, q) && p <= s < |lines[l]| && NoBrackets(lines[l], p + 1, s + 1)
    requires Index(lines, (l, s)) < Index(lines, q) < |Flat(lines)|
    requires Balanced(Flat(lines)[Index(lines, (l, s)) + 1..Index(lines, q)])
    ensures Dyck(Between(lines, (l, p), q))
  {
    var t, i, j, k := Flat(lines), Index(lines, (l, p)) + 1, Index(lines, (l, s)) + 1, Index(lines, q);
    assert NoBrackets(t, i, j) by { NoBracketsOnFlat(lines, l, p + 1, s + 1); }
    PlainPrefix(t, i, j, k);
  }

  // A result that closes an angle opened in column s keeps the promise for an earlier column p
  // with no bracket in between.
  lemma AngleKeepsPromise(lines: seq<string>, l: nat, p: nat, s: nat)
    requires OnLine(lines, (l, p)) && p <= s < |lines[l]| && NoBrackets(lines[l], p + 1, s + 1)
    requires Close(lines, l, p) == CloseLines(lines, l, s + 1, ['<'])
    ensures AnglePromise(lines, l, p)
  {
    OpenAngleSound(lines, l, s + 1);
    var r := Close(lines, l, p);
    if r.Some? { DyckAfter(lines, l, p, s, (r.value.0, r.value.1 - 1)); }
  }

  // A '<' that the scanner takes for an opener keeps the promise.
  lemma AngleSoundness(lines: seq<string>, l: nat, p: nat)
    requires OnLine(lines, (l, p)) && lines[l][p] == '<' && !SkipsLess(lines[l], p)
    ensures AnglePromise(lines, l, p)
  {
    if MayOpen(lines[l], p) {
      FirstTurn(lines, l, p);
      AngleKeepsPromise(lines, l, p, p);
    }
  }

  ghost predicate IsClosed(t: string, k: int) { exists q :: Matched(t, k, q) }

  // The '<' is skipped, and the scan falls for a bracket that comes first after it and is closed.
  ghost predicate FallsForBracket(lines: seq<string>, l: nat, p: nat)
    requires OnLine(lines, (l, p))
  {
    var line := lines[l];
    var s := FirstNotable(line, p + 1);
    && MayOpen(line, p) && SkipsLess(line, p) && s.Some? && IsOpener(line[s.value])
    && IsClosed(Flat(lines), Index(lines, (l, s.value)))
  }

  lemma BracketEndsAtCloser(lines: seq<string>, l: nat, s: nat)
    requires OnLine(lines, (l, s)) && IsOpener(lines[l][s])
    ensures var r := Close(lines, l, s);
            && (r.Some? <==> IsClosed(Flat(lines), Index(lines, (l, s))))
            && (r.Some? ==> r.value.1 > 0 && OnLine(lines, (r.value.0, r.value.1 - 1)) &&
                            IsCloser(lines[r.value.0][r.value.1 - 1]))
  {
    var t, k, r := Flat(lines), Index(lines, (l, s)), Close(lines, l, s);
    HeuristicsNeverMatter(lines, l, s);
    CharAt(lines, (l, s));
    if IsClosed(t, k) {
      var q :| Matched(t, k, q);
      MatchersMeet(t, k, q);
    }
    if r.Some? {
      CharAt(lines, (r.value.0, r.value.1 - 1));
      MatchersMeet(t, k, Index(lines, (r.value.0, r.value.1 - 1)));
    }
  }

  lemma BeforeNotable(line: string, i: nat, s: nat)
    requires FirstNotable(line, i) == Some(s) && MarkAt(line, s).Up?
    ensures NoBrackets(line, i, s + 1)
  {
    forall k | i <= k < s ensures !IsOpener(line[k]) && !IsCloser(line[k]) { assert !Notable(line, k); }
  }

  lemma SkippedAnglePromise(lines: seq<string>, l: nat, p: nat)
    requires OnLine(lines, (l, p)) && lines[l][p] == '<' && MayOpen(lines[l], p) && SkipsLess(lines[l], p)
    ensures var s := FirstNotable(lines[l], p + 1);
            AnglePromise(lines, l, p) <==>
            !(s.Some? && IsOpener(lines[l][s.value]) && Close(lines, l, s.value).Some?)
  {
    SkippedAngleScan(lines, l, p);
    var s := FirstNotable(lines[l], p + 1);
    if s.Some? {
      if IsOpener(lines[l][s.value]) {
        BracketEndsAtCloser(lines, l, s.value);
      } else if MarkAt(lines[l], s.value).Up? {
        BeforeNotable(lines[l], p + 1, s.value);
        AngleKeepsPromise(lines, l, p, s.value);
      }
    }
  }

  // Exactly then the promise is broken.
  lemma PromiseIsBrokenExactly(lines: seq<string>, l: nat, p: nat)
    requires OnLine(lines, (l, p)) && lines[l][p] == '<'
    ensures !AnglePromise(lines, l, p) <==> FallsForBracket(lines, l, p)
  {
    if !SkipsLess(lines[l], p) {
      AngleSoundness(lines, l, p);
    } else if MayOpen(lines[l], p) {
      SkippedAnglePromise(lines, l, p);
      var s := FirstNotable(lines[l], p + 1);
      if s.Some? && IsOpener(lines[l][s.value]) { BracketEndsAtCloser(lines, l, s.value); }
    }
  }

  // For instance the '<' of an operator name, which InTemplateArgumentList asks about.
  lemma BrokenPromiseExample()
    ensures var lines := ["class operator<(a)"];
            Close(lines, 0, 14) == Some((0, 18)) && !AnglePromise(lines, 0, 14)
  {
    var lines := ["class operator<(a)"];
    OperatorExample();
    SkippedAngleScan(lines, 0, 14);
    assert Flat(lines) == lines[0] by { assert lines[1..] == []; }
    CloseMeansMatched(lines, 0, 15, 0, 17);
  }

  lemma OperatorExample()
    ensures var line := "class operator<(a)";
            SkipsLess(line, 14) && FirstNotable(line, 15) == Some(15) && Matched(line, 15, 17)
  {
    var line := "class operator<(a)";
    assert TrimRight(line[..14]) == line[..14];
    assert IsOperatorAt(line[..14], 6);
    assert line[16..17] == "a";
    assert Run("a", []) == Some([]) by { assert "a"[1..] == []; }
  }
}
