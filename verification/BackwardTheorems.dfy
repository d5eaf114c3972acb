// What ReverseCloseExpression computes, and that it undoes CloseExpression.
module BackwardTheorems {
  import opened Text
  import opened Brackets
  import opened Lines
  import opened Angles
  import opened ForwardScan
  import opened ForwardTheorems
  import opened BackwardScan

  lemma OpenBracketOnMirror(lines: seq<string>, l: nat, q: nat, k: nat)
    requires OnLine(lines, (l, q)) && IsCloser(lines[l][q]) && k == |Flat(lines)| - Index(lines, (l, q))
    ensures AgreesBack(lines, ReverseClose(lines, l, q),
                       MatchFrom(Mirror(Flat(lines)), MirrorMarks(lines), k, Open(0, [OpenerOf(lines[l][q])])))
  {
    var c := lines[l][q];
    FirstTurnBack(lines, l, q);
    OneOpen(c);
    OpenIsMatch(lines, l, q - 1, [c]);
    MatchOnMirror(lines, l, q - 1, k, Open(0, [OpenerOf(c)]));
  }

  lemma ReverseCloseOnMirror(lines: seq<string>, l: nat, q: nat)
    requires OnLine(lines, (l, q)) && IsCloser(lines[l][q])
    ensures Index(lines, (l, q)) < |Flat(lines)|
    ensures AgreesBack(lines, ReverseClose(lines, l, q),
                       CloseFrom(Mirror(Flat(lines)), |Flat(lines)| - Index(lines, (l, q)), [OpenerOf(lines[l][q])]))
  {
    CharAt(lines, (l, q));
    var k, core := |Flat(lines)| - Index(lines, (l, q)), [OpenerOf(lines[l][q])];
    OpenBracketOnMirror(lines, l, q, k);
    PlainMatch(Mirror(Flat(lines)), MirrorMarks(lines), k, core);
  }

  // From ')', ']' or '}' the backward scan over lines starts where the plain matcher of the flat
  // text starts: no angle bracket, shift, arrow, comparison, operator name or semicolon matters.
  lemma BackwardHeuristicsNeverMatter(lines: seq<string>, l: nat, q: nat)
    requires OnLine(lines, (l, q)) && lines[l][q] in ")]}"
    ensures var k := Index(lines, (l, q));
            k < |Flat(lines)| &&
            var p := OpenFrom(Flat(lines), k - 1, [OpenerOf(lines[l][q])]);
            match ReverseClose(lines, l, q)
            case None => p == None
            case Some(a) => OnLine(lines, a) && p == Some(Index(lines, a))
  {
    var k: int := Index(lines, (l, q));
    ReverseCloseOnMirror(lines, l, q);
    OpenFromIsMirrored(Flat(lines), k - 1, [OpenerOf(lines[l][q])]);
  }

  lemma ReverseCloseMeansMatched(lines: seq<string>, l: nat, p: nat, m: nat, q: nat)
    requires OnLine(lines, (l, p)) && OnLine(lines, (m, q)) && lines[m][q] in ")]}"
    ensures ReverseClose(lines, m, q) == Some((l, p)) <==>
            Matched(Flat(lines), Index(lines, (l, p)), Index(lines, (m, q)))
  {
    BackwardHeuristicsNeverMatter(lines, m, q);
    CharAt(lines, (l, p));
    CharAt(lines, (m, q));
    MatchersMeet(Flat(lines), Index(lines, (l, p)), Index(lines, (m, q)));
    var r := ReverseClose(lines, m, q);
    if r.Some? { IndexInjective(lines, r.value, (l, p)); }
  }

  // CloseExpression on an opener finds a place exactly when ReverseCloseExpression, started on the
  // character before that place, is on a closer and comes back to the opener.
  lemma ForwardAndBackwardInverse(lines: seq<string>, l: nat, p: nat, m: nat, q: nat)
    requires OnLine(lines, (l, p)) && OnLine(lines, (m, q))
    ensures lines[l][p] in "([{" && Close(lines, l, p) == Some((m, q + 1)) <==>
            lines[m][q] in ")]}" && ReverseClose(lines, m, q) == Some((l, p))
  {
    CharAt(lines, (l, p));
    CharAt(lines, (m, q));
    if lines[l][p] in "([{" { CloseMeansMatched(lines, l, p, m, q); }
    if lines[m][q] in ")]}" { ReverseCloseMeansMatched(lines, l, p, m, q); }
  }

  // There and back again, from either end.
  lemma RoundTrips(lines: seq<string>, l: nat, p: nat)
    requires OnLine(lines, (l, p))
    ensures var r := Close(lines, l, p);
            lines[l][p] in "([{" && r.Some? ==>
              r.value.1 > 0 && OnLine(lines, (r.value.0, r.value.1 - 1)) &&
              ReverseClose(lines, r.value.0, r.value.1 - 1) == Some((l, p))
    ensures var r := ReverseClose(lines, l, p);
            lines[l][p] in ")]}" && r.Some? ==>
              OnLine(lines, r.value) && Close(lines, r.value.0, r.value.1) == Some((l, p + 1))
  {
    if lines[l][p] in "([{" {
      HeuristicsNeverMatter(lines, l, p);
      var r := Close(lines, l, p);
      if r.Some? { ForwardAndBackwardInverse(lines, l, p, r.value.0, r.value.1 - 1); }
    } else if lines[l][p] in ")]}" {
      BackwardHeuristicsNeverMatter(lines, l, p);
      var r := ReverseClose(lines, l, p);
      if r.Some? { ForwardAndBackwardInverse(lines, r.value.0, r.value.1, l, p); }
    }
  }
}
