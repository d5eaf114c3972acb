// What CloseExpression computes, without reference to its heuristics.
module ForwardTheorems {
  import opened Text
  import opened Brackets
  import opened Lines
  import opened Marking
  import opened Angles
  import opened ForwardScan

  // The first turn pushes the bracket.
  lemma FirstTurn(lines: seq<string>, l: nat, p: nat)
    requires OnLine(lines, (l, p)) && MayOpen(lines[l], p) && (lines[l][p] == '<' ==> !SkipsLess(lines[l], p))
    ensures Close(lines, l, p) == CloseLines(lines, l, p, []) == CloseLines(lines, l, p + 1, [lines[l][p]])
    ensures OpenOf([lines[l][p]]) == if lines[l][p] == '<' then Open(1, []) else Open(0, [lines[l][p]])
  {
    var c := lines[l][p];
    assert [] + [c] == [c];
    OpenSnoc([], c);
    TurnOnLines(lines, l, p, []);
  }

  lemma OpenBracketOnFlat(lines: seq<string>, l: nat, p: nat, k: nat)
    requires OnLine(lines, (l, p)) && lines[l][p] in "([{" && k == Index(lines, (l, p)) + 1
    ensures Agrees(lines, Close(lines, l, p),
                   MatchFrom(Flat(lines), FileMarks(lines, Forwards), k, Open(0, [lines[l][p]])))
  {
    var c := lines[l][p];
    FirstTurn(lines, l, p);
    CloseIsMatch(lines, l, p + 1, [c]);
    MatchOnFlat(lines, l, p + 1, k, Open(0, [c]));
  }

  // From '(', '[' or '{' the scan over lines ends where the plain matcher of the flat text ends:
  // no angle bracket, shift, arrow, operator name or semicolon changes the result.
  lemma HeuristicsNeverMatter(lines: seq<string>, l: nat, p: nat)
    requires OnLine(lines, (l, p)) && lines[l][p] in "([{"
    ensures Agrees(lines, Close(lines, l, p), CloseFrom(Flat(lines), Index(lines, (l, p)) + 1, [lines[l][p]]))
  {
    var k, core := Index(lines, (l, p)) + 1, [lines[l][p]];
    OpenBracketOnFlat(lines, l, p, k);
    PlainMatch(Flat(lines), FileMarks(lines, Forwards), k, core);
  }

  // The same by meaning: the result is the one position that encloses a balanced word.
  lemma CloseMeansMatched(lines: seq<string>, l: nat, p: nat, m: nat, q: nat)
    requires OnLine(lines, (l, p)) && OnLine(lines, (m, q)) && lines[l][p] in "([{"
    ensures Close(lines, l, p) == Some((m, q + 1)) <==>
            Matched(Flat(lines), Index(lines, (l, p)), Index(lines, (m, q)))
  {
    HeuristicsNeverMatter(lines, l, p);
    CharAt(lines, (l, p));
    CharAt(lines, (m, q));
    MatchersMeet(Flat(lines), Index(lines, (l, p)), Index(lines, (m, q)));
    var r := Close(lines, l, p);
    if r.Some? { IndexInjective(lines, (r.value.0, r.value.1 - 1), (m, q)); }
  }
}
