// _GetTextInside: a second bracket matcher, on one text and with a stack of expected closers.
module TextInside {
  import opened Text
  import opened Brackets
  import opened Lines
  import opened ForwardScan
  import opened ForwardTheorems

  // The text from start up to the closer of the bracket just before start.
  function Inside(text: string, start: nat): Option<string>
    requires 0 < start <= |text|
  {
    match CloseFrom(text, start, [text[start - 1]])
    case None => None
    case Some(q) => if start <= q < |text| then Some(text[start..q]) else None
  }

  // The expected closers of a stack of openers.
  predicate Expects(stack: string, core: string) {
    |stack| == |core| && forall j :: 0 <= j < |core| ==> IsOpener(core[j]) && stack[j] == CloserOf(core[j])
  }

  // matchEnd is where the start pattern ends in text, or None when it does not occur there.
  method GetTextInside(text: string, matchEnd: Option<nat>) returns (r: Option<string>)
    requires matchEnd.Some? ==> 0 < matchEnd.value <= |text| && text[matchEnd.value - 1] in "([{"
    ensures r == if matchEnd.None? then None else Inside(text, matchEnd.value)
  {
    if matchEnd.None? { return None; }
    var start := matchEnd.value;
    var stack := [CloserOf(text[start - 1])];
    var position := start;
    ghost var core := [text[start - 1]];
    while stack != [] && position < |text|
      invariant start <= position <= |text| && Expects(stack, core)
      invariant stack != [] ==> CloseFrom(text, start, [text[start - 1]]) == CloseFrom(text, position, core)
      invariant stack == [] ==> position > start && CloseFrom(text, start, [text[start - 1]]) == Some(position - 1)
      decreases |text| - position
    {
      var c := text[position];
      if c == stack[|stack| - 1] {
        stack := stack[..|stack| - 1];
        core := core[..|core| - 1];
      } else if IsCloser(c) {
        return None;
      } else if IsOpener(c) {
        stack := stack + [CloserOf(c)];
        core := core + [c];
      }
      position := position + 1;
    }
    if stack != [] { return None; }
    return Some(text[start..position - 1]);
  }

  // On a text of one line the scanner finds what the plain matcher finds.
  lemma ScanIsPlain(text: string, p: nat)
    requires p < |text| && text[p] in "([{"
    ensures var q := CloseFrom(text, p + 1, [text[p]]);
            match ScanLine(text, p, []) case Found(e) => e > 0 && q == Some(e - 1) case _ => q == None
  {
    var lines := [text];
    assert Flat(lines) == text by { assert lines[1..] == []; }
    HeuristicsNeverMatter(lines, 0, p);
  }

  lemma InsideIsBalanced(text: string, p: nat, q: int)
    requires p < |text| && text[p] in "([{" && CloseFrom(text, p + 1, [text[p]]) == Some(q)
    ensures p < q < |text| && Inside(text, p + 1) == Some(text[p + 1..q]) && Dyck(text[p + 1..q])
  {
    assert [text[p]] == [text[p]] + [];
    CloseFromMeaning(text, p + 1, text[p], [], q);
    BalancedIsDyck(text[p + 1..q]);
  }

  // What is extracted is the text up to the one bracket that matches.
  lemma InsideMeaning(text: string, p: nat, s: string)
    requires p < |text| && text[p] in "([{"
    ensures Inside(text, p + 1) == Some(s) <==> exists q: nat :: Matched(text, p, q) && s == text[p + 1..q]
  {
    var r := CloseFrom(text, p + 1, [text[p]]);
    if r.Some? {
      InsideIsBalanced(text, p, r.value);
      MatchersMeet(text, p, r.value);
    }
    if q: nat :| Matched(text, p, q) && s == text[p + 1..q] { MatchersMeet(text, p, q); }
  }

  // The two matchers agree on every text: one finds an end exactly when the other extracts the
  // text up to it, and what is extracted is a typed bracket word.
  lemma TwoMatchersAgree(text: string, p: nat)
    requires p < |text| && text[p] in "([{"
    ensures match ScanLine(text, p, [])
            case Found(e) => p + 1 < e <= |text| && Inside(text, p + 1) == Some(text[p + 1..e - 1])
            case _ => Inside(text, p + 1) == None
    ensures Inside(text, p + 1).Some? ==> Dyck(Inside(text, p + 1).value)
  {
    ScanIsPlain(text, p);
    var r := CloseFrom(text, p + 1, [text[p]]);
    if r.Some? { InsideIsBalanced(text, p, r.value); }
  }
}
