// The reference: one stack of open brackets, three bracket kinds, no heuristics.
module Brackets {
  import opened Text

  predicate IsOpener(c: char) { c == '(' || c == '[' || c == '{' }

  predicate IsCloser(c: char) { c == ')' || c == ']' || c == '}' }

  // The opener a closer needs; a space, which opens nothing, for any other character.
  function OpenerOf(c: char): char {
    if c == ')' then '(' else if c == ']' then '[' else if c == '}' then '{' else ' '
  }

  function CloserOf(c: char): char {
    if c == '(' then ')' else if c == '[' then ']' else if c == '{' then '}' else ' '
  }

  // One character read from left to right. The top of the stack is its last element.
  function Step(c: char, s: string): Option<string> {
    if IsOpener(c) then Some(s + [c])
    else if !IsCloser(c) then Some(s)
    else if s != [] && s[|s| - 1] == OpenerOf(c) then Some(s[..|s| - 1])
    else None
  }

  // One character read from right to left; the stack holds the openers still owed.
  function StepBack(c: char, s: string): Option<string> {
    if IsCloser(c) then Some(s + [OpenerOf(c)])
    else if !IsOpener(c) then Some(s)
    else if s != [] && s[|s| - 1] == c then Some(s[..|s| - 1])
    else None
  }

  // Reading a character backwards undoes reading it forwards, and conversely.
  lemma StepsAreInverse(c: char, s: string, s': string)
    ensures Step(c, s) == Some(s') <==> StepBack(c, s') == Some(s)
  {
    if IsOpener(c) {
      assert Step(c, s) == Some(s') ==> s'[..|s'| - 1] == s;
      assert StepBack(c, s') == Some(s) ==> s' == s + [c];
    } else if IsCloser(c) {
      assert StepBack(c, s') == Some(s) ==> s[..|s| - 1] == s';
      assert Step(c, s) == Some(s') ==> s == s' + [OpenerOf(c)];
    }
  }

  function Run(w: string, s: string): Option<string> {
    if w == [] then Some(s)
    else match Step(w[0], s)
      case None => None
      case Some(s') => Run(w[1..], s')
  }

  lemma {:induction false} RunAppend(w: string, c: char, s: string)
    ensures Run(w + [c], s) == match Run(w, s) case None => None case Some(m) => Step(c, m)
  {
    if w == [] {
      assert (w + [c])[1..] == [];
    } else {
      assert (w + [c])[1..] == w[1..] + [c];
      var r := Step(w[0], s);
      if r.Some? { RunAppend(w[1..], c, r.value); }
    }
  }

  lemma {:induction false} RunConcat(v: string, w: string, s: string)
    ensures Run(v + w, s) == match Run(v, s) case None => None case Some(m) => Run(w, m)
  {
    if v == [] {
      assert v + w == w;
    } else {
      assert (v + w)[1..] == v[1..] + w;
      var r := Step(v[0], s);
      if r.Some? { RunConcat(v[1..], w, r.value); }
    }
  }

  // A typed bracket word: read from an empty stack it leaves an empty stack.
  predicate Balanced(w: string) { Run(w, []) == Some([]) }

  // The three kinds of brackets.
  predicate Pair(a: char, b: char) { (a == '(' && b == ')') || (a == '[' && b == ']') || (a == '{' && b == '}') }

  // Brackets p and q enclose a balanced word and have the same kind.
  predicate Matched(t: string, p: int, q: int) { 0 <= p < q < |t| && Pair(t[p], t[q]) && Balanced(t[p + 1..q]) }

  // From i on, the first position at which the stack becomes empty.
  function CloseFrom(t: string, i: nat, s: string): Option<int>
    decreases |t| - i
  {
    if i >= |t| then None
    else match Step(t[i], s)
      case None => None
      case Some(s') => if s' == [] then Some(i) else CloseFrom(t, i + 1, s')
  }

  // From i down, the first position at which the stack becomes empty.
  function OpenFrom(t: string, i: int, s: string): Option<int>
    requires i < |t|
    decreases i
  {
    if i < 0 then None
    else match StepBack(t[i], s)
      case None => None
      case Some(s') => if s' == [] then Some(i) else OpenFrom(t, i - 1, s')
  }

  lemma {:induction false} CloseFromMeaning(t: string, i: nat, b: char, u: string, q: int)
    requires IsOpener(b) && i <= |t|
    ensures CloseFrom(t, i, [b] + u) == Some(q) <==>
            i <= q < |t| && t[q] == CloserOf(b) && Run(t[i..q], u) == Some([])
    decreases |t| - i
  {
    if i == |t| { return; }
    var c, s := t[i], [b] + u;
    if u == [] && IsCloser(c) {
      if i < q < |t| { assert t[i..q][0] == c; }
    } else {
      if u != [] { assert s[|s| - 1] == u[|u| - 1] && s[..|s| - 1] == [b] + u[..|u| - 1]; }
      if IsOpener(c) { assert s + [c] == [b] + (u + [c]); }
      match Step(c, u)
      case None =>
        if i < q < |t| { assert t[i..q][0] == c; }
        if q == i { assert t[i..q] == []; }
      case Some(u') =>
        assert Step(c, s) == Some([b] + u');
        CloseFromMeaning(t, i + 1, b, u', q);
        if i < q < |t| { assert t[i..q][0] == c && t[i..q][1..] == t[i + 1..q]; }
        if q == i { assert t[i..q] == []; }
    }
  }

  // The bracket that faces the other way; angle brackets have one too.
  function Flip(c: char): char {
    if IsOpener(c) then CloserOf(c) else if IsCloser(c) then OpenerOf(c)
    else if c == '<' then '>' else if c == '>' then '<' else c
  }

  // The text as it reads from right to left.
  function Mirror(t: string): (r: string)
    ensures |r| == |t| && forall k :: 0 <= k < |t| ==> r[k] == Flip(t[|t| - 1 - k])
  {
    seq(|t|, k requires 0 <= k < |t| => Flip(t[|t| - 1 - k]))
  }

  lemma StepOfFlip(c: char, s: string)
    ensures Step(Flip(c), s) == StepBack(c, s)
  {
  }

  lemma {:induction false} MirrorRuns(w: string, s: string, s': string)
    ensures Run(w, s) == Some(s') <==> Run(Mirror(w), s') == Some(s)
  {
    if w != [] {
      var v := Mirror(w[1..]);
      assert Mirror(w) == v + [Flip(w[0])];
      RunAppend(v, Flip(w[0]), s');
      var m := Run(v, s');
      if m.Some? {
        StepOfFlip(w[0], m.value);
        StepsAreInverse(w[0], s, m.value);
      }
      var n := Step(w[0], s);
      if n.Some? { MirrorRuns(w[1..], n.value, s'); }
      if m.Some? { MirrorRuns(w[1..], m.value, s'); }
    }
  }

  // A balanced word is balanced when read from right to left.
  lemma MirrorIsBalanced(w: string)
    ensures Balanced(Mirror(w)) <==> Balanced(w)
  {
    MirrorRuns(w, [], []);
  }

  // The backward matcher is the forward matcher on the mirrored text.
  lemma {:induction false} OpenFromIsMirrored(t: string, i: int, s: string)
    requires -1 <= i < |t|
    ensures var r := CloseFrom(Mirror(t), |t| - 1 - i, s);
            OpenFrom(t, i, s) == match r case None => None case Some(k) => Some(|t| - 1 - k)
    decreases i
  {
    if i >= 0 {
      StepOfFlip(t[i], s);
      var r := StepBack(t[i], s);
      if r.Some? && r.value != [] { OpenFromIsMirrored(t, i - 1, r.value); }
    }
  }

  lemma OpenFromMeaning(t: string, i: int, b: char, u: string, p: int)
    requires IsOpener(b) && -1 <= i < |t|
    ensures OpenFrom(t, i, [b] + u) == Some(p) <==>
            0 <= p <= i && t[p] == b && Run(t[p + 1..i + 1], []) == Some(u)
  {
    var m, n := Mirror(t), |t|;
    OpenFromIsMirrored(t, i, [b] + u);
    CloseFromMeaning(m, n - 1 - i, b, u, n - 1 - p);
    if 0 <= p <= i {
      assert m[n - 1 - i..n - 1 - p] == Mirror(t[p + 1..i + 1]);
      MirrorRuns(t[p + 1..i + 1], [], u);
    }
  }

  // The forward matcher finds q from p exactly when the backward matcher finds p from q.
  lemma MatchersMeet(t: string, p: int, q: int)
    requires 0 <= p < |t| && 0 <= q < |t|
    ensures t[p] in "([{" && CloseFrom(t, p + 1, [t[p]]) == Some(q) <==> Matched(t, p, q)
    ensures t[q] in ")]}" && OpenFrom(t, q - 1, [OpenerOf(t[q])]) == Some(p) <==> Matched(t, p, q)
  {
    if IsOpener(t[p]) {
      assert [t[p]] == [t[p]] + [];
      CloseFromMeaning(t, p + 1, t[p], [], q);
    }
    if IsCloser(t[q]) {
      assert [OpenerOf(t[q])] == [OpenerOf(t[q])] + [];
      OpenFromMeaning(t, q - 1, OpenerOf(t[q]), [], p);
    }
  }

  // The grammar of typed bracket words, other characters allowed anywhere.
  ghost predicate Dyck(w: string)
    decreases |w|
  {
    || w == []
    || (w[0] !in "()[]{}" && Dyck(w[1..]))
    || exists k :: DyckSplit(w, k)
  }

  ghost predicate DyckSplit(w: string, k: int)
    requires w != []
    decreases |w|, 0
  {
    0 < k < |w| && Pair(w[0], w[k]) && Dyck(w[1..k]) && Dyck(w[k + 1..])
  }

  lemma {:induction false} DyckRuns(w: string, s: string)
    requires Dyck(w)
    ensures Run(w, s) == Some(s)
    decreases |w|
  {
    if w == [] {
    } else if w[0] !in "()[]{}" {
      DyckRuns(w[1..], s);
    } else {
      var k :| DyckSplit(w, k);
      assert w[1..] == w[1..k] + ([w[k]] + w[k + 1..]);
      var s' := s + [w[0]];
      DyckRuns(w[1..k], s');
      DyckRuns(w[k + 1..], s);
      RunConcat(w[1..k], [w[k]] + w[k + 1..], s');
      assert ([w[k]] + w[k + 1..])[1..] == w[k + 1..];
      assert s'[..|s'| - 1] == s;
    }
  }

  lemma {:induction false} BalancedIsDyck(w: string)
    ensures Balanced(w) <==> Dyck(w)
    decreases |w|
  {
    if Dyck(w) { DyckRuns(w, []); }
    if Balanced(w) && w != [] {
      if IsOpener(w[0]) {
        assert [w[0]] == [] + [w[0]];
        var k := FirstReturn(w, 1, [w[0]]);
        MatchersMeet(w, 0, k);
        BalancedIsDyck(w[1..k]);
        BalancedIsDyck(w[k + 1..]);
        assert DyckSplit(w, k);
      } else {
        BalancedIsDyck(w[1..]);
      }
    }
  }

  lemma {:induction false} FirstReturn(w: string, i: nat, s: string) returns (k: int)
    requires i <= |w| && s != [] && Run(w[i..], s) == Some([])
    ensures CloseFrom(w, i, s) == Some(k)
    ensures i <= k < |w| && Balanced(w[k + 1..])
    decreases |w| - i
  {
    assert i < |w|;
    assert w[i..][0] == w[i] && w[i..][1..] == w[i + 1..];
    var s' := Step(w[i], s).value;
    if s' == [] { k := i; } else { k := FirstReturn(w, i + 1, s'); }
  }

  predicate NoBrackets(t: string, i: nat, j: nat)
    requires j <= |t|
  {
    forall k :: i <= k < j ==> !IsOpener(t[k]) && !IsCloser(t[k])
  }

  // Text without brackets in front of a balanced word does no harm.
  lemma {:induction false} PlainPrefix(t: string, a: nat, s: nat, b: nat)
    requires a <= s <= b <= |t| && Balanced(t[s..b]) && NoBrackets(t, a, s)
    ensures Balanced(t[a..b]) && Dyck(t[a..b])
    decreases s - a
  {
    if a < s {
      PlainPrefix(t, a + 1, s, b);
      assert t[a..b][0] == t[a] && t[a..b][1..] == t[a + 1..b];
    }
    BalancedIsDyck(t[a..b]);
  }

  lemma {:induction false} PlainRun(t: string, a: nat, b: nat, s: string)
    requires a <= b <= |t| && NoBrackets(t, a, b)
    ensures Run(t[a..b], s) == Some(s)
    decreases b - a
  {
    if a < b {
      assert t[a..b][0] == t[a] && t[a..b][1..] == t[a + 1..b];
      PlainRun(t, a + 1, b, s);
    }
  }

  // Nor does it behind one.
  lemma PlainSuffix(t: string, a: nat, s: nat, b: nat)
    requires a <= s <= b <= |t| && Balanced(t[a..s]) && NoBrackets(t, s, b)
    ensures Balanced(t[a..b]) && Dyck(t[a..b])
  {
    assert t[a..s] + t[s..b] == t[a..b];
    RunConcat(t[a..s], t[s..b], []);
    PlainRun(t, s, b, []);
    BalancedIsDyck(t[a..b]);
  }

  lemma MirrorSlice(t: string, k: nat, b: nat)
    requires k <= b <= |t|
    ensures Balanced(Mirror(t)[|t| - b..|t| - k]) <==> Balanced(t[k..b])
  {
    assert Mirror(t)[|t| - b..|t| - k] == Mirror(t[k..b]);
    MirrorIsBalanced(t[k..b]);
  }
}
