// The reference for angle brackets: a count of the angles that are open outside all other brackets.
module Angles {
  import opened Text
  import opened Brackets
  import opened Marking

  // What is open: a number of angles and, inside them, brackets.
  datatype Open = Open(angles: nat, core: string)

  datatype Turn = On(open: Open) | Closed | Failed

  // One character. Inside brackets nothing but brackets counts.
  function Read(c: char, m: Mark, open: Open): Turn {
    var n := open.angles;
    match Step(c, open.core)
    case None => Failed
    case Some(core) =>
      if open.core != [] then if core == [] && n == 0 then Closed else On(Open(n, core))
      else match m
        case Bracket => On(Open(n, core))
        case Up => On(Open(n + 1, []))
        case Down => if n > 1 then On(Open(n - 1, [])) else Closed
        case Shift => if n > 1 then On(Open(n - 1, [])) else Failed
        case Semicolon => Failed
        case Plain => On(open)
  }

  // From i on, the position that closes the outermost of what is open.
  function MatchFrom(t: string, u: seq<Mark>, i: nat, open: Open): Option<int>
    requires |t| == |u|
    decreases |t| - i
  {
    if i >= |t| then None
    else match Read(t[i], u[i], open)
      case On(open') => MatchFrom(t, u, i + 1, open')
      case Closed => Some(i)
      case Failed => None
  }

  // Where no angle is open, this is the plain matcher: the marks do not matter.
  lemma {:induction false} PlainMatch(t: string, u: seq<Mark>, i: nat, core: string)
    requires |t| == |u| && core != []
    ensures MatchFrom(t, u, i, Open(0, core)) == CloseFrom(t, i, core)
    decreases |t| - i
  {
    if i < |t| {
      var r := Step(t[i], core);
      if r.Some? && r.value != [] { PlainMatch(t, u, i + 1, r.value); }
    }
  }

  function Weight(m: Mark): int {
    match m case Up => 1 case Down => -1 case Shift => -1 case _ => 0
  }

  // The angles open before position k, one of them open at a; what stands inside brackets that
  // were opened after a does not count.
  function Level(t: string, u: seq<Mark>, a: nat, k: nat): int
    requires |t| == |u| && a <= k <= |t|
  {
    if k == a then 1
    else Level(t, u, a, k - 1) + if Balanced(t[a..k - 1]) then Weight(u[k - 1]) else 0
  }

  // Outside brackets no statement ends between a and b.
  ghost predicate NoEnd(t: string, u: seq<Mark>, a: nat, b: nat)
    requires |t| == |u| && b <= |t|
  {
    forall k {:trigger u[k]} :: a <= k < b && Balanced(t[a..k]) ==> !u[k].Semicolon?
  }

  ghost predicate IsOpen(t: string, u: seq<Mark>, a: nat, c: nat)
    requires |t| == |u| && a <= c <= |t|
  {
    Level(t, u, a, c) >= 1
  }

  // The angle of a stays open from a up to b.
  ghost predicate StaysOpen(t: string, u: seq<Mark>, a: nat, b: nat)
    requires |t| == |u| && b <= |t|
  {
    forall c :: a <= c <= b ==> IsOpen(t, u, a, c)
  }

  // The angle opened just before a closes at b: brackets are balanced in between, no statement ends
  // outside them, b closes an angle, and it is the first place that leaves none open.
  ghost predicate AngleCloses(t: string, u: seq<Mark>, a: nat, b: int)
    requires |t| == |u|
  {
    && a <= b < |t| && u[b].Down? && Balanced(t[a..b])
    && Level(t, u, a, b) == 1 && StaysOpen(t, u, a, b) && NoEnd(t, u, a, b)
  }

  // Outside brackets an angle is opened at s.
  ghost predicate UpAt(t: string, u: seq<Mark>, a: nat, s: nat) {
    a <= s < |t| && |u| == |t| && u[s].Up? && Balanced(t[a..s])
  }

  // No angle that is opened outside brackets from a on closes at b.
  ghost predicate NoneClosesFrom(t: string, u: seq<Mark>, a: nat, b: nat) {
    forall s: nat :: UpAt(t, u, a, s) ==> !AngleCloses(t, u, s + 1, b)
  }

  // The angle just before a is the one that a scan from b to the left opens: it is closed in the
  // text as it reads from right to left.
  ghost predicate AngleOpens(t: string, v: seq<Mark>, a: nat, b: int)
    requires |t| == |v|
  {
    a <= b <= |t| && AngleCloses(Mirror(t), Reverse(v), |t| - b, |t| - a)
  }

  lemma RunNext(t: string, a: nat, i: nat)
    requires a <= i < |t|
    ensures Run(t[a..i + 1], []) == match Run(t[a..i], []) case None => None case Some(m) => Step(t[i], m)
  {
    assert t[a..i + 1] == t[a..i] + [t[i]];
    RunAppend(t[a..i], t[i], []);
  }

  lemma RunPrefix(t: string, a: nat, i: nat, b: nat)
    requires a <= i <= b <= |t|
    ensures Run(t[a..i], []) == None ==> Run(t[a..b], []) == None
  {
    assert t[a..i] + t[i..b] == t[a..b];
    RunConcat(t[a..i], t[i..b], []);
  }

  // The matcher after some turns: its state is what Level and Run say of the text read.
  ghost predicate Reached(t: string, u: seq<Mark>, a: nat, i: nat, open: Open) {
    && Marks(t, u) && a <= i <= |t| && open.angles >= 1
    && Run(t[a..i], []) == Some(open.core) && Level(t, u, a, i) == open.angles
    && StaysOpen(t, u, a, i) && NoEnd(t, u, a, i)
  }

  lemma ReachedNext(t: string, u: seq<Mark>, a: nat, i: nat, open: Open)
    requires Reached(t, u, a, i, open) && i < |t|
    ensures match Read(t[i], u[i], open)
            case On(open') => Reached(t, u, a, i + 1, open') && !AngleCloses(t, u, a, i)
            case Closed => AngleCloses(t, u, a, i) && forall b :: i < b ==> !AngleCloses(t, u, a, b)
            case Failed => forall b :: i <= b ==> !AngleCloses(t, u, a, b)
  {
    RunNext(t, a, i);
    assert Level(t, u, a, i + 1) == open.angles + if open.core == [] then Weight(u[i]) else 0;
    assert forall b :: i < b <= |t| && StaysOpen(t, u, a, b) ==> IsOpen(t, u, a, i + 1);
    if Step(t[i], open.core) == None {
      forall b | i < b < |t| ensures !AngleCloses(t, u, a, b) { RunPrefix(t, a, i + 1, b); }
    }
  }

  lemma {:induction false} MatchFromMeaning(t: string, u: seq<Mark>, a: nat, i: nat, open: Open, b: int)
    requires Reached(t, u, a, i, open)
    ensures MatchFrom(t, u, i, open) == Some(b) <==> i <= b && AngleCloses(t, u, a, b)
    decreases |t| - i
  {
    if i < |t| {
      ReachedNext(t, u, a, i, open);
      match Read(t[i], u[i], open)
      case On(open') => MatchFromMeaning(t, u, a, i + 1, open', b);
      case _ =>
    }
  }

  // From the character after an angle bracket, the matcher finds the one place that closes it.
  lemma AngleMatcherMeaning(t: string, u: seq<Mark>, a: nat, b: int)
    requires Marks(t, u) && a <= |t|
    ensures MatchFrom(t, u, a, Open(1, [])) == Some(b) <==> AngleCloses(t, u, a, b)
  {
    assert t[a..a] == [];
    MatchFromMeaning(t, u, a, a, Open(1, []), b);
  }

  lemma AngleMatcherSound(t: string, u: seq<Mark>, a: nat)
    requires Marks(t, u) && a <= |t|
    ensures var r := MatchFrom(t, u, a, Open(1, []));
            r.Some? ==> a <= r.value < |t| && u[r.value].Down? && Balanced(t[a..r.value])
  {
    var r := MatchFrom(t, u, a, Open(1, []));
    if r.Some? { AngleMatcherMeaning(t, u, a, r.value); }
  }

  lemma MirrorFits(t: string, v: seq<Mark>)
    requires Marks(t, v)
    ensures Marks(Mirror(t), Reverse(v))
  {
    forall k | 0 <= k < |t| ensures Fits(Mirror(t)[k], Reverse(v)[k]) { assert Fits(t[|t| - 1 - k], v[|t| - 1 - k]); }
  }

  // The same place in a text of length n, counted from the other end.
  function FromRight(n: nat, r: Option<int>): Option<int> {
    match r
    case None => None
    case Some(k) => Some(n - 1 - k)
  }

  lemma FromRightIs(n: nat, r: Option<int>, i: int)
    ensures FromRight(n, r) == Some(i) <==> r == Some(n - (i + 1))
  {
  }

  // The matcher back from an angle that closes at b.
  function BackFrom(t: string, v: seq<Mark>, b: nat): Option<int>
    requires |t| == |v| && b <= |t|
  {
    FromRight(|t|, MatchFrom(Mirror(t), Reverse(v), |t| - b, Open(1, [])))
  }

  lemma OpensByMatcher(t: string, v: seq<Mark>, a: nat, b: nat) returns (r: Option<int>)
    requires Marks(t, v) && 0 < a <= |t| && b <= |t|
    ensures BackFrom(t, v, b) == FromRight(|t|, r)
    ensures r == Some(|t| - a) <==> AngleOpens(t, v, a, b)
  {
    r := MatchFrom(Mirror(t), Reverse(v), |t| - b, Open(1, []));
    MirrorFits(t, v);
    AngleMatcherMeaning(Mirror(t), Reverse(v), |t| - b, |t| - a);
  }

  lemma BackFromMeaning(t: string, v: seq<Mark>, i: nat, b: nat)
    requires Marks(t, v) && i < |t| && b <= |t|
    ensures BackFrom(t, v, b) == Some(i) <==> AngleOpens(t, v, i + 1, b)
  {
    var r := OpensByMatcher(t, v, i + 1, b);
    FromRightIs(|t|, r, i);
  }

  // The grammar of words with all four kinds of brackets, from i up to j. Shifts and the ends of
  // statements have no place in them.
  ghost predicate FourKinds(t: string, u: seq<Mark>, i: nat, j: nat)
    requires |t| == |u| && j <= |t|
    decreases j - i
  {
    || i == j
    || (i < j && u[i].Plain? && FourKinds(t, u, i + 1, j))
    || (i < j && exists k :: FourSplit(t, u, i, k, j))
  }

  ghost predicate FourSplit(t: string, u: seq<Mark>, i: nat, k: nat, j: nat)
    requires |t| == |u| && i < j <= |t|
    decreases j - i, 0
  {
    && i < k < j && FourKinds(t, u, i + 1, k) && FourKinds(t, u, k + 1, j)
    && if u[i].Up? then u[k].Down? else IsOpener(t[i]) && t[k] == CloserOf(t[i])
  }

  // What an opening and a closing mark around such a word do.
  lemma SplitTurns(t: string, u: seq<Mark>, i: nat, k: nat, open: Open) returns (open': Open)
    requires Marks(t, u) && i < k < |t| && open.angles >= 1
    requires if u[i].Up? then u[k].Down? else IsOpener(t[i]) && t[k] == CloserOf(t[i])
    ensures open'.angles >= 1 && Read(t[i], u[i], open) == On(open') && Read(t[k], u[k], open') == On(open)
  {
    var n, core := open.angles, open.core;
    if u[i].Up? {
      open' := if core == [] then Open(n + 1, []) else open;
    } else {
      open' := Open(n, core + [t[i]]);
      assert open'.core[..|core|] == core;
    }
  }

  // Such a word leaves the matcher as it was.
  lemma {:induction false} FourKindsPass(t: string, u: seq<Mark>, i: nat, j: nat, open: Open)
    requires Marks(t, u) && j <= |t| && FourKinds(t, u, i, j) && open.angles >= 1
    ensures MatchFrom(t, u, i, open) == MatchFrom(t, u, j, open)
    decreases j - i
  {
    if i == j {
    } else if u[i].Plain? && FourKinds(t, u, i + 1, j) {
      FourKindsPass(t, u, i + 1, j, open);
    } else {
      var k: nat :| FourSplit(t, u, i, k, j);
      var open' := SplitTurns(t, u, i, k, open);
      FourKindsPass(t, u, i + 1, k, open');
      FourKindsPass(t, u, k + 1, j, open);
    }
  }

  // An angle bracket whose text up to b is such a word is closed at b.
  lemma FourKindsClose(t: string, u: seq<Mark>, a: nat, b: nat)
    requires Marks(t, u) && a <= b < |t| && u[b].Down? && FourKinds(t, u, a, b)
    ensures AngleCloses(t, u, a, b)
  {
    FourKindsPass(t, u, a, b, Open(1, []));
    AngleMatcherMeaning(t, u, a, b);
  }
}
