// When a count of angles from the left and one from the right agree.
module AngleDrift {
  import opened Brackets
  import opened Marking
  import opened Angles

  // A balanced text is cut into two balanced parts or into none.
  lemma CutBalanced(t: string, a: nat, k: nat, b: nat)
    requires a <= k <= b <= |t| && Balanced(t[a..b])
    ensures Balanced(t[a..k]) <==> Balanced(t[k..b])
  {
    assert t[a..k] + t[k..b] == t[a..b];
    RunConcat(t[a..k], t[k..b], []);
    var s := Run(t[a..k], []).value;
    MirrorRuns(t[k..b], s, []);
    MirrorRuns(t[k..b], [], []);
  }

  lemma BalancedPrefix(t: string, a: nat, c: nat, k: nat)
    requires a <= c <= k <= |t| && Balanced(t[a..c])
    ensures Balanced(t[a..k]) <==> Balanced(t[c..k])
  {
    assert t[a..c] + t[c..k] == t[a..k];
    RunConcat(t[a..c], t[c..k], []);
  }

  // The angles open after the text from k to b has been read from right to left, one of them
  // opened at b.
  function Back(t: string, v: seq<Mark>, k: nat, b: nat): int
    requires |t| == |v| && k <= b <= |t|
  {
    Level(Mirror(t), Reverse(v), |t| - b, |t| - k)
  }

  lemma BackStep(t: string, v: seq<Mark>, k: nat, b: nat)
    requires |t| == |v| && k < b <= |t|
    ensures Back(t, v, k, b) == Back(t, v, k + 1, b) + if Balanced(t[k + 1..b]) then Weight(v[k]) else 0
  {
    MirrorSlice(t, k + 1, b);
  }

  // By how much the counts from the two sides drift apart over the text from k to b.
  function Drift(t: string, u: seq<Mark>, v: seq<Mark>, a: nat, k: nat, b: nat): int
    requires |t| == |u| == |v| && a <= k <= b <= |t|
    decreases b - k
  {
    if k == b then 0
    else Drift(t, u, v, a, k + 1, b) + if Balanced(t[a..k]) then Weight(u[k]) + Weight(v[k]) else 0
  }

  lemma SameSide(t: string, v: seq<Mark>, a: nat, k: nat, b: nat)
    requires Marks(t, v) && a <= k < b <= |t| && Balanced(t[a..b]) && !v[k].Bracket?
    ensures Balanced(t[a..k]) <==> Balanced(t[k + 1..b])
  {
    assert Fits(t[k], v[k]);
    RunNext(t, a, k);
    CutBalanced(t, a, k + 1, b);
  }

  lemma {:induction false} BackIsLevel(t: string, u: seq<Mark>, v: seq<Mark>, a: nat, k: nat, b: nat)
    requires Marks(t, u) && Marks(t, v) && a <= k <= b <= |t| && Balanced(t[a..b])
    ensures Back(t, v, k, b) == Level(t, u, a, k) + Drift(t, u, v, a, k, b) + 1 - Level(t, u, a, b)
    decreases b - k
  {
    if k < b {
      BackIsLevel(t, u, v, a, k + 1, b);
      BackStep(t, v, k, b);
      if !v[k].Bracket? { SameSide(t, v, a, k, b); }
    }
  }

  ghost predicate BackIsOpen(t: string, v: seq<Mark>, c: nat, b: nat)
    requires |t| == |v| && c <= b <= |t|
  {
    Back(t, v, c, b) >= 1
  }

  ghost predicate BackPositive(t: string, v: seq<Mark>, a: nat, b: nat)
    requires |t| == |v| && b <= |t|
  {
    forall c :: a <= c <= b ==> BackIsOpen(t, v, c, b)
  }

  lemma EndOnMirror(t: string, v: seq<Mark>, a: nat, b: nat, k: nat)
    requires Marks(t, v) && a <= k < b <= |t| && Balanced(t[a..b]) && v[k].Semicolon?
    ensures Balanced(Mirror(t)[|t| - b..|t| - 1 - k]) <==> Balanced(t[a..k])
  {
    MirrorSlice(t, k + 1, b);
    SameSide(t, v, a, k, b);
  }

  lemma NoEndBack(t: string, v: seq<Mark>, a: nat, b: nat)
    requires Marks(t, v) && a <= b <= |t| && Balanced(t[a..b])
    ensures NoEnd(Mirror(t), Reverse(v), |t| - b, |t| - a) <==> NoEnd(t, v, a, b)
  {
    var mt, mv, lo, hi := Mirror(t), Reverse(v), |t| - b, |t| - a;
    if NoEnd(mt, mv, lo, hi) {
      forall k | a <= k < b && Balanced(t[a..k]) ensures !v[k].Semicolon? {
        assert mv[|t| - 1 - k] == v[k];
        if v[k].Semicolon? { EndOnMirror(t, v, a, b, k); }
      }
    }
    if NoEnd(t, v, a, b) {
      forall k | lo <= k < hi && Balanced(mt[lo..k]) ensures !mv[k].Semicolon? {
        if mv[k].Semicolon? { EndOnMirror(t, v, a, b, |t| - 1 - k); }
      }
    }
  }

  lemma PositiveBack(t: string, v: seq<Mark>, a: nat, b: nat)
    requires |t| == |v| && a <= b <= |t|
    ensures StaysOpen(Mirror(t), Reverse(v), |t| - b, |t| - a) <==> BackPositive(t, v, a, b)
  {
    var mt, mv, lo, hi := Mirror(t), Reverse(v), |t| - b, |t| - a;
    if StaysOpen(mt, mv, lo, hi) {
      forall c | a <= c <= b ensures BackIsOpen(t, v, c, b) { assert IsOpen(mt, mv, lo, |t| - c); }
    }
    if BackPositive(t, v, a, b) {
      forall c | lo <= c <= hi ensures IsOpen(mt, mv, lo, c) { assert BackIsOpen(t, v, |t| - c, b); }
    }
  }

  // What it means, in terms of the text as it stands.
  lemma AngleOpensMeaning(t: string, v: seq<Mark>, a: nat, b: nat)
    requires Marks(t, v) && 1 <= a <= b <= |t|
    ensures AngleOpens(t, v, a, b) <==>
            && v[a - 1].Down? && Balanced(t[a..b]) && Back(t, v, a, b) == 1
            && BackPositive(t, v, a, b) && NoEnd(t, v, a, b)
  {
    MirrorSlice(t, a, b);
    PositiveBack(t, v, a, b);
    if Balanced(t[a..b]) { NoEndBack(t, v, a, b); }
  }

  ghost predicate SameEnds(t: string, u: seq<Mark>, v: seq<Mark>) {
    Marks(t, u) && Marks(t, v) && forall k :: 0 <= k < |t| ==> (u[k].Semicolon? <==> v[k].Semicolon?)
  }

  ghost predicate IsAhead(t: string, u: seq<Mark>, v: seq<Mark>, a: nat, c: nat, b: nat)
    requires |t| == |u| == |v| && a <= c <= b <= |t|
  {
    Level(t, u, a, c) + Drift(t, u, v, a, c, b) >= 1
  }

  ghost predicate BackIsAhead(t: string, u: seq<Mark>, v: seq<Mark>, a: nat, c: nat, b: nat)
    requires |t| == |u| == |v| && a <= c <= b <= |t|
  {
    Back(t, v, c, b) - Drift(t, u, v, a, c, b) >= 1
  }

  // On no part up to b have the counts drifted down by as much as there are angles open.
  ghost predicate DriftsLess(t: string, u: seq<Mark>, v: seq<Mark>, a: nat, b: nat)
    requires |t| == |u| == |v| && b <= |t|
  {
    forall c :: a <= c <= b ==> IsAhead(t, u, v, a, c, b)
  }

  ghost predicate BackDriftsLess(t: string, u: seq<Mark>, v: seq<Mark>, a: nat, b: nat)
    requires |t| == |u| == |v| && b <= |t|
  {
    forall c :: a <= c <= b ==> BackIsAhead(t, u, v, a, c, b)
  }

  lemma BackByDrift(t: string, u: seq<Mark>, v: seq<Mark>, a: nat, b: nat)
    requires SameEnds(t, u, v) && a <= b <= |t| && Balanced(t[a..b]) && Level(t, u, a, b) == 1
    ensures Back(t, v, a, b) == 1 + Drift(t, u, v, a, a, b)
    ensures BackPositive(t, v, a, b) <==> DriftsLess(t, u, v, a, b)
  {
    BackIsLevel(t, u, v, a, a, b);
    forall c | a <= c <= b ensures BackIsOpen(t, v, c, b) <==> IsAhead(t, u, v, a, c, b) {
      BackIsLevel(t, u, v, a, c, b);
    }
  }

  lemma LevelByDrift(t: string, u: seq<Mark>, v: seq<Mark>, a: nat, b: nat)
    requires SameEnds(t, u, v) && a <= b <= |t| && Balanced(t[a..b]) && Back(t, v, a, b) == 1
    ensures Level(t, u, a, b) == 1 + Drift(t, u, v, a, a, b)
    ensures Drift(t, u, v, a, a, b) == 0 ==> (StaysOpen(t, u, a, b) <==> BackDriftsLess(t, u, v, a, b))
  {
    BackIsLevel(t, u, v, a, a, b);
    if Drift(t, u, v, a, a, b) == 0 {
      forall c | a <= c <= b ensures IsOpen(t, u, a, c) <==> BackIsAhead(t, u, v, a, c, b) {
        BackIsLevel(t, u, v, a, c, b);
      }
    }
  }

  // Of an angle closed at b, the scan back from b finds the start exactly when the counts have not
  // drifted apart over the whole text, and nowhere by as much as there are angles open.
  lemma DriftDecides(t: string, u: seq<Mark>, v: seq<Mark>, a: nat, b: nat)
    requires SameEnds(t, u, v) && 1 <= a <= b < |t| && AngleCloses(t, u, a, b) && v[a - 1].Down?
    ensures AngleOpens(t, v, a, b) <==> Drift(t, u, v, a, a, b) == 0 && DriftsLess(t, u, v, a, b)
  {
    AngleOpensMeaning(t, v, a, b);
    BackByDrift(t, u, v, a, b);
  }

  // And of an angle opened at a - 1 by the scan back from b, the scan forwards finds b.
  lemma DriftDecidesForwards(t: string, u: seq<Mark>, v: seq<Mark>, a: nat, b: nat)
    requires SameEnds(t, u, v) && 1 <= a <= b < |t| && AngleOpens(t, v, a, b) && u[b].Down?
    ensures AngleCloses(t, u, a, b) <==> Drift(t, u, v, a, a, b) == 0 && BackDriftsLess(t, u, v, a, b)
  {
    AngleOpensMeaning(t, v, a, b);
    LevelByDrift(t, u, v, a, b);
  }
}
