// Which angle brackets make the two directions disagree, on the marks of a text.
module AngleInverse {
  import opened Brackets
  import opened Marking
  import opened Angles
  import opened AngleDrift

  // How many second halves of shifts stand in a row from k on.
  function ShiftRun(u: seq<Mark>, k: nat): nat
    decreases |u| - k
  {
    if k < |u| && u[k].Shift? then 1 + ShiftRun(u, k + 1) else 0
  }

  // u and v are marks of the same text for the two directions.
  ghost predicate TwoWaysAt(t: string, u: seq<Mark>, v: seq<Mark>, k: nat)
    requires |t| == |u| == |v| && k < |t|
  {
    if t[k] == '<' then
      && (u[k].Up? || u[k].Shift? || u[k].Plain?) && (u[k].Shift? ==> k > 0 && t[k - 1] == '<')
      && v[k] == if u[k].Shift? || ShiftRun(u, k + 1) % 2 == 1 then Plain else Down
    else if t[k] == '>' then (u[k].Down? || u[k].Plain?) && (v[k].Up? || v[k].Plain?)
    else u[k] == v[k] && (u[k].Bracket? || u[k].Semicolon? || u[k].Plain?)
  }

  ghost predicate TwoWays(t: string, u: seq<Mark>, v: seq<Mark>) {
    SameEnds(t, u, v) && forall k {:trigger TwoWaysAt(t, u, v, k)} :: 0 <= k < |t| ==> TwoWaysAt(t, u, v, k)
  }

  // An angle bracket on which the two directions agree: a '<' that opens, or a shift of two of
  // them; a '>' that both take for a bracket or neither.
  ghost predicate Agreed(t: string, u: seq<Mark>, v: seq<Mark>, k: nat)
    requires |t| == |u| == |v| && k < |t|
  {
    if t[k] == '<' then u[k].Shift? || (u[k].Up? && ShiftRun(u, k + 1) <= 1)
    else t[k] == '>' ==> (u[k].Down? <==> v[k].Up?)
  }

  // A '>' that counts for the scan backwards only.
  ghost predicate Late(t: string, u: seq<Mark>, v: seq<Mark>, k: nat)
    requires |t| == |u| == |v| && k < |t|
  {
    t[k] == '>' && u[k].Plain? && v[k].Up?
  }

  ghost predicate AllAgreed(t: string, u: seq<Mark>, v: seq<Mark>, a: nat, k: nat, b: nat)
    requires |t| == |u| == |v| && b <= |t|
  {
    forall j {:trigger Agreed(t, u, v, j)} :: k <= j < b && a <= j && Balanced(t[a..j]) ==> Agreed(t, u, v, j)
  }

  ghost predicate NoneLate(t: string, u: seq<Mark>, v: seq<Mark>, a: nat, b: nat)
    requires |t| == |u| == |v| && b <= |t|
  {
    forall j {:trigger Late(t, u, v, j)} :: a <= j < b && Balanced(t[a..j]) ==> !Late(t, u, v, j)
  }

  // The rest of a shift that is cut at k.
  ghost function Rest(t: string, u: seq<Mark>, a: nat, k: nat, b: nat): nat
    requires |t| == |u| && a <= k <= b <= |t|
  {
    if k < b && Balanced(t[a..k]) then ShiftRun(u, k) else 0
  }

  lemma OutsideNext(t: string, u: seq<Mark>, a: nat, k: nat)
    requires Marks(t, u) && a <= k < |t| && !u[k].Bracket?
    ensures Balanced(t[a..k + 1]) <==> Balanced(t[a..k])
  {
    assert Fits(t[k], u[k]);
    RunNext(t, a, k);
  }

  // At an angle bracket, what is cut off on the right is what the marks say.
  lemma RestNext(t: string, u: seq<Mark>, v: seq<Mark>, a: nat, k: nat, b: nat)
    requires TwoWays(t, u, v) && a <= k < b < |t| && !u[b].Shift?
    ensures Rest(t, u, a, k + 1, b) ==
            if t[k] == '<' && Balanced(t[a..k]) then ShiftRun(u, k + 1) else 0
  {
    assert TwoWaysAt(t, u, v, k) && TwoWaysAt(t, u, v, k + 1);
    if t[k] == '<' { OutsideNext(t, u, a, k); }
  }

  // The counts drift down at least by what is cut off, and exactly by that only if both directions
  // agree on everything up to b.
  lemma {:induction false} DriftBound(t: string, u: seq<Mark>, v: seq<Mark>, a: nat, k: nat, b: nat)
    requires TwoWays(t, u, v) && a <= k <= b < |t| && !u[b].Shift? && NoneLate(t, u, v, a, b)
    ensures Drift(t, u, v, a, k, b) + Rest(t, u, a, k, b) <= 0
    ensures Drift(t, u, v, a, k, b) + Rest(t, u, a, k, b) == 0 <==> AllAgreed(t, u, v, a, k, b)
    decreases b - k
  {
    if k < b {
      DriftBound(t, u, v, a, k + 1, b);
      RestNext(t, u, v, a, k, b);
      assert TwoWaysAt(t, u, v, k) && (Balanced(t[a..k]) ==> !Late(t, u, v, k));
      assert AllAgreed(t, u, v, a, k, b) <==>
             AllAgreed(t, u, v, a, k + 1, b) && (Balanced(t[a..k]) ==> Agreed(t, u, v, k));
    }
  }

  // The second half of a shift comes right after the first.
  lemma {:induction false} ShiftAfterUp(t: string, u: seq<Mark>, v: seq<Mark>, a: nat, c: nat, b: nat)
    requires TwoWays(t, u, v) && a <= c < b <= |t| && !u[a].Shift? && AllAgreed(t, u, v, a, a, b)
    requires u[c].Shift? && Balanced(t[a..c])
    ensures a < c && u[c - 1].Up? && Balanced(t[a..c - 1]) && ShiftRun(u, c) == 1
  {
    assert TwoWaysAt(t, u, v, c) && TwoWaysAt(t, u, v, c - 1);
    OutsideNext(t, u, a, c - 1);
    assert Agreed(t, u, v, c - 1);
    if u[c - 1].Shift? { ShiftAfterUp(t, u, v, a, c - 1, b); }
  }

  // From a up to b nothing counts backwards only.
  ghost predicate InStep(t: string, u: seq<Mark>, v: seq<Mark>, a: nat, b: nat) {
    TwoWays(t, u, v) && 1 <= a <= |t| && b < |t| && NoneLate(t, u, v, a, b)
  }

  // And an angle opens before a for both directions.
  ghost predicate Ready(t: string, u: seq<Mark>, v: seq<Mark>, a: nat, b: nat) {
    && InStep(t, u, v, a, b) && v[a - 1].Down? && (a < |t| ==> !u[a].Shift?)
  }

  lemma NeverBehind(t: string, u: seq<Mark>, v: seq<Mark>, a: nat, b: nat)
    requires Ready(t, u, v, a, b) && AngleCloses(t, u, a, b) && AllAgreed(t, u, v, a, a, b)
    ensures DriftsLess(t, u, v, a, b)
  {
    forall c | a <= c <= b ensures IsAhead(t, u, v, a, c, b) {
      assert IsOpen(t, u, a, c);
      DriftBound(t, u, v, a, c, b);
      if Rest(t, u, a, c, b) > 0 {
        ShiftAfterUp(t, u, v, a, c, b);
        assert IsOpen(t, u, a, c - 1);
      }
    }
  }

  // An angle closed at b is opened again from there exactly when both directions agree on every
  // angle bracket in between that is outside brackets.
  lemma ClosedIsOpened(t: string, u: seq<Mark>, v: seq<Mark>, a: nat, b: nat)
    requires Ready(t, u, v, a, b) && AngleCloses(t, u, a, b)
    ensures AngleOpens(t, v, a, b) <==> AllAgreed(t, u, v, a, a, b)
  {
    DriftDecides(t, u, v, a, b);
    DriftBound(t, u, v, a, a, b);
    if AllAgreed(t, u, v, a, a, b) { NeverBehind(t, u, v, a, b); }
  }

  // And the other way round.
  lemma OpenedIsClosed(t: string, u: seq<Mark>, v: seq<Mark>, a: nat, b: nat)
    requires Ready(t, u, v, a, b) && AngleOpens(t, v, a, b) && u[b].Down?
    ensures AngleCloses(t, u, a, b) <==> AllAgreed(t, u, v, a, a, b)
  {
    DriftDecidesForwards(t, u, v, a, b);
    DriftBound(t, u, v, a, a, b);
    AngleOpensMeaning(t, v, a, b);
    if AllAgreed(t, u, v, a, a, b) {
      forall c | a <= c <= b ensures BackIsAhead(t, u, v, a, c, b) {
        assert BackIsOpen(t, v, c, b);
        DriftBound(t, u, v, a, c, b);
      }
    }
  }

  // An angle that is still open at s is not opened from there.
  lemma NotOpenedEarlier(t: string, u: seq<Mark>, v: seq<Mark>, a: nat, s: nat, b: nat)
    requires Ready(t, u, v, a, b) && a <= s < b && u[s].Down? && AngleCloses(t, u, a, b)
    ensures !AngleOpens(t, v, a, s)
  {
    assert IsOpen(t, u, a, s + 1);
    if AngleOpens(t, v, a, s) {
      AngleOpensMeaning(t, v, a, s);
      BackIsLevel(t, u, v, a, a, s);
      DriftBound(t, u, v, a, a, s);
    }
  }

  // Read from right to left, an angle opened at s and closed at b leaves none open.
  lemma BackAtUp(t: string, u: seq<Mark>, v: seq<Mark>, s: nat, b: nat)
    requires TwoWays(t, u, v) && s < b < |t| && u[s].Up? && NoneLate(t, u, v, s + 1, b)
    requires AngleCloses(t, u, s + 1, b)
    ensures Back(t, v, s + 1, b) < 1 || Back(t, v, s, b) < 1
  {
    BackIsLevel(t, u, v, s + 1, s + 1, b);
    DriftBound(t, u, v, s + 1, s + 1, b);
    assert t[s + 1..s + 1] == [];
    assert TwoWaysAt(t, u, v, s);
    BackStep(t, v, s, b);
  }

  // An angle that is still to be opened at s is not closed from there.
  lemma NotClosedLater(t: string, u: seq<Mark>, v: seq<Mark>, a: nat, s: nat, b: nat)
    requires InStep(t, u, v, a, b) && UpAt(t, u, a, s) && AngleOpens(t, v, a, b)
    ensures !AngleCloses(t, u, s + 1, b)
  {
    if AngleCloses(t, u, s + 1, b) {
      OutsideNext(t, u, a, s);
      forall j | s + 1 <= j < b && Balanced(t[s + 1..j]) ensures !Late(t, u, v, j) { BalancedPrefix(t, a, s + 1, j); }
      AngleOpensMeaning(t, v, a, b);
      assert BackIsOpen(t, v, s + 1, b) && BackIsOpen(t, v, s, b);
      BackAtUp(t, u, v, s, b);
    }
  }

  lemma NoneStillToOpen(t: string, u: seq<Mark>, v: seq<Mark>, a: nat, b: nat)
    requires InStep(t, u, v, a, b) && AngleOpens(t, v, a, b)
    ensures NoneClosesFrom(t, u, a, b)
  {
    forall s: nat | UpAt(t, u, a, s) ensures !AngleCloses(t, u, s + 1, b) { NotClosedLater(t, u, v, a, s, b); }
  }
}
