// A file as a list of lines, and the same text without line structure.
module Lines {
  type Position = (nat, nat)  // line, column

  predicate OnLine(lines: seq<string>, p: Position) {
    p.0 < |lines| && p.1 < |lines[p.0]|
  }

  function Flat(lines: seq<string>): string {
    if lines == [] then [] else lines[0] + Flat(lines[1..])
  }

  // The index in Flat(lines) at which line l starts.
  function Offset(lines: seq<string>, l: nat): nat
    requires l <= |lines|
  {
    if l == 0 then 0 else |lines[0]| + Offset(lines[1..], l - 1)
  }

  function Index(lines: seq<string>, p: Position): nat
    requires p.0 < |lines|
  {
    Offset(lines, p.0) + p.1
  }

  lemma {:induction false} OffsetNext(lines: seq<string>, l: nat)
    requires l < |lines|
    ensures Offset(lines, l + 1) == Offset(lines, l) + |lines[l]|
    ensures Offset(lines, |lines|) == |Flat(lines)|
  {
    if l > 0 { OffsetNext(lines[1..], l - 1); }
    OffsetEnd(lines);
  }

  lemma {:induction false} OffsetEnd(lines: seq<string>)
    ensures Offset(lines, |lines|) == |Flat(lines)|
  {
    if lines != [] { OffsetEnd(lines[1..]); }
  }

  lemma {:induction false} CharAt(lines: seq<string>, p: Position)
    requires OnLine(lines, p)
    ensures Index(lines, p) < |Flat(lines)| && Flat(lines)[Index(lines, p)] == lines[p.0][p.1]
  {
    if p.0 > 0 { CharAt(lines[1..], (p.0 - 1, p.1)); }
  }

  lemma {:induction false} OffsetMonotone(lines: seq<string>, l: nat, m: nat)
    requires l < m <= |lines|
    ensures Offset(lines, l) + |lines[l]| <= Offset(lines, m)
    decreases m
  {
    OffsetNext(lines, l);
    if l + 1 < m {
      OffsetMonotone(lines, l, m - 1);
      OffsetNext(lines, m - 1);
    }
  }

  lemma OffsetInFlat(lines: seq<string>, l: nat, i: nat)
    requires l < |lines| && i <= |lines[l]|
    ensures Offset(lines, l) + i <= |Flat(lines)|
  {
    OffsetMonotone(lines, l, |lines|);
    OffsetEnd(lines);
  }

  // Every index belongs to a position.
  lemma {:induction false} PositionOf(lines: seq<string>, k: nat) returns (p: Position)
    requires k < |Flat(lines)|
    ensures OnLine(lines, p) && Index(lines, p) == k
  {
    if k < |lines[0]| {
      p := (0, k);
    } else {
      var rest := PositionOf(lines[1..], k - |lines[0]|);
      p := (rest.0 + 1, rest.1);
    }
  }

  // Distinct character positions have distinct indices.
  lemma IndexInjective(lines: seq<string>, p: Position, q: Position)
    requires OnLine(lines, p) && OnLine(lines, q)
    ensures Index(lines, p) == Index(lines, q) <==> p == q
  {
    if p.0 < q.0 { OffsetMonotone(lines, p.0, q.0); }
    if q.0 < p.0 { OffsetMonotone(lines, q.0, p.0); }
  }
}
