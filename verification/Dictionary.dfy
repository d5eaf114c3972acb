// The arithmetic and the order theory of a DictionarySegment, on values.
module Dictionary {
  import opened Text

  // operator< of a column type: a strict total order.
  ghost predicate TotalOrder<T(!new)>(lt: (T, T) -> bool) {
    && (forall a, b :: lt(a, b) ==> !lt(b, a))
    && (forall a, b, c :: lt(a, b) && lt(b, c) ==> lt(a, c))
    && (forall a, b :: lt(a, b) || a == b || lt(b, a))
  }

  ghost predicate Increasing<T>(s: seq<T>, lt: (T, T) -> bool) {
    forall i, j :: 0 <= i < j < |s| ==> lt(s[i], s[j])
  }

  // std::set::emplace, the set given by its elements in order
  function Emplace<T>(dict: seq<T>, v: T, lt: (T, T) -> bool): seq<T> {
    if dict == [] || lt(v, dict[0]) then [v] + dict
    else if !lt(dict[0], v) then dict
    else [dict[0]] + Emplace(dict[1..], v, lt)
  }

  lemma {:induction false} EmplaceIsInsertion<T(!new)>(dict: seq<T>, v: T, lt: (T, T) -> bool)
    requires TotalOrder(lt) && Increasing(dict, lt)
    ensures var r := Emplace(dict, v, lt);
            Increasing(r, lt) && forall x :: x in r <==> x in dict || x == v
  {
    if dict != [] && lt(dict[0], v) {
      var rest := dict[1..];
      EmplaceIsInsertion(rest, v, lt);
      assert dict == [dict[0]] + rest;
      forall x | x in Emplace(rest, v, lt) ensures lt(dict[0], x) {
        if x in rest { var i :| 0 <= i < |rest| && rest[i] == x; assert lt(dict[0], dict[i + 1]); }
      }
    } else if dict != [] && lt(v, dict[0]) {
      assert forall i :: 0 < i < |dict| ==> lt(dict[0], dict[i]) && lt(v, dict[i]);
    }
  }

  function Distinct<T>(values: seq<T>, lt: (T, T) -> bool): seq<T> {
    if values == [] then []
    else Emplace(Distinct(values[..|values| - 1], lt), values[|values| - 1], lt)
  }

  // The dictionary is strictly increasing and holds exactly the values that occur.
  lemma {:induction false} DistinctIsSortedSet<T(!new)>(values: seq<T>, lt: (T, T) -> bool)
    requires TotalOrder(lt)
    ensures var d := Distinct(values, lt);
            Increasing(d, lt) && (forall x :: x in d <==> x in values) && |d| <= |values|
  {
    if values != [] {
      var n := |values| - 1;
      DistinctIsSortedSet(values[..n], lt);
      EmplaceIsInsertion(Distinct(values[..n], lt), values[n], lt);
      EmplaceLength(Distinct(values[..n], lt), values[n], lt);
      assert values == values[..n] + [values[n]];
    }
  }

  lemma {:induction false} EmplaceLength<T>(dict: seq<T>, v: T, lt: (T, T) -> bool)
    ensures |Emplace(dict, v, lt)| <= |dict| + 1
  {
    if dict != [] && lt(dict[0], v) && !lt(v, dict[0]) { EmplaceLength(dict[1..], v, lt); }
  }

  // std::find
  function IndexOf<T(==)>(dict: seq<T>, v: T): (i: nat)
    ensures i <= |dict| && (i < |dict| ==> dict[i] == v) && (v in dict ==> i < |dict|)
  {
    if dict == [] || dict[0] == v then 0 else 1 + IndexOf(dict[1..], v)
  }

  // (int)log2(n)
  function FloorLog2(n: nat): nat
    requires n >= 1
  {
    if n == 1 then 0 else 1 + FloorLog2(n / 2)
  }

  function Pow2(k: nat): nat { if k == 0 then 1 else 2 * Pow2(k - 1) }

  lemma {:induction false} LogBelow(n: nat, k: nat)
    requires n >= 1
    ensures FloorLog2(n) < k <==> n < Pow2(k)
  {
    if k > 0 && n > 1 { LogBelow(n / 2, k - 1); }
    if k > 0 && n == 1 { PowPositive(k - 1); }
  }

  lemma {:induction false} PowPositive(k: nat)
    ensures Pow2(k) >= 1
  {
    if k > 0 { PowPositive(k - 1); }
  }

  const ID_RANGE: nat := 0x1_0000_0000
  const INVALID_VALUE_ID: nat := ID_RANGE - 1

  // How many values an attribute vector of w bytes tells apart.
  function Range(w: nat): nat { if w == 1 then 0x100 else if w == 2 then 0x1_0000 else ID_RANGE }

  // The width picked for a dictionary of n values, None for the "Not enough memory" error.
  // The program takes the logarithm of 0 as well; logOfZero is whatever it then gets.
  function Width(n: nat, logOfZero: int): Option<nat> {
    var entropy := (if n == 0 then logOfZero else FloorLog2(n)) + 1;
    if entropy <= 8 then Some(1) else if entropy <= 16 then Some(2) else if entropy <= 32 then Some(4) else None
  }

  // The id fits into w bytes and does not read as the truncated INVALID_VALUE_ID.
  predicate IdFits(id: nat, w: nat) { id < Range(w) && id != INVALID_VALUE_ID % Range(w) }

  predicate Fits(n: nat, w: nat) {
    forall id :: 0 <= id < n ==> IdFits(id, w)
  }

  lemma FitsBelowRange(n: nat, w: nat)
    requires w in {1, 2, 4}
    ensures Fits(n, w) <==> n < Range(w)
  {
    assert INVALID_VALUE_ID % Range(w) == Range(w) - 1;
    if n >= Range(w) { assert !IdFits(Range(w) - 1, w); }
  }

  // The smallest width that fits; refused exactly when none does.
  lemma WidthIsSmallest(n: nat, logOfZero: int)
    requires n >= 1
    ensures match Width(n, logOfZero)
            case None => n >= ID_RANGE && forall w | w in {1, 2, 4} :: !Fits(n, w)
            case Some(w) => w in {1, 2, 4} && n < ID_RANGE && Fits(n, w) &&
                            forall w' | w' in {1, 2, 4} && w' < w :: !Fits(n, w')
  {
    LogBelow(n, 8);
    LogBelow(n, 16);
    LogBelow(n, 32);
    assert Pow2(8) == 0x100;
    assert Pow2(16) == 0x1_0000 by { assert Pow2(12) == 0x1000; }
    assert Pow2(32) == ID_RANGE by {
      assert Pow2(20) == 0x10_0000 by { assert Pow2(16) == 0x1_0000; }
      assert Pow2(24) == 0x100_0000;
      assert Pow2(28) == 0x1000_0000;
    }
    FitsBelowRange(n, 1);
    FitsBelowRange(n, 2);
    FitsBelowRange(n, 4);
  }

  // A finished DictionarySegment: the dictionary, the attribute vector and its width.
  datatype Encoded<T> = Encoded(dictionary: seq<T>, ids: seq<nat>, width: nat)

  // static_cast<T>(ValueID) for a vector of w bytes
  function Narrow(id: nat, w: nat): nat { id % ID_RANGE % Range(w) }

  function Ids<T(==)>(values: seq<T>, dict: seq<T>, w: nat): seq<nat> {
    seq(|values|, i requires 0 <= i < |values| => Narrow(IndexOf(dict, values[i]), w))
  }

  function Encode<T(==)>(values: seq<T>, lt: (T, T) -> bool, logOfZero: int): Option<Encoded<T>> {
    var dict := Distinct(values, lt);
    match Width(|dict|, logOfZero)
    case None => None
    case Some(w) => Some(Encoded(dict, Ids(values, dict, w), w))
  }

  // DictionarySegment::get; None when one of the two at() calls throws.
  function Get<T>(e: Encoded<T>, i: nat): Option<T> {
    if i < |e.ids| && e.ids[i] < |e.dictionary| then Some(e.dictionary[e.ids[i]]) else None
  }

  // What the constructor leaves.
  ghost predicate WellFormed<T>(e: Encoded<T>, lt: (T, T) -> bool) {
    && Increasing(e.dictionary, lt) && |e.dictionary| < ID_RANGE
    && forall i :: 0 <= i < |e.ids| ==> e.ids[i] < |e.dictionary|
  }

  lemma NarrowIsSame(id: nat, w: nat)
    requires w in {1, 2, 4} && id < Range(w)
    ensures Narrow(id, w) == id
  {
  }

  lemma NarrowKeepsIds<T>(values: seq<T>, dict: seq<T>, w: nat, i: nat)
    requires w in {1, 2, 4} && |dict| < Range(w) && i < |values| && values[i] in dict
    ensures var id := Ids(values, dict, w)[i]; id < |dict| && dict[id] == values[i]
  {
    NarrowIsSame(IndexOf(dict, values[i]), w);
  }

  // Every row reads back as it was, although ids are cast to 32 and then to 8, 16 or 32 bits.
  lemma RoundTrip<T(!new)>(values: seq<T>, lt: (T, T) -> bool, logOfZero: int)
    requires TotalOrder(lt)
    ensures match Encode(values, lt, logOfZero)
            case None => values != [] ==> |Distinct(values, lt)| >= ID_RANGE
            case Some(e) =>
              && WellFormed(e, lt) && |e.ids| == |values| && e.width in {1, 2, 4}
              && (forall x :: x in e.dictionary <==> x in values)
              && forall i :: 0 <= i < |values| ==> Get(e, i) == Some(values[i])
  {
    var dict := Distinct(values, lt);
    DistinctIsSortedSet(values, lt);
    if values == [] {
      assert dict == [];
    } else {
      assert values[0] in dict;
      WidthIsSmallest(|dict|, logOfZero);
      var w := Width(|dict|, logOfZero);
      if w.Some? {
        FitsBelowRange(|dict|, w.value);
        forall i | 0 <= i < |values|
          ensures var id := Ids(values, dict, w.value)[i]; id < |dict| && dict[id] == values[i]
        {
          NarrowKeepsIds(values, dict, w.value, i);
        }
      }
    }
  }

  ghost predicate NoRepeats<T>(s: seq<T>) { forall i, j :: 0 <= i < j < |s| ==> s[i] != s[j] }

  lemma {:induction false} CountOf<T>(s: seq<T>)
    requires NoRepeats(s)
    ensures |set x | x in s| == |s|
  {
    if s != [] {
      var n := |s| - 1;
      CountOf(s[..n]);
      assert (set x | x in s) == (set x | x in s[..n]) + {s[n]} by { assert s == s[..n] + [s[n]]; }
    }
  }

  // The dictionary has one entry for each value that occurs.
  lemma DistinctCount<T(!new)>(values: seq<T>, lt: (T, T) -> bool)
    requires TotalOrder(lt)
    ensures |Distinct(values, lt)| == |set x | x in values|
  {
    var d := Distinct(values, lt);
    DistinctIsSortedSet(values, lt);
    CountOf(d);
    assert (set x | x in d) == (set x | x in values);
  }

  // A vector of 1, 2 or 4 bytes for n different values is the smallest that tells them apart.
  ghost predicate SmallestWidth(n: nat, w: nat) {
    && w == (if n < 0x100 then 1 else if n < 0x1_0000 then 2 else 4) && n < 0x1_0000_0000
    && Fits(n, w) && forall w' | w' in {1, 2, 4} && w' < w :: !Fits(n, w')
  }

  // Nothing in an encoding is wider than the values need, and no entry is without a row.
  ghost predicate Compact<T>(e: Encoded<T>) {
    SmallestWidth(|e.dictionary|, e.width) && forall id :: 0 <= id < |e.dictionary| ==> id in e.ids
  }

  // What a segment is to be encoded as: every row reads back, and nothing is larger than needed. It
  // is refused only if no width fits the number of different values.
  ghost predicate SmallestEncoding<T(!new)>(values: seq<T>, lt: (T, T) -> bool, r: Option<Encoded<T>>) {
    var n := |set x | x in values|;
    match r
    case None => forall w | w in {1, 2, 4} :: !Fits(n, w)
    case Some(e) =>
      && WellFormed(e, lt) && Compact(e) && |e.dictionary| == n && |e.ids| == |values|
      && forall i :: 0 <= i < |values| ==> Get(e, i) == Some(values[i])
  }

  lemma EncodingIsSmallest<T(!new)>(values: seq<T>, lt: (T, T) -> bool, logOfZero: int)
    requires TotalOrder(lt) && values != []
    ensures SmallestEncoding(values, lt, Encode(values, lt, logOfZero))
  {
    var dict, r := Distinct(values, lt), Encode(values, lt, logOfZero);
    DistinctIsSortedSet(values, lt);
    DistinctCount(values, lt);
    assert values[0] in dict;
    WidthIsSmallest(|dict|, logOfZero);
    FitsBelowRange(|dict|, 1);
    FitsBelowRange(|dict|, 2);
    RoundTrip(values, lt, logOfZero);
    if r.Some? { EntriesAreUsed(values, lt, logOfZero); }
  }

  lemma EntriesAreUsed<T(!new)>(values: seq<T>, lt: (T, T) -> bool, logOfZero: int)
    requires TotalOrder(lt) && Encode(values, lt, logOfZero).Some?
    ensures var e := Encode(values, lt, logOfZero).value;
            forall id :: 0 <= id < |e.dictionary| ==> id in e.ids
  {
    var e := Encode(values, lt, logOfZero).value;
    RoundTrip(values, lt, logOfZero);
    forall id | 0 <= id < |e.dictionary| ensures id in e.ids {
      var x := e.dictionary[id];
      assert x in values;
      var i: nat :| i < |values| && values[i] == x;
      assert Get(e, i) == Some(x);
      IncreasingOnce(e.dictionary, lt, id, e.ids[i]);
    }
  }

  lemma IncreasingOnce<T(!new)>(s: seq<T>, lt: (T, T) -> bool, i: nat, j: nat)
    requires TotalOrder(lt) && Increasing(s, lt) && i < |s| && j < |s| && s[i] == s[j]
    ensures i == j
  {
  }

  // Rows are ChunkOffsets, of which there are too few to ever make the constructor refuse.
  lemma SmallSegmentsAreNeverRefused<T(!new)>(values: seq<T>, lt: (T, T) -> bool, logOfZero: int)
    requires TotalOrder(lt) && 0 < |values| < ID_RANGE
    ensures Encode(values, lt, logOfZero).Some?
  {
    RoundTrip(values, lt, logOfZero);
    DistinctIsSortedSet(values, lt);
  }

  // std::lower_bound and std::upper_bound, as positions
  function LowerIndex<T>(dict: seq<T>, v: T, lt: (T, T) -> bool): (i: nat)
    ensures i <= |dict|
  {
    if dict == [] || !lt(dict[0], v) then 0 else 1 + LowerIndex(dict[1..], v, lt)
  }

  function UpperIndex<T>(dict: seq<T>, v: T, lt: (T, T) -> bool): (i: nat)
    ensures i <= |dict|
  {
    if dict == [] || lt(v, dict[0]) then 0 else 1 + UpperIndex(dict[1..], v, lt)
  }

  function ToValueId<T>(dict: seq<T>, i: nat): nat { if i == |dict| then INVALID_VALUE_ID else i % ID_RANGE }

  function LowerBound<T>(e: Encoded<T>, v: T, lt: (T, T) -> bool): nat {
    ToValueId(e.dictionary, LowerIndex(e.dictionary, v, lt))
  }

  function UpperBound<T>(e: Encoded<T>, v: T, lt: (T, T) -> bool): nat {
    ToValueId(e.dictionary, UpperIndex(e.dictionary, v, lt))
  }

  lemma {:induction false} IndicesSeparate<T(!new)>(dict: seq<T>, v: T, lt: (T, T) -> bool, k: nat)
    requires TotalOrder(lt) && Increasing(dict, lt) && k < |dict|
    ensures lt(dict[k], v) <==> k < LowerIndex(dict, v, lt)
    ensures !lt(v, dict[k]) <==> k < UpperIndex(dict, v, lt)
  {
    var rest := dict[1..];
    assert forall i, j :: 0 <= i < j < |rest| ==> lt(rest[i], rest[j]);
    if k > 0 {
      assert lt(dict[0], dict[k]) && dict[k] == rest[k - 1];
      IndicesSeparate(rest, v, lt, k - 1);
    }
  }

  datatype ScanType = OpEquals | OpNotEquals | OpLessThan | OpLessThanEquals | OpGreaterThan | OpGreaterThanEquals

  predicate Compare<T(==)>(op: ScanType, a: T, b: T, lt: (T, T) -> bool) {
    match op
    case OpEquals => a == b
    case OpNotEquals => a != b
    case OpLessThan => lt(a, b)
    case OpLessThanEquals => lt(a, b) || a == b
    case OpGreaterThan => lt(b, a)
    case OpGreaterThanEquals => lt(b, a) || a == b
  }

  // The same comparison on ids alone, given both bounds of the search value.
  predicate CompareIds(op: ScanType, id: nat, lower: nat, upper: nat) {
    match op
    case OpEquals => lower <= id < upper
    case OpNotEquals => id < lower || upper <= id
    case OpLessThan => id < lower
    case OpLessThanEquals => id < upper
    case OpGreaterThan => upper <= id
    case OpGreaterThanEquals => lower <= id
  }

  // The bounds embed the order: for each of the six comparisons and every search value, a row
  // satisfies it exactly when its id does, also where a bound is INVALID_VALUE_ID.
  lemma BoundsEmbedOrder<T(!new)>(e: Encoded<T>, v: T, lt: (T, T) -> bool, i: nat, op: ScanType)
    requires TotalOrder(lt) && WellFormed(e, lt) && i < |e.ids|
    ensures Get(e, i).Some?
    ensures Compare(op, Get(e, i).value, v, lt) <==>
            CompareIds(op, e.ids[i], LowerBound(e, v, lt), UpperBound(e, v, lt))
  {
    IndicesSeparate(e.dictionary, v, lt, e.ids[i]);
    var a := e.dictionary[e.ids[i]];
    assert lt(a, v) || a == v || lt(v, a);
  }

  // What each bound is: the first id whose value is not less, respectively greater, than v, and
  // INVALID_VALUE_ID exactly when there is no such id.
  lemma BoundsAreFirst<T(!new)>(e: Encoded<T>, v: T, lt: (T, T) -> bool)
    requires TotalOrder(lt) && WellFormed(e, lt)
    ensures var d, l, u := e.dictionary, LowerBound(e, v, lt), UpperBound(e, v, lt);
            && (l < |d| || l == 0xFFFF_FFFF) && (u < |d| || u == 0xFFFF_FFFF)
            && (forall k :: 0 <= k < |d| ==> (lt(d[k], v) <==> k < l) && (!lt(v, d[k]) <==> k < u))
            && (l == 0xFFFF_FFFF <==> forall k :: 0 <= k < |d| ==> lt(d[k], v))
            && (u == 0xFFFF_FFFF <==> forall k :: 0 <= k < |d| ==> !lt(v, d[k]))
  {
    var d := e.dictionary;
    forall k | 0 <= k < |d|
      ensures (lt(d[k], v) <==> k < LowerIndex(d, v, lt)) && (!lt(v, d[k]) <==> k < UpperIndex(d, v, lt))
    {
      IndicesSeparate(d, v, lt, k);
    }
    if d != [] {
      var last := |d| - 1;
      assert lt(d[last], v) <==> LowerIndex(d, v, lt) == |d|;
      assert !lt(v, d[last]) <==> UpperIndex(d, v, lt) == |d|;
    }
  }
}
