// _CppLintState, _ShouldPrintError and Error.
module ErrorCounts {
  import opened Text

  datatype Counting = Total | TopLevel | Detailed

  // The part of a category before its first slash.
  function Head(category: string): (h: string)
    ensures h <= category && '/' !in h && (h == category || category[|h|] == '/')
  {
    if category == [] || category[0] == '/' then [] else [category[0]] + Head(category[1..])
  }

  predicate IsFilter(f: string) { f != [] && (f[0] == '+' || f[0] == '-') }

  predicate Applies(f: string, category: string)
    requires IsFilter(f)
  {
    f[1..] <= category
  }

  function Bump(counts: map<string, nat>, key: string): map<string, nat> {
    counts[key := 1 + if key in counts then counts[key] else 0]
  }

  function Count(counting: Counting, counts: map<string, nat>, category: string): map<string, nat> {
    match counting
    case Total => counts
    case TopLevel => Bump(counts, Head(category))
    case Detailed => Bump(counts, category)
  }

  class CppLintState {
    var verboseLevel: int
    var errorCount: nat
    var filters: seq<string>
    var counting: Counting
    var errorsByCategory: map<string, nat>
    // _global_error_suppressions and _error_suppressions, None standing for every category
    var globalSuppressions: set<string>
    var suppressions: map<Option<string>, set<nat>>
    ghost var history: seq<string>  // the categories of the errors counted since the last reset

    // The counts are those of the history, the counting style having been fixed all the time.
    ghost predicate Valid()
      reads this
    {
      errorCount == |history| && errorsByCategory == CountAll(counting, history)
    }

    constructor (filters: seq<string>)
      ensures verboseLevel == 1 && errorCount == 0 && this.filters == filters && counting == Total
      ensures errorsByCategory == map[] && globalSuppressions == {} && suppressions == map[]
      ensures Valid() && history == []
    {
      history := [];
      verboseLevel, errorCount, this.filters, counting := 1, 0, filters, Total;
      errorsByCategory, globalSuppressions, suppressions := map[], {}, map[];
    }

    method SetCountingStyle(countingStyle: Counting)
      modifies `counting
      ensures counting == countingStyle && (old(Valid()) && history == [] ==> Valid())
    {
      counting := countingStyle;
    }

    method ResetErrorCounts()
      modifies `errorCount, `errorsByCategory, `history
      ensures errorCount == 0 && errorsByCategory == map[] && history == [] && Valid()
    {
      errorCount, errorsByCategory, history := 0, map[], [];
    }

    method IncrementErrorCount(category: string)
      modifies `errorCount, `errorsByCategory, `history
      ensures errorCount == old(errorCount) + 1 && history == old(history) + [category]
      ensures errorsByCategory == Count(counting, old(errorsByCategory), category)
      ensures old(Valid()) ==> Valid()
    {
      errorCount := errorCount + 1;
      if counting == TopLevel || counting == Detailed {
        var key := category;
        if counting != Detailed { key := Head(category); }
        if key !in errorsByCategory { errorsByCategory := errorsByCategory[key := 0]; }
        errorsByCategory := errorsByCategory[key := errorsByCategory[key] + 1];
      }
      history := history + [category];
    }

    // Per category counts add up to the number of errors.
    lemma CountsAgree()
      requires Valid() && counting != Total
      ensures Sum(errorsByCategory) == errorCount
    {
      CountsAddUp(counting, history);
    }

    // By category, how often it was counted: each category by itself, or by the part before its first
    // slash.
    lemma CountsAreOccurrences(key: string)
      requires Valid() && counting != Total
      ensures Tallies(errorsByCategory, if counting == Detailed then history else Heads(history), key)
    {
      if counting == Detailed { DetailedTallies(history, key); } else { TopLevelTallies(history, key); }
    }

    // Without a counting style by category nothing is counted by category.
    lemma TotalCountsNoCategory()
      requires Valid() && counting == Total
      ensures errorsByCategory == map[] && errorCount == |history|
    {
      CountNothing(history);
    }

    // IsErrorSuppressedByNolint
    predicate Suppressed(category: string, linenum: nat)
      reads this
    {
      || category in globalSuppressions
      || (Some(category) in suppressions && linenum in suppressions[Some(category)])
      || (None in suppressions && linenum in suppressions[None])
    }

    // The last filter that applies decides; without one the error passes.
    ghost predicate Passes(category: string)
      reads this
      requires forall f :: f in filters ==> IsFilter(f)
    {
      forall i :: 0 <= i < |filters| && Applies(filters[i], category) && filters[i][0] == '-' ==>
        exists j :: i < j < |filters| && Applies(filters[j], category)
    }

    // No NOLINT for the category or for all of them, for the file or for the line; confidence enough;
    // and no filter against it.
    ghost predicate MayPrint(category: string, confidence: int, linenum: nat)
      reads this
      requires forall f :: f in filters ==> IsFilter(f)
    {
      && category !in globalSuppressions
      && !(Some(category) in suppressions && linenum in suppressions[Some(category)])
      && !(None in suppressions && linenum in suppressions[None])
      && confidence >= verboseLevel && Passes(category)
    }

    method ShouldPrintError(category: string, confidence: int, linenum: nat) returns (b: bool)
      requires forall f :: f in filters ==> IsFilter(f)
      ensures b <==> MayPrint(category, confidence, linenum)
    {
      if Suppressed(category, linenum) { return false; }
      if confidence < verboseLevel { return false; }
      var isFiltered := false;
      ghost var last := -1;
      for i := 0 to |filters|
        invariant -1 <= last < i
        invariant last >= 0 ==> Applies(filters[last], category)
        invariant forall j :: 0 <= j < i && last < j ==> !Applies(filters[j], category)
        invariant isFiltered <==> last >= 0 && filters[last][0] == '-'
      {
        var oneFilter := filters[i];
        assert IsFilter(oneFilter);
        if oneFilter[0] == '-' {
          if oneFilter[1..] <= category { isFiltered, last := true, i; }
        } else {
          if oneFilter[1..] <= category { isFiltered, last := false, i; }
        }
      }
      return !isFiltered;
    }

    method Error(linenum: nat, category: string, confidence: int) returns (printed: bool)
      requires forall f :: f in filters ==> IsFilter(f)
      modifies `errorCount, `errorsByCategory, `history
      ensures printed <==> old(MayPrint(category, confidence, linenum))
      ensures errorCount == old(errorCount) + if printed then 1 else 0
      ensures errorsByCategory ==
              if printed then Count(counting, old(errorsByCategory), category) else old(errorsByCategory)
      ensures history == old(history) + if printed then [category] else []
      ensures old(Valid()) ==> Valid() && (counting != Total ==> Sum(errorsByCategory) == errorCount)
    {
      printed := ShouldPrintError(category, confidence, linenum);
      if printed { IncrementErrorCount(category); }
      if old(Valid()) && counting != Total { CountsAgree(); }
    }
  }

  // The counts after a run of printed errors from a reset, with the counting style fixed.
  function CountAll(counting: Counting, categories: seq<string>): map<string, nat> {
    if categories == [] then map[]
    else
      var n := |categories| - 1;
      Count(counting, CountAll(counting, categories[..n]), categories[n])
  }

  ghost function Sum(counts: map<string, nat>): nat
    decreases |counts|
  {
    if counts == map[] then 0
    else
      var k :| k in counts;
      counts[k] + Sum(counts - {k})
  }

  lemma {:induction false} SumSplit(counts: map<string, nat>, k: string)
    requires k in counts
    ensures Sum(counts) == counts[k] + Sum(counts - {k})
    decreases |counts|
  {
    var p :| p in counts && Sum(counts) == counts[p] + Sum(counts - {p});
    if p != k {
      SumSplit(counts - {p}, k);
      SumSplit(counts - {k}, p);
      assert counts - {p} - {k} == counts - {k} - {p};
    }
  }

  lemma SumBump(counts: map<string, nat>, k: string)
    ensures Sum(Bump(counts, k)) == Sum(counts) + 1
  {
    var bumped := Bump(counts, k);
    SumSplit(bumped, k);
    if k in counts {
      SumSplit(counts, k);
      assert bumped - {k} == counts - {k};
    } else {
      assert bumped - {k} == counts;
    }
  }

  // Per category counts always add up to the number of errors.
  lemma {:induction false} CountsAddUp(counting: Counting, categories: seq<string>)
    requires counting != Total
    ensures Sum(CountAll(counting, categories)) == |categories|
  {
    if categories != [] {
      var n := |categories| - 1;
      var before := CountAll(counting, categories[..n]);
      CountsAddUp(counting, categories[..n]);
      SumBump(before, if counting == TopLevel then Head(categories[n]) else categories[n]);
    }
  }

  function Heads(categories: seq<string>): (r: seq<string>)
    ensures |r| == |categories| && forall i :: 0 <= i < |r| ==> r[i] == Head(categories[i])
  {
    seq(|categories|, i requires 0 <= i < |categories| => Head(categories[i]))
  }

  // The count of a key is how often it occurs.
  predicate Tallies(counts: map<string, nat>, keys: seq<string>, key: string) {
    (key in counts <==> key in keys) && (key in keys ==> counts[key] == multiset(keys)[key])
  }

  lemma BumpTallies(counts: map<string, nat>, keys: seq<string>, k: string, key: string)
    requires Tallies(counts, keys, key)
    ensures Tallies(Bump(counts, k), keys + [k], key)
  {
  }

  lemma {:induction false} DetailedTallies(categories: seq<string>, key: string)
    ensures Tallies(CountAll(Detailed, categories), categories, key)
  {
    if categories != [] {
      var n := |categories| - 1;
      DetailedTallies(categories[..n], key);
      assert categories == categories[..n] + [categories[n]];
      BumpTallies(CountAll(Detailed, categories[..n]), categories[..n], categories[n], key);
    }
  }

  lemma {:induction false} TopLevelTallies(categories: seq<string>, key: string)
    ensures Tallies(CountAll(TopLevel, categories), Heads(categories), key)
  {
    if categories != [] {
      var n := |categories| - 1;
      TopLevelTallies(categories[..n], key);
      assert Heads(categories) == Heads(categories[..n]) + [Head(categories[n])];
      BumpTallies(CountAll(TopLevel, categories[..n]), Heads(categories[..n]), Head(categories[n]), key);
    }
  }

  lemma {:induction false} CountNothing(categories: seq<string>)
    ensures CountAll(Total, categories) == map[]
  {
    if categories != [] { CountNothing(categories[..|categories| - 1]); }
  }

  // The detailed counts that belong to a top-level category.
  function Below(counts: map<string, nat>, top: string): map<string, nat> {
    map k | k in counts && Head(k) == top :: counts[k]
  }

  lemma BelowBump(counts: map<string, nat>, c: string, top: string)
    ensures Below(Bump(counts, c), top) == if Head(c) == top then Bump(Below(counts, top), c) else Below(counts, top)
  {
  }

  // A top-level count is the sum of the detailed counts below it.
  lemma {:induction false} TopLevelIsSumOfDetailed(categories: seq<string>, top: string)
    ensures var counts := CountAll(TopLevel, categories);
            Sum(Below(CountAll(Detailed, categories), top)) == if top in counts then counts[top] else 0
  {
    if categories == [] {
      assert Below(map[], top) == map[];
    } else {
      var n := |categories| - 1;
      var c, before := categories[n], CountAll(Detailed, categories[..n]);
      TopLevelIsSumOfDetailed(categories[..n], top);
      BelowBump(before, c, top);
      if Head(c) == top { SumBump(Below(before, top), c); }
    }
  }
}
