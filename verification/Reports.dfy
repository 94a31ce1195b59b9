/** MakeReport: the classes with the most query time, and the rest folded into one. */
module Reports {
  import opened Words

  datatype TimeStats = TimeStats(sum: real, min: Option<real>, max: Option<real>)

  /** event.Class, with its Query_time metric. */
  datatype Class = Class(id: string, totalQueries: Uint64, uniqueQueries: nat, queryTime: Option<TimeStats>)

  function ValueOf(x: Option<real>): real {
    if x.None? then 0.0 else x.value
  }

  /** event.Class.AddClass. */
  function AddClass(c: Class, other: Class): Class {
    c.(uniqueQueries := c.uniqueQueries + 1,
       totalQueries := Wrap((c.totalQueries as int) + (other.totalQueries as int)),
       queryTime := AddTime(c.queryTime, other.queryTime))
  }

  function AddTime(t: Option<TimeStats>, u: Option<TimeStats>): Option<TimeStats> {
    if u.None? then t
    else if t.None? then u
    else Some(TimeStats(
      t.value.sum + u.value.sum,
      if ValueOf(u.value.min) < ValueOf(t.value.min) || t.value.min.None? then u.value.min else t.value.min,
      if ValueOf(u.value.max) > ValueOf(t.value.max) || t.value.max.None? then u.value.max else t.value.max))
  }

  const LRQ := Class("lrq", 0, 0, None)

  function Fold(c: Class, classes: seq<Class>): Class {
    if classes == [] then c else AddClass(Fold(c, classes[..|classes| - 1]), classes[|classes| - 1])
  }

  // ----- totals ------------------------------------------------------------------------------

  ghost function Queries(classes: seq<Class>): int {
    if classes == [] then 0 else Queries(classes[..|classes| - 1]) + classes[|classes| - 1].totalQueries
  }

  ghost function Seconds(c: Class): real {
    if c.queryTime.None? then 0.0 else c.queryTime.value.sum
  }

  ghost function Time(classes: seq<Class>): real {
    if classes == [] then 0.0 else Time(classes[..|classes| - 1]) + Seconds(classes[|classes| - 1])
  }

  lemma {:induction false} TotalsConcat(a: seq<Class>, b: seq<Class>)
    ensures Queries(a + b) == Queries(a) + Queries(b) && Time(a + b) == Time(a) + Time(b)
  {
    if b == [] {
      assert a + b == a;
    } else {
      assert (a + b)[..|a + b| - 1] == a + b[..|b| - 1];
      TotalsConcat(a, b[..|b| - 1]);
    }
  }

  lemma TotalsOne(c: Class)
    ensures Queries([c]) == c.totalQueries && Time([c]) == Seconds(c)
  {
    assert [c][..0] == [];
  }

  lemma TotalsWithout(b: seq<Class>, i: nat)
    requires i < |b|
    ensures Queries(b) == Queries(b[..i] + b[i + 1..]) + b[i].totalQueries
    ensures Time(b) == Time(b[..i] + b[i + 1..]) + Seconds(b[i])
    ensures multiset(b[..i] + b[i + 1..]) == multiset(b) - multiset{b[i]}
  {
    hide Queries, Time, Seconds;
    assert b == b[..i] + [b[i]] + b[i + 1..];
    TotalsConcat(b[..i], [b[i]]);
    TotalsConcat(b[..i] + [b[i]], b[i + 1..]);
    TotalsConcat(b[..i], b[i + 1..]);
    TotalsOne(b[i]);
  }

  /** Reordering classes changes no total. */
  lemma {:induction false} TotalsPermute(a: seq<Class>, b: seq<Class>)
    requires multiset(a) == multiset(b)
    ensures Queries(a) == Queries(b) && Time(a) == Time(b)
    decreases |a|
  {
    hide Queries, Time, Seconds;
    if a == [] {
      assert |b| == |multiset(b)| == 0;
    } else {
      var i := PlaceIn(a[0], a, b);
      TotalsWithout(a, 0);
      TotalsWithout(b, i);
      TotalsPermute(a[..0] + a[1..], b[..i] + b[i + 1..]);
    }
  }

  lemma PlaceIn(c: Class, a: seq<Class>, b: seq<Class>) returns (i: nat)
    requires c in a && multiset(a) == multiset(b)
    ensures i < |b| && b[i] == c
  {
    assert c in multiset(a);
    assert c in b;
    i :| i < |b| && b[i] == c;
  }

  lemma {:induction false} FoldTotals(classes: seq<Class>)
    ensures Fold(LRQ, classes).totalQueries == Wrap(Queries(classes))
    ensures Seconds(Fold(LRQ, classes)) == Time(classes)
    ensures Fold(LRQ, classes).uniqueQueries == |classes| && Fold(LRQ, classes).id == "lrq"
  {
    if classes != [] {
      var front, last := classes[..|classes| - 1], classes[|classes| - 1];
      FoldTotals(front);
      WrapAdd(Fold(LRQ, front).totalQueries, Queries(front), last.totalQueries, Queries(classes));
    }
  }

  ghost predicate Timed(classes: seq<Class>) {
    forall i :: 0 <= i < |classes| ==> classes[i].queryTime.Some?
  }

  ghost predicate FullyTimed(classes: seq<Class>) {
    forall i :: 0 <= i < |classes| ==>
      && classes[i].queryTime.Some? && classes[i].queryTime.value.min.Some? && classes[i].queryTime.value.max.Some?
  }

  ghost predicate IsLeast(x: Option<real>, classes: seq<Class>)
    requires FullyTimed(classes)
  {
    && x.Some?
    && (forall i :: 0 <= i < |classes| ==> x.value <= classes[i].queryTime.value.min.value)
    && (exists i :: 0 <= i < |classes| && classes[i].queryTime.value.min == x)
  }

  ghost predicate IsGreatest(x: Option<real>, classes: seq<Class>)
    requires FullyTimed(classes)
  {
    && x.Some?
    && (forall i :: 0 <= i < |classes| ==> classes[i].queryTime.value.max.value <= x.value)
    && (exists i :: 0 <= i < |classes| && classes[i].queryTime.value.max == x)
  }

  lemma LeastStep(x: Option<real>, classes: seq<Class>)
    requires FullyTimed(classes) && |classes| > 0 && IsLeast(x, classes[..|classes| - 1])
    ensures var y := classes[|classes| - 1].queryTime.value.min;
      IsLeast(if y.value < x.value then y else x, classes)
  {
    var n := |classes| - 1;
    var i :| 0 <= i < n && classes[..n][i].queryTime.value.min == x;
    assert classes[i].queryTime.value.min == x;
  }

  lemma GreatestStep(x: Option<real>, classes: seq<Class>)
    requires FullyTimed(classes) && |classes| > 0 && IsGreatest(x, classes[..|classes| - 1])
    ensures var y := classes[|classes| - 1].queryTime.value.max;
      IsGreatest(if y.value > x.value then y else x, classes)
  {
    var n := |classes| - 1;
    var i :| 0 <= i < n && classes[..n][i].queryTime.value.max == x;
    assert classes[i].queryTime.value.max == x;
  }

  /** The extremes of the folded classes are those of the remainder. */
  lemma {:induction false} FoldExtremes(classes: seq<Class>)
    requires classes != [] && FullyTimed(classes)
    ensures var t := Fold(LRQ, classes).queryTime;
      t.Some? && IsLeast(t.value.min, classes) && IsGreatest(t.value.max, classes)
  {
    var n := |classes| - 1;
    var front := classes[..n];
    if n == 0 {
      assert front == [];
      assert classes[0].queryTime == Fold(LRQ, classes).queryTime;
    } else {
      FoldExtremes(front);
      var t := Fold(LRQ, front).queryTime.value;
      LeastStep(t.min, classes);
      GreatestStep(t.max, classes);
      hide IsLeast, IsGreatest;
    }
  }

  // ----- sorting -------------------------------------------------------------------------------

  /** ByQueryTime.Less; panics on a class without the metric. */
  predicate Ranks(a: Class, b: Class)
    requires a.queryTime.Some? && b.queryTime.Some?
  {
    a.queryTime.value.sum > b.queryTime.value.sum
  }

  /** No class ranks above an earlier one; a single class is never compared. */
  ghost predicate Descending(classes: seq<Class>) {
    forall i, j :: 0 <= i < j < |classes| ==> NotAbove(classes[j], classes[i])
  }

  ghost predicate NotAbove(a: Class, b: Class) {
    a.queryTime.Some? && b.queryTime.Some? && a.queryTime.value.sum <= b.queryTime.value.sum
  }

  /** Sorting two or more classes compares each of them with some other. */
  ghost predicate Panics(classes: seq<Class>) {
    |classes| >= 2 && !Timed(classes)
  }

  function Insert(c: Class, classes: seq<Class>): (r: seq<Class>)
    requires c.queryTime.Some? && Timed(classes)
    ensures multiset(r) == multiset(classes) + multiset{c}
    ensures Timed(r)
  {
    if classes == [] then [c]
    else if Ranks(c, classes[0]) then [c] + classes
    else
      var r := [classes[0]] + Insert(c, classes[1..]);
      assert classes == [classes[0]] + classes[1..];
      r
  }

  lemma {:induction false} InsertDescends(c: Class, classes: seq<Class>)
    requires c.queryTime.Some? && Timed(classes) && Descending(classes)
    ensures Descending(Insert(c, classes))
  {
    if classes != [] && !Ranks(c, classes[0]) {
      InsertDescends(c, classes[1..]);
      var rest := Insert(c, classes[1..]);
      forall i | 0 <= i < |rest| ensures NotAbove(rest[i], classes[0]) {
        assert rest[i] in multiset(rest);
        if rest[i] != c {
          assert rest[i] in classes[1..];
        }
      }
    }
  }

  /** Whether every class has the metric. */
  method AllTimed(a: array<Class>) returns (timed: bool)
    ensures timed <==> Timed(a[..])
  {
    for i := 0 to a.Length
      invariant forall j :: 0 <= j < i ==> a[j].queryTime.Some?
    {
      if a[i].queryTime.None? {
        assert a[..][i].queryTime.None?;
        return false;
      }
    }
    return true;
  }

  /** sort.Sort: some descending permutation, in place, unless a class without the
      metric is compared. */
  method Sort(a: array<Class>) returns (panicked: bool)
    modifies a
    ensures panicked <==> Panics(old(a[..]))
    ensures multiset(a[..]) == multiset(old(a[..]))
    ensures !panicked ==> Descending(a[..])
  {
    if a.Length < 2 {
      return false;
    }
    var timed := AllTimed(a);
    if !timed {
      return true;
    }
    InsertionSort(a);
    return false;
  }

  method InsertionSort(a: array<Class>)
    requires Timed(a[..])
    modifies a
    ensures Descending(a[..]) && multiset(a[..]) == multiset(old(a[..]))
  {
    hide Descending;
    var s: seq<Class> := [];
    assert Descending(s) by { NothingDescends(); }
    for i := 0 to a.Length
      invariant a[..] == old(a[..])
      invariant Timed(s) && Descending(s) && multiset(s) == multiset(a[..i])
    {
      assert a[..i + 1] == a[..i] + [a[i]];
      assert a[..][i].queryTime.Some?;
      InsertDescends(a[i], s);
      s := Insert(a[i], s);
    }
    assert a[..a.Length] == a[..];
    assert |s| == |multiset(s)| == a.Length;
    forall i | 0 <= i < a.Length {
      a[i] := s[i];
    }
    assert a[..] == s;
  }

  lemma NothingDescends()
    ensures Descending([])
  {
  }

  // ----- MakeReport ------------------------------------------------------------------------------

  /** int(limit) of a uint. */
  function AsInt(limit: Uint64): int {
    if limit > I64_MAX then limit - U64 else limit
  }

  /** A slice of the class array from its start. */
  datatype Slice = Slice(len: nat)

  /** Conservation: the report's classes stand for all the queries and all the time
      of the input classes. */
  ghost predicate Conserves(report: seq<Class>, input: seq<Class>) {
    Wrap(Queries(report)) == Wrap(Queries(input)) && Time(report) == Time(input)
  }

  lemma ReportConserves(input: seq<Class>, sorted: seq<Class>, limit: nat)
    requires multiset(sorted) == multiset(input) && limit <= |sorted|
    ensures Conserves(sorted[..limit] + [Fold(LRQ, sorted[limit..])], input)
  {
    var top, rest := sorted[..limit], sorted[limit..];
    var lrq := Fold(LRQ, rest);
    assert sorted == top + rest;
    TotalsPermute(input, sorted);
    TotalsConcat(top, rest);
    TotalsConcat(top, [lrq]);
    TotalsOne(lrq);
    FoldTotals(rest);
    WrapAdd(lrq.totalQueries, Queries(rest), Queries(top), Queries(input));
  }

  /** The loop over the low-ranking classes. */
  method FoldRest(a: array<Class>, limit: nat) returns (lrq: Class)
    requires limit <= a.Length
    ensures lrq == Fold(LRQ, a[limit..])
  {
    lrq := LRQ;
    for i := limit to a.Length
      invariant lrq == Fold(LRQ, a[limit..i])
    {
      assert a[limit..i + 1][..i - limit] == a[limit..i];
      lrq := AddClass(lrq, a[i]);
    }
    assert a[limit..a.Length] == a[limit..];
  }

  /** What the array holds after a limited report. */
  ghost function Limited(sorted: seq<Class>, limit: nat): seq<Class>
    requires limit < |sorted|
  {
    sorted[limit := Fold(LRQ, sorted[limit..])]
  }

  /** Each kept class ranks at least as high as each folded one. */
  ghost predicate TopRanked(sorted: seq<Class>, limit: nat) {
    forall i, j :: 0 <= i < limit <= j < |sorted| ==> NotAbove(sorted[j], sorted[i])
  }

  lemma DescendingTopRanked(sorted: seq<Class>, limit: nat)
    requires Descending(sorted)
    ensures TopRanked(sorted, limit)
  {
  }

  /** Sorts the classes in place and reports either all of them or the top `limit`
      and the rest as one. The appended class lands in the same array. Panics, and
      returns nothing, if the limit does not fit an int or the classes cannot be sorted. */
  method MakeReport(a: array<Class>, limit: Uint64) returns (report: Option<Slice>, ghost sorted: seq<Class>)
    requires a.Length <= I64_MAX
    modifies a
    ensures |sorted| == a.Length && multiset(sorted) == multiset(old(a[..]))
    ensures report.None? <==> Panics(old(a[..])) || limit > I64_MAX
    ensures report.Some? ==> Descending(sorted)
    ensures report.Some? ==> report.value.len <= a.Length && Conserves(a[..report.value.len], old(a[..]))
    ensures report.Some? && (limit == 0 || a.Length <= limit) ==> report.value.len == a.Length && a[..] == sorted
    ensures report.Some? && 0 < limit < a.Length ==>
      report.value.len == limit + 1 && a[..] == Limited(sorted, limit) && TopRanked(sorted, limit)
  {
    hide Queries, Time, Wrap, Conserves, Descending, TopRanked, Panics, Fold;
    ghost var input := a[..];
    var panicked := Sort(a);
    sorted := a[..];
    if panicked {
      return None, sorted;
    }
    var n := a.Length;
    if limit == 0 || n <= AsInt(limit) {
      assert a[..n] == sorted;
      PermutationConserves(input, sorted);
      return Some(Slice(n)), sorted;
    }
    if limit > n {
      return None, sorted;   // slice bounds out of range
    }
    var lrq := FoldRest(a, limit);
    assert a[limit..] == sorted[limit..];
    // append: the array has room, so the cell after the top classes is overwritten.
    a[limit] := lrq;
    ReportConserves(input, sorted, limit);
    DescendingTopRanked(sorted, limit);
    assert a[..limit + 1] == sorted[..limit] + [lrq];
    return Some(Slice(limit + 1)), sorted;
  }

  lemma PermutationConserves(input: seq<Class>, sorted: seq<Class>)
    requires multiset(sorted) == multiset(input)
    ensures Conserves(sorted, input)
  {
    TotalsPermute(input, sorted);
  }

  /** The overwritten cell makes a limited report spoil its input: the array still
      has the same total time if and only if the folded classes after the first
      have none, so a second report from it counts them twice. */
  lemma InputKeepsTimeIff(sorted: seq<Class>, limit: nat)
    requires limit < |sorted|
    ensures Time(Limited(sorted, limit)) == Time(sorted) <==> Time(sorted[limit + 1..]) == 0.0
  {
    hide Queries, Time, Seconds, Fold;
    var lrq := Fold(LRQ, sorted[limit..]);
    var top, c, rest := sorted[..limit], sorted[limit], sorted[limit + 1..];
    assert sorted == top + [c] + rest && sorted[limit..] == [c] + rest;
    assert sorted[limit := lrq] == top + [lrq] + rest;
    TotalsConcat(top, [c]);
    TotalsConcat(top + [c], rest);
    TotalsConcat(top, [lrq]);
    TotalsConcat(top + [lrq], rest);
    TotalsConcat([c], rest);
    TotalsOne(c);
    TotalsOne(lrq);
    FoldTotals(sorted[limit..]);
  }
}
