/** What the Performance Schema worker computes, as functions of tables: a
    table is what events_statements_summary_by_digest holds, grouped by class
    id and then by schema. */
module PerfSchemaTables {
  import opened Words
  import opened Sums

  /** CountStar and the 20 Sum columns of a DigestRow, in declaration order. */
  const COUNTERS := 21
  const COUNT_STAR := 0

  /** The value that seeds the class minimum. */
  const MIN_SEED := 0xFFFF_FFFF

  type Counters = c: seq<Uint64> | |c| == COUNTERS witness seq(COUNTERS, i => 0)

  /** A DigestRow without its key. */
  datatype Row = Row(counters: Counters, minWait: Uint64, avgWait: Uint64, maxWait: Uint64) {
    function Count(): Uint64 { counters[COUNT_STAR] }
  }

  const ZERO_COUNTERS: Counters :=
    [0, 0, 0, 0, 0, 0, 0, 0, 0, 0, 0, 0, 0, 0, 0, 0, 0, 0, 0, 0, 0]
  const ZERO_ROW := Row(ZERO_COUNTERS, 0, 0, 0)

  type Rows = map<string, Row>      // keyed on schema
  type Table = map<string, Rows>    // keyed on class id

  function RowsOf(t: Table, c: string): Rows {
    if c in t then t[c] else map[]
  }

  /** The cached row, or the zero row if the schema has not been seen. */
  function Previous(prev: Rows, s: string): Row {
    if s in prev then prev[s] else ZERO_ROW
  }

  /** The rows that executed since `prev` was recorded. */
  ghost function ActiveRows(prev: Rows, rows: Rows): Rows {
    map s | s in rows && rows[s].Count() != Previous(prev, s).Count() :: rows[s]
  }

  /** The classes with at least one active row, and those rows. */
  ghost function Activity(prev: Table, curr: Table): Table {
    map c | c in curr && ActiveRows(RowsOf(prev, c), curr[c]) != map[]
      :: ActiveRows(RowsOf(prev, c), curr[c])
  }

  /** A count below the cached one: the server truncated its table. */
  ghost predicate RowsTruncated(prev: Rows, rows: Rows) {
    exists s :: s in rows && rows[s].Count() < Previous(prev, s).Count()
  }

  ghost predicate Truncated(prev: Table, curr: Table) {
    exists c :: c in curr && RowsTruncated(RowsOf(prev, c), curr[c])
  }

  function Delta(before: Row, after: Row, i: int): int
    requires 0 <= i < COUNTERS
  {
    (after.counters[i] as int) - (before.counters[i] as int)
  }

  ghost function Deltas(prev: Rows, active: Rows, i: int): map<string, int>
    requires 0 <= i < COUNTERS
  {
    map s | s in active :: Delta(Previous(prev, s), active[s], i)
  }

  ghost function Averages(active: Rows): map<string, int> {
    map s | s in active :: active[s].avgWait
  }

  /** The true number of executions of a class between `prev` and `active`. */
  ghost function Executions(prev: Rows, active: Rows): int {
    MapSum(Deltas(prev, active, COUNT_STAR))
  }

  ghost predicate IsMinimum(m: int, active: Rows) {
    && m <= MIN_SEED
    && (forall s :: s in active ==> m <= active[s].minWait)
    && (m == MIN_SEED || exists s :: s in active && active[s].minWait == m)
  }

  ghost predicate IsMaximum(m: int, active: Rows) {
    && (forall s :: s in active ==> active[s].maxWait <= m)
    && (m == 0 || exists s :: s in active && active[s].maxWait == m)
  }

  /** Counters of a class are the wrapped sums of the row differences. Reported
      minima are meaningful only while the class count does not overflow; see
      `OverflowMakesMinimumOrderDependent`. */
  ghost predicate SumsAndExtremes(d: Row, prev: Rows, active: Rows) {
    && (forall i :: 0 <= i < COUNTERS ==> d.counters[i] == Wrap(MapSum(Deltas(prev, active, i))))
    && IsMaximum(d.maxWait, active)
    && (Executions(prev, active) < U64 ==> IsMinimum(d.minWait, active))
  }

  /** The running aggregate of a class, whose average column adds up averages. */
  ghost predicate Summarizes(d: Row, prev: Rows, active: Rows) {
    SumsAndExtremes(d, prev, active) && d.avgWait == Wrap(MapSum(Averages(active)))
  }

  /** The metrics reported for a class. */
  ghost predicate IsClass(stats: Row, prev: Rows, active: Rows) {
    && active != map[]
    && SumsAndExtremes(stats, prev, active)
    && stats.avgWait == Wrap(MapSum(Averages(active))) / |active|
  }

  datatype Report = Report(classes: map<string, Row>, global: Counters)

  ghost function Column(classes: map<string, Row>, i: int): map<string, int>
    requires 0 <= i < COUNTERS
  {
    map c | c in classes :: classes[c].counters[i]
  }

  ghost predicate IsGlobal(global: Counters, classes: map<string, Row>) {
    forall i :: 0 <= i < COUNTERS ==> global[i] == Wrap(MapSum(Column(classes, i)))
  }

  /** `r` is the report of the difference between `prev` and `curr`; no report
      is made when nothing executed. */
  ghost predicate IsReport(r: Option<Report>, prev: Table, curr: Table) {
    if r.None? then Activity(prev, curr) == map[]
    else
      && Activity(prev, curr) != map[]
      && HasClasses(r.value.classes, prev, Activity(prev, curr))
      && IsGlobal(r.value.global, r.value.classes)
  }

  ghost predicate HasClasses(classes: map<string, Row>, prev: Table, activity: Table) {
    && classes.Keys == activity.Keys
    && forall c :: c in activity ==> IsClass(classes[c], RowsOf(prev, c), activity[c])
  }

  /** What merging `curr` into the cache `all` leaves there. */
  ghost function Merge(all: Table, curr: Table): Table {
    map c | c in all.Keys + curr.Keys :: RowsOf(all, c) + RowsOf(curr, c)
  }

  // ----- properties of reports ------------------------------------------------

  /** A maximum, every wrapped sum, the average of averages and, unless the count
      overflows, the minimum are determined by the rows, so no report depends on map
      iteration order. */
  lemma ClassIsUnique(a: Row, b: Row, prev: Rows, active: Rows)
    requires IsClass(a, prev, active) && IsClass(b, prev, active)
    ensures a.(minWait := b.minWait) == b
    ensures Executions(prev, active) < U64 ==> a == b
  {
    assert a.counters == b.counters;
  }

  /** The count of a schema's row, zero if there is none. */
  ghost function CountIn(rows: Rows, s: string): int {
    if s in rows then rows[s].counters[0] else 0
  }

  /** A class is reported if and only if one of its rows has another count than the cached
      row, or than zero if there is none; nothing is reported if and only if no class is. */
  lemma ReportedIff(r: Option<Report>, prev: Table, curr: Table, c: string)
    requires IsReport(r, prev, curr)
    ensures (r.Some? && c in r.value.classes) <==>
      exists s :: s in RowsOf(curr, c) && RowsOf(curr, c)[s].counters[0] != CountIn(RowsOf(prev, c), s)
    ensures r.Some? ==> exists c :: c in r.value.classes
  {
    hide IsClass, IsGlobal;
    var before, rows := RowsOf(prev, c), RowsOf(curr, c);
    ActiveIff(before, rows);
    assert c in Activity(prev, curr) <==> ActiveRows(before, rows) != map[];
    if r.Some? {
      var x :| x in Activity(prev, curr);
      assert x in r.value.classes;
    }
  }

  lemma ActiveIff(prev: Rows, rows: Rows)
    ensures ActiveRows(prev, rows) != map[] <==>
      exists s :: s in rows && rows[s].counters[0] != CountIn(prev, s)
  {
    if s :| s in rows && rows[s].counters[0] != CountIn(prev, s) {
      assert s in ActiveRows(prev, rows);
    }
    if ActiveRows(prev, rows) != map[] {
      var s :| s in ActiveRows(prev, rows);
      assert s in rows && rows[s].counters[0] != CountIn(prev, s);
    }
  }

  /** The metrics of a class of one row: its differences, its average and maximum, and its
      minimum up to 2^32 - 1. */
  lemma OneRowClass(stats: Row, prev: Rows, s: string, row: Row)
    requires IsClass(stats, prev, map[s := row])
    requires Previous(prev, s).Count() <= row.Count()
    ensures forall i :: 0 <= i < 21 && s in prev ==>
      stats.counters[i] == ((row.counters[i] as int) - prev[s].counters[i]) % 0x1_0000_0000_0000_0000
    ensures forall i :: 0 <= i < 21 && s !in prev ==> stats.counters[i] == row.counters[i]
    ensures stats.avgWait == row.avgWait && stats.maxWait == row.maxWait
    ensures stats.minWait == if row.minWait < 4_294_967_295 then row.minWait else 4_294_967_295
  {
    hide MapSum, Wrap;
    var active := map[s := row];
    forall i | 0 <= i < COUNTERS
      ensures MapSum(Deltas(prev, active, i)) == Delta(Previous(prev, s), row, i)
    {
      OneSum(Deltas(prev, active, i), s);
    }
    OneSum(Averages(active), s);
    WrapInRange(row.avgWait);
    assert Executions(prev, active) < U64;
    assert active[s] == row && |active| == 1;
    WrapIsMod();
  }

  lemma WrapIsMod()
    ensures forall x: int :: Wrap(x) == x % 0x1_0000_0000_0000_0000
  {
  }

  lemma OneSum(m: map<string, int>, s: string)
    requires m.Keys == {s}
    ensures MapSum(m) == m[s]
  {
    var none: map<string, int> := map[];
    assert m == none[s := m[s]];
    MapSumInsert(none, s, m[s]);
  }

  lemma ReportIsUnique(a: Option<Report>, b: Option<Report>, prev: Table, curr: Table)
    requires IsReport(a, prev, curr) && IsReport(b, prev, curr)
    requires forall c :: c in Activity(prev, curr) ==> Executions(RowsOf(prev, c), Activity(prev, curr)[c]) < U64
    ensures a == b
  {
    hide IsClass, Activity, Executions, Wrap, MapSum;
    if a.Some? {
      forall c | c in Activity(prev, curr) ensures a.value.classes[c] == b.value.classes[c] {
        ClassIsUnique(a.value.classes[c], b.value.classes[c], RowsOf(prev, c), Activity(prev, curr)[c]);
      }
      assert a.value.classes == b.value.classes;
      assert a.value.global == b.value.global;
    }
  }

  /** If every active row has min <= avg <= max then so does the class, in spite
      of the integer division and of the cap on the minimum. */
  lemma ClassIsOrdered(stats: Row, prev: Rows, active: Rows)
    requires IsClass(stats, prev, active)
    requires Executions(prev, active) < U64 && MapSum(Averages(active)) < U64
    requires forall s :: s in active ==> active[s].minWait <= active[s].avgWait <= active[s].maxWait
    ensures stats.minWait <= stats.avgWait <= stats.maxWait
  {
    var averages := Averages(active);
    assert averages.Keys == active.Keys;
    assert |active| == |active.Keys| == |averages|;
    AverageBounds(averages, |active|, stats.minWait, stats.maxWait);
  }

  lemma AverageBounds(averages: map<string, int>, n: int, lo: int, hi: int)
    requires n == |averages| > 0 && MapSum(averages) < U64
    requires forall s :: s in averages ==> 0 <= averages[s] && lo <= averages[s] <= hi
    ensures lo <= Wrap(MapSum(averages)) / n <= hi
  {
    MapSumBounds(averages, n, lo, hi);
    assert MapSum(averages) >= 0 by {
      MapSumNonNegative(averages);
    }
    DivideBounds(MapSum(averages), n, lo, hi);
  }

  lemma DivideBounds(total: int, n: int, lo: int, hi: int)
    requires n > 0 && n * lo <= total <= n * hi
    ensures lo <= total / n <= hi
  {
    var q := total / n;
    assert n * q <= total < n * q + n;
    if q < lo { MulMonotone(n, q + 1, lo); Distribute(q, n); }
    if q > hi { MulMonotone(n, hi + 1, q); Distribute(hi, n); }
  }

  lemma MulMonotone(n: int, a: int, b: int)
    requires n > 0 && a <= b
    ensures n * a <= n * b
  {
  }
}
