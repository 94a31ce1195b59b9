/** The Performance Schema worker and its digest cache. */
module PerfSchemaWorker {
  import opened Words
  import opened Sums
  import opened PerfSchemaTables

  // ----- snapshots --------------------------------------------------------------

  /** Class.Rows is a Go map: every copy of the Class shares it. */
  class RowMap {
    var m: Rows

    constructor (m: Rows)
      ensures this.m == m
    {
      this.m := m;
    }
  }

  datatype Class = Class(digestText: string, rows: RowMap)

  type Snapshot = map<string, Class>

  ghost function Maps(s: Snapshot): set<RowMap> {
    set c | c in s :: s[c].rows
  }

  ghost function View(s: Snapshot): Table
    reads Maps(s)
  {
    map c | c in s :: s[c].rows.m
  }

  /** No two classes of a snapshot share a row map. */
  ghost predicate Separate(s: Snapshot) {
    forall c, d | c in s && d in s && s[c].rows == s[d].rows :: c == d
  }

  // ----- the digest cache ---------------------------------------------------------

  /** The inner loop of MergeCurr; `dst` and `src` may be the same map. */
  method CopyRows(dst: RowMap, src: RowMap)
    modifies dst
    ensures dst.m == old(dst.m) + old(src.m)
  {
    var todo := src.m.Keys;
    while todo != {}
      invariant todo <= old(src.m).Keys
      invariant dst.m.Keys == old(dst.m).Keys + (old(src.m).Keys - todo)
      invariant src.m == if src == dst then old(dst.m) else old(src.m)
      invariant forall j :: j in dst.m ==>
        dst.m[j] == if j in old(src.m) && j !in todo then old(src.m)[j] else old(dst.m)[j]
    {
      var j :| j in todo;
      dst.m := dst.m[j := src.m[j]];
      todo := todo - {j};
    }
  }

  lemma SameTable(t: Table, t': Table)
    requires t'.Keys == t.Keys && forall c :: c in t ==> t'[c] == t[c]
    ensures t' == t
  {
  }

  lemma TableUpdate(t: Table, t': Table, i: string, rows: Rows)
    requires t'.Keys == t.Keys + {i} && t'[i] == rows
    requires forall c :: c in t && c != i ==> t'[c] == t[c]
    ensures t' == t[i := rows]
  {
  }

  class Digests {
    var All: Snapshot
    var Curr: Snapshot

    /** A row map in both snapshots belongs to the same class in both. */
    ghost predicate Valid()
      reads this
    {
      && Separate(All)
      && Separate(Curr)
      && forall c, d | c in All && d in Curr && All[c].rows == Curr[d].rows :: c == d
    }

    constructor ()
      ensures Valid() && All == map[] && Curr == map[]
    {
      All, Curr := map[], map[];
    }

    /** Both assignments of the original go to All, so Curr survives a reset. */
    method Reset()
      requires Valid()
      modifies this`All
      ensures Valid() && All == map[]
    {
      All := map[];
      All := map[];
    }

    /** A new class shares the row map of Curr. */
    method ShareClass(i: string)
      requires Valid() && i in Curr && i !in All
      modifies this`All
      ensures Valid() && All == old(All)[i := Curr[i]] && View(Curr) == old(View(Curr))
      ensures View(All) == old(View(All))[i := old(View(Curr))[i]]
    {
      ghost var all0, curr0 := View(All), View(Curr);
      All := All[i := Curr[i]];
      TableUpdate(all0, View(All), i, curr0[i]);
    }

    /** A known class is updated in place. */
    method UpdateClass(i: string)
      requires Valid() && i in Curr && i in All
      modifies All[i].rows
      ensures View(Curr) == old(View(Curr))
      ensures View(All) == old(View(All))[i := old(View(All))[i] + old(View(Curr))[i]]
    {
      ghost var all0, curr0 := View(All), View(Curr);
      CopyRows(All[i].rows, Curr[i].rows);
      assert Curr[i].rows.m == curr0[i];
      assert forall c :: c in Curr ==> Curr[c].rows.m == curr0[c];
      SameTable(curr0, View(Curr));
      assert forall c :: c in All && c != i ==> All[c].rows.m == all0[c];
      TableUpdate(all0, View(All), i, all0[i] + curr0[i]);
    }

    /** The body of MergeCurr's loop. */
    method MergeClass(i: string)
      requires Valid() && i in Curr
      modifies this`All, if i in All then {All[i].rows} else {}
      ensures Valid()
      ensures View(Curr) == old(View(Curr))
      ensures View(All) == old(View(All))[i := RowsOf(old(View(All)), i) + old(View(Curr))[i]]
      ensures All == if i in old(All) then old(All) else old(All)[i := Curr[i]]
    {
      if i !in All {
        ghost var rows := View(Curr)[i];
        assert map[] + rows == rows;
        ShareClass(i);
      } else {
        UpdateClass(i);
      }
    }

    /** New classes share the row maps of Curr; known ones are updated in place. */
    method MergeCurr()
      requires Valid()
      modifies this`All, Maps(All)
      ensures Valid()
      ensures View(All) == Merge(old(View(All)), old(View(Curr)))
      ensures View(Curr) == old(View(Curr))
    {
      hide Merge;
      ghost var all0, curr0 := View(All), View(Curr);
      var todo := Curr.Keys;
      assert curr0 - todo == map[];
      MergeNothing(all0);
      while todo != {}
        invariant todo <= Curr.Keys
        invariant Valid()
        invariant View(Curr) == curr0
        invariant View(All) == Merge(all0, curr0 - todo)
        invariant forall c :: c in All && c in todo ==> c in old(All) && All[c] == old(All)[c]
      {
        var i :| i in todo;
        MergeStep(all0, curr0, todo, i);
        assert i in View(All) <==> i in All;
        MergeClass(i);
        todo := todo - {i};
      }
      assert curr0 - {} == curr0;
    }
  }

  lemma MergeNothing(all: Table)
    ensures Merge(all, map[]) == all
  {
    forall c | c in all ensures RowsOf(all, c) + RowsOf(map[], c) == all[c] {
    }
  }

  lemma MergeStep(all: Table, curr: Table, todo: set<string>, i: string)
    requires i in curr && i in todo
    ensures var m := Merge(all, curr - todo);
      m[i := RowsOf(m, i) + curr[i]] == Merge(all, curr - (todo - {i}))
  {
    var m := Merge(all, curr - todo);
    assert RowsOf(m, i) == RowsOf(all, i);
  }

  // ----- fetching -------------------------------------------------------------------

  /** A row as read from the server. */
  datatype DigestRow = DigestRow(schema: string, digest: string, digestText: string, row: Row)

  function Upper(s: string): (r: string)
    ensures |r| == |s|
  {
    if s == "" then "" else
      [if 'a' <= s[0] <= 'z' then s[0] - 'a' + 'A' else s[0]] + Upper(s[1..])
  }

  /** "2" stands for the summary row of a full table, whose digest is null. */
  function ClassId(digest: string): string {
    if |digest| >= 32 then Upper(digest[16..32]) else "2"
  }

  /** The same character, or the two cases of one letter. */
  predicate SameUpToCase(x: char, y: char) {
    || x == y
    || ('a' <= x <= 'z' && 'A' <= y <= 'Z' && x as int - 'a' as int == y as int - 'A' as int)
    || ('A' <= x <= 'Z' && 'a' <= y <= 'z' && x as int - 'A' as int == y as int - 'a' as int)
  }

  lemma {:induction false} UpperAt(s: string, i: nat)
    requires i < |s|
    ensures Upper(s)[i] == if 'a' <= s[i] <= 'z' then s[i] - 'a' + 'A' else s[i]
  {
    if i > 0 {
      UpperAt(s[1..], i - 1);
    }
  }

  /** Two long digests share a class if and only if their characters 16 to 31 agree up to
      case; all short ones share one, with no long digest. */
  lemma SameClassIff(a: string, b: string)
    ensures |a| >= 32 && |b| >= 32 ==>
      (ClassId(a) == ClassId(b) <==> forall i :: 16 <= i < 32 ==> SameUpToCase(a[i], b[i]))
    ensures |a| < 32 ==> (ClassId(a) == ClassId(b) <==> |b| < 32)
  {
    if |a| >= 32 && |b| >= 32 {
      var x, y := ClassId(a), ClassId(b);
      forall i | 16 <= i < 32 ensures x[i - 16] == y[i - 16] <==> SameUpToCase(a[i], b[i]) {
        UpperAt(a[16..32], i - 16);
        UpperAt(b[16..32], i - 16);
        CaseIff(a[i], b[i]);
      }
      if forall i :: 16 <= i < 32 ==> SameUpToCase(a[i], b[i]) {
        forall k | 0 <= k < 16 ensures x[k] == y[k] {
          assert SameUpToCase(a[k + 16], b[k + 16]);
        }
      }
    }
  }

  lemma CaseIff(x: char, y: char)
    ensures SameUpToCase(x, y) <==>
      (if 'a' <= x <= 'z' then x - 'a' + 'A' else x) == (if 'a' <= y <= 'z' then y - 'a' + 'A' else y)
  {
  }

  const FULL_TEXT := "-- performance_schema.events_statements_summary_by_digest is full"

  function ClassText(row: DigestRow): string {
    if ClassId(row.digest) == "2" && row.digestText == "" then FULL_TEXT else row.digestText
  }

  /** The table a stream of rows stands for. */
  ghost function TableOf(rows: seq<DigestRow>): Table {
    if rows == [] then map[] else
      var t := TableOf(rows[..|rows| - 1]);
      var last := rows[|rows| - 1];
      var c := ClassId(last.digest);
      if c in t && last.schema in t[c] then t
      else t[c := RowsOf(t, c)[last.schema := last.row]]
  }

  ghost predicate KeyedBy(row: DigestRow, c: string, s: string) {
    ClassId(row.digest) == c && row.schema == s
  }

  /** Of several rows for one class and schema the first is kept. */
  lemma {:induction false} FirstRowWins(rows: seq<DigestRow>, c: string, s: string, k: nat)
    requires k < |rows| && KeyedBy(rows[k], c, s)
    requires forall j :: 0 <= j < k ==> !KeyedBy(rows[j], c, s)
    ensures s in RowsOf(TableOf(rows), c) && RowsOf(TableOf(rows), c)[s] == rows[k].row
  {
    var n := |rows| - 1;
    if k < n {
      FirstRowWins(rows[..n], c, s, k);
    } else {
      OnlyReceivedRows(rows[..n], c, s);
    }
  }

  /** ... and no other class and schema appear. */
  lemma {:induction false} OnlyReceivedRows(rows: seq<DigestRow>, c: string, s: string)
    requires forall j :: 0 <= j < |rows| ==> !KeyedBy(rows[j], c, s)
    ensures s !in RowsOf(TableOf(rows), c)
  {
    if rows != [] {
      OnlyReceivedRows(rows[..|rows| - 1], c, s);
      assert !KeyedBy(rows[|rows| - 1], c, s);
    }
  }

  ghost function TextsOf(rows: seq<DigestRow>): map<string, string> {
    if rows == [] then map[] else
      var t := TextsOf(rows[..|rows| - 1]);
      var last := rows[|rows| - 1];
      if ClassId(last.digest) in t then t else t[ClassId(last.digest) := ClassText(last)]
  }

  /** A class has the text of the first row received for it, or a placeholder if that row
      is the summary of a full table and has none. */
  lemma {:induction false} FirstTextWins(rows: seq<DigestRow>, c: string, k: nat)
    requires k < |rows| && ClassId(rows[k].digest) == c
    requires forall j :: 0 <= j < k ==> ClassId(rows[j].digest) != c
    ensures c in TextsOf(rows) && TextsOf(rows)[c] ==
      if |rows[k].digest| < 32 && rows[k].digestText == ""
      then "-- performance_schema.events_statements_summary_by_digest is full" else rows[k].digestText
  {
    var n := |rows| - 1;
    if k < n {
      FirstTextWins(rows[..n], c, k);
    } else {
      NoTextYet(rows[..n], c);
    }
  }

  lemma {:induction false} NoTextYet(rows: seq<DigestRow>, c: string)
    requires forall j :: 0 <= j < |rows| ==> ClassId(rows[j].digest) != c
    ensures c !in TextsOf(rows)
  {
    if rows != [] {
      NoTextYet(rows[..|rows| - 1], c);
    }
  }

  ghost function Texts(s: Snapshot): map<string, string> {
    map c | c in s :: s[c].digestText
  }

  /** The body of getSnapshot's row loop. */
  method AddToSnapshot(curr: Snapshot, row: DigestRow) returns (next: Snapshot)
    requires Separate(curr)
    modifies Maps(curr)
    ensures Separate(next)
    ensures forall c :: c in next ==> fresh(next[c].rows) || next[c].rows in Maps(curr)
    ensures var t, c := old(View(curr)), ClassId(row.digest);
      View(next) == if c in t && row.schema in t[c] then t
                    else t[c := RowsOf(t, c)[row.schema := row.row]]
    ensures Texts(next) == if ClassId(row.digest) in curr then Texts(curr)
                           else Texts(curr)[ClassId(row.digest) := ClassText(row)]
  {
    next := curr;
    var c := ClassId(row.digest);
    if c in curr {
      if row.schema in curr[c].rows.m {
        return;
      }
      assert curr[c].rows in Maps(curr);
      curr[c].rows.m := curr[c].rows.m[row.schema := row.row];
    } else {
      var m := new RowMap(map[row.schema := row.row]);
      next := curr[c := Class(ClassText(row), m)];
    }
  }

  /** The row loop of getSnapshot. */
  method Collect(rows: seq<DigestRow>) returns (curr: Snapshot)
    ensures fresh(Maps(curr)) && Separate(curr)
    ensures View(curr) == TableOf(rows)
    ensures Texts(curr) == TextsOf(rows)
  {
    curr := map[];
    for n := 0 to |rows|
      invariant fresh(Maps(curr)) && Separate(curr)
      invariant View(curr) == TableOf(rows[..n])
      invariant Texts(curr) == TextsOf(rows[..n])
    {
      assert rows[..n + 1][..n] == rows[..n];
      assert ClassId(rows[n].digest) in Texts(curr) <==> ClassId(rows[n].digest) in curr;
      curr := AddToSnapshot(curr, rows[n]);
    }
    assert rows[..|rows|] == rows;
  }

  /** Which rows getSnapshot asks for. */
  datatype Query = Everything | SeenWithin(seconds: nat)

  /** What the server answers. */
  datatype Fetch = QueryFailed | NoRows | Stream(rows: seq<DigestRow>, failed: bool)

  datatype Server = Down | Up(getRows: Query -> Fetch)

  ghost function Fetched(f: Fetch): Table {
    if f.Stream? then TableOf(f.rows) else map[]
  }

  predicate FetchFailed(f: Fetch) {
    f.QueryFailed? || (f.Stream? && f.failed)
  }

  // ----- the worker --------------------------------------------------------------------

  datatype Interval = Interval(number: int, startTime: int)

  const SECOND := 1_000_000_000
  const MAX_DURATION_SECONDS := 9_223_372_036

  /** What a worker remembers between intervals; lastFetch is None for the zero time. */
  datatype State = State(all: Table, curr: Table, iter: Option<Interval>, lastFetch: Option<int>)

  /** getSnapshot reads the clock when it asks for rows and again when it is done. */
  datatype Clock = Clock(asked: int, done: int)

  function QueryFor(allEmpty: bool, lastFetch: Option<int>, now: int): Query {
    if allEmpty then Everything
    else if lastFetch.None? then SeenWithin(MAX_DURATION_SECONDS)
    else if now < lastFetch.value then Everything
    else SeenWithin((now - lastFetch.value) / SECOND)
  }

  ghost function AfterReset(st: State): State {
    st.(all := map[], iter := None, lastFetch := None)
  }

  ghost predicate InSequence(st: State, iv: Interval) {
    st.iter.Some? ==> iv.number == st.iter.value.number + 1 && st.iter.value.startTime <= iv.startTime
  }

  ghost function AfterSetup(st: State, iv: Interval): State {
    (if InSequence(st, iv) then st else AfterReset(st)).(iter := Some(iv))
  }

  ghost function FetchOf(st: State, server: Server, clock: Clock): Fetch
    requires server.Up?
  {
    server.getRows(QueryFor(st.all == map[], st.lastFetch, clock.asked))
  }

  ghost predicate Discards(st: State, fetch: Fetch) {
    !FetchFailed(fetch) && st.all != map[] && Truncated(st.all, Fetched(fetch))
  }

  ghost function AfterRun(st: State, server: Server, clock: Clock): State {
    if server.Down? then st else
      var fetch := FetchOf(st, server, clock);
      var fetched := st.(curr := Fetched(fetch), lastFetch := Some(clock.done));
      if Discards(st, fetch) then AfterReset(fetched) else fetched
  }

  datatype Outcome = Failed | Finished(report: Option<Report>)

  ghost predicate IsOutcome(out: Outcome, st: State, server: Server, clock: Clock) {
    if server.Down? then out == Finished(None)
    else if FetchFailed(FetchOf(st, server, clock)) then out == Failed
    else if st.all == map[] || Discards(st, FetchOf(st, server, clock)) then out == Finished(None)
    else out.Finished? && IsReport(out.report, st.all, Fetched(FetchOf(st, server, clock)))
  }

  /** Cleanup reads the interval number before it merges, so after a reset in
      Run it panics and merges nothing. */
  ghost function AfterCleanup(st: State): State {
    if st.iter.None? then st else st.(all := Merge(st.all, st.curr))
  }

  /** One interval: Setup, Run and the deferred Cleanup. */
  ghost function AfterInterval(st: State, iv: Interval, server: Server, clock: Clock): State {
    AfterCleanup(AfterRun(AfterSetup(st, iv), server, clock))
  }

  /** d.X += row.X - prevRow.X for every counter. */
  function AddDelta(d: Counters, prev: Counters, row: Counters): Counters {
    seq(COUNTERS, i requires 0 <= i < COUNTERS => Wrap((d[i] as int) + (row[i] as int) - (prev[i] as int)))
  }

  function AddAll(d: Counters, e: Counters): Counters {
    seq(COUNTERS, i requires 0 <= i < COUNTERS => Wrap((d[i] as int) + (e[i] as int)))
  }

  ghost predicate Grows(prev: Rows, active: Rows) {
    forall s :: s in active ==> Previous(prev, s).Count() < active[s].Count()
  }

  /** Inserting a row adds its delta to every column. */
  lemma DeltasStep(prev: Rows, active: Rows, s: string, row: Row, i: int)
    requires 0 <= i < COUNTERS && s !in active
    ensures MapSum(Deltas(prev, active[s := row], i))
         == MapSum(Deltas(prev, active, i)) + Delta(Previous(prev, s), row, i)
  {
    var delta := Delta(Previous(prev, s), row, i);
    assert Deltas(prev, active[s := row], i) == Deltas(prev, active, i)[s := delta];
    MapSumInsert(Deltas(prev, active, i), s, delta);
  }

  ghost predicate HasCounters(c: Counters, prev: Rows, active: Rows) {
    forall i :: 0 <= i < COUNTERS ==> c[i] == Wrap(MapSum(Deltas(prev, active, i)))
  }

  lemma CountersStep(c: Counters, prev: Rows, active: Rows, s: string, row: Row)
    requires s !in active && HasCounters(c, prev, active)
    ensures HasCounters(AddDelta(c, Previous(prev, s).counters, row.counters), prev, active[s := row])
  {
    hide Wrap, MapSum;
    var next := AddDelta(c, Previous(prev, s).counters, row.counters);
    forall i | 0 <= i < COUNTERS ensures next[i] == Wrap(MapSum(Deltas(prev, active[s := row], i))) {
      DeltasStep(prev, active, s, row, i);
      WrapAdd(c[i], MapSum(Deltas(prev, active, i)), Delta(Previous(prev, s), row, i),
              MapSum(Deltas(prev, active[s := row], i)));
    }
  }

  lemma AveragesStep(active: Rows, s: string, row: Row)
    requires s !in active
    ensures MapSum(Averages(active[s := row])) == MapSum(Averages(active)) + row.avgWait
  {
    assert Averages(active[s := row]) == Averages(active)[s := row.avgWait];
    MapSumInsert(Averages(active), s, row.avgWait);
  }

  lemma MaximumStep(m: int, active: Rows, s: string, row: Row)
    requires IsMaximum(m, active) && s !in active
    ensures IsMaximum(if row.maxWait > m then row.maxWait else m, active[s := row])
  {
    var next := active[s := row];
    assert next[s].maxWait == row.maxWait;
    if m != 0 {
      var x :| x in active && active[x].maxWait == m;
      assert next[x].maxWait == m;
    }
  }

  lemma MinimumStep(m: int, active: Rows, s: string, row: Row)
    requires IsMinimum(m, active) && s !in active
    ensures IsMinimum(if row.minWait < m then row.minWait else m, active[s := row])
  {
    var next := active[s := row];
    assert next[s].minWait == row.minWait;
    if m != MIN_SEED {
      var x :| x in active && active[x].minWait == m;
      assert next[x].minWait == m;
    }
  }

  lemma ExecutionsStep(prev: Rows, active: Rows, s: string, row: Row)
    requires Grows(prev, active[s := row]) && s !in active
    ensures 0 <= Executions(prev, active) < Executions(prev, active[s := row])
  {
    DeltasStep(prev, active, s, row, COUNT_STAR);
    assert active[s := row][s] == row;
    forall x | x in active ensures Previous(prev, x).Count() < active[x].Count() {
      assert active[s := row][x] == active[x];
    }
    MapSumNonNegative(Deltas(prev, active, COUNT_STAR));
  }

  /** RowLoop's body for a row that executed. The count is tested for zero after
      the increment, so the minimum is overwritten only if the count wraps. */
  function AddRow(d: Row, prevRow: Row, row: Row): Row {
    var counters := AddDelta(d.counters, prevRow.counters, row.counters);
    var min0 := if counters[COUNT_STAR] == 0 then row.minWait else d.minWait;
    Row(counters,
        if row.minWait < min0 then row.minWait else min0,
        Wrap((d.avgWait as int) + (row.avgWait as int)),
        if row.maxWait > d.maxWait then row.maxWait else d.maxWait)
  }

  /** The lesser of two minima. */
  function Min(x: int, y: int): int {
    if x < y then x else y
  }

  /** Two rows that are visited one after the other may be visited the other way
      round without changing the aggregate if and only if their minima are equal,
      if the count is zero after both, and else if it is zero after either one or
      neither, or the minimum so far is no less than theirs. */
  lemma SwapKeepsAggregateIff(d: Row, pa: Row, a: Row, pb: Row, b: Row)
    ensures AddRow(AddRow(d, pa, a), pb, b) == AddRow(AddRow(d, pb, b), pa, a) <==>
      var afterA := Wrap((d.Count() as int) + Delta(pa, a, COUNT_STAR));
      var afterB := Wrap((d.Count() as int) + Delta(pb, b, COUNT_STAR));
      if Wrap((d.Count() as int) + Delta(pa, a, COUNT_STAR) + Delta(pb, b, COUNT_STAR)) == 0
      then a.minWait == b.minWait
      else (afterA == 0 <==> afterB == 0) || Min(a.minWait, b.minWait) <= d.minWait
  {
    hide Wrap;
    CountersSwap(d.counters, pa.counters, a.counters, pb.counters, b.counters);
    WrapSwap(d.avgWait, a.avgWait, b.avgWait);
    WrapSwap(d.Count(), Delta(pa, a, COUNT_STAR), Delta(pb, b, COUNT_STAR));
  }

  lemma WrapSwap(x: int, y: int, z: int)
    ensures Wrap(Wrap(x + y) + z) == Wrap(Wrap(x + z) + y) == Wrap(x + y + z)
  {
    WrapAdd(Wrap(x + y), x + y, z, x + y + z);
    WrapAdd(Wrap(x + z), x + z, y, x + y + z);
  }

  lemma CountersSwap(d: Counters, pa: Counters, a: Counters, pb: Counters, b: Counters)
    ensures AddDelta(AddDelta(d, pa, a), pb, b) == AddDelta(AddDelta(d, pb, b), pa, a)
  {
    hide Wrap;
    var x, y := AddDelta(AddDelta(d, pa, a), pb, b), AddDelta(AddDelta(d, pb, b), pa, a);
    forall i | 0 <= i < COUNTERS ensures x[i] == y[i] {
      WrapSwap(d[i], (a[i] as int) - (pa[i] as int), (b[i] as int) - (pb[i] as int));
    }
  }

  /** In particular, with two counts that add up to 2^64 the class minimum is that of
      whichever row comes last. */
  lemma OverflowMakesMinimumOrderDependent(a: Row, b: Row)
    requires a.Count() + b.Count() == U64
    ensures var start := Row(ZERO_COUNTERS, MIN_SEED, 0, 0);
      && AddRow(AddRow(start, ZERO_ROW, a), ZERO_ROW, b).minWait == b.minWait
      && AddRow(AddRow(start, ZERO_ROW, b), ZERO_ROW, a).minWait == a.minWait
  {
    WrapInRange(a.Count());
    WrapInRange(b.Count());
    assert Wrap(U64) == 0;
  }

  lemma SummaryStep(d: Row, prev: Rows, active: Rows, s: string, row: Row)
    requires s !in active && Grows(prev, active[s := row])
    requires Summarizes(d, prev, active)
    ensures Summarizes(AddRow(d, Previous(prev, s), row), prev, active[s := row])
  {
    hide Wrap;
    var r := AddRow(d, Previous(prev, s), row);
    assert HasCounters(r.counters, prev, active[s := row]) by {
      CountersStep(d.counters, prev, active, s, row);
    }
    assert r.avgWait == Wrap(MapSum(Averages(active[s := row]))) by {
      AveragesStep(active, s, row);
      WrapAdd(d.avgWait, MapSum(Averages(active)), row.avgWait, MapSum(Averages(active[s := row])));
    }
    MaximumStep(d.maxWait, active, s, row);
    if Executions(prev, active[s := row]) < U64 {
      ExecutionsStep(prev, active, s, row);
      WrapInRange(Executions(prev, active[s := row]));
      assert r.counters[COUNT_STAR] != 0;
      MinimumStep(d.minWait, active, s, row);
    }
  }

  lemma EmptySummary(d: Row, prev: Rows)
    requires d == Row(ZERO_COUNTERS, MIN_SEED, 0, 0)
    ensures Summarizes(d, prev, map[])
  {
    assert Averages(map[]) == map[];
    forall i | 0 <= i < COUNTERS ensures d.counters[i] == Wrap(MapSum(Deltas(prev, map[], i))) {
      assert Deltas(prev, map[], i) == map[];
    }
  }

  lemma ActiveStep(prev: Rows, seen: Rows, s: string, row: Row)
    requires s !in seen && !RowsTruncated(prev, seen)
    ensures row.Count() == Previous(prev, s).Count() ==> ActiveRows(prev, seen[s := row]) == ActiveRows(prev, seen)
    ensures row.Count() != Previous(prev, s).Count() ==>
      ActiveRows(prev, seen[s := row]) == ActiveRows(prev, seen)[s := row]
    ensures RowsTruncated(prev, seen[s := row]) <==> row.Count() < Previous(prev, s).Count()
    ensures !RowsTruncated(prev, seen[s := row]) ==> Grows(prev, ActiveRows(prev, seen[s := row]))
    ensures s !in ActiveRows(prev, seen)
  {
    var next := seen[s := row];
    assert next[s] == row;
    forall x | x in seen ensures next[x] == seen[x] && Previous(prev, x).Count() <= seen[x].Count() {
    }
  }

  lemma VisitStep(rows: Rows, todo: set<string>, s: string)
    requires s in rows && s in todo
    ensures (rows - todo)[s := rows[s]] == rows - (todo - {s})
  {
  }

  /** RowLoop: rows are visited in any order. */
  method SummarizeRows(prev: Rows, rows: Rows) returns (d: Row, n: nat, truncated: bool)
    ensures truncated <==> RowsTruncated(prev, rows)
    ensures !truncated ==> Summarizes(d, prev, ActiveRows(prev, rows))
    ensures !truncated ==> n == |ActiveRows(prev, rows)|
  {
    hide Wrap, Summarizes;
    d, n, truncated := Row(ZERO_COUNTERS, MIN_SEED, 0, 0), 0, false;
    var todo := rows.Keys;
    ghost var seen, active: Rows := map[], map[];
    EmptySummary(d, prev);
    while todo != {}
      invariant todo <= rows.Keys
      invariant seen == rows - todo
      invariant !RowsTruncated(prev, seen)
      invariant active == ActiveRows(prev, seen)
      invariant Summarizes(d, prev, active)
      invariant n == |active|
    {
      var s :| s in todo;
      var row, prevRow := rows[s], Previous(prev, s);
      ActiveStep(prev, seen, s, row);
      VisitStep(rows, todo, s);
      todo := todo - {s};
      seen := seen[s := row];
      if row.Count() == prevRow.Count() {
        continue;
      }
      if row.Count() < prevRow.Count() {
        assert rows[s] == row;
        return d, n, true;
      }
      SummaryStep(d, prev, active, s, row);
      d := AddRow(d, prevRow, row);
      active := active[s := row];
      n := n + 1;
    }
    assert seen == rows;
  }

  // ----- the class loop of prepareResult -------------------------------------------------

  /** The report over the classes visited so far, none of them truncated. */
  ghost predicate ReportSoFar(classes: map<string, Row>, global: Counters, before: Table, seen: Table) {
    && !Truncated(before, seen)
    && HasClasses(classes, before, Activity(before, seen))
    && IsGlobal(global, classes)
  }

  lemma ReportStart(before: Table)
    ensures ReportSoFar(map[], ZERO_COUNTERS, before, map[])
  {
    assert Activity(before, map[]) == map[];
    forall i | 0 <= i < COUNTERS ensures Column(map[], i) == map[] {
    }
  }

  lemma TruncatedClass(before: Table, after: Table, c: string)
    requires c in after && RowsTruncated(RowsOf(before, c), after[c])
    ensures Truncated(before, after)
  {
  }

  /** Extending the visited classes by one changes nothing about the others. */
  lemma VisitClass(before: Table, after: Table, todo: set<string>, c: string)
    requires c in after && c in todo
    requires !Truncated(before, after - todo) && !RowsTruncated(RowsOf(before, c), after[c])
    ensures !Truncated(before, after - (todo - {c}))
    ensures c !in Activity(before, after - todo)
    ensures var active := ActiveRows(RowsOf(before, c), after[c]);
      Activity(before, after - (todo - {c})) ==
        if active == map[] then Activity(before, after - todo)
        else Activity(before, after - todo)[c := active]
  {
    hide ActiveRows, RowsTruncated;
    var old', new' := after - todo, after - (todo - {c});
    assert new' == old'[c := after[c]];
  }

  lemma ReportSkip(classes: map<string, Row>, global: Counters, before: Table, after: Table, todo: set<string>,
                   c: string)
    requires c in after && c in todo && ReportSoFar(classes, global, before, after - todo)
    requires !RowsTruncated(RowsOf(before, c), after[c]) && |ActiveRows(RowsOf(before, c), after[c])| == 0
    ensures ReportSoFar(classes, global, before, after - (todo - {c}))
  {
    hide IsClass, IsGlobal, ActiveRows, RowsTruncated;
    VisitClass(before, after, todo, c);
  }

  lemma ReportAdd(classes: map<string, Row>, global: Counters, before: Table, after: Table, todo: set<string>,
                  c: string, d: Row, stats: Row)
    requires c in after && c in todo && ReportSoFar(classes, global, before, after - todo)
    requires !RowsTruncated(RowsOf(before, c), after[c])
    requires Summarizes(d, RowsOf(before, c), ActiveRows(RowsOf(before, c), after[c]))
    requires |ActiveRows(RowsOf(before, c), after[c])| > 0
    requires stats == d.(avgWait := d.avgWait / |ActiveRows(RowsOf(before, c), after[c])|)
    ensures ReportSoFar(classes[c := stats], AddAll(global, stats.counters), before, after - (todo - {c}))
  {
    hide IsGlobal, ActiveRows, RowsTruncated, Activity, Truncated, IsClass, Summarizes, AddAll;
    var active := ActiveRows(RowsOf(before, c), after[c]);
    AveragedClass(d, stats, RowsOf(before, c), active);
    VisitClass(before, after, todo, c);
    GlobalStep(global, classes, c, stats);
  }

  lemma AveragedClass(d: Row, stats: Row, prev: Rows, active: Rows)
    requires Summarizes(d, prev, active) && |active| > 0 && stats == d.(avgWait := d.avgWait / |active|)
    ensures IsClass(stats, prev, active) && active != map[]
  {
    hide Wrap, IsMaximum, IsMinimum;
  }

  lemma ReportDone(classes: map<string, Row>, global: Counters, before: Table, after: Table)
    requires ReportSoFar(classes, global, before, after)
    ensures !Truncated(before, after)
    ensures IsReport(if |classes| == 0 then None else Some(Report(classes, global)), before, after)
  {
    hide IsClass, IsGlobal, Truncated, Activity;
    assert |classes| == 0 <==> classes.Keys == {};
  }

  /** ClassLoop: classes are visited in any order, up to the first truncated row. */
  method CompareClasses(prev: Snapshot, curr: Snapshot) returns (report: Option<Report>, truncated: bool)
    ensures truncated <==> Truncated(View(prev), View(curr))
    ensures !truncated ==> IsReport(report, View(prev), View(curr))
  {
    hide Wrap, Summarizes, IsClass, IsGlobal, HasClasses, IsReport, ReportSoFar, Truncated, RowsTruncated, ActiveRows;
    ghost var before, after := View(prev), View(curr);
    var classes: map<string, Row>, global := map[], ZERO_COUNTERS;
    var todo := curr.Keys;
    ReportStart(before);
    assert after - todo == map[];
    while todo != {}
      invariant todo <= curr.Keys
      invariant ReportSoFar(classes, global, before, after - todo)
    {
      var c :| c in todo;
      var prevRows := if c in prev then prev[c].rows.m else map[];
      var d, n, rowTruncated := SummarizeRows(prevRows, curr[c].rows.m);
      if rowTruncated {
        TruncatedClass(before, after, c);
        assert View(prev) == before && View(curr) == after;
        return None, true;
      }
      assert prevRows == RowsOf(before, c) && after[c] == curr[c].rows.m;
      if n == 0 {
        ReportSkip(classes, global, before, after, todo, c);
      } else {
        var stats := d.(avgWait := d.avgWait / n);
        ReportAdd(classes, global, before, after, todo, c, d, stats);
        classes := classes[c := stats];
        global := AddAll(global, stats.counters);
      }
      todo := todo - {c};
    }
    assert after - {} == after;
    ReportDone(classes, global, before, after);
    assert View(prev) == before && View(curr) == after;
    report := if |classes| == 0 then None else Some(Report(classes, global));
    truncated := false;
  }

  class Worker {
    const digests: Digests
    var iter: Option<Interval>
    var lastRowCnt: nat
    var lastFetchTime: Option<int>

    ghost predicate Valid()
      reads this, digests
    {
      digests.Valid()
    }

    ghost function St(): State
      reads this, digests, Maps(digests.All), Maps(digests.Curr)
    {
      State(View(digests.All), View(digests.Curr), iter, lastFetchTime)
    }

    constructor ()
      ensures Valid() && fresh(digests)
      ensures St() == State(map[], map[], None, None)
    {
      digests := new Digests();
      iter, lastRowCnt, lastFetchTime := None, 0, None;
    }

    method Reset()
      requires Valid()
      modifies this, digests`All
      ensures Valid() && St() == AfterReset(old(St()))
      ensures digests.All == map[] && lastRowCnt == 0
    {
      iter := None;
      digests.Reset();
      lastRowCnt := 0;
      lastFetchTime := None;
    }

    method Setup(interval: Interval)
      requires Valid()
      modifies this, digests`All
      ensures Valid() && St() == AfterSetup(old(St()), interval)
      ensures digests.All == old(digests.All) || digests.All == map[]
      ensures lastRowCnt == 0
    {
      ghost var pre := St();
      if iter.Some? {
        if interval.number != iter.value.number + 1 {
          Reset();
        } else if interval.startTime < iter.value.startTime {
          Reset();
        }
      }
      ghost var mid := St();
      assert mid == if InSequence(pre, interval) then pre else AfterReset(pre);
      iter := Some(interval);
      lastRowCnt := 0;
      SameTable(mid.all, View(digests.All));
      SameTable(mid.curr, View(digests.Curr));
    }

    method GetSnapshot(getRows: Query -> Fetch, clock: Clock) returns (curr: Snapshot, failed: bool)
      requires Valid()
      modifies this`lastRowCnt, this`lastFetchTime
      ensures fresh(Maps(curr)) && Separate(curr)
      ensures lastFetchTime == Some(clock.done)
      ensures var fetch := getRows(QueryFor(digests.All == map[], old(lastFetchTime), clock.asked));
        && View(curr) == Fetched(fetch) && failed == FetchFailed(fetch)
        && lastRowCnt == old(lastRowCnt) + if fetch.Stream? then |fetch.rows| else 0
    {
      var fetch := getRows(QueryFor(digests.All == map[], lastFetchTime, clock.asked));
      lastFetchTime := Some(clock.done);
      match fetch {
        case QueryFailed => return map[], true;
        case NoRows => return map[], false;
        case Stream(rows, err) =>
          lastRowCnt := lastRowCnt + |rows|;
          curr := Collect(rows);
          failed := err;
      }
    }

    /** A truncated row resets the worker and drops the snapshot. */
    method PrepareResult(prev: Snapshot, curr: Snapshot) returns (report: Option<Report>)
      requires Valid() && digests.All == prev && digests.Curr == curr
      modifies this, digests`All
      ensures Valid()
      ensures Truncated(old(View(prev)), old(View(curr))) ==>
        report == None && St() == AfterReset(old(St())) && digests.All == map[]
      ensures !Truncated(old(View(prev)), old(View(curr))) ==>
        IsReport(report, old(View(prev)), old(View(curr))) && St() == old(St()) && digests.All == prev
    {
      hide IsReport, Truncated;
      var truncated;
      ghost var before, after := View(prev), View(curr);
      report, truncated := CompareClasses(prev, curr);
      assert View(prev) == before && View(curr) == after;
      if truncated {
        Reset();
        return None;
      }
    }

    method Run(server: Server, clock: Clock) returns (out: Outcome)
      requires Valid() && iter.Some?
      modifies this, digests
      ensures Valid() && St() == AfterRun(old(St()), server, clock)
      ensures IsOutcome(out, old(St()), server, clock)
      ensures digests.All == old(digests.All) || digests.All == map[]
    {
      hide IsReport, Truncated, Fetched;
      if server.Down? {
        return Finished(None);
      }
      ghost var pre := St();
      assert pre.all == map[] <==> digests.All == map[];
      var curr, failed := GetSnapshot(server.getRows, clock);
      assert forall c :: c in curr ==> curr[c].rows in Maps(curr);
      digests.Curr := curr;
      SameTable(pre.all, View(digests.All));
      ghost var fetch := FetchOf(pre, server, clock);
      assert St() == pre.(curr := Fetched(fetch), lastFetch := Some(clock.done));
      if failed {
        return Failed;
      }
      if |digests.All| == 0 {
        return Finished(None);
      }
      var report := PrepareResult(digests.All, digests.Curr);
      out := Finished(report);
    }

    /** Panics, and so merges nothing, when the interval is nil. */
    method Cleanup() returns (panicked: bool)
      requires Valid()
      modifies digests`All, Maps(digests.All)
      ensures Valid() && St() == AfterCleanup(old(St()))
      ensures panicked == iter.None?
    {
      if iter.None? {
        return true;
      }
      digests.MergeCurr();
      return false;
    }

    /** What the analyzer does with the worker for one interval. */
    method Process(interval: Interval, server: Server, clock: Clock) returns (out: Outcome)
      requires Valid()
      modifies this, digests, Maps(digests.All)
      ensures Valid() && St() == AfterInterval(old(St()), interval, server, clock)
      ensures IsOutcome(out, AfterSetup(old(St()), interval), server, clock)
    {
      Setup(interval);
      out := Run(server, clock);
      var _ := Cleanup();
    }
  }

  lemma GlobalStep(global: Counters, classes: map<string, Row>, c: string, stats: Row)
    requires IsGlobal(global, classes) && c !in classes
    ensures IsGlobal(AddAll(global, stats.counters), classes[c := stats])
  {
    hide Wrap, MapSum;
    forall i | 0 <= i < COUNTERS
      ensures AddAll(global, stats.counters)[i] == Wrap(MapSum(Column(classes[c := stats], i)))
    {
      assert Column(classes[c := stats], i) == Column(classes, i)[c := stats.counters[i]];
      MapSumInsert(Column(classes, i), c, stats.counters[i]);
      WrapAdd(global[i], MapSum(Column(classes, i)), stats.counters[i], MapSum(Column(classes[c := stats], i)));
    }
  }
}
