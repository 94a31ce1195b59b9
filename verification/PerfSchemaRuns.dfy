/** What the Performance Schema worker reports over whole runs. */
module PerfSchemaRuns {
  import opened Words
  import opened Sums
  import opened PerfSchemaTables
  import opened PerfSchemaWorker

  /** One processed interval: the worker before it, its inputs, its outcome and
      the worker after it. */
  datatype Step = Step(pre: State, interval: Interval, server: Server, clock: Clock, out: Outcome, post: State) {
    ghost function Ready(): State { AfterSetup(pre, interval) }

    ghost function Answer(): Fetch
      requires server.Up?
    {
      FetchOf(Ready(), server, clock)
    }
  }

  ghost predicate IsStep(s: Step) {
    && s.post == AfterInterval(s.pre, s.interval, s.server, s.clock)
    && IsOutcome(s.out, s.Ready(), s.server, s.clock)
  }

  ghost predicate IsRun(run: seq<Step>) {
    && (forall k :: 0 <= k < |run| ==> IsStep(run[k]))
    && (forall k :: 0 < k < |run| ==> run[k].pre == run[k - 1].post)
  }

  // ----- partial fetches agree with full snapshots ----------------------------------

  /** Every class of a server's table has a row. */
  ghost predicate NoEmptyClass(t: Table) {
    forall c :: c in t ==> t[c] != map[]
  }

  /** `part` holds rows of `after`, among them every row that is new or changed. */
  ghost predicate RowsCover(part: Rows, before: Rows, after: Rows) {
    && (forall s :: s in part ==> s in after && part[s] == after[s])
    && (forall s :: s in after ==> s in part || (s in before && before[s] == after[s]))
  }

  ghost predicate Covers(part: Table, before: Table, after: Table) {
    forall c :: RowsCover(RowsOf(part, c), RowsOf(before, c), RowsOf(after, c))
  }

  /** A table that was not truncated: no row is lost and no count goes down. */
  ghost predicate RowsEvolve(before: Rows, after: Rows) {
    forall s :: s in before ==> s in after && before[s].Count() <= after[s].Count()
  }

  ghost predicate Evolves(before: Table, after: Table) {
    forall c :: RowsEvolve(RowsOf(before, c), RowsOf(after, c))
  }

  lemma PartialRows(part: Rows, before: Rows, after: Rows)
    requires RowsCover(part, before, after)
    ensures ActiveRows(before, part) == ActiveRows(before, after)
    ensures RowsTruncated(before, part) <==> RowsTruncated(before, after)
    ensures RowsEvolve(before, after) ==> before + part == after && !RowsTruncated(before, after)
  {
    if RowsTruncated(before, after) {
      var s :| s in after && after[s].Count() < Previous(before, s).Count();
      assert s in part;
    }
  }

  /** An absent class has no rows, and no rows are neither active nor truncated. */
  lemma NoRows(prev: Rows)
    ensures ActiveRows(prev, map[]) == map[] && !RowsTruncated(prev, map[])
  {
  }

  /** The heart of the delta engine: comparing a partial snapshot with the cache
      gives exactly the reports that comparing two full snapshots gives. */
  lemma PartialReport(r: Option<Report>, part: Table, before: Table, after: Table)
    requires Covers(part, before, after)
    ensures IsReport(r, before, part) <==> IsReport(r, before, after)
    ensures Truncated(before, part) <==> Truncated(before, after)
  {
    hide HasClasses, IsGlobal, ActiveRows, RowsTruncated, RowsCover;
    forall c
      ensures ActiveRows(RowsOf(before, c), RowsOf(part, c)) == ActiveRows(RowsOf(before, c), RowsOf(after, c))
      ensures RowsTruncated(RowsOf(before, c), RowsOf(part, c)) <==> RowsTruncated(RowsOf(before, c), RowsOf(after, c))
    {
      PartialRows(RowsOf(part, c), RowsOf(before, c), RowsOf(after, c));
    }
    forall c ensures ActiveRows(RowsOf(before, c), map[]) == map[] && !RowsTruncated(RowsOf(before, c), map[]) {
      NoRows(RowsOf(before, c));
    }
    assert Activity(before, part) == Activity(before, after);
  }

  lemma PartialMerge(part: Table, before: Table, after: Table)
    requires Covers(part, before, after) && Evolves(before, after)
    requires NoEmptyClass(part) && NoEmptyClass(before) && NoEmptyClass(after)
    ensures Merge(before, part) == after
    ensures !Truncated(before, after)
  {
    hide RowsTruncated, RowsCover, RowsEvolve;
    forall c
      ensures RowsOf(before, c) + RowsOf(part, c) == RowsOf(after, c)
      ensures !RowsTruncated(RowsOf(before, c), RowsOf(after, c))
    {
      PartialRows(RowsOf(part, c), RowsOf(before, c), RowsOf(after, c));
    }
    forall c ensures c in before || c in part <==> c in after {
      assert RowsOf(before, c) + RowsOf(part, c) == RowsOf(after, c);
      if c in part { var s :| s in part[c]; assert s in RowsOf(after, c); }
      if c in before { var s :| s in before[c]; assert s in RowsOf(after, c); }
    }
  }

  lemma {:induction false} FetchedHasRows(rows: seq<DigestRow>)
    ensures NoEmptyClass(TableOf(rows))
  {
    if rows != [] {
      var t, last := TableOf(rows[..|rows| - 1]), rows[|rows| - 1];
      FetchedHasRows(rows[..|rows| - 1]);
      assert last.schema in RowsOf(t, ClassId(last.digest))[last.schema := last.row];
    }
  }

  /** The server answers successfully: to a worker that has nothing with its table, else
      with at least what changed since the previous fetch. */
  ghost predicate Answers(s: Step, before: Table, after: Table) {
    && s.server.Up?
    && !FetchFailed(s.Answer())
    && if before == map[] then Fetched(s.Answer()) == after else Covers(Fetched(s.Answer()), before, after)
  }

  lemma AgreementStep(s: Step, before: Table, after: Table)
    requires IsStep(s) && InSequence(s.pre, s.interval)
    requires s.pre.all == before != map[]
    requires Answers(s, before, after) && Evolves(before, after)
    requires NoEmptyClass(before) && NoEmptyClass(after)
    ensures s.post.all == after && s.post.iter == Some(s.interval)
    ensures s.out.Finished? && IsReport(s.out.report, before, after)
  {
    hide IsReport, Truncated, Merge, RowsCover, RowsEvolve;
    var part := Fetched(s.Answer());
    forall c ensures RowsCover(RowsOf(part, c), RowsOf(before, c), RowsOf(after, c)) {
      CoversItself(RowsOf(before, c), RowsOf(after, c));
    }
    assert NoEmptyClass(part) by {
      if s.Answer().Stream? { FetchedHasRows(s.Answer().rows); }
    }
    PartialMerge(part, before, after);
    PartialReport(s.out.report, part, before, after);
  }

  lemma CoversItself(before: Rows, after: Rows)
    ensures RowsCover(after, before, after)
  {
  }

  ghost predicate Consecutive(a: Interval, b: Interval) {
    b.number == a.number + 1 && a.startTime <= b.startTime
  }

  /** The table of the last fetch before interval k, empty before the first. */
  ghost function LastTable(tables: seq<Table>, k: nat): Table
    requires k <= |tables|
  {
    if k == 0 then map[] else tables[k - 1]
  }

  /** What an interval may find: no connection, or a table that was not truncated. */
  ghost predicate Finds(s: Step, before: Table, after: Table) {
    if s.server.Down? then after == before else Answers(s, before, after) && Evolves(before, after)
  }

  /** Consecutive intervals, starting without cached digests and, if the first one
      cannot connect, without a current snapshot; tables[k] is the server's table
      at the last connection up to interval k. */
  ghost predicate Observes(run: seq<Step>, tables: seq<Table>) {
    && IsRun(run) && |run| == |tables| > 0
    && run[0].pre.all == map[] && (run[0].server.Down? ==> run[0].pre.curr == map[])
    && (forall k :: 0 <= k < |run| ==> NoEmptyClass(tables[k]))
    && (forall k :: 0 <= k < |run| ==> Finds(run[k], LastTable(tables, k), tables[k]))
    && (forall k :: 0 < k < |run| ==> Consecutive(run[k - 1].interval, run[k].interval))
  }

  /** The report of comparing the table with the last one; there is none without a
      connection or without an earlier table to compare with. */
  ghost predicate ReportsDifference(s: Step, before: Table, after: Table) {
    if s.server.Down? || before == map[] then s.out == Finished(None)
    else s.out.Finished? && IsReport(s.out.report, before, after)
  }

  /** Every report is that of the difference between the full snapshots of two
      consecutive connections, although only changed rows are fetched; the cache
      always equals the server's table at the last connection. */
  lemma {:induction false} ReportsAgreeWithFullSnapshots(run: seq<Step>, tables: seq<Table>, k: nat)
    requires Observes(run, tables) && k < |run|
    ensures run[k].post.all == tables[k] && run[k].post.iter == Some(run[k].interval) && Merged(run[k].post)
    ensures ReportsDifference(run[k], LastTable(tables, k), tables[k])
  {
    hide Finds, NoEmptyClass, IsStep, Merged, ReportsDifference;
    if k == 0 {
      FirstInterval(run[0], tables[0]);
    } else {
      ReportsAgreeWithFullSnapshots(run, tables, k - 1);
      LaterInterval(run[k], tables[k - 1], tables[k]);
    }
  }

  lemma LaterInterval(s: Step, before: Table, after: Table)
    requires IsStep(s) && InSequence(s.pre, s.interval) && s.pre.all == before && Merged(s.pre)
    requires Finds(s, before, after) && NoEmptyClass(before) && NoEmptyClass(after)
    ensures s.post.all == after && s.post.iter == Some(s.interval) && Merged(s.post)
    ensures ReportsDifference(s, before, after)
  {
    hide IsReport, Answers, Evolves, NoEmptyClass, Merge;
    if s.server.Up? {
      if before == map[] {
        FirstSnapshot(s, after);
      } else {
        AgreementStep(s, before, after);
      }
      StaysMerged(s);
    }
  }

  lemma FirstInterval(s: Step, after: Table)
    requires IsStep(s) && s.pre.all == map[] && (s.server.Down? ==> s.pre.curr == map[])
    requires Finds(s, map[], after) && NoEmptyClass(after)
    ensures s.post.all == after && s.post.iter == Some(s.interval) && Merged(s.post)
    ensures ReportsDifference(s, map[], after)
  {
    hide IsReport, Answers, Evolves, NoEmptyClass;
    if s.server.Up? {
      FirstSnapshot(s, after);
      StaysMerged(s);
    }
  }

  lemma StaysMerged(s: Step)
    requires IsStep(s) && s.server.Up? && s.post.iter.Some?
    ensures Merged(s.post)
  {
    hide IsReport, Truncated, Merge;
    MergeIdempotent(s.Ready().all, Fetched(s.Answer()));
  }

  lemma FirstSnapshot(s: Step, table: Table)
    requires IsStep(s) && s.pre.all == map[] && Answers(s, map[], table) && NoEmptyClass(table)
    ensures s.out == Finished(None) && s.post.all == table && s.post.iter == Some(s.interval)
  {
    forall c | c in table ensures RowsOf(map[], c) + RowsOf(table, c) == table[c] {
    }
  }

  // ----- conservation -----------------------------------------------------------------

  /** The cumulative value of a counter of a class: the sum over its schemas. */
  ghost function Total(t: Table, c: string, i: int): int
    requires 0 <= i < COUNTERS
  {
    MapSum(Values(RowsOf(t, c), i))
  }

  ghost function Values(rows: Rows, i: int): map<string, int>
    requires 0 <= i < COUNTERS
  {
    map s | s in rows :: rows[s].counters[i]
  }

  /** A counter moves only when the row executes. */
  ghost predicate RowsSteady(before: Rows, part: Rows, i: int)
    requires 0 <= i < COUNTERS
  {
    forall s :: s in part && part[s].Count() == Previous(before, s).Count() ==>
      part[s].counters[i] == Previous(before, s).counters[i]
  }

  ghost predicate Steady(before: Table, part: Table, i: int)
    requires 0 <= i < COUNTERS
  {
    forall c :: RowsSteady(RowsOf(before, c), RowsOf(part, c), i)
  }

  lemma PaddedSum(before: Rows, padded: map<string, int>, i: int)
    requires 0 <= i < COUNTERS && before.Keys <= padded.Keys
    requires forall s :: s in padded ==> padded[s] == Previous(before, s).counters[i]
    ensures MapSum(padded) == MapSum(Values(before, i))
  {
    forall s | s in padded && s !in before ensures padded[s] == 0 {
      assert ZERO_COUNTERS[i] == 0;
    }
    MapSumSupport(padded, Values(before, i));
  }

  lemma ActiveSum(before: Rows, part: Rows, gain: map<string, int>, i: int)
    requires 0 <= i < COUNTERS && RowsSteady(before, part, i)
    requires gain.Keys == (before + part).Keys
    requires forall s :: s in gain ==> gain[s] == Delta(Previous(before, s), (before + part)[s], i)
    ensures MapSum(gain) == MapSum(Deltas(before, ActiveRows(before, part), i))
  {
    var active := Deltas(before, ActiveRows(before, part), i);
    forall s | s in gain && s !in active ensures gain[s] == 0 {
      if s in part {
        assert part[s].Count() == Previous(before, s).Count();
      }
    }
    MapSumSupport(gain, active);
  }

  lemma RowsGain(before: Rows, part: Rows, i: int)
    requires 0 <= i < COUNTERS && RowsSteady(before, part, i)
    ensures MapSum(Values(before + part, i)) - MapSum(Values(before, i))
         == MapSum(Deltas(before, ActiveRows(before, part), i))
  {
    hide MapSum, RowsSteady, ActiveRows, Deltas;
    var after := before + part;
    var padded := map s | s in after :: (Previous(before, s).counters[i] as int);
    var gain := map s | s in after :: Delta(Previous(before, s), after[s], i);
    PaddedSum(before, padded, i);
    MapSumDifference(Values(after, i), padded, gain);
    ActiveSum(before, part, gain, i);
  }

  /** What merging adds to a class is what its active rows gained. */
  lemma MergeGain(all: Table, part: Table, c: string, i: int)
    requires 0 <= i < COUNTERS && Steady(all, part, i)
    ensures Total(Merge(all, part), c, i) - Total(all, c, i)
         == MapSum(Deltas(RowsOf(all, c), ActiveRows(RowsOf(all, c), RowsOf(part, c)), i))
  {
    hide MapSum, RowsSteady, ActiveRows, Deltas, Values;
    RowsGain(RowsOf(all, c), RowsOf(part, c), i);
    assert RowsOf(Merge(all, part), c) == RowsOf(all, c) + RowsOf(part, c);
  }

  /** The value reported for a class, zero if it is not in a report. */
  ghost function Reported(out: Outcome, c: string, i: int): int
    requires 0 <= i < COUNTERS
  {
    if out.Finished? && out.report.Some? && c in out.report.value.classes
    then out.report.value.classes[c].counters[i] else 0
  }

  /** What a failed fetch moves into the cache without reporting it. */
  ghost function Lost(s: Step, c: string, i: int): int
    requires 0 <= i < COUNTERS
  {
    if s.out.Failed? then Total(s.post.all, c, i) - Total(s.pre.all, c, i) else 0
  }

  ghost function ReportedOrLost(run: seq<Step>, c: string, i: int): int
    requires 0 <= i < COUNTERS
  {
    if run == [] then 0 else
      var last := run[|run| - 1];
      ReportedOrLost(run[..|run| - 1], c, i) + Reported(last.out, c, i) + Lost(last, c, i)
  }

  /** The cache is not reset in this interval. */
  ghost predicate KeepsCache(s: Step) {
    && InSequence(s.pre, s.interval)
    && (s.server.Up? ==> !Discards(s.Ready(), s.Answer()))
  }

  ghost predicate FetchSteady(s: Step, i: int)
    requires 0 <= i < COUNTERS
  {
    s.server.Up? ==> Steady(s.pre.all, Fetched(s.Answer()), i)
  }

  /** The current snapshot is already in the cache. */
  ghost predicate Merged(st: State) {
    Merge(st.all, st.curr) == st.all
  }

  lemma MergeIdempotent(all: Table, part: Table)
    ensures Merge(Merge(all, part), part) == Merge(all, part)
    ensures all != map[] ==> Merge(all, part) != map[]
  {
    var once := Merge(all, part);
    forall c | c in once ensures RowsOf(once, c) + RowsOf(part, c) == once[c] {
    }
    if c :| c in all {
      assert c in once;
    }
  }

  lemma NoDeltas(prev: Rows, i: int)
    requires 0 <= i < COUNTERS
    ensures MapSum(Deltas(prev, map[], i)) == 0
  {
    assert Deltas(prev, map[], i) == map[];
  }

  lemma ReportedIsGain(r: Option<Report>, before: Table, part: Table, c: string, i: int)
    requires 0 <= i < COUNTERS && IsReport(r, before, part)
    ensures Reported(Finished(r), c, i)
         == Wrap(MapSum(Deltas(RowsOf(before, c), ActiveRows(RowsOf(before, c), RowsOf(part, c)), i)))
  {
    hide IsGlobal, Wrap, ActiveRows, Deltas, IsMaximum, IsMinimum;
    NoRows(RowsOf(before, c));
    var active := ActiveRows(RowsOf(before, c), RowsOf(part, c));
    if c in Activity(before, part) {
      assert IsClass(r.value.classes[c], RowsOf(before, c), active);
    } else {
      assert active == map[];
      NoDeltas(RowsOf(before, c), i);
      WrapInRange(0);
    }
  }

  lemma ConservationStep(s: Step, c: string, i: int)
    requires 0 <= i < COUNTERS && IsStep(s) && KeepsCache(s) && FetchSteady(s, i)
    requires Merged(s.pre) && s.pre.all != map[]
    ensures Merged(s.post) && s.post.all != map[]
    ensures s.out.Failed? ==> Reported(s.out, c, i) == 0
    ensures !s.out.Failed? ==> Reported(s.out, c, i) == Wrap(Total(s.post.all, c, i) - Total(s.pre.all, c, i))
  {
    hide IsReport, Merge, Truncated, Wrap, Total;
    if s.server.Down? {
      assert s.post.all == s.pre.all;
      WrapInRange(0);
    } else {
      var part := Fetched(s.Answer());
      assert s.post.all == Merge(s.pre.all, part) && s.post.curr == part;
      MergeIdempotent(s.pre.all, part);
      if !FetchFailed(s.Answer()) {
        MergeGain(s.pre.all, part, c, i);
        ReportedIsGain(s.out.report, s.pre.all, part, c, i);
      }
    }
  }

  /** Over any run that keeps the cache, whichever intervals cannot connect or
      fail half way through a fetch: what was reported for a class, plus what
      failed fetches swallowed, is what the cache gained (in 64-bit arithmetic). */
  lemma {:induction false} Conservation(run: seq<Step>, c: string, i: int)
    requires 0 <= i < COUNTERS && IsRun(run) && |run| > 0
    requires Merged(run[0].pre) && run[0].pre.all != map[]
    requires forall k :: 0 <= k < |run| ==> KeepsCache(run[k]) && FetchSteady(run[k], i)
    ensures Merged(run[|run| - 1].post) && run[|run| - 1].post.all != map[]
    ensures Wrap(ReportedOrLost(run, c, i))
         == Wrap(Total(run[|run| - 1].post.all, c, i) - Total(run[0].pre.all, c, i))
  {
    hide IsReport, Merge, Truncated, Total, KeepsCache, FetchSteady, IsStep, Wrap;
    var n := |run| - 1;
    var first := Total(run[0].pre.all, c, i);
    if n == 0 {
      assert run[..n] == [];
      ConservationStep(run[0], c, i);
      SumWrap(0, 0, run[0], c, i);
    } else {
      Conservation(run[..n], c, i);
      assert run[n].pre == run[n - 1].post && run[..n][n - 1] == run[n - 1];
      ConservationStep(run[n], c, i);
      SumWrap(ReportedOrLost(run[..n], c, i), Total(run[n].pre.all, c, i) - first, run[n], c, i);
    }
  }

  lemma SumWrap(total: int, gained: int, s: Step, c: string, i: int)
    requires 0 <= i < COUNTERS
    requires Wrap(total) == Wrap(gained)
    requires s.out.Failed? ==> Reported(s.out, c, i) == 0
    requires !s.out.Failed? ==> Reported(s.out, c, i) == Wrap(Total(s.post.all, c, i) - Total(s.pre.all, c, i))
    ensures Wrap(total + Reported(s.out, c, i) + Lost(s, c, i))
         == Wrap(gained + (Total(s.post.all, c, i) - Total(s.pre.all, c, i)))
  {
    hide Total;
    var gain := Total(s.post.all, c, i) - Total(s.pre.all, c, i);
    if s.out.Failed? {
      WrapCongruent(total, gained, gain, gain);
    } else {
      WrapCongruent(total, gained, Reported(s.out, c, i), gain);
    }
  }

  lemma WrapCongruent(a: int, b: int, x: int, y: int)
    requires Wrap(a) == Wrap(b) && Wrap(x) == Wrap(y)
    ensures Wrap(a + x) == Wrap(b + y)
  {
  }

  /** Without failed fetches every counter of a class that never goes down adds up
      exactly, as long as its cumulative value fits 64 bits. */
  lemma {:induction false} CountersAddUp(run: seq<Step>, c: string, i: int)
    requires 0 <= i < COUNTERS && IsRun(run) && |run| > 0
    requires Merged(run[0].pre) && run[0].pre.all != map[]
    requires forall k :: 0 <= k < |run| ==> KeepsCache(run[k]) && FetchSteady(run[k], i) && !run[k].out.Failed?
    requires forall k :: 0 <= k < |run| ==> Total(run[k].pre.all, c, i) <= Total(run[k].post.all, c, i)
    requires Total(run[|run| - 1].post.all, c, i) < U64
    ensures ReportedOrLost(run, c, i) == Total(run[|run| - 1].post.all, c, i) - Total(run[0].pre.all, c, i)
  {
    hide IsReport, Merge, Truncated, Total, KeepsCache, FetchSteady, IsStep, Wrap, Merged;
    var n := |run| - 1;
    if n == 0 {
      assert run[..n] == [];
    } else {
      assert run[n].pre == run[n - 1].post && run[..n][n - 1] == run[n - 1];
      Conservation(run[..n], c, i);
      CountersAddUp(run[..n], c, i);
    }
    ConservationStep(run[n], c, i);
    TotalNonNegative(run[n].pre.all, c, i);
    WrapInRange(Total(run[n].post.all, c, i) - Total(run[n].pre.all, c, i));
  }

  /** In particular the executions of a class add up, since without a reset no
      count goes down. */
  lemma ExecutionsAddUp(run: seq<Step>, c: string)
    requires IsRun(run) && |run| > 0
    requires Merged(run[0].pre) && run[0].pre.all != map[]
    requires forall k :: 0 <= k < |run| ==> KeepsCache(run[k]) && !run[k].out.Failed?
    requires Total(run[|run| - 1].post.all, c, COUNT_STAR) < U64
    ensures ReportedOrLost(run, c, COUNT_STAR)
         == Total(run[|run| - 1].post.all, c, COUNT_STAR) - Total(run[0].pre.all, c, COUNT_STAR)
  {
    hide IsReport, Merge, Truncated, Total, KeepsCache, FetchSteady, IsStep, Wrap, Merged;
    forall k | 0 <= k < |run| ensures FetchSteady(run[k], COUNT_STAR) {
      CountSteady(run[k]);
    }
    forall k | 0 <= k < |run|
      ensures Total(run[k].pre.all, c, COUNT_STAR) <= Total(run[k].post.all, c, COUNT_STAR)
    {
      if k > 0 {
        assert run[k].pre == run[k - 1].post && run[..k][k - 1] == run[k - 1];
        Conservation(run[..k], c, COUNT_STAR);
      }
      CountGrows(run[k], c);
    }
    CountersAddUp(run, c, COUNT_STAR);
  }

  lemma TotalNonNegative(t: Table, c: string, i: int)
    requires 0 <= i < COUNTERS
    ensures 0 <= Total(t, c, i)
  {
    MapSumNonNegative(Values(RowsOf(t, c), i));
  }

  lemma CountSteady(s: Step)
    ensures FetchSteady(s, COUNT_STAR)
  {
  }

  /** Unless it resets, the worker never lets a cached count go down. */
  lemma CountGrows(s: Step, c: string)
    requires IsStep(s) && KeepsCache(s) && !s.out.Failed?
    requires Merged(s.pre) && s.pre.all != map[]
    ensures Total(s.pre.all, c, COUNT_STAR) <= Total(s.post.all, c, COUNT_STAR)
  {
    hide IsReport, Merge, Total, ActiveRows, Deltas, RowsTruncated;
    if s.server.Up? {
      var part := Fetched(s.Answer());
      CountSteady(s);
      MergeGain(s.pre.all, part, c, COUNT_STAR);
      NoRows(RowsOf(s.pre.all, c));
      assert !RowsTruncated(RowsOf(s.pre.all, c), RowsOf(part, c));
      ActiveGain(RowsOf(s.pre.all, c), RowsOf(part, c));
    }
  }

  lemma ActiveGain(prev: Rows, part: Rows)
    requires !RowsTruncated(prev, part)
    ensures 0 <= MapSum(Deltas(prev, ActiveRows(prev, part), COUNT_STAR))
  {
    MapSumNonNegative(Deltas(prev, ActiveRows(prev, part), COUNT_STAR));
  }

  /** A failed fetch reports nothing, and yet the rows that came before it failed go into
      the cache, in place of the cached ones. */
  lemma FailedFetchIsMerged(s: Step, c: string, x: string)
    requires IsStep(s) && s.server.Up? && FetchFailed(s.Answer()) && InSequence(s.pre, s.interval)
    ensures s.out == Failed
    ensures var fetched, after := RowsOf(Fetched(s.Answer()), c), RowsOf(s.post.all, c);
      var before := RowsOf(s.pre.all, c);
      && (x in after <==> x in before || x in fetched)
      && (x in fetched ==> after[x] == fetched[x]) && (x in before && x !in fetched ==> after[x] == before[x])
  {
    hide Truncated, IsReport, Fetched;
  }

  // ----- the limits of the above ---------------------------------------------------------

  /** A worker that has seen nothing. */
  const NEW_WORKER := State(map[], map[], None, None)

  /** A reset is documented to drop all collected data, so the worker should go on
      like a new one. It does if and only if the next interval can connect or there
      is no current snapshot, because a reset leaves the current snapshot and
      Cleanup merges it. */
  lemma ResetForgetsIff(st: State, iv: Interval, server: Server, clock: Clock)
    ensures AfterInterval(AfterReset(st), iv, server, clock) == AfterInterval(NEW_WORKER, iv, server, clock) <==>
      server.Up? || st.curr == map[]
    ensures server.Down? ==> AfterInterval(AfterReset(st), iv, server, clock).all == st.curr
  {
    hide Fetched, Truncated, Merge;
    MergeWithNothing(st.curr);
    MergeWithNothing(map[]);
  }

  lemma MergeWithNothing(t: Table)
    ensures Merge(map[], t) == t
  {
    forall c | c in t ensures RowsOf(map[], c) + RowsOf(t, c) == t[c] {
    }
  }

  /** Setup resets the worker if the interval is out of sequence. */
  lemma OutOfSequenceResets(st: State, iv: Interval, server: Server, clock: Clock)
    requires !InSequence(st, iv)
    ensures AfterInterval(st, iv, server, clock) == AfterInterval(AfterReset(st), iv, server, clock)
  {
  }

  /** Run resets the worker if the table was truncated. Cleanup panics then, and the
      truncated snapshot stays the current one. */
  lemma TruncationResets(s: Step)
    requires IsStep(s) && s.server.Up? && Discards(s.Ready(), s.Answer())
    ensures s.out == Finished(None) && Fetched(s.Answer()) != map[]
    ensures s.post == AfterReset(s.Ready().(curr := Fetched(s.Answer())))
  {
    hide Fetched, RowsTruncated;
  }

  /** So the snapshot dropped by an interval out of sequence is back in the cache after
      that interval if and only if it cannot connect. */
  lemma DroppedSnapshotReturnsIff(st: State, iv: Interval, server: Server, clock: Clock)
    requires !InSequence(st, iv) && st.curr != map[]
    ensures AfterInterval(st, iv, server, clock) == AfterInterval(NEW_WORKER, iv, server, clock) <==> server.Up?
    ensures server.Down? ==> AfterInterval(st, iv, server, clock).all == st.curr
  {
    OutOfSequenceResets(st, iv, server, clock);
    ResetForgetsIff(st, iv, server, clock);
  }

  /** And a truncated snapshot is back in the cache after the next interval if and only
      if that cannot connect. */
  lemma TruncatedSnapshotReturnsIff(s: Step, iv: Interval, server: Server, clock: Clock)
    requires IsStep(s) && s.server.Up? && Discards(s.Ready(), s.Answer())
    ensures AfterInterval(s.post, iv, server, clock) == AfterInterval(NEW_WORKER, iv, server, clock) <==> server.Up?
    ensures server.Down? ==> AfterInterval(s.post, iv, server, clock).all == Fetched(s.Answer())
  {
    hide IsStep, Discards, AfterInterval;
    TruncationResets(s);
    ResetForgetsIff(s.Ready().(curr := Fetched(s.Answer())), iv, server, clock);
  }

  /** The consequence: the next interval of a worker that kept a dropped snapshot
      does not ask for everything, and reports the difference with that snapshot
      where a new worker reports nothing. */
  lemma DroppedSnapshotIsCompared(st: State, iv: Interval, clock: Clock, s: Step)
    requires st.curr != map[] && IsStep(s) && s.server.Up?
    requires s.pre == AfterInterval(AfterReset(st), iv, Down, clock) && InSequence(s.pre, s.interval)
    ensures QueryFor(s.Ready().all == map[], s.Ready().lastFetch, s.clock.asked) == SeenWithin(MAX_DURATION_SECONDS)
    ensures !FetchFailed(s.Answer()) && !Truncated(st.curr, Fetched(s.Answer())) ==>
      s.out.Finished? && IsReport(s.out.report, st.curr, Fetched(s.Answer()))
  {
    hide IsReport, Truncated, Fetched, Merge;
    MergeWithNothing(st.curr);
  }

  // ----- what a partial fetch can miss ---------------------------------------------------

  /** NOW() is in whole seconds. */
  function WholeSeconds(t: int): int {
    t / SECOND * SECOND
  }

  /** A fetch that asks at `asked` and that the server executes at `executed` is for rows
      last seen since this time. */
  function WindowStart(lastFetch: int, asked: int, executed: int): int
    requires lastFetch <= asked
  {
    WholeSeconds(executed) - QueryFor(false, Some(lastFetch), asked).seconds * SECOND
  }

  /** The previous fetch read a row at the instant `read`, somewhere before it was done.
      The window reaches back to that instant if and only if the clock's second has
      advanced by no more than the whole seconds between the end of that fetch and this
      one; it starts within a second of that end, plus the time the query is on its way. */
  lemma WindowReachesBackIff(read: int, lastFetch: int, asked: int, executed: int)
    requires read <= lastFetch <= asked <= executed
    ensures WindowStart(lastFetch, asked, executed) <= read <==>
      executed / 1_000_000_000 - read / 1_000_000_000 <= (asked - lastFetch) / 1_000_000_000
    ensures lastFetch - SECOND < WindowStart(lastFetch, asked, executed) < lastFetch + SECOND + (executed - asked)
  {
  }

  /** The answer of a server that knows when each row was last seen. */
  ghost predicate SeenSince(part: Table, after: Table, seen: (string, string) -> int, start: int) {
    forall c :: RowsOf(part, c) == RowsSeen(c, RowsOf(after, c), seen, start)
  }

  ghost function RowsSeen(c: string, rows: Rows, seen: (string, string) -> int, start: int): Rows {
    map s | s in rows && seen(c, s) >= start :: rows[s]
  }

  /** The row is new, or not what it was. */
  ghost predicate Changed(before: Rows, after: Rows, s: string) {
    s in after && !(s in before && before[s] == after[s])
  }

  /** Such an answer holds every changed row if and only if none of them was last
      seen before the window, in the gap since it was read. */
  lemma FetchCoversIff(part: Table, before: Table, after: Table, seen: (string, string) -> int, start: int)
    requires SeenSince(part, after, seen, start)
    ensures Covers(part, before, after) <==>
      forall c, s :: Changed(RowsOf(before, c), RowsOf(after, c), s) ==> seen(c, s) >= start
  {
    hide RowsOf, RowsCover, RowsSeen, Changed;
    forall c
      ensures RowsCover(RowsOf(part, c), RowsOf(before, c), RowsOf(after, c)) <==>
        forall s :: Changed(RowsOf(before, c), RowsOf(after, c), s) ==> seen(c, s) >= start
    {
      RowsCoverIff(c, RowsOf(before, c), RowsOf(after, c), seen, start);
      assert RowsOf(part, c) == RowsSeen(c, RowsOf(after, c), seen, start);
    }
  }

  lemma RowsCoverIff(c: string, before: Rows, after: Rows, seen: (string, string) -> int, start: int)
    ensures RowsCover(RowsSeen(c, after, seen, start), before, after) <==>
      forall s :: Changed(before, after, s) ==> seen(c, s) >= start
  {
    var part := RowsSeen(c, after, seen, start);
    if RowsCover(part, before, after) {
      forall s | Changed(before, after, s) ensures seen(c, s) >= start {
        assert s in part;
      }
    }
  }

  /** Rows that changed after they were read at `read` were seen since. */
  ghost predicate SeenWhenChanged(before: Table, after: Table, seen: (string, string) -> int, read: int) {
    forall c, s :: Changed(RowsOf(before, c), RowsOf(after, c), s) ==> seen(c, s) >= read
  }

  /** Whatever changed since the previous fetch read its rows, the next one gets it. */
  ghost predicate AlwaysCovers(read: int, start: int) {
    forall part: Table, before: Table, after: Table, seen: (string, string) -> int ::
      SeenSince(part, after, seen, start) && SeenWhenChanged(before, after, seen, read) ==>
        Covers(part, before, after)
  }

  /** Two consecutive fetches: that is so if and only if the window reaches back. */
  lemma NextFetchCoversIff(read: int, lastFetch: int, asked: int, executed: int)
    requires read <= lastFetch <= asked <= executed
    ensures AlwaysCovers(read, WindowStart(lastFetch, asked, executed)) <==>
      executed / SECOND - read / SECOND <= (asked - lastFetch) / SECOND
  {
    hide WindowStart, Covers, SeenSince, SeenWhenChanged;
    WindowReachesBackIff(read, lastFetch, asked, executed);
    var start := WindowStart(lastFetch, asked, executed);
    if start <= read {
      forall part: Table, before: Table, after: Table, seen: (string, string) -> int
        | SeenSince(part, after, seen, start) && SeenWhenChanged(before, after, seen, read)
        ensures Covers(part, before, after)
      {
        SeenIsCovered(part, before, after, seen, read, start);
      }
    } else {
      MissedRow(read, start);
    }
  }

  lemma SeenIsCovered(part: Table, before: Table, after: Table, seen: (string, string) -> int, read: int, start: int)
    requires SeenSince(part, after, seen, start) && SeenWhenChanged(before, after, seen, read) && start <= read
    ensures Covers(part, before, after)
  {
    hide RowsOf, RowsCover, RowsSeen, Changed;
    FetchCoversIff(part, before, after, seen, start);
  }

  /** Else a new row that was seen only in between is missed. */
  lemma MissedRow(read: int, start: int)
    requires read < start
    ensures !AlwaysCovers(read, start)
  {
    var after: Table := map["class" := map["schema" := ZERO_ROW]];
    var seen := (c: string, s: string) => read;
    assert SeenSince(map[], after, seen, start);
    assert SeenWhenChanged(map[], after, seen, read);
    assert "schema" in RowsOf(after, "class");
    assert !RowsCover(RowsOf(map[], "class"), RowsOf(map[], "class"), RowsOf(after, "class"));
    assert !Covers(map[], map[], after);
  }

  // ----- a server with a table -------------------------------------------------------------

  /** A server that holds this table, has last seen its rows at these times and executes
      the query at this time: asked for everything it answers with all rows, asked for
      the last n seconds with the rows seen since NOW() minus that. */
  ghost predicate Serves(server: Server, table: Table, seen: (string, string) -> int, executed: int) {
    && server.Up?
    && !FetchFailed(server.getRows(Everything)) && Fetched(server.getRows(Everything)) == table
    && forall n: nat ::
         && !FetchFailed(server.getRows(SeenWithin(n)))
         && SeenSince(Fetched(server.getRows(SeenWithin(n))), table, seen, WholeSeconds(executed) - n * SECOND)
  }

  /** A worker without cached digests fetches the whole table, whenever its rows were
      last seen and whatever the clock says. */
  lemma EmptyCacheFetchesAll(s: Step, table: Table, seen: (string, string) -> int, executed: int)
    requires Serves(s.server, table, seen, executed) && s.pre.all == map[]
    ensures !FetchFailed(s.Answer()) && Fetched(s.Answer()) == table
  {
    hide SeenSince, Fetched;
  }

  /** Otherwise it fetches every row that changed since it was read, if the clock went
      back, or if the window of whole seconds since the end of the last fetch reaches
      back to the reading. */
  lemma CachedFetchesChanges(s: Step, before: Table, after: Table, seen: (string, string) -> int, executed: int,
                             read: int, last: int)
    requires Serves(s.server, after, seen, executed) && SeenWhenChanged(before, after, seen, read)
    requires InSequence(s.pre, s.interval) && s.pre.all == before != map[] && s.pre.lastFetch == Some(last)
    requires read <= last
    requires last <= s.clock.asked ==>
      s.clock.asked <= executed && executed / SECOND - read / SECOND <= (s.clock.asked - last) / SECOND
    ensures !FetchFailed(s.Answer()) && Covers(Fetched(s.Answer()), before, after)
  {
    hide SeenSince, Fetched, SeenWhenChanged, Covers;
    if s.clock.asked < last {
      assert Fetched(s.Answer()) == after;
      CoversAll(before, after);
    } else {
      var n := (s.clock.asked - last) / SECOND;
      WindowReachesBackIff(read, last, s.clock.asked, executed);
      assert WindowStart(last, s.clock.asked, executed) == WholeSeconds(executed) - n * SECOND;
      assert s.Answer() == s.server.getRows(SeenWithin(n));
      SeenIsCovered(Fetched(s.Answer()), before, after, seen, read, WindowStart(last, s.clock.asked, executed));
    }
  }

  lemma CoversAll(before: Table, after: Table)
    ensures Covers(after, before, after)
  {
    forall c ensures RowsCover(RowsOf(after, c), RowsOf(before, c), RowsOf(after, c)) {
      CoversItself(RowsOf(before, c), RowsOf(after, c));
    }
  }

  /** How the server looks in an interval with a connection: when it last saw its rows,
      when it read them and when it executed the query. */
  datatype Sight = Sight(seen: (string, string) -> int, read: int, executed: int)

  /** When the rows of a fetch were read and when it was done. */
  datatype Prior = Prior(read: int, done: int)

  /** The last fetch before interval k. */
  ghost function PriorFetch(run: seq<Step>, sights: seq<Sight>, k: nat): Option<Prior>
    requires k <= |run| == |sights|
  {
    if k == 0 then None
    else if run[k - 1].server.Up? then Some(Prior(sights[k - 1].read, run[k - 1].clock.done))
    else PriorFetch(run, sights, k - 1)
  }

  /** The server holds `after`, was not truncated since it held `before`, rows that changed
      since they were last read were seen since, and the seconds add up. */
  ghost predicate Meets(s: Step, before: Table, after: Table, v: Sight, prior: Option<Prior>) {
    && Serves(s.server, after, v.seen, v.executed) && Evolves(before, after)
    && (prior.Some? ==>
          var Prior(read, done) := prior.value;
          && SeenWhenChanged(before, after, v.seen, read) && read <= done
          && (done <= s.clock.asked ==>
                s.clock.asked <= v.executed && v.executed / SECOND - read / SECOND <= (s.clock.asked - done) / SECOND))
  }

  lemma MeetFinds(s: Step, before: Table, after: Table, v: Sight, prior: Option<Prior>)
    requires Meets(s, before, after, v, prior) && s.pre.all == before
    requires before != map[] ==>
      prior.Some? && InSequence(s.pre, s.interval) && s.pre.lastFetch == Some(prior.value.done)
    ensures Finds(s, before, after)
  {
    hide Evolves, SeenWhenChanged, Covers, SeenSince, Fetched;
    if before == map[] {
      EmptyCacheFetchesAll(s, after, v.seen, v.executed);
    } else {
      CachedFetchesChanges(s, before, after, v.seen, v.executed, prior.value.read, prior.value.done);
    }
  }

  /** Consecutive intervals of a worker without digests against such a server. */
  ghost predicate Watches(run: seq<Step>, tables: seq<Table>, sights: seq<Sight>) {
    && IsRun(run) && |run| == |tables| == |sights| > 0
    && run[0].pre.all == map[] && (run[0].server.Down? ==> run[0].pre.curr == map[])
    && (forall k :: 0 <= k < |run| ==> NoEmptyClass(tables[k]))
    && (forall k :: 0 < k < |run| ==> Consecutive(run[k - 1].interval, run[k].interval))
    && (forall k :: 0 <= k < |run| ==>
          if run[k].server.Down? then tables[k] == LastTable(tables, k)
          else Meets(run[k], LastTable(tables, k), tables[k], sights[k], PriorFetch(run, sights, k)))
  }

  lemma {:induction false} NoTableBeforeFetch(run: seq<Step>, tables: seq<Table>, sights: seq<Sight>, k: nat)
    requires Watches(run, tables, sights) && k <= |run| && PriorFetch(run, sights, k).None?
    ensures LastTable(tables, k) == map[]
  {
    hide Meets, IsRun, NoEmptyClass;
    if k > 0 {
      NoTableBeforeFetch(run, tables, sights, k - 1);
    }
  }

  /** The worker remembers when its last fetch was done. */
  lemma FetchTimeStep(s: Step)
    requires IsStep(s) && (s.server.Up? ==> s.post.iter.Some?)
    ensures s.server.Up? ==> s.post.lastFetch == Some(s.clock.done)
    ensures s.server.Down? && InSequence(s.pre, s.interval) ==> s.post.lastFetch == s.pre.lastFetch
  {
    hide IsReport, Truncated, Merge, Fetched;
  }

  ghost predicate RemembersFetch(st: State, prior: Option<Prior>) {
    prior.Some? ==> st.lastFetch == Some(prior.value.done)
  }

  /** Against a server with a table, which answers each query by what it asks for, every
      report is that of the difference between the full tables of two consecutive
      connections. */
  lemma {:induction false} WatchedReportsAgree(run: seq<Step>, tables: seq<Table>, sights: seq<Sight>, k: nat)
    requires Watches(run, tables, sights) && k < |run|
    ensures run[k].post.all == tables[k] && run[k].post.iter == Some(run[k].interval) && Merged(run[k].post)
    ensures ReportsDifference(run[k], LastTable(tables, k), tables[k])
    ensures RemembersFetch(run[k].post, PriorFetch(run, sights, k + 1))
  {
    hide NoEmptyClass, IsStep, Merged, ReportsDifference, Meets, Finds;
    var s, before, after, prior := run[k], LastTable(tables, k), tables[k], PriorFetch(run, sights, k);
    if k > 0 {
      WatchedReportsAgree(run, tables, sights, k - 1);
    }
    if prior.None? {
      NoTableBeforeFetch(run, tables, sights, k);
    }
    assert Finds(s, before, after) by {
      if s.server.Up? {
        MeetFinds(s, before, after, sights[k], prior);
      } else {
        NothingFound(s, before);
      }
    }
    if k == 0 {
      FirstInterval(s, after);
    } else {
      LaterInterval(s, before, after);
    }
    FetchTimeStep(s);
  }

  lemma NothingFound(s: Step, table: Table)
    requires s.server.Down?
    ensures Finds(s, table, table)
  {
  }

  /** Setup in plain terms: a skipped or repeated number, or a step back in time, gives
      the state of a reset, and nothing else does. */
  lemma SetupResetsIff(st: State, iv: Interval)
    ensures st.iter.None? ==> AfterSetup(st, iv) == st.(iter := Some(iv))
    ensures st.iter.Some? ==>
      var last := st.iter.value;
      AfterSetup(st, iv) ==
        if iv.number == last.number + 1 && last.startTime <= iv.startTime then st.(iter := Some(iv))
        else State(map[], st.curr, Some(iv), None)
  {
  }
}
