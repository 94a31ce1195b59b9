/** Iterator, rotation and event loop together: which bytes and events of a
    growing, rotating slow log are processed, over whole runs. */
module SlowLogCoverage {
  import opened Words
  import opened SlowLogIter
  import opened SlowLogWorker

  /** Bytes [lo, hi) of one generation of the slow log. */
  datatype Range = Range(file: nat, lo: int, hi: int) {
    predicate Contains(g: nat, o: int) { file == g && lo <= o < hi }
  }

  datatype Position = Position(file: nat, offset: int)

  predicate Before(p: Position, q: Position) {
    p.file < q.file || (p.file == q.file && p.offset < q.offset)
  }

  /** Every generation of the log has its own identity, its index in `sizes`; the
      last one is live. `jobs` are the ranges given to the worker, `pending` holds
      while the last of them has not been set up yet, and `base` is where the log
      stood at the first tick. */
  datatype World = World(sizes: seq<nat>, cursor: Cursor, jobs: seq<Range>, pending: bool, base: Option<Position>)

  const START := World([0], Cursor(None, None, 0), [], false, None)

  datatype Happening =
    | Append(n: nat)         // MySQL writes to the live log
    | Tick(now: int)         // the clock ticks and the log can be examined
    | BadTick(now: int)      // the clock ticks and it cannot
    | Keep                   // the pending job is set up without rotation
    | Rotate(job: nat)       // a job is set up with a successful rotation
    | Replace                // another program moves the log away

  ghost predicate Possible(w: World, h: Happening) {
    && |w.sizes| > 0
    && (h.Rotate? ==> h.job < |w.jobs| && w.jobs[h.job].file == |w.sizes| - 1)
  }

  ghost function Next(w: World, h: Happening): World
    requires Possible(w, h)
  {
    var live := |w.sizes| - 1;
    match h
    case Append(n) => w.(sizes := w.sizes[live := w.sizes[live] + n])
    case Tick(now) =>
      var look := Found("slow.log", w.sizes[live], Some(live));
      var done := Completed(w.cursor, now, look);
      World(w.sizes, AfterTick(w.cursor, now, look),
            if done.Some? then w.jobs + [Range(live, done.value.lo, done.value.hi)] else w.jobs,
            done.Some?,
            if w.base.None? then Some(Position(live, w.sizes[live])) else w.base)
    case BadTick(now) => w.(cursor := AfterTick(w.cursor, now, Missing))
    case Keep => w.(pending := false)
    case Rotate(k) =>
      w.(jobs := w.jobs[k := w.jobs[k].(hi := w.sizes[live])], sizes := w.sizes + [0], pending := false)
    case Replace => w.(sizes := w.sizes + [0])
  }

  /** Jobs are set up before the next tick, each rotation is by the job just
      completed, and nobody else moves the log in between. */
  ghost predicate Orderly(w: World, h: Happening) {
    && Possible(w, h)
    && (h.Tick? || h.Replace? ==> !w.pending)
    && (h.Rotate? ==> w.pending && h.job == |w.jobs| - 1)
  }

  /** ... and the log can always be examined and nobody else moves it at all. */
  ghost predicate Undisturbed(w: World, h: Happening) {
    Orderly(w, h) && !h.BadTick? && !h.Replace?
  }

  ghost predicate OrderlyRun(trace: seq<World>, hs: seq<Happening>) {
    && |trace| == |hs| + 1 && trace[0] == START
    && forall i :: 0 <= i < |hs| ==> Orderly(trace[i], hs[i]) && trace[i + 1] == Next(trace[i], hs[i])
  }

  ghost predicate UndisturbedRun(trace: seq<World>, hs: seq<Happening>) {
    OrderlyRun(trace, hs) && forall i :: 0 <= i < |hs| ==> Undisturbed(trace[i], hs[i])
  }

  // ----- no byte twice --------------------------------------------------------------------

  ghost predicate Ordered(jobs: seq<Range>) {
    forall i, j :: 0 <= i < j < |jobs| ==>
      jobs[i].file < jobs[j].file || (jobs[i].file == jobs[j].file && jobs[i].hi <= jobs[j].lo)
  }

  ghost predicate Disjoint(jobs: seq<Range>) {
    forall i, j, g, o :: 0 <= i < j < |jobs| ==> !(jobs[i].Contains(g, o) && jobs[j].Contains(g, o))
  }

  ghost predicate Inv(w: World) {
    && |w.sizes| > 0
    && (forall k :: 0 <= k < |w.jobs| ==>
          w.jobs[k].file < |w.sizes| && 0 <= w.jobs[k].lo <= w.jobs[k].hi <= w.sizes[w.jobs[k].file])
    && Ordered(w.jobs)
    && (w.cursor.file.Some? ==> 0 <= w.cursor.file.value < |w.sizes|)
    && (w.cursor.since.Some? ==>
          w.cursor.file.Some? && 0 <= w.cursor.since.value.offset <= w.sizes[w.cursor.file.value])
    && (forall k :: 0 <= k < |w.jobs| && w.jobs[k].file == |w.sizes| - 1 ==>
          && w.cursor.file == Some(|w.sizes| - 1)
          && (w.cursor.since.Some? ==> w.jobs[k].hi <= w.cursor.since.value.offset))
    && (w.pending ==> |w.jobs| > 0 && w.jobs[|w.jobs| - 1].file == |w.sizes| - 1)
  }

  lemma InvStep(w: World, h: Happening)
    requires Inv(w) && Orderly(w, h)
    ensures Inv(Next(w, h))
  {
    var w' := Next(w, h);
    match h {
      case Append(n) =>
        assert forall g :: 0 <= g < |w.sizes| ==> w.sizes[g] <= w'.sizes[g];
      case Tick(now) => TickKeepsInv(w, now);
      case BadTick(_) =>
      case Keep =>
      case Rotate(k) => RotateKeepsInv(w, k);
      case Replace =>
    }
  }

  lemma TickKeepsInv(w: World, now: int)
    requires Inv(w) && Orderly(w, Tick(now))
    ensures Inv(Next(w, Tick(now)))
  {
    var w' := Next(w, Tick(now));
    if w.cursor.since.Some? {
      var last := w'.jobs[|w.jobs|];
      assert forall k :: 0 <= k < |w.jobs| && w.jobs[k].file == last.file ==> w.jobs[k].hi <= last.lo;
    }
  }

  lemma RotateKeepsInv(w: World, k: nat)
    requires Inv(w) && Orderly(w, Rotate(k))
    ensures Inv(Next(w, Rotate(k)))
  {
    assert forall j :: 0 <= j < |w.jobs| ==> w.jobs[j].file < |w.sizes|;
  }

  lemma {:induction false} InvHolds(trace: seq<World>, hs: seq<Happening>, k: nat)
    requires OrderlyRun(trace, hs) && k < |trace|
    ensures Inv(trace[k])
  {
    if k > 0 {
      InvHolds(trace, hs, k - 1);
      InvStep(trace[k - 1], hs[k - 1]);
    }
  }

  /** Whatever ticks fail and whoever else moves the log: in an orderly run no byte
      of any generation is ever in two jobs. */
  lemma NoByteTwice(trace: seq<World>, hs: seq<Happening>, k: nat)
    requires OrderlyRun(trace, hs) && k < |trace|
    ensures Disjoint(trace[k].jobs)
  {
    InvHolds(trace, hs, k);
  }

  /** Why the rotation must be by the last job: stretching an earlier one is safe
      if and only if every later job of that generation is empty. */
  lemma LateRotationIsSafeIff(w: World, k: nat)
    requires Inv(w) && Possible(w, Rotate(k))
    ensures Disjoint(Next(w, Rotate(k)).jobs) <==>
      forall j :: k < j < |w.jobs| && w.jobs[j].file == w.jobs[k].file ==> w.jobs[j].lo == w.jobs[j].hi
  {
    var jobs := Next(w, Rotate(k)).jobs;
    if exists j :: k < j < |w.jobs| && w.jobs[j].file == w.jobs[k].file && w.jobs[j].lo < w.jobs[j].hi {
      var j :| k < j < |w.jobs| && w.jobs[j].file == w.jobs[k].file && w.jobs[j].lo < w.jobs[j].hi;
      assert jobs[k].Contains(jobs[k].file, jobs[j].lo) && jobs[j].Contains(jobs[k].file, jobs[j].lo);
    }
  }

  /** Two jobs are completed, and then the first one is set up with a rotation. */
  ghost function LateSteps(): seq<Happening> {
    [Tick(0), Append(1), Tick(1), Keep, Append(1), Tick(2), Rotate(0)]
  }

  ghost function LateTrace(): seq<World> {
    var base, one, two := Some(Position(0, 0)), Range(0, 0, 1), Range(0, 1, 2);
    [START,
     World([0], Cursor(Some(0), Some(Mark(0, 0)), 0), [], false, base),
     World([1], Cursor(Some(0), Some(Mark(0, 0)), 0), [], false, base),
     World([1], Cursor(Some(0), Some(Mark(1, 1)), 1), [one], true, base),
     World([1], Cursor(Some(0), Some(Mark(1, 1)), 1), [one], false, base),
     World([2], Cursor(Some(0), Some(Mark(1, 1)), 1), [one], false, base),
     World([2], Cursor(Some(0), Some(Mark(2, 2)), 2), [one, two], true, base),
     World([2, 0], Cursor(Some(0), Some(Mark(2, 2)), 2), [Range(0, 0, 2), two], false, base)]
  }

  /** That is a possible run from the start, orderly up to the rotation, and it ends with
      a byte in two jobs. */
  lemma LateRotationIsReachable()
    ensures LateTrace()[0] == START && |LateTrace()| == |LateSteps()| + 1 == 8
    ensures forall i :: 0 <= i < 7 ==>
      Possible(LateTrace()[i], LateSteps()[i]) && LateTrace()[i + 1] == Next(LateTrace()[i], LateSteps()[i])
    ensures forall i :: 0 <= i < 6 ==> Orderly(LateTrace()[i], LateSteps()[i])
    ensures !Disjoint(LateTrace()[7].jobs)
  {
    var jobs := LateTrace()[7].jobs;
    assert jobs[0].Contains(0, 1) && jobs[1].Contains(0, 1);
  }

  // ----- every byte once --------------------------------------------------------------------

  /** How far the completed jobs reach: the next interval starts here. */
  ghost function Reached(w: World): Position
    requires |w.sizes| > 0 && w.cursor.since.Some?
  {
    if w.cursor.file == Some(|w.sizes| - 1) then Position(|w.sizes| - 1, w.cursor.since.value.offset)
    else Position(|w.sizes| - 1, 0)
  }

  ghost predicate IsCovered(w: World, g: nat, o: int) {
    exists k :: 0 <= k < |w.jobs| && w.jobs[k].Contains(g, o)
  }

  /** After the first tick and before the reached position. */
  ghost predicate Due(w: World, g: nat, o: int) {
    && |w.sizes| > 0 && w.base.Some? && w.cursor.since.Some?
    && !Before(Position(g, o), w.base.value) && Before(Position(g, o), Reached(w))
  }

  ghost predicate Complete(w: World) {
    && Inv(w)
    && (w.base.Some? <==> w.cursor.since.Some?)
    && (w.base.None? ==> w.jobs == [] && !w.pending && w.cursor.file.None?)
    && (w.base.Some? ==> 0 <= w.base.value.offset && !Before(Reached(w), w.base.value))
    && (w.pending ==> w.jobs[|w.jobs| - 1].hi == w.cursor.since.value.offset)
    && (forall g: nat, o :: g < |w.sizes| && 0 <= o < w.sizes[g] ==> (IsCovered(w, g, o) <==> Due(w, g, o)))
  }

  lemma CompleteStep(w: World, h: Happening)
    requires Complete(w) && Undisturbed(w, h)
    ensures Complete(Next(w, h))
  {
    var w' := Next(w, h);
    InvStep(w, h);
    forall g: nat, o | g < |w'.sizes| && 0 <= o < w'.sizes[g] ensures IsCovered(w', g, o) <==> Due(w', g, o) {
      match h
      case Append(_) => AppendCovers(w, h, g, o);
      case Tick(_) => TickCovers(w, h, g, o);
      case Keep => assert IsCovered(w', g, o) <==> IsCovered(w, g, o);
      case Rotate(_) => RotateCovers(w, h, g, o);
    }
  }

  /** New bytes lie beyond what is reached, and jobs reach no further than that. */
  lemma AppendCovers(w: World, h: Happening, g: nat, o: int)
    requires Complete(w) && Undisturbed(w, h) && h.Append?
    requires g < |w.sizes| && 0 <= o < Next(w, h).sizes[g]
    ensures IsCovered(Next(w, h), g, o) <==> Due(Next(w, h), g, o)
  {
    assert IsCovered(Next(w, h), g, o) <==> IsCovered(w, g, o);
  }

  lemma TickCovers(w: World, h: Happening, g: nat, o: int)
    requires Complete(w) && Undisturbed(w, h) && h.Tick?
    requires g < |w.sizes| && 0 <= o < w.sizes[g]
    ensures IsCovered(Next(w, h), g, o) <==> Due(Next(w, h), g, o)
  {
    var w' := Next(w, h);
    if w.cursor.since.Some? {
      var last := w'.jobs[|w.jobs|];
      assert IsCovered(w', g, o) <==> IsCovered(w, g, o) || last.Contains(g, o) by {
        if IsCovered(w, g, o) {
          var k :| 0 <= k < |w.jobs| && w.jobs[k].Contains(g, o);
          assert w'.jobs[k].Contains(g, o);
        }
        if last.Contains(g, o) { assert w'.jobs[|w.jobs|].Contains(g, o); }
      }
    }
  }

  lemma RotateCovers(w: World, h: Happening, g: nat, o: int)
    requires Complete(w) && Undisturbed(w, h) && h.Rotate?
    requires g < |w.sizes| + 1 && 0 <= o < Next(w, h).sizes[g]
    ensures IsCovered(Next(w, h), g, o) <==> Due(Next(w, h), g, o)
  {
    var w', k := Next(w, h), |w.jobs| - 1;
    assert g < |w.sizes|;
    if IsCovered(w, g, o) {
      var j :| 0 <= j < |w.jobs| && w.jobs[j].Contains(g, o);
      assert w'.jobs[j].Contains(g, o);
    }
    if w'.jobs[k].Contains(g, o) && !w.jobs[k].Contains(g, o) {
      assert Due(w', g, o) by { TailIsDue(w, g, o); }
    }
    if Due(w', g, o) && !Due(w, g, o) {
      assert w'.jobs[k].Contains(g, o);
    }
  }

  /** The bytes written since the tick that a rotation adds are due. */
  lemma TailIsDue(w: World, g: nat, o: int)
    requires Complete(w) && w.pending && g == |w.sizes| - 1 && w.cursor.since.value.offset <= o
    ensures !Before(Position(g, o), w.base.value)
  {
    assert Reached(w) == Position(g, w.cursor.since.value.offset);
  }

  lemma {:induction false} CompleteHolds(trace: seq<World>, hs: seq<Happening>, k: nat)
    requires UndisturbedRun(trace, hs) && k < |trace|
    ensures Complete(trace[k])
  {
    if k > 0 {
      CompleteHolds(trace, hs, k - 1);
      CompleteStep(trace[k - 1], hs[k - 1]);
    }
  }

  ghost predicate AtMostOne(jobs: seq<Range>, g: nat, o: int) {
    forall i, j :: 0 <= i < |jobs| && 0 <= j < |jobs| && jobs[i].Contains(g, o) && jobs[j].Contains(g, o) ==> i == j
  }

  /** In an undisturbed run every byte of every generation written after the first
      tick and before the reached position is in exactly one job, including bytes
      written between a tick and the rename; no other byte is in any. */
  lemma EveryByteOnce(trace: seq<World>, hs: seq<Happening>, k: nat, g: nat, o: int)
    requires UndisturbedRun(trace, hs) && k < |trace|
    requires g < |trace[k].sizes| && 0 <= o < trace[k].sizes[g]
    ensures IsCovered(trace[k], g, o) <==> Due(trace[k], g, o)
    ensures AtMostOne(trace[k].jobs, g, o)
  {
    CompleteHolds(trace, hs, k);
    NoByteTwice(trace, hs, k);
  }

  /** The event loop of a job: the part of the log there was to parse, what the parser
      sent, how long the job might take, what it aggregated, how many arrivals it
      took and why it ended. */
  datatype JobRun = JobRun(parsed: nat, arrivals: seq<Arrival>, runTime: int,
                           aggregated: seq<Event>, taken: nat, ending: Ending)

  /** Nothing ended the job early, and the log held all of its range by then. */
  ghost predicate RanToEnd(job: Range, logs: seq<seq<Event>>, r: JobRun) {
    && job.file < |logs| && r.parsed <= |logs[job.file]|
    && (forall i :: r.parsed <= i < |logs[job.file]| ==> job.hi <= logs[job.file][i].offset)
    && ParsedFrom(r.arrivals, logs[job.file][..r.parsed], job.lo)
    && LoopEnds(r.arrivals, job.hi, r.runTime, r.taken, r.ending) && NotEndedEarly(r.ending)
    && r.aggregated == Fingerprinted(r.arrivals, r.taken)
  }

  /** How often a job aggregates an event of generation g. */
  ghost function Aggregations(job: Range, r: JobRun, g: nat, e: Event): nat {
    if job.file == g then multiset(r.aggregated)[e] else 0
  }

  lemma JobTakesItsEvents(job: Range, logs: seq<seq<Event>>, r: JobRun, g: nat, e: Event)
    requires RanToEnd(job, logs, r) && CanFingerprint(r.arrivals, e)
    requires g < |logs| && InOrder(logs[g]) && e in logs[g]
    ensures Aggregations(job, r, g, e) == if job.Contains(g, e.offset) then 1 else 0
  {
    hide LoopEnds, ParsedFrom;
    if job.file == g {
      var log, part := logs[g], logs[g][..r.parsed];
      assert log == part + log[r.parsed..];
      JobAggregatesOnce(r.arrivals, part, job.lo, job.hi, r.runTime, r.taken, r.ending, e);
    }
  }

  /** When no job is ended early, a log event that can be fingerprinted is aggregated
      by exactly one event loop, once, if it is due, and else by none. */
  lemma EveryEventOnce(trace: seq<World>, hs: seq<Happening>, k: nat, logs: seq<seq<Event>>, runs: seq<JobRun>,
                       g: nat, e: Event)
    requires UndisturbedRun(trace, hs) && k < |trace| && |logs| == |trace[k].sizes|
    requires g < |logs| && InOrder(logs[g]) && e in logs[g] && 0 <= e.offset < trace[k].sizes[g]
    requires |runs| == |trace[k].jobs|
    requires forall i :: 0 <= i < |runs| ==> RanToEnd(trace[k].jobs[i], logs, runs[i])
    requires forall i :: 0 <= i < |runs| ==> CanFingerprint(runs[i].arrivals, e)
    ensures Due(trace[k], g, e.offset) <==>
      exists i :: 0 <= i < |runs| && Aggregations(trace[k].jobs[i], runs[i], g, e) == 1
    ensures forall i :: 0 <= i < |runs| ==> Aggregations(trace[k].jobs[i], runs[i], g, e) <= 1
    ensures forall i, j :: 0 <= i < j < |runs| ==>
      Aggregations(trace[k].jobs[i], runs[i], g, e) == 0 || Aggregations(trace[k].jobs[j], runs[j], g, e) == 0
  {
    hide RanToEnd, CanFingerprint, Due, Aggregations, InOrder;
    EveryByteOnce(trace, hs, k, g, e.offset);
    var jobs := trace[k].jobs;
    forall i | 0 <= i < |runs|
      ensures Aggregations(jobs[i], runs[i], g, e) == if jobs[i].Contains(g, e.offset) then 1 else 0
    {
      JobTakesItsEvents(jobs[i], logs, runs[i], g, e);
    }
  }
}
