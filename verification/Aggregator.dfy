/** The MongoDB profiler's aggregator: documents are collected in time windows that
    are flushed by later documents or by a timer. */
module Aggregator {
  import opened Words

  /** A system.profile document; the fingerprinter may refuse it. */
  datatype Doc = Doc(ts: nat, refused: bool)

  /** A report covers [start, end). */
  datatype Report = Report(start: nat, end: nat, docs: seq<Doc>)

  /** The open window and everything that left the aggregator. */
  datatype Agg = Agg(timeStart: nat, timeEnd: nat, docs: seq<Doc>, reports: seq<Report>)

  type Duration = d: nat | d > 0 witness 1

  /** time.Time.Truncate. */
  function Truncate(ts: nat, d: Duration): nat {
    ts - ts % d
  }

  const DEFAULT_INTERVAL := 60

  function AfterFlush(a: Agg, ts: nat, d: Duration): Agg {
    var reports := if a.docs == [] then a.reports else a.reports + [Report(a.timeStart, a.timeEnd, a.docs)];
    Agg(Truncate(ts, d), Truncate(ts, d) + d, [], reports)
  }

  predicate TooOld(a: Agg, doc: Doc) {
    doc.ts < a.timeStart
  }

  function AfterAdd(a: Agg, doc: Doc, d: Duration): Agg {
    if TooOld(a, doc) then a
    else
      var b := if doc.ts < a.timeEnd then a else AfterFlush(a, doc.ts, d);
      if doc.refused then b else b.(docs := b.docs + [doc])
  }

  class Aggregator {
    const d: Duration
    var timeStart: nat
    var timeEnd: nat
    var docs: seq<Doc>           // mongostats
    var reportChan: seq<Report>
    var running: bool
    var docsIn: nat
    var docsSkippedOld: nat
    var reportsOut: nat
    var timer: Option<nat>       // when the timer fires, if it is armed

    ghost function St(): Agg
      reads this
    {
      Agg(timeStart, timeEnd, docs, reportChan)
    }

    /** New, which opens the first window, and Start, which arms the timer; an interval
        of zero seconds stands for the default. */
    constructor (since: nat, now: nat, interval: nat, second: Duration)
      ensures d == (if interval == 0 then 60 else interval) * second
      ensures St() == Agg(Truncate(since, d), Truncate(since, d) + d, [], [])
      ensures running && timer == Some(now + d)
    {
      var n := if interval == 0 then DEFAULT_INTERVAL else interval;
      ProductPositive(n, second);
      var d': Duration := n * second;
      d := d';
      timeStart := Truncate(since, d');
      timeEnd := Truncate(since, d') + d';
      docs, reportChan, running, docsIn, docsSkippedOld, reportsOut := [], [], true, 0, 0, 0;
      timer := Some(now + d');
    }

    method NewInterval(ts: nat)
      modifies this`docs, this`timeStart, this`timeEnd
      ensures docs == [] && timeStart == Truncate(ts, d) && timeEnd == Truncate(ts, d) + d
    {
      docs := [];
      timeStart := Truncate(ts, d);
      timeEnd := timeStart + d;
    }

    method FlushAt(ts: nat)
      modifies this`docs, this`timeStart, this`timeEnd, this`reportChan, this`reportsOut
      ensures St() == AfterFlush(old(St()), ts, d)
      ensures reportsOut - old(reportsOut) == |reportChan| - |old(reportChan)|
    {
      if |docs| > 0 {
        reportChan := reportChan + [Report(timeStart, timeEnd, docs)];
        reportsOut := reportsOut + 1;
      }
      NewInterval(ts);
    }

    /** Adds a document at clock time `now`; an error means the aggregator is
        stopped or the fingerprinter refused the document. */
    method Add(doc: Doc, now: nat) returns (ok: bool)
      modifies this
      ensures !old(running) ==> !ok && St() == old(St()) && timer == old(timer)
      ensures old(running) ==> St() == AfterAdd(old(St()), doc, d)
      ensures old(running) ==> ok == (doc.ts < old(timeStart) || !doc.refused)
      ensures old(running) ==> timer == if doc.ts < old(timeStart) then old(timer) else Some(now + d)
      ensures running == old(running)
      ensures docsIn - old(docsIn) == if old(running) && old(timeStart) <= doc.ts then 1 else 0
      ensures docsSkippedOld - old(docsSkippedOld) == if old(running) && doc.ts < old(timeStart) then 1 else 0
    {
      if !running {
        return false;
      }
      if doc.ts < timeStart {
        docsSkippedOld := docsSkippedOld + 1;
        return true;
      }
      if !(doc.ts < timeEnd) {
        FlushAt(doc.ts);
      }
      timer := Some(now + d);
      docsIn := docsIn + 1;
      if doc.refused {
        return false;
      }
      docs := docs + [doc];
      return true;
    }
  }

  lemma ProductPositive(n: nat, m: nat)
    requires n > 0 && m > 0
    ensures n * m > 0
  {
  }

  // ----- runs ----------------------------------------------------------------------------

  /** The aggregator with its clock, its timer and the flushes whose timer has
      fired but which have not happened yet. `kept` are the documents added. */
  datatype World = World(agg: Agg, clock: nat, timer: Option<nat>, pending: nat, kept: seq<Doc>)

  datatype Happening =
    | Adds(doc: Doc, now: nat)
    | Fires(now: nat)     // the timer goroutine receives the tick
    | Flushes(now: nat)   // ... and gets the lock

  /** Time does not go backwards and no document is stamped ahead of it. */
  ghost predicate Possible(w: World, h: Happening) {
    && w.clock <= h.now
    && match h
       case Adds(doc, now) => doc.ts <= now
       case Fires(now) => w.timer.Some? && w.timer.value <= now
       case Flushes(_) => w.pending > 0
  }

  ghost function Next(w: World, h: Happening, d: Duration): World
    requires Possible(w, h)
  {
    match h
    case Adds(doc, now) =>
      if TooOld(w.agg, doc) then w.(clock := now)
      else World(AfterAdd(w.agg, doc, d), now, Some(now + d), w.pending,
                 if doc.refused then w.kept else w.kept + [doc])
    case Fires(now) => w.(clock := now, timer := None, pending := w.pending + 1)
    case Flushes(now) => w.(clock := now, pending := w.pending - 1, agg := AfterFlush(w.agg, now, d))
  }

  ghost function Start(since: nat, now: nat, d: Duration): World {
    World(Agg(Truncate(since, d), Truncate(since, d) + d, [], []), now, Some(now + d), 0, [])
  }

  /** The first window was opened at the start or earlier. */
  ghost predicate Starts(w: World, d: Duration) {
    exists since: nat :: since <= w.clock && w == Start(since, w.clock, d)
  }

  ghost predicate IsRun(trace: seq<World>, hs: seq<Happening>, d: Duration) {
    && |trace| == |hs| + 1 && Starts(trace[0], d)
    && forall i :: 0 <= i < |hs| ==> Possible(trace[i], hs[i]) && trace[i + 1] == Next(trace[i], hs[i], d)
  }

  // ----- every interleaving ------------------------------------------------------------------

  ghost predicate Window(start: nat, end: nat, d: Duration) {
    start % d == 0 && end == start + d
  }

  ghost predicate Inside(docs: seq<Doc>, start: nat, end: nat) {
    forall i :: 0 <= i < |docs| ==> start <= docs[i].ts < end
  }

  ghost function Reported(reports: seq<Report>): seq<Doc> {
    if reports == [] then [] else Reported(reports[..|reports| - 1]) + reports[|reports| - 1].docs
  }

  /** Windows are aligned and have length d, reports and the open window hold only
      documents of their window, starts do not go back, and the documents added are
      exactly those reported followed by those in the open window. */
  ghost predicate Inv(w: World, d: Duration) {
    && Window(w.agg.timeStart, w.agg.timeEnd, d) && w.agg.timeStart <= w.clock
    && Inside(w.agg.docs, w.agg.timeStart, w.agg.timeEnd)
    && (forall k :: 0 <= k < |w.agg.reports| ==>
          GoodReport(w.agg.reports[k], d) && w.agg.reports[k].start <= w.agg.timeStart)
    && (forall j, k :: 0 <= j <= k < |w.agg.reports| ==> w.agg.reports[j].start <= w.agg.reports[k].start)
    && Reported(w.agg.reports) + w.agg.docs == w.kept
  }

  ghost predicate GoodReport(r: Report, d: Duration) {
    Window(r.start, r.end, d) && r.docs != [] && Inside(r.docs, r.start, r.end)
  }

  lemma TruncateWindow(ts: nat, d: Duration)
    ensures Truncate(ts, d) % d == 0 && Truncate(ts, d) <= ts < Truncate(ts, d) + d
  {
    var q := ts / d;
    assert Truncate(ts, d) == q * d;
    MultipleMod(q, d);
  }

  lemma MultipleMod(q: nat, d: Duration)
    ensures (q * d) % d == 0
  {
    var z := q * d;
    var t, m := z / d, z % d;
    assert z == t * d + m;
    assert (q - t) * d == m;
    if q - t >= 1 { MulUp(1, q - t, d); } else { MulUp(q - t, 0, d); }
  }

  lemma AddMod(x: nat, d: Duration)
    requires x % d == 0
    ensures (x + d) % d == 0
  {
    var q := x / d;
    MultipleMod(q + 1, d);
    assert x == q * d;
    assert (q + 1) * d == q * d + d;
  }

  /** A multiple of d that is at most ts is at most ts truncated. */
  lemma TruncateAbove(m: nat, ts: nat, d: Duration)
    requires m % d == 0 && m <= ts
    ensures m <= Truncate(ts, d)
  {
    var a, b := m / d, ts / d;
    assert m == a * d && ts == b * d + ts % d;
    MulUp(a, b, d);
    MulUp(b + 1, a, d);
    assert (b + 1) * d == b * d + d;
  }

  lemma MulUp(a: int, b: int, d: Duration)
    ensures a <= b ==> a * d <= b * d
  {
  }

  lemma FlushKeepsInv(w: World, ts: nat, d: Duration)
    requires Inv(w, d) && w.agg.timeStart <= ts <= w.clock
    ensures Inv(w.(agg := AfterFlush(w.agg, ts, d)), d)
    ensures w.agg.timeStart <= AfterFlush(w.agg, ts, d).timeStart <= ts < AfterFlush(w.agg, ts, d).timeEnd
  {
    hide Truncate, Inside;
    var a, b := w.agg, AfterFlush(w.agg, ts, d);
    TruncateWindow(ts, d);
    TruncateAbove(a.timeStart, ts, d);
    NoneInside(b.timeStart, b.timeEnd);
    if a.docs == [] {
      assert Reported(a.reports) + a.docs == Reported(a.reports) + [];
    } else {
      var r := Report(a.timeStart, a.timeEnd, a.docs);
      assert b.reports[..|a.reports|] == a.reports;
      assert Reported(b.reports) + [] == Reported(a.reports) + a.docs;
    }
  }

  lemma NoneInside(start: nat, end: nat)
    ensures Inside([], start, end)
  {
  }

  lemma InsideStep(docs: seq<Doc>, doc: Doc, start: nat, end: nat)
    requires Inside(docs, start, end) && start <= doc.ts < end
    ensures Inside(docs + [doc], start, end)
  {
  }

  lemma InvStep(w: World, h: Happening, d: Duration)
    requires Inv(w, d) && Possible(w, h)
    ensures Inv(Next(w, h, d), d)
    ensures w.agg.timeStart <= Next(w, h, d).agg.timeStart
  {
    hide Truncate, Inside, Window, AfterFlush;
    var v := w.(clock := h.now);
    assert Inv(v, d);
    match h {
      case Adds(doc, now) =>
        if !TooOld(w.agg, doc) {
          var b := if doc.ts < w.agg.timeEnd then w.agg else AfterFlush(w.agg, doc.ts, d);
          if doc.ts >= w.agg.timeEnd {
            FlushKeepsInv(v, doc.ts, d);
          }
          InsideStep(b.docs, doc, b.timeStart, b.timeEnd);
          assert Reported(b.reports) + (b.docs + [doc]) == Reported(b.reports) + b.docs + [doc];
        }
      case Fires(_) =>
      case Flushes(now) => FlushKeepsInv(v, now, d);
    }
  }

  /** For every interleaving of Add, timer and Flush. */
  lemma {:induction false} EveryDocInItsWindowOnce(trace: seq<World>, hs: seq<Happening>, d: Duration, k: nat)
    requires IsRun(trace, hs, d) && k < |trace|
    ensures Inv(trace[k], d)
    ensures k > 0 ==> trace[k - 1].agg.timeStart <= trace[k].agg.timeStart
  {
    hide Inv;
    if k == 0 {
      StartInv(trace[0], d);
    } else {
      EveryDocInItsWindowOnce(trace, hs, d, k - 1);
      InvStep(trace[k - 1], hs[k - 1], d);
    }
  }

  lemma StartInv(w: World, d: Duration)
    requires Starts(w, d)
    ensures Inv(w, d) && Apart(w, d)
  {
    hide Truncate;
    var since: nat :| since <= w.clock && w == Start(since, w.clock, d);
    TruncateWindow(since, d);
  }

  /** Over every run: a document is kept if and only if it is not stamped before the open
      window and not refused, however late it is, and then is in the window that is open
      afterwards. Unless it is too old it re-arms the timer, and if it is stamped at or
      after the end of the window that window's documents are reported. */
  lemma AddKeepsIff(trace: seq<World>, hs: seq<Happening>, d: Duration, i: nat)
    requires IsRun(trace, hs, d) && i < |hs| && hs[i].Adds?
    ensures var w, v, doc := trace[i], trace[i + 1], hs[i].doc;
      && v.kept == (if !doc.refused && w.agg.timeStart <= doc.ts then w.kept + [doc] else w.kept)
      && (!doc.refused && w.agg.timeStart <= doc.ts ==>
            |v.agg.docs| > 0 && v.agg.docs[|v.agg.docs| - 1] == doc && v.agg.timeStart <= doc.ts < v.agg.timeEnd)
      && v.timer == (if w.agg.timeStart <= doc.ts then Some(hs[i].now + d) else w.timer)
      && (doc.ts < w.agg.timeStart ==> v.agg == w.agg)
      && v.agg.reports == w.agg.reports
           + if w.agg.timeEnd <= doc.ts && w.agg.docs != []
             then [Report(w.agg.timeStart, w.agg.timeEnd, w.agg.docs)] else []
  {
    hide Inv, Next;
    EveryDocInItsWindowOnce(trace, hs, d, i);
    assert Possible(trace[i], hs[i]) && trace[i + 1] == Next(trace[i], hs[i], d);
    AddStep(trace[i], hs[i].doc, hs[i].now, d);
  }

  lemma AddStep(w: World, doc: Doc, now: nat, d: Duration)
    requires Inv(w, d) && Possible(w, Adds(doc, now))
    ensures var v := Next(w, Adds(doc, now), d);
      && v.kept == (if !doc.refused && w.agg.timeStart <= doc.ts then w.kept + [doc] else w.kept)
      && (!doc.refused && w.agg.timeStart <= doc.ts ==>
            |v.agg.docs| > 0 && v.agg.docs[|v.agg.docs| - 1] == doc && v.agg.timeStart <= doc.ts < v.agg.timeEnd)
      && v.timer == (if w.agg.timeStart <= doc.ts then Some(now + d) else w.timer)
      && (doc.ts < w.agg.timeStart ==> v.agg == w.agg)
      && v.agg.reports == w.agg.reports
           + if w.agg.timeEnd <= doc.ts && w.agg.docs != []
             then [Report(w.agg.timeStart, w.agg.timeEnd, w.agg.docs)] else []
  {
    assert w.agg.timeStart < w.agg.timeEnd;
    hide Truncate, Inv;
    assert w.agg.reports + [] == w.agg.reports;
    TruncateWindow(doc.ts, d);
  }

  // ----- when the timer goroutine is prompt ---------------------------------------------------

  /** Windows are separate, and the timer cannot fire within the open window. */
  ghost predicate Apart(w: World, d: Duration) {
    && Separate(w)
    && (w.timer.Some? ==> w.agg.timeEnd <= w.timer.value)
    && w.pending <= 1
    && (w.pending > 0 ==> w.timer.None? && w.agg.timeEnd <= w.clock)
  }

  /** The flush follows the firing before anything else happens. */
  ghost predicate Prompt(hs: seq<Happening>) {
    forall i :: 0 < i < |hs| ==> (hs[i - 1].Fires? <==> hs[i].Flushes?)
  }

  /** A flush moves the window past a report it makes if and only if it happens at
      or after the end of the window. */
  lemma FlushSeparatesIff(a: Agg, ts: nat, d: Duration)
    requires Window(a.timeStart, a.timeEnd, d) && a.timeStart <= ts
    ensures a.timeEnd <= AfterFlush(a, ts, d).timeStart <==> a.timeEnd <= ts
    ensures ts < a.timeEnd ==> AfterFlush(a, ts, d).timeStart == a.timeStart
  {
    TruncateWindow(ts, d);
    TruncateAbove(a.timeStart, ts, d);
    if a.timeEnd <= ts {
      assert a.timeEnd % d == 0 by { AddMod(a.timeStart, d); }
      TruncateAbove(a.timeEnd, ts, d);
    } else {
      SameWindow(a.timeStart, ts, d);
    }
  }

  lemma SameWindow(m: nat, ts: nat, d: Duration)
    requires m % d == 0 && m <= ts < m + d
    ensures Truncate(ts, d) == m
  {
    TruncateWindow(ts, d);
    TruncateAbove(m, ts, d);
    var a, b := m / d, Truncate(ts, d) / d;
    assert m == a * d && Truncate(ts, d) == b * d;
    assert (a + 1) * d == a * d + d;
    MulUp(b, a, d);
    MulUp(a + 1, b, d);
  }

  /** The windows of all reports are disjoint and precede the open window. */
  ghost predicate Separate(w: World) {
    && (forall j, k :: 0 <= j < k < |w.agg.reports| ==> w.agg.reports[j].end <= w.agg.reports[k].start)
    && (forall k :: 0 <= k < |w.agg.reports| ==> w.agg.reports[k].end <= w.agg.timeStart)
  }

  /** A flush that makes a report before its window has ended. */
  ghost predicate Stale(w: World, h: Happening) {
    h.Flushes? && w.agg.docs != [] && h.now < w.agg.timeEnd
  }

  lemma SeparateStep(w: World, h: Happening, d: Duration)
    requires Inv(w, d) && Separate(w) && Possible(w, h)
    ensures Separate(Next(w, h, d)) <==> !Stale(w, h)
  {
    hide Truncate, Inside;
    match h {
      case Adds(doc, now) =>
        if !TooOld(w.agg, doc) && doc.ts >= w.agg.timeEnd {
          FlushSeparatesIff(w.agg, doc.ts, d);
        }
      case Fires(_) =>
      case Flushes(now) =>
        FlushSeparatesIff(w.agg, now, d);
        var v := Next(w, h, d);
        if w.agg.docs != [] {
          assert v.agg.reports[|w.agg.reports|] == Report(w.agg.timeStart, w.agg.timeEnd, w.agg.docs);
        }
    }
  }

  /** Over every run: in all states up to k the windows are separate if and only if no
      flush before k was stale. */
  lemma {:induction false} WindowsSeparateIff(trace: seq<World>, hs: seq<Happening>, d: Duration, k: nat)
    requires IsRun(trace, hs, d) && k < |trace|
    ensures (forall j :: 0 <= j <= k ==> Separate(trace[j])) <==>
      (forall j :: 0 <= j < k ==> !Stale(trace[j], hs[j]))
  {
    hide Separate, Stale, Inv, Next, Possible;
    if k == 0 {
      StartSeparate(trace[0], d);
    } else {
      WindowsSeparateIff(trace, hs, d, k - 1);
      EveryDocInItsWindowOnce(trace, hs, d, k - 1);
      if Separate(trace[k - 1]) {
        SeparateStep(trace[k - 1], hs[k - 1], d);
        assert Separate(trace[k]) <==> !Stale(trace[k - 1], hs[k - 1]);
      }
      assert (forall j :: 0 <= j <= k ==> Separate(trace[j])) <==>
        Separate(trace[k]) && Separate(trace[k - 1]) && forall j :: 0 <= j <= k - 1 ==> Separate(trace[j]);
      assert (forall j :: 0 <= j < k ==> !Stale(trace[j], hs[j])) <==>
        !Stale(trace[k - 1], hs[k - 1]) && forall j :: 0 <= j < k - 1 ==> !Stale(trace[j], hs[j]);
    }
  }

  lemma StartSeparate(w: World, d: Duration)
    requires Starts(w, d)
    ensures Separate(w)
  {
  }

  /** A stale flush leaves the window where it was, so the next report repeats its
      period: with a late timer goroutine windows are not disjoint. */
  lemma StaleFlushRepeatsWindow(w: World, now: nat, doc: Doc, d: Duration)
    requires Inv(w, d) && w.pending > 0 && w.clock <= now < w.agg.timeEnd && w.agg.docs != []
    requires now <= doc.ts < w.agg.timeEnd && !doc.refused
    ensures var v := Next(w, Flushes(now), d);
      var a := AfterFlush(AfterAdd(v.agg, doc, d), w.agg.timeEnd, d);
      |a.reports| == |w.agg.reports| + 2
      && a.reports[|w.agg.reports|].start == a.reports[|w.agg.reports| + 1].start
  {
    FlushSeparatesIff(w.agg, now, d);
  }

  lemma TruncateMultiple(d: Duration)
    ensures Truncate(0, d) == 0 && Truncate(d, d) == d && Truncate(2 * d, d) == 2 * d
  {
    SameWindow(0, 0, d);
    AddMod(0, d);
    SameWindow(d, d, d);
    AddMod(d, d);
    SameWindow(2 * d, 2 * d, d);
  }

  /** The timer fires, a document opens the next window before the flush gets the lock,
      and one more document follows. */
  ghost function StaleSteps(d: Duration): seq<Happening> {
    [Fires(d), Adds(Doc(d, false), d), Flushes(d), Adds(Doc(d, false), d), Fires(2 * d), Flushes(2 * d)]
  }

  ghost function StaleTrace(d: Duration): seq<World> {
    var doc, one := Doc(d, false), Report(d, 2 * d, [Doc(d, false)]);
    [World(Agg(0, d, [], []), 0, Some(d), 0, []),
     World(Agg(0, d, [], []), d, None, 1, []),
     World(Agg(d, 2 * d, [doc], []), d, Some(2 * d), 1, [doc]),
     World(Agg(d, 2 * d, [], [one]), d, Some(2 * d), 0, [doc]),
     World(Agg(d, 2 * d, [doc], [one]), d, Some(2 * d), 0, [doc, doc]),
     World(Agg(d, 2 * d, [doc], [one]), 2 * d, None, 1, [doc, doc]),
     World(Agg(2 * d, 3 * d, [], [one, one]), 2 * d, None, 0, [doc, doc])]
  }

  lemma StaleStep(d: Duration, i: nat)
    requires i < 6
    ensures var w, h := StaleTrace(d)[i], StaleSteps(d)[i];
      Possible(w, h) && StaleTrace(d)[i + 1] == Next(w, h, d)
  {
    TruncateMultiple(d);
    hide Truncate;
    assert [] + [Doc(d, false)] == [Doc(d, false)];
  }

  /** That is a run, its first flush is stale, and it ends with two reports of one
      window. */
  lemma StaleFlushIsReachable(d: Duration)
    ensures IsRun(StaleTrace(d), StaleSteps(d), d) && Stale(StaleTrace(d)[2], StaleSteps(d)[2])
    ensures var reports := StaleTrace(d)[6].agg.reports;
      |reports| == 2 && reports[0].start == reports[1].start && reports[0].end == reports[1].end
  {
    hide Truncate, Next, Possible;
    assert StaleTrace(d)[0] == Start(0, 0, d) by { TruncateMultiple(d); }
    forall i | 0 <= i < 6
      ensures Possible(StaleTrace(d)[i], StaleSteps(d)[i])
      ensures StaleTrace(d)[i + 1] == Next(StaleTrace(d)[i], StaleSteps(d)[i], d)
    {
      StaleStep(d, i);
    }
  }

  lemma ApartStep(w: World, h: Happening, d: Duration)
    requires Inv(w, d) && Apart(w, d) && Possible(w, h)
    requires w.pending > 0 ==> h.Flushes?
    ensures Apart(Next(w, h, d), d)
  {
    hide Truncate, Inside;
    match h {
      case Adds(doc, now) =>
        if !TooOld(w.agg, doc) {
          TruncateWindow(now, d);
          if doc.ts >= w.agg.timeEnd {
            FlushSeparatesIff(w.agg, doc.ts, d);
            TruncateWindow(doc.ts, d);
          }
        }
      case Fires(_) =>
      case Flushes(now) =>
        FlushSeparatesIff(w.agg, now, d);
    }
  }

  ghost predicate OnlyAfterFiring(w: World, hs: seq<Happening>, k: nat) {
    w.pending == if k > 0 && k <= |hs| && hs[k - 1].Fires? then 1 else 0
  }

  /** With a prompt timer goroutine the windows of all reports are disjoint and
      precede the open window. */
  lemma {:induction false} PromptWindowsAreDisjoint(trace: seq<World>, hs: seq<Happening>, d: Duration, k: nat)
    requires IsRun(trace, hs, d) && Prompt(hs) && k < |trace|
    ensures Apart(trace[k], d) && (k < |hs| ==> OnlyAfterFiring(trace[k], hs, k))
  {
    hide Inv, Apart, AfterAdd, AfterFlush;
    if k == 0 {
      StartInv(trace[0], d);
    } else {
      PromptWindowsAreDisjoint(trace, hs, d, k - 1);
      EveryDocInItsWindowOnce(trace, hs, d, k - 1);
      ApartStep(trace[k - 1], hs[k - 1], d);
    }
  }
}
