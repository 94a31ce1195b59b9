/** The analyzer's run loop and the goroutines around it, as a state machine whose
    steps are the channel operations. */
module Analyzer {
  import opened Words

  /** An interval: the how-manieth the iterator sent, and when it starts. */
  datatype Interval = Interval(no: nat, startTime: int)

  // ----- the run loop --------------------------------------------------------------------

  /** The local variables of run, and whether the interval iterator is running. */
  datatype Loop = Loop(configured: bool, workerRunning: bool, iterating: bool,
                       current: Option<Interval>, lastTs: int)

  const FRESH_LOOP := Loop(false, false, false, None, 0)

  /** An interval is worked on only if MySQL is configured and no worker is running. */
  predicate Accepts(l: Loop) {
    l.configured && !l.workerRunning
  }

  function OnInterval(l: Loop, i: Interval): Loop {
    if Accepts(l) then l.(current := Some(i), workerRunning := true) else l
  }

  function OnDone(l: Loop, i: Interval): Loop {
    l.(workerRunning := false, lastTs := if i.startTime > l.lastTs then i.startTime else l.lastTs)
  }

  function OnConfigured(l: Loop): Loop {
    l.(configured := true, iterating := true)
  }

  function OnRestart(l: Loop): Loop {
    if l.configured then l.(configured := false, iterating := false) else l
  }

  class RunLoop {
    var mysqlConfigured: bool
    var workerRunning: bool
    var iterating: bool
    var currentInterval: Option<Interval>
    var lastTs: int

    ghost function St(): Loop
      reads this
    {
      Loop(mysqlConfigured, workerRunning, iterating, currentInterval, lastTs)
    }

    /** Starts one attempt to configure MySQL. */
    constructor ()
      ensures St() == FRESH_LOOP
    {
      mysqlConfigured, workerRunning, iterating, currentInterval, lastTs := false, false, false, None, 0;
    }

    /** The iterator sent an interval. */
    method TakeInterval(interval: Interval) returns (startsWorker: bool)
      modifies this
      ensures St() == OnInterval(old(St()), interval)
      ensures startsWorker == Accepts(old(St()))
    {
      if !mysqlConfigured {
        return false;
      }
      if workerRunning {
        return false;
      }
      currentInterval := Some(interval);
      workerRunning := true;
      return true;
    }

    /** A worker is done with its interval. */
    method TakeDone(interval: Interval)
      modifies this
      ensures St() == OnDone(old(St()), interval)
    {
      workerRunning := false;
      if interval.startTime > lastTs {
        lastTs := interval.startTime;
      }
    }

    /** An attempt has configured MySQL: the iterator is started. */
    method TakeConfigured()
      modifies this
      ensures St() == OnConfigured(old(St()))
    {
      mysqlConfigured := true;
      iterating := true;
    }

    /** MySQL restarted: if it was configured it has to be configured again. */
    method TakeRestart() returns (startsAttempt: bool)
      modifies this
      ensures St() == OnRestart(old(St()))
      ensures startsAttempt == old(mysqlConfigured)
    {
      startsAttempt := mysqlConfigured;
      if mysqlConfigured {
        mysqlConfigured := false;
        iterating := false;
      }
    }
  }

  // ----- the whole system ---------------------------------------------------------------------

  /** `open` while the loop runs; `closing` once the analyzer is told to stop, which the
      loop may notice only after taking other messages; `attempts` goroutines are configuring
      MySQL; `working` are the intervals of live workers; `queue` and `done` are
      the contents of intervalChan and workerDoneChan, which both hold one message;
      `sent` counts the intervals sent, `started` lists those worked on and
      `finished` those whose done message was taken. */
  datatype System = System(open: bool, closing: bool, loop: Loop, attempts: nat, working: seq<Interval>,
                           queue: seq<Interval>, done: seq<Interval>, sent: nat,
                           started: seq<Interval>, finished: seq<Interval>)

  const DONE_CAPACITY := 1
  const QUEUE_CAPACITY := 1

  const FRESH := System(true, false, FRESH_LOOP, 1, [], [], [], 0, [], [])

  datatype Step =
    | IterSends(startTime: int)   // the iterator puts an interval in its channel
    | LoopTakesInterval
    | WorkerSendsDone(worker: nat)
    | LoopTakesDone
    | LoopTakesConfigured         // an attempt succeeded; the channel is unbuffered
    | LoopTakesRestart            // MySQL restarted
    | Close                       // the analyzer is told to stop
    | LoopStops                   // the loop notices it and returns
    | AttemptAborts               // an attempt notices it

  ghost predicate Enabled(s: System, step: Step) {
    match step
    case IterSends(_) => s.loop.iterating && |s.queue| < QUEUE_CAPACITY
    case LoopTakesInterval => s.open && s.queue != []
    case WorkerSendsDone(w) => w < |s.working| && |s.done| < DONE_CAPACITY
    case LoopTakesDone => s.open && s.done != []
    case LoopTakesConfigured => s.open && s.attempts > 0
    case LoopTakesRestart => s.open
    case Close => s.open && !s.closing
    case LoopStops => s.open && s.closing
    case AttemptAborts => s.closing && s.attempts > 0
  }

  ghost function Next(s: System, step: Step): System
    requires Enabled(s, step)
  {
    match step
    case IterSends(t) => s.(queue := s.queue + [Interval(s.sent + 1, t)], sent := s.sent + 1)
    case LoopTakesInterval =>
      var i := s.queue[0];
      var t := s.(queue := s.queue[1..], loop := OnInterval(s.loop, i));
      if Accepts(s.loop) then t.(working := s.working + [i], started := s.started + [i]) else t
    case WorkerSendsDone(w) =>
      s.(working := s.working[..w] + s.working[w + 1..], done := s.done + [s.working[w]])
    case LoopTakesDone =>
      s.(done := s.done[1..], loop := OnDone(s.loop, s.done[0]), finished := s.finished + [s.done[0]])
    case LoopTakesConfigured => s.(attempts := s.attempts - 1, loop := OnConfigured(s.loop))
    case LoopTakesRestart =>
      s.(loop := OnRestart(s.loop), attempts := if s.loop.configured then s.attempts + 1 else s.attempts)
    case Close => s.(closing := true)
    case LoopStops => s.(open := false, loop := s.loop.(iterating := s.loop.iterating && !s.loop.configured))
    case AttemptAborts => s.(attempts := s.attempts - 1)
  }

  ghost predicate RunFrom(s: System, trace: seq<System>, steps: seq<Step>) {
    && |trace| == |steps| + 1 && trace[0] == s
    && forall i :: 0 <= i < |steps| ==> Enabled(trace[i], steps[i]) && trace[i + 1] == Next(trace[i], steps[i])
  }

  ghost predicate IsRun(trace: seq<System>, steps: seq<Step>) {
    RunFrom(FRESH, trace, steps)
  }

  // ----- what every reachable state satisfies ------------------------------------------------------

  /** At most one worker or done message exists, and while the loop runs it knows
      exactly whether one does. */
  ghost predicate OneWorker(s: System) {
    && |s.working| + |s.done| <= 1
    && (s.open ==> (s.loop.workerRunning <==> |s.working| + |s.done| == 1))
  }

  /** MySQL is configured and being iterated with no attempt pending, or it is not,
      the iterator is stopped and exactly one attempt is pending, unless that has been
      aborted. A loop that has returned has stopped the iterator. */
  ghost predicate OneMode(s: System) {
    if s.open then
      || (s.loop.configured && s.loop.iterating && s.attempts == 0)
      || (!s.loop.configured && !s.loop.iterating && s.attempts <= 1 && (!s.closing ==> s.attempts == 1))
    else s.closing && !s.loop.iterating && s.attempts <= 1
  }

  /** The number of the last interval worked on. */
  ghost function LastStarted(s: System): int {
    if s.started == [] then 0 else s.started[|s.started| - 1].no
  }

  /** Intervals are worked on in the order sent, none twice. */
  ghost predicate InOrder(s: System) {
    && (forall i, j :: 0 <= i < j < |s.started| ==> s.started[i].no < s.started[j].no)
    && |s.queue| <= QUEUE_CAPACITY
    && LastStarted(s) <= s.sent
    && (forall i :: 0 <= i < |s.queue| ==> LastStarted(s) < s.queue[i].no <= s.sent)
  }

  /** Every interval worked on is finished, waiting in the done channel or being
      worked on, in this order. */
  ghost predicate NoneForgotten(s: System) {
    s.finished + s.done + s.working == s.started
  }

  /** The time shown is the latest of these intervals. */
  ghost predicate IsLatest(ts: int, finished: seq<Interval>) {
    && 0 <= ts
    && (forall i :: 0 <= i < |finished| ==> finished[i].startTime <= ts)
    && (ts == 0 || exists i :: 0 <= i < |finished| && finished[i].startTime == ts)
  }

  /** The time shown as that of the last interval is the latest of those finished. */
  ghost predicate ShowsLatest(s: System) {
    IsLatest(s.loop.lastTs, s.finished)
  }

  /** The current interval is the last one worked on. */
  ghost predicate ShowsCurrent(s: System) {
    s.loop.current == if s.started == [] then None else Some(s.started[|s.started| - 1])
  }

  ghost predicate Protocol(s: System) {
    OneWorker(s) && OneMode(s) && InOrder(s) && NoneForgotten(s)
  }

  ghost predicate Inv(s: System) {
    Protocol(s) && ShowsLatest(s) && ShowsCurrent(s)
  }

  lemma WorkerStep(s: System, step: Step)
    requires OneWorker(s) && Enabled(s, step)
    ensures OneWorker(Next(s, step))
  {
  }

  lemma ModeStep(s: System, step: Step)
    requires OneMode(s) && Enabled(s, step)
    ensures OneMode(Next(s, step))
  {
  }

  lemma OrderStep(s: System, step: Step)
    requires InOrder(s) && Enabled(s, step)
    ensures InOrder(Next(s, step))
  {
    if step.LoopTakesInterval? {
      assert s.queue[0].no > LastStarted(s);
      assert forall i :: 0 <= i < |s.started| ==> s.started[i].no <= LastStarted(s);
    }
  }

  lemma WorkStep(s: System, step: Step)
    requires OneWorker(s) && NoneForgotten(s) && Enabled(s, step)
    ensures NoneForgotten(Next(s, step))
  {
    var t := Next(s, step);
    var f := s.finished;
    if step.LoopTakesInterval? && Accepts(s.loop) {
      assert s.working == [] && s.done == [];
      Regroup(f, [], [s.queue[0]]);
    } else if step.WorkerSendsDone? {
      assert t.done == s.working && t.working == [] && s.done == [];
      Regroup(f, s.working, []);
    } else if step.LoopTakesDone? {
      assert t.done == [] && t.working == s.working == [] && s.done == [s.done[0]];
      Regroup(f, s.done, []);
    }
  }

  lemma Regroup(a: seq<Interval>, b: seq<Interval>, c: seq<Interval>)
    ensures a + b + c == a + (b + c) && a + [] + b == a + b && a + b + [] == a + b && a + [] + [] == a
  {
  }

  lemma LatestStep(finished: seq<Interval>, ts: int, i: Interval)
    requires IsLatest(ts, finished)
    ensures IsLatest(if i.startTime > ts then i.startTime else ts, finished + [i])
  {
    var all := finished + [i];
    assert all[|finished|] == i;
    assert forall k :: 0 <= k < |finished| ==> all[k] == finished[k];
  }

  lemma ProtocolStep(s: System, step: Step)
    requires Protocol(s) && Enabled(s, step)
    ensures Protocol(Next(s, step))
  {
    hide OneWorker, OneMode, InOrder, NoneForgotten, Next;
    WorkerStep(s, step);
    ModeStep(s, step);
    OrderStep(s, step);
    WorkStep(s, step);
  }

  lemma InvStep(s: System, step: Step)
    requires Inv(s) && Enabled(s, step)
    ensures Inv(Next(s, step))
  {
    hide Protocol, IsLatest;
    ProtocolStep(s, step);
    if step.LoopTakesDone? {
      LatestStep(s.finished, s.loop.lastTs, s.done[0]);
    }
  }

  /** Safety of the protocol in every reachable state. */
  lemma {:induction false} Safety(trace: seq<System>, steps: seq<Step>, k: nat)
    requires IsRun(trace, steps) && k < |trace|
    ensures Inv(trace[k])
  {
    if k > 0 {
      Safety(trace, steps, k - 1);
      InvStep(trace[k - 1], steps[k - 1]);
    }
  }

  /** A worker that has finished never blocks on its done message, not even after
      the analyzer was closed. */
  lemma DoneNeverBlocks(trace: seq<System>, steps: seq<Step>, k: nat, w: nat)
    requires IsRun(trace, steps) && k < |trace| && w < |trace[k].working|
    ensures Enabled(trace[k], WorkerSendsDone(w))
  {
    Safety(trace, steps, k);
  }

  /** The iterator is started only when it is stopped, and stopped only when it is
      running. */
  lemma IterStartsAndStopsAlternate(trace: seq<System>, steps: seq<Step>, k: nat)
    requires IsRun(trace, steps) && k < |steps|
    ensures steps[k].LoopTakesConfigured? ==> !trace[k].loop.iterating && trace[k + 1].loop.iterating
    ensures steps[k].LoopTakesRestart? && trace[k].loop.configured ==>
      trace[k].loop.iterating && !trace[k + 1].loop.iterating
  {
    Safety(trace, steps, k);
    assert Enabled(trace[k], steps[k]);
  }

  /** How many goroutines are left to end after closing. */
  ghost function Left(s: System): nat {
    s.attempts + |s.working|
  }

  /** Once the loop has returned nothing new starts: every step but taking a goroutine
      off is disabled, and as long as one is left, one can be taken off. */
  lemma ClosingDrains(trace: seq<System>, steps: seq<Step>, k: nat)
    requires IsRun(trace, steps) && k < |trace| && !trace[k].open
    ensures forall step :: Enabled(trace[k], step) ==>
      (step.AttemptAborts? || step.WorkerSendsDone?) && Left(Next(trace[k], step)) < Left(trace[k])
    ensures Left(trace[k]) > 0 ==> exists step :: Enabled(trace[k], step)
  {
    Safety(trace, steps, k);
    if trace[k].attempts > 0 {
      assert Enabled(trace[k], AttemptAborts);
    } else if |trace[k].working| > 0 {
      assert Enabled(trace[k], WorkerSendsDone(0));
    }
  }

  // ----- starting again ---------------------------------------------------------------------------

  /** Until then the loop may still take an interval and start a worker, also when the
      analyzer is closing, but it can stop at any time. */
  lemma ClosingLoopMayGoOn(trace: seq<System>, steps: seq<Step>, k: nat)
    requires IsRun(trace, steps) && k < |trace| && trace[k].open && trace[k].closing
    ensures Enabled(trace[k], LoopStops) && !Next(trace[k], LoopStops).open
    ensures (exists step :: Enabled(trace[k], step) && |Next(trace[k], step).started| > |trace[k].started|) <==>
      trace[k].queue != [] && Accepts(trace[k].loop)
  {
    if trace[k].queue != [] && Accepts(trace[k].loop) {
      assert Enabled(trace[k], LoopTakesInterval);
    }
  }

  /** Start after Stop: the loop starts over, the goroutines of the last run and
      the channels stay. */
  ghost function StartAgain(s: System): System
    requires !s.open
  {
    s.(open := true, closing := false, loop := FRESH_LOOP, attempts := s.attempts + 1)
  }

  /** Nothing of the last run is alive or waiting. */
  ghost predicate NothingLeft(s: System) {
    s.attempts == 0 && s.working == [] && s.done == []
  }

  lemma {:induction false} ProtocolFrom(s: System, trace: seq<System>, steps: seq<Step>, k: nat)
    requires Protocol(s) && RunFrom(s, trace, steps) && k < |trace|
    ensures Protocol(trace[k])
  {
    if k > 0 {
      ProtocolFrom(s, trace, steps, k - 1);
      ProtocolStep(trace[k - 1], steps[k - 1]);
    }
  }

  ghost predicate AlwaysSafe(s: System) {
    forall trace: seq<System>, steps: seq<Step>, k: nat ::
      RunFrom(s, trace, steps) && k < |trace| ==> Protocol(trace[k])
  }

  /** In every run that starts after a stop the whole protocol is kept if and only if
      the first run left no attempt, no worker and no done message behind. */
  lemma StartAgainIsSafeIff(trace: seq<System>, steps: seq<Step>, k: nat)
    requires IsRun(trace, steps) && k < |trace| && !trace[k].open
    ensures AlwaysSafe(StartAgain(trace[k])) <==> NothingLeft(trace[k])
  {
    Safety(trace, steps, k);
    var s := StartAgain(trace[k]);
    if NothingLeft(trace[k]) {
      assert Protocol(s) by { assert InOrder(s) <==> InOrder(trace[k]); }
      forall t: seq<System>, st: seq<Step>, j: nat | RunFrom(s, t, st) && j < |t| ensures Protocol(t[j]) {
        ProtocolFrom(s, t, st, j);
      }
    } else {
      assert RunFrom(s, [s], []) && !Protocol([s][0]);
    }
  }

  /** Two workers never run at once. */
  ghost predicate NeverTwoWorkers(s: System) {
    forall trace: seq<System>, steps: seq<Step>, k: nat ::
      RunFrom(s, trace, steps) && k < |trace| ==> |trace[k].working| <= 1
  }

  /** The iterator is never started while it is running. */
  ghost predicate NeverIteratesTwice(s: System) {
    forall trace: seq<System>, steps: seq<Step>, k: nat ::
      RunFrom(s, trace, steps) && k < |steps| && steps[k].LoopTakesConfigured? ==> !trace[k].loop.iterating
  }

  /** What goes wrong otherwise: two workers may come to run at once if and only if a
      worker or a done message was left over, and the iterator may be started twice
      if and only if an attempt was. */
  lemma StartAgainGoesWrongIff(trace: seq<System>, steps: seq<Step>, k: nat)
    requires IsRun(trace, steps) && k < |trace| && !trace[k].open
    ensures NeverTwoWorkers(StartAgain(trace[k])) <==> trace[k].working == [] && trace[k].done == []
    ensures NeverIteratesTwice(StartAgain(trace[k])) <==> trace[k].attempts == 0
  {
    Safety(trace, steps, k);
    var s := StartAgain(trace[k]);
    if trace[k].working == [] && trace[k].done == [] {
      forall t: seq<System>, st: seq<Step>, j: nat | RunFrom(s, t, st) && j < |t| ensures |t[j].working| <= 1 {
        WorkerFrom(s, t, st, j);
      }
    } else {
      var t, st := TwoWorkersFrom(s);
      assert |t[|st|].working| == 2;
    }
    if trace[k].attempts == 0 {
      forall t: seq<System>, st: seq<Step>, j: nat | RunFrom(s, t, st) && j < |st| && st[j].LoopTakesConfigured?
        ensures !t[j].loop.iterating
      {
        ModeFrom(s, t, st, j);
        assert Enabled(t[j], st[j]);
      }
    } else {
      var t, st := AppendStep(s, [s], [], LoopTakesConfigured);
      t, st := AppendStep(s, t, st, LoopTakesConfigured);
      assert st[1].LoopTakesConfigured? && t[1].loop.iterating;
    }
  }

  lemma {:induction false} WorkerFrom(s: System, trace: seq<System>, steps: seq<Step>, k: nat)
    requires OneWorker(s) && RunFrom(s, trace, steps) && k < |trace|
    ensures OneWorker(trace[k])
  {
    if k > 0 {
      WorkerFrom(s, trace, steps, k - 1);
      WorkerStep(trace[k - 1], steps[k - 1]);
    }
  }

  lemma {:induction false} ModeFrom(s: System, trace: seq<System>, steps: seq<Step>, k: nat)
    requires OneMode(s) && RunFrom(s, trace, steps) && k < |trace|
    ensures OneMode(trace[k])
  {
    if k > 0 {
      ModeFrom(s, trace, steps, k - 1);
      ModeStep(trace[k - 1], steps[k - 1]);
    }
  }

  lemma AppendStep(s: System, trace: seq<System>, steps: seq<Step>, step: Step)
    returns (trace': seq<System>, steps': seq<Step>)
    requires RunFrom(s, trace, steps) && Enabled(trace[|steps|], step)
    ensures trace' == trace + [Next(trace[|steps|], step)] && steps' == steps + [step]
    ensures RunFrom(s, trace', steps')
  {
    trace', steps' := trace + [Next(trace[|steps|], step)], steps + [step];
  }

  /** A configured loop that knows of no worker starts one more. */
  lemma WorkerStarts(s: System, trace: seq<System>, steps: seq<Step>)
    returns (trace': seq<System>, steps': seq<Step>)
    requires RunFrom(s, trace, steps)
    requires var t := trace[|steps|];
      t.open && t.loop.configured && t.loop.iterating && !t.loop.workerRunning && |t.queue| <= QUEUE_CAPACITY
    ensures RunFrom(s, trace', steps')
    ensures var t, t' := trace[|steps|], trace'[|steps'|];
      && t'.open && t'.closing == t.closing && t'.loop.configured && t'.loop.iterating && t'.queue == []
      && |t'.working| == |t.working| + 1 && t'.done == t.done && t'.attempts == t.attempts
  {
    trace', steps' := trace, steps;
    if trace[|steps|].queue == [] {
      trace', steps' := AppendStep(s, trace', steps', IterSends(0));
    }
    trace', steps' := AppendStep(s, trace', steps', LoopTakesInterval);
  }

  lemma TwoWorkersFrom(s: System) returns (trace: seq<System>, steps: seq<Step>)
    requires s.open && s.loop == FRESH_LOOP && s.attempts > 0 && |s.queue| <= QUEUE_CAPACITY
    requires |s.working| + |s.done| == 1
    ensures RunFrom(s, trace, steps) && |trace[|steps|].working| == 2
  {
    hide RunFrom, Next;
    assert RunFrom(s, [s], []) by { StayPut(s); }
    trace, steps := AppendStep(s, [s], [], LoopTakesConfigured);
    NextConfigured(s);
    trace, steps := WorkerStarts(s, trace, steps);
    if s.working == [] {
      var t := trace[|steps|];
      trace, steps := AppendStep(s, trace, steps, LoopTakesDone);
      NextDone(t);
      trace, steps := WorkerStarts(s, trace, steps);
    }
  }

  lemma StayPut(s: System)
    ensures RunFrom(s, [s], [])
  {
  }

  lemma NextConfigured(s: System)
    requires Enabled(s, LoopTakesConfigured)
    ensures Next(s, LoopTakesConfigured) == s.(attempts := s.attempts - 1, loop := OnConfigured(s.loop))
  {
  }

  lemma NextDone(s: System)
    requires Enabled(s, LoopTakesDone)
    ensures Next(s, LoopTakesDone)
      == s.(done := s.done[1..], loop := OnDone(s.loop, s.done[0]), finished := s.finished + [s.done[0]])
  {
  }

  /** That can happen: a run that is stopped while its worker is busy, and a second
      run that comes to have two workers. */
  lemma TwoWorkersAreReachable()
    returns (trace: seq<System>, steps: seq<Step>, trace2: seq<System>, steps2: seq<Step>)
    ensures IsRun(trace, steps) && !trace[|steps|].open
    ensures RunFrom(StartAgain(trace[|steps|]), trace2, steps2) && |trace2[|steps2|].working| == 2
  {
    hide RunFrom;
    StayPut(FRESH);
    trace, steps := AppendStep(FRESH, [FRESH], [], LoopTakesConfigured);
    trace, steps := WorkerStarts(FRESH, trace, steps);
    trace, steps := AppendStep(FRESH, trace, steps, Close);
    trace, steps := AppendStep(FRESH, trace, steps, LoopStops);
    trace2, steps2 := TwoWorkersFrom(StartAgain(trace[|steps|]));
  }

  /** The second run knows only the intervals that it saw finish. */
  lemma {:induction false} FinishedSince(s: System, trace: seq<System>, steps: seq<Step>, k: nat)
    requires RunFrom(s, trace, steps) && k < |trace| && s.loop == FRESH_LOOP
    ensures s.finished <= trace[k].finished
    ensures IsLatest(trace[k].loop.lastTs, trace[k].finished[|s.finished|..])
  {
    hide IsLatest, Next;
    var n := |s.finished|;
    if k == 0 {
      assert s.finished[n..] == [];
      assert IsLatest(0, []) by { LatestOfNone(); }
    } else {
      FinishedSince(s, trace, steps, k - 1);
      var t, step := trace[k - 1], steps[k - 1];
      assert Enabled(t, step) && trace[k] == Next(t, step);
      FinishedStep(t, step);
      if step.LoopTakesDone? {
        LatestStep(t.finished[n..], t.loop.lastTs, t.done[0]);
        assert (t.finished + [t.done[0]])[n..] == t.finished[n..] + [t.done[0]];
      }
    }
  }

  lemma FinishedStep(s: System, step: Step)
    requires Enabled(s, step)
    ensures var t := Next(s, step);
      if step.LoopTakesDone? then
        var i := s.done[0];
        && t.finished == s.finished + [i]
        && t.loop.lastTs == if i.startTime > s.loop.lastTs then i.startTime else s.loop.lastTs
      else t.finished == s.finished && t.loop.lastTs == s.loop.lastTs
  {
  }

  lemma LatestOfNone()
    ensures IsLatest(0, [])
  {
  }

  /** So the time it shows is that of the latest interval of all if and only if it is
      not before the time shown when the first run stopped. */
  lemma StartAgainShowsLatestIff(trace: seq<System>, steps: seq<Step>, k: nat,
                                 trace2: seq<System>, steps2: seq<Step>, j: nat)
    requires IsRun(trace, steps) && k < |trace| && !trace[k].open
    requires RunFrom(StartAgain(trace[k]), trace2, steps2) && j < |trace2|
    ensures ShowsLatest(trace2[j]) <==> trace[k].loop.lastTs <= trace2[j].loop.lastTs
  {
    Safety(trace, steps, k);
    FinishedSince(StartAgain(trace[k]), trace2, steps2, j);
    hide RunFrom, Protocol;
    var n, all := |trace[k].finished|, trace2[j].finished;
    LatestOfBoth(trace[k].finished, all[n..], trace[k].loop.lastTs, trace2[j].loop.lastTs);
    assert trace[k].finished + all[n..] == all;
  }

  lemma LatestOfBoth(a: seq<Interval>, b: seq<Interval>, ta: int, tb: int)
    requires IsLatest(ta, a) && IsLatest(tb, b)
    ensures IsLatest(tb, a + b) <==> ta <= tb
  {
    var all := a + b;
    assert forall i :: 0 <= i < |a| ==> all[i] == a[i];
    assert forall i :: 0 <= i < |b| ==> all[|a| + i] == b[i];
  }

  /** An interval left in the queue is the first that the second run takes, and it is
      worked on if and only if MySQL is configured by then. */
  lemma LeftoverInterval(s: System, trace: seq<System>, steps: seq<Step>, k: nat)
    requires !s.open && |s.queue| == 1 && RunFrom(StartAgain(s), trace, steps)
    requires k < |steps| && steps[k].LoopTakesInterval?
    requires forall j :: 0 <= j < k ==> !steps[j].LoopTakesInterval?
    ensures trace[k + 1].started == s.started + if trace[k].loop.configured then s.queue else []
    ensures trace[k + 1].queue == []
  {
    LeftoverWaits(s, trace, steps, k);
    assert s.queue == [s.queue[0]];
    assert Enabled(trace[k], steps[k]) && trace[k + 1] == Next(trace[k], steps[k]);
  }

  lemma {:induction false} LeftoverWaits(s: System, trace: seq<System>, steps: seq<Step>, k: nat)
    requires !s.open && |s.queue| == 1 && RunFrom(StartAgain(s), trace, steps) && k < |trace|
    requires forall j :: 0 <= j < k ==> !steps[j].LoopTakesInterval?
    ensures trace[k].queue == s.queue && trace[k].started == s.started && !trace[k].loop.workerRunning
  {
    if k > 0 {
      LeftoverWaits(s, trace, steps, k - 1);
      assert Enabled(trace[k - 1], steps[k - 1]);
    }
  }
}
