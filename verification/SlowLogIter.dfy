/** The slow log iterator: clock ticks become byte ranges of the slow log. */
module SlowLogIter {
  import opened Words

  /** iter.Interval. Workers may change an interval after it was sent. */
  class Interval {
    var Number: int
    var StartTime: Option<int>
    var StopTime: Option<int>
    var Filename: string
    var StartOffset: int
    var EndOffset: int

    constructor ()
      ensures StartTime == None
    {
      Number, StartTime, StopTime, Filename, StartOffset, EndOffset := 0, None, None, "", 0, 0;
    }
  }

  /** What a tick sees: no usable slow log, or its name, size and identity. */
  datatype Look = Missing | Found(name: string, size: int, id: Option<int>)

  predicate SameFile(a: Option<int>, b: Option<int>) {
    a.Some? && a == b
  }

  /** Where and when the running interval started. */
  datatype Mark = Mark(time: int, offset: int)

  /** What the iterator remembers between ticks; `since` is None before the first
      tick and after an error. */
  datatype Cursor = Cursor(file: Option<int>, since: Option<Mark>, number: int)

  datatype Span = Span(number: int, name: string, from: int, until: int, lo: int, hi: int)

  function AfterTick(c: Cursor, now: int, look: Look): Cursor {
    if look.Missing? then c.(since := None)
    else Cursor(look.id, Some(Mark(now, look.size)), if c.since.Some? then c.number + 1 else c.number)
  }

  /** The interval a tick completes. It starts at the beginning of the file if the
      file is not the one seen before. */
  function Completed(c: Cursor, now: int, look: Look): Option<Span> {
    if look.Missing? || c.since.None? then None
    else Some(Span(c.number + 1, look.name, c.since.value.time, now,
                   if SameFile(c.file, look.id) then c.since.value.offset else 0, look.size))
  }

  ghost predicate Carries(i: Interval, s: Span)
    reads i
  {
    && i.Number == s.number && i.Filename == s.name
    && i.StartTime == Some(s.from) && i.StopTime == Some(s.until)
    && i.StartOffset == s.lo && i.EndOffset == s.hi
  }

  class Iter {
    var prevFileInfo: Option<int>
    var cur: Interval
    var intervalNo: int

    ghost function At(): Cursor
      reads this, cur
    {
      Cursor(prevFileInfo,
             if cur.StartTime.None? then None else Some(Mark(cur.StartTime.value, cur.StartOffset)),
             intervalNo)
    }

    constructor ()
      ensures At() == Cursor(None, None, 0) && fresh(cur)
    {
      prevFileInfo, intervalNo := None, 0;
      cur := new Interval();
    }

    /** One turn of the run loop. The interval sent is never touched again by the
        iterator, so whoever receives it may change it. */
    method Tick(now: int, look: Look) returns (sent: Option<Interval>)
      modifies this, cur
      ensures At() == AfterTick(old(At()), now, look)
      ensures sent.Some? == Completed(old(At()), now, look).Some?
      ensures sent.Some? ==>
        && sent.value == old(cur) && fresh(cur)
        && Carries(sent.value, Completed(old(At()), now, look).value)
    {
      sent := None;
      if look.Missing? {
        cur := new Interval();
        return;
      }
      var fileChanged := !SameFile(prevFileInfo, look.id);
      prevFileInfo := look.id;
      if cur.StartTime.Some? {
        intervalNo := intervalNo + 1;
        cur.Filename := look.name;
        if fileChanged {
          cur.StartOffset := 0;
        }
        cur.EndOffset := look.size;
        cur.StopTime := Some(now);
        cur.Number := intervalNo;
        sent := Some(cur);
        var next := new Interval();
        next.StartTime := Some(now);
        next.StartOffset := look.size;
        cur := next;
      } else {
        cur.StartOffset := look.size;
        cur.StartTime := Some(now);
        prevFileInfo := look.id;
      }
    }
  }

  // ----- the intervals of a run ---------------------------------------------------------------

  /** When the clock ticks and what it finds then. */
  datatype Moment = Moment(now: int, look: Look)

  ghost predicate IsRun(cursors: seq<Cursor>, ticks: seq<Moment>) {
    && |cursors| == |ticks| + 1 && cursors[0] == Cursor(None, None, 0)
    && forall k :: 0 <= k < |ticks| ==> cursors[k + 1] == AfterTick(cursors[k], ticks[k].now, ticks[k].look)
  }

  /** Tick k and the one before it both found the slow log. */
  ghost predicate FoundTwice(ticks: seq<Moment>, k: nat)
    requires k < |ticks|
  {
    k > 0 && ticks[k].look.Found? && ticks[k - 1].look.Found?
  }

  /** How often that was so before tick k. */
  ghost function TimesFoundTwice(ticks: seq<Moment>, k: nat): nat
    requires k <= |ticks|
  {
    if k == 0 then 0 else TimesFoundTwice(ticks, k - 1) + if FoundTwice(ticks, k - 1) then 1 else 0
  }

  lemma {:induction false} CursorOf(cursors: seq<Cursor>, ticks: seq<Moment>, k: nat)
    requires IsRun(cursors, ticks) && k < |cursors|
    ensures cursors[k].number == TimesFoundTwice(ticks, k)
    ensures cursors[k].since ==
      if k > 0 && ticks[k - 1].look.Found? then Some(Mark(ticks[k - 1].now, ticks[k - 1].look.size)) else None
    ensures k > 0 && ticks[k - 1].look.Found? ==> cursors[k].file == ticks[k - 1].look.id
  {
    if k > 0 {
      CursorOf(cursors, ticks, k - 1);
    }
  }

  /** Over every run of ticks, in plain terms: a tick completes an interval if and only if
      it and the tick before it found the log. Intervals are numbered 1, 2, 3, ...; each
      starts when the previous tick was and stops with this one; it ends where the log
      ends and starts where it ended at the previous tick, or at zero if the log has
      changed its identity or has none. */
  lemma IntervalOfTick(cursors: seq<Cursor>, ticks: seq<Moment>, k: nat)
    requires IsRun(cursors, ticks) && k < |ticks|
    ensures var done := Completed(cursors[k], ticks[k].now, ticks[k].look);
      && (done.Some? <==> FoundTwice(ticks, k))
      && (done.Some? ==>
            var last, look := ticks[k - 1].look, ticks[k].look;
            && done.value.number == TimesFoundTwice(ticks, k) + 1
            && done.value.from == ticks[k - 1].now && done.value.until == ticks[k].now
            && done.value.name == look.name && done.value.hi == look.size
            && done.value.lo == if look.id.Some? && last.id == look.id then last.size else 0)
  {
    CursorOf(cursors, ticks, k);
  }
}
