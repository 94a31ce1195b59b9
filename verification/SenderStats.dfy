/** The statistics of the data sender over a sliding window of time. */
module SenderStats {
  import opened Words

  /** One send run; times and durations in nanoseconds since the zero time. */
  datatype SentInfo = SentInfo(begin: int, end: int, sendTime: int,
                               files: nat, bytes: nat, errs: nat, apiErrs: nat, timeouts: nat, badFiles: nat)

  /** time.Time.Sub saturates. */
  function Sub(t: int, u: int): Int64 {
    if t - u > I64_MAX then I64_MAX else if t - u < I64_MIN then I64_MIN else t - u
  }

  /** What SenderStats holds: runs from the oldest to the latest. */
  datatype Window = Window(sent: seq<SentInfo>, begin: int, end: int, full: bool)

  const EMPTY := Window([], 0, 0, false)

  /** How many of the oldest runs can go while the rest still spans d. */
  function Expired(sent: seq<SentInfo>, end: int, d: int): (n: nat)
    ensures sent != [] ==> n < |sent|
  {
    if |sent| <= 1 || Sub(end, sent[1].begin) < d then 0
    else 1 + Expired(sent[1..], end, d)
  }

  /** Sent as a function of the window. */
  function AfterSent(w: Window, info: SentInfo, d: int): Window {
    var pushed := w.sent + [info];
    var kept := if w.full then pushed[Expired(pushed, info.end, d)..] else pushed;
    Window(kept, kept[0].begin, info.end, w.full || Sub(info.end, w.begin) >= d)
  }

  ghost function AfterAll(history: seq<SentInfo>, d: int): Window {
    if history == [] then EMPTY
    else AfterSent(AfterAll(history[..|history| - 1], d), history[|history| - 1], d)
  }

  // ----- the stateless definition ------------------------------------------------------

  ghost predicate Chronological(history: seq<SentInfo>) {
    forall i, j :: 0 <= i <= j < |history| ==> history[i].begin <= history[j].begin && history[i].end <= history[j].end
  }

  /** The suffix from i spans at least d back from the latest end. */
  ghost predicate Spans(history: seq<SentInfo>, i: int, d: int)
    requires 0 <= i < |history|
  {
    history[|history| - 1].end - history[i].begin >= d
  }

  /** i starts the shortest suffix that spans d, or the whole history if none does. */
  ghost predicate StartsWindow(history: seq<SentInfo>, i: int, d: int)
    requires 0 <= i < |history|
  {
    && (forall j :: i < j < |history| ==> !Spans(history, j, d))
    && (i > 0 ==> Spans(history, i, d))
  }

  lemma SubAtLeast(t: int, u: int, d: Int64)
    requires I64_MIN < d
    ensures Sub(t, u) >= d <==> t - u >= d
  {
  }

  /** In chronological order, pruning stops at the start of the shortest suffix. */
  lemma {:induction false} ExpiredStartsWindow(sent: seq<SentInfo>, d: Int64)
    requires sent != [] && Chronological(sent) && I64_MIN < d
    ensures var i := Expired(sent, sent[|sent| - 1].end, d); StartsWindow(sent, i, d)
  {
    var end := sent[|sent| - 1].end;
    var i := Expired(sent, end, d);
    if |sent| > 1 {
      SubAtLeast(end, sent[1].begin, d);
      if i > 0 {
        var tail := sent[1..];
        ExpiredStartsWindow(tail, d);
        forall j | i < j < |sent| ensures !Spans(sent, j, d) {
          assert !Spans(tail, j - 1, d);
        }
        if i > 1 { assert Spans(tail, i - 1, d); }
      }
    }
  }

  lemma SpansLater(history: seq<SentInfo>, i: nat, d: int)
    requires i + 1 < |history| && Chronological(history) && Spans(history[..|history| - 1], i, d)
    ensures Spans(history, i, d)
  {
  }

  /** Pruning what an earlier pruning left finds the same suffix of the history. */
  lemma WindowOfWindow(history: seq<SentInfo>, i: nat, k: nat, d: int)
    requires i < |history| && k < |history| - i && Chronological(history)
    requires i > 0 ==> Spans(history, i, d)
    requires StartsWindow(history[i..], k, d)
    ensures StartsWindow(history, i + k, d)
  {
    var tail := history[i..];
    forall j | i + k < j < |history| ensures !Spans(history, j, d) {
      assert !Spans(tail, j - i, d);
    }
    if k > 0 {
      assert Spans(tail, k, d);
    }
  }

  lemma WindowUnique(history: seq<SentInfo>, i: nat, k: nat, d: int)
    requires i < |history| && k < |history| && StartsWindow(history, i, d) && StartsWindow(history, k, d)
    ensures i == k
  {
  }

  /** The window becomes full with the first run if that ends d after the zero time,
      and else with the first later run that ends d after the first began. */
  ghost predicate Fills(history: seq<SentInfo>, d: int) {
    && history != []
    && (history[0].end >= d || (|history| > 1 && history[|history| - 1].end - history[0].begin >= d))
  }

  /** What is retained after any chronological history: everything as long as the
      window was not full before the latest run, else the stateless window. */
  lemma {:induction false} Retained(history: seq<SentInfo>, d: Int64) returns (i: nat)
    requires history != [] && Chronological(history) && I64_MIN < d
    ensures i < |history| && (i > 0 ==> Spans(history, i, d))
    ensures AfterAll(history, d)
         == Window(history[i..], history[i].begin, history[|history| - 1].end, Fills(history, d))
    ensures if Fills(history[..|history| - 1], d) then StartsWindow(history, i, d) else i == 0
    decreases |history|
  {
    hide Expired, StartsWindow;
    var n := |history| - 1;
    var prior := history[..n];
    if n == 0 {
      FirstRun(history, d);
      i := 0;
    } else {
      ChronologicalPrefix(history);
      var i0 := Retained(prior, d);
      i := NextRun(history, i0, d, AfterAll(prior, d));
    }
  }

  lemma ChronologicalPrefix(history: seq<SentInfo>)
    requires history != [] && Chronological(history)
    ensures Chronological(history[..|history| - 1])
  {
  }

  lemma FirstRun(history: seq<SentInfo>, d: Int64)
    requires |history| == 1 && I64_MIN < d
    ensures AfterAll(history, d) == Window(history[0..], history[0].begin, history[0].end, Fills(history, d))
  {
    assert history[..0] == [] && [] + [history[0]] == history == history[0..];
    SubAtLeast(history[0].end, 0, d);
  }

  lemma NextRun(history: seq<SentInfo>, i0: nat, d: Int64, w: Window) returns (i: nat)
    requires |history| > 1 && Chronological(history) && I64_MIN < d && i0 < |history| - 1
    requires var prior := history[..|history| - 1];
      && (i0 > 0 ==> Spans(prior, i0, d)) && (!Fills(prior, d) ==> i0 == 0)
      && w.sent == prior[i0..] && w.begin == prior[i0].begin && w.full == Fills(prior, d)
    ensures i < |history| && (i > 0 ==> Spans(history, i, d))
    ensures AfterSent(w, history[|history| - 1], d)
         == Window(history[i..], history[i].begin, history[|history| - 1].end, Fills(history, d))
    ensures if Fills(history[..|history| - 1], d) then StartsWindow(history, i, d) else i == 0
  {
    hide Chronological, Expired;
    var n := |history| - 1;
    FillsLater(history, d);
    Pushed(history, i0);
    if w.full {
      var pushed := history[i0..];
      ExpiredStartsWindow(pushed, d);
      var k := Expired(pushed, history[n].end, d);
      if i0 > 0 { SpansLater(history, i0, d); }
      WindowOfWindow(history, i0, k, d);
      i := i0 + k;
      assert pushed[k..] == history[i..];
    } else {
      SubAtLeast(history[n].end, history[0].begin, d);
      i := 0;
    }
  }

  lemma FillsLater(history: seq<SentInfo>, d: int)
    requires |history| > 1 && Chronological(history)
    ensures Fills(history[..|history| - 1], d) ==> Fills(history, d)
  {
  }

  lemma Pushed(history: seq<SentInfo>, i0: nat)
    requires i0 < |history| - 1 && Chronological(history)
    ensures history[..|history| - 1][i0..] + [history[|history| - 1]] == history[i0..]
    ensures Chronological(history[i0..])
  {
  }

  /** What is retained is the stateless window: the shortest suffix of the history
      that spans at least d back from the latest end, or all of it if none does. */
  ghost predicate RetainsWindow(history: seq<SentInfo>, d: int) {
    exists i :: 0 <= i < |history| && StartsWindow(history, i, d) && AfterAll(history, d).sent == history[i..]
  }

  /** No proper suffix of the history spans d. */
  ghost predicate OnlyWholeSpans(history: seq<SentInfo>, d: int) {
    forall j :: 0 < j < |history| ==> !Spans(history, j, d)
  }

  /** Exactly when that is so: if the window was full before the latest run, or there
      is nothing to drop yet. The run that fills the window is not pruned. */
  lemma RetainsWindowIff(history: seq<SentInfo>, d: Int64)
    requires history != [] && Chronological(history) && I64_MIN < d
    ensures RetainsWindow(history, d) <==> Fills(history[..|history| - 1], d) || OnlyWholeSpans(history, d)
  {
    hide Chronological, AfterAll, Fills;
    var i := Retained(history, d);
    if !Fills(history[..|history| - 1], d) {
      assert StartsWindow(history, 0, d) <==> OnlyWholeSpans(history, d);
    }
  }

  /** On every clock that is d past the zero time when the first run ends, as real
      clocks are, that is always. */
  lemma RetainsWindowOnRealClocks(history: seq<SentInfo>, d: Int64)
    requires history != [] && Chronological(history) && history[0].end >= d > I64_MIN
    ensures RetainsWindow(history, d) && AfterAll(history, d).full
  {
    hide RetainsWindow, AfterAll, Chronological;
    RetainsWindowIff(history, d);
    var i := Retained(history, d);
  }

  /** A window of zero length keeps only the latest run, if runs do not end before
      they begin. */
  lemma ZeroKeepsLatest(history: seq<SentInfo>)
    requires history != [] && Chronological(history) && history[0].end >= 0
    requires history[|history| - 1].begin <= history[|history| - 1].end
    ensures AfterAll(history, 0).sent == [history[|history| - 1]]
  {
    hide AfterAll, Chronological;
    var n := |history| - 1;
    RetainsWindowOnRealClocks(history, 0);
    var i :| 0 <= i < |history| && StartsWindow(history, i, 0) && AfterAll(history, 0).sent == history[i..];
    assert Spans(history, n, 0);
    assert history[n..] == [history[n]];
  }

  /** An earlier clock may retain too much: the second run fills the window and alone
      spans it, and yet both are kept. */
  lemma EarlyClockRetainsTooMuch(a: SentInfo, b: SentInfo, d: Int64)
    requires Chronological([a, b]) && I64_MIN < d
    requires a.end < d <= b.end - b.begin
    ensures !RetainsWindow([a, b], d) && StartsWindow([a, b], 1, d) && AfterAll([a, b], d).sent == [a, b]
  {
    hide RetainsWindow, AfterAll;
    var history := [a, b];
    assert history[..1] == [a];
    assert Spans(history, 1, d);
    RetainsWindowIff(history, d);
    var i := Retained(history, d);
  }

  // ----- the object ------------------------------------------------------------------------

  datatype Totals = Totals(sendTime: int, files: int, bytes: int, errs: int, apiErrs: int, timeouts: int, badFiles: int)

  const ZERO := Totals(0, 0, 0, 0, 0, 0, 0)

  function Plus(t: Totals, i: SentInfo): Totals {
    Totals(t.sendTime + i.sendTime, t.files + i.files, t.bytes + i.bytes, t.errs + i.errs,
           t.apiErrs + i.apiErrs, t.timeouts + i.timeouts, t.badFiles + i.badFiles)
  }

  ghost function Sum(sent: seq<SentInfo>): Totals {
    if sent == [] then ZERO else Plus(Sum(sent[..|sent| - 1]), sent[|sent| - 1])
  }

  datatype Quantity = SendTime | Files | Bytes | Errs | ApiErrs | Timeouts | BadFiles

  function OfRun(r: SentInfo, q: Quantity): int {
    match q
    case SendTime => r.sendTime
    case Files => r.files
    case Bytes => r.bytes
    case Errs => r.errs
    case ApiErrs => r.apiErrs
    case Timeouts => r.timeouts
    case BadFiles => r.badFiles
  }

  function OfTotals(t: Totals, q: Quantity): int {
    match q
    case SendTime => t.sendTime
    case Files => t.files
    case Bytes => t.bytes
    case Errs => t.errs
    case ApiErrs => t.apiErrs
    case Timeouts => t.timeouts
    case BadFiles => t.badFiles
  }

  /** The sum of one quantity over the runs from i on. */
  ghost function Total(sent: seq<SentInfo>, i: nat, q: Quantity): int
    requires i <= |sent|
    decreases |sent| - i
  {
    if i == |sent| then 0 else OfRun(sent[i], q) + Total(sent, i + 1, q)
  }

  lemma {:induction false} TotalFront(sent: seq<SentInfo>, i: nat, q: Quantity)
    requires i < |sent|
    ensures Total(sent, i, q) == Total(sent[..|sent| - 1], i, q) + OfRun(sent[|sent| - 1], q)
    decreases |sent| - i
  {
    if i < |sent| - 1 {
      TotalFront(sent, i + 1, q);
    }
  }

  lemma {:induction false} TotalSuffix(sent: seq<SentInfo>, i: nat, k: nat, q: Quantity)
    requires i + k <= |sent|
    ensures Total(sent[i..], k, q) == Total(sent, i + k, q)
    decreases |sent| - k
  {
    if i + k < |sent| {
      TotalSuffix(sent, i, k + 1, q);
    }
  }

  /** Each total is the sum of its own quantity. */
  lemma {:induction false} SumIsTotal(sent: seq<SentInfo>, q: Quantity)
    ensures OfTotals(Sum(sent), q) == Total(sent, 0, q)
  {
    if sent != [] {
      SumIsTotal(sent[..|sent| - 1], q);
      TotalFront(sent, 0, q);
    }
  }

  /** A report after any chronological history: the totals over the stateless window,
      or over everything as long as the window was not full before the latest run. */
  lemma ReportSumsWindow(history: seq<SentInfo>, d: Int64) returns (i: nat)
    requires history != [] && Chronological(history) && I64_MIN < d
    ensures i < |history| && forall q :: OfTotals(Sum(AfterAll(history, d).sent), q) == Total(history, i, q)
    ensures if Fills(history[..|history| - 1], d) then StartsWindow(history, i, d) else i == 0
  {
    hide AfterAll, Chronological, Fills, StartsWindow, Total, Sum, OfTotals;
    i := Retained(history, d);
    forall q ensures OfTotals(Sum(history[i..]), q) == Total(history, i, q) {
      SumIsTotal(history[i..], q);
      TotalSuffix(history, i, 0, q);
    }
  }

  class SenderStats {
    const d: Int64
    var begin: int
    var end: int
    var sent: seq<SentInfo>   // the linked list, from back (oldest) to front
    var full: bool

    ghost function W(): Window
      reads this
    {
      Window(sent, begin, end, full)
    }

    constructor (d: Int64)
      ensures this.d == d && W() == EMPTY
    {
      this.d, begin, end, sent, full := d, 0, 0, [], false;
    }

    method Sent(info: SentInfo)
      modifies this
      ensures W() == AfterSent(old(W()), info, d)
    {
      sent := sent + [info];
      end := info.end;
      if full {
        // Collect the elements to remove, from the oldest on, then remove them.
        var old' := 0;
        while old' + 1 < |sent|
          invariant old' < |sent| && |sent| > 0
          invariant Expired(sent, end, d) == old' + Expired(sent[old'..], end, d)
        {
          if Sub(end, sent[old' + 1].begin) < d {
            break;
          }
          assert sent[old'..][1..] == sent[old' + 1..];
          old' := old' + 1;
        }
        sent := sent[old'..];
      } else if Sub(info.end, begin) >= d {
        full := true;
      }
      begin := sent[0].begin;
    }

    method Report() returns (from: int, until: int, totals: Totals)
      ensures from == begin && until == end && totals == Sum(sent)
      ensures forall q :: OfTotals(totals, q) == Total(sent, 0, q)
    {
      hide OfTotals, Total;
      from, until, totals := begin, end, ZERO;
      for i := 0 to |sent|
        invariant totals == Sum(sent[..i])
      {
        assert sent[..i + 1][..i] == sent[..i];
        totals := Plus(totals, sent[i]);
      }
      assert sent[..|sent|] == sent;
      forall q ensures OfTotals(totals, q) == Total(sent, 0, q) {
        SumIsTotal(sent, q);
      }
    }
  }
}
