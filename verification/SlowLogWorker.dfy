/** The slow log worker: rotation with retention, and the event loop. */
module SlowLogWorker {
  import opened Words
  import opened Text
  import opened SlowLogIter

  // ----- rotation --------------------------------------------------------------------

  datatype File = File(id: int, size: nat)

  /** The directory of the slow log. */
  class Directory {
    var files: map<string, File>

    constructor (files: map<string, File>)
      ensures this.files == files
    {
      this.files := files;
    }
  }

  /** How the steps of a rotation turn out, when it happens, the identity of the
      file MySQL opens afterwards, the files that cannot be removed, and how much
      longer than the listing of rotated logs its array is. */
  datatype Attempt = Attempt(connects: bool, stops: bool, renames: bool, starts: bool, flushes: bool,
                             unixTime: nat, newId: int, stuck: set<string>, spare: nat)

  function RotatedName(name: string, unixTime: nat): string {
    name + "-" + Decimal(unixTime)
  }

  predicate IsRotated(x: string, name: string) {
    (name + "-") <= x
  }

  /** What the glob finds. */
  ghost function Rotated(names: set<string>, name: string): set<string> {
    set x | x in names && IsRotated(x, name)
  }

  ghost function Newer(x: string, names: set<string>): set<string> {
    set y | y in names && Less(x, y)
  }

  /** The names that are outranked by at least `retain` others. */
  ghost function Surplus(names: set<string>, retain: int): set<string> {
    set x | x in names && |Newer(x, names)| >= retain
  }

  /** The directory after the rename. */
  ghost function Moved(files: map<string, File>, name: string, a: Attempt): map<string, File>
    requires name in files
  {
    (files - {name})[RotatedName(name, a.unixTime) := files[name]]
  }

  /** ... and after MySQL opened the new slow log. */
  ghost function Renamed(files: map<string, File>, name: string, a: Attempt): map<string, File>
    requires name in files
  {
    Moved(files, name, a)[name := File(a.newId, 0)]
  }

  /** ... and after the surplus of rotated logs is removed. */
  ghost function Retained(files: map<string, File>, name: string, retain: int, stuck: set<string>): map<string, File> {
    files - (Surplus(Rotated(files.Keys, name), retain) - stuck)
  }

  /** In an ordered listing the names after position i are those newer than it. */
  lemma NewerCount(s: seq<string>, names: set<string>, i: nat)
    requires Lists(s, names) && i < |s|
    ensures |Newer(s[i], names)| == |s| - 1 - i
  {
    var rest := s[i + 1..];
    forall x | x in Newer(s[i], names) ensures x in rest {
      assert x in s;
      var j :| 0 <= j < |s| && s[j] == x;
      LessTotal(s[i], s[j]);
      assert rest[j - i - 1] == x;
    }
    assert Lists(rest, Newer(s[i], names));
    ListingSize(rest, Newer(s[i], names));
  }

  /** How many of n logs are too many. */
  function TooMany(n: nat, retain: int): nat {
    if retain < 0 then n else if n <= retain then 0 else n - retain
  }

  lemma SurplusIsPrefix(s: seq<string>, names: set<string>, retain: int)
    requires Lists(s, names)
    ensures TooMany(|s|, retain) <= |s|
    ensures forall x :: x in Surplus(names, retain) <==> x in s[..TooMany(|s|, retain)]
  {
    var old' := s[..TooMany(|s|, retain)];
    forall x | x in names ensures x in Surplus(names, retain) <==> x in old' {
      assert x in s;
      var i :| 0 <= i < |s| && s[i] == x;
      NewerCount(s, names, i);
      if i < |old'| {
        assert old'[i] == x;
      } else if x in old' {
        var j :| 0 <= j < |old'| && old'[j] == x;
        assert Less(s[j], s[i]);
        LessTotal(x, x);
      }
    }
    forall x | x in old' ensures x in names {
      var j :| 0 <= j < |old'| && old'[j] == x;
      assert s[j] in names;
    }
  }

  /** Exactly as many logs survive as are to be retained, or all if there are fewer. */
  lemma RetainedCount(names: set<string>, retain: int)
    ensures |names - Surplus(names, retain)| == |names| - TooMany(|names|, retain)
  {
    hide Less;
    var s := Listing(names);
    ListingSize(s, names);
    SurplusIsPrefix(s, names, retain);
    var n := TooMany(|s|, retain);
    var rest := s[n..];
    forall x | x in names - Surplus(names, retain) ensures x in rest {
      assert x in s;
      assert s == s[..n] + rest;
    }
    forall i | 0 <= i < |rest| ensures rest[i] in names - Surplus(names, retain) {
      NotInPrefix(s, n, n + i);
      assert rest[i] == s[n + i];
    }
    assert Ascending(rest);
    ListingSize(rest, names - Surplus(names, retain));
  }

  lemma NotInPrefix(s: seq<string>, n: nat, i: nat)
    requires Ascending(s) && n <= i < |s|
    ensures s[i] !in s[..n]
  {
    if s[i] in s[..n] {
      var j :| 0 <= j < n && s[..n][j] == s[i];
      LessTotal(s[j], s[i]);
    }
  }

  /** Removes all but the newest `retain` rotated logs. A negative number makes the
      source slice beyond its listing, into the spare part of the array, where
      nothing is removed, or beyond that, where it panics. */
  method PurgeOldLogs(d: Directory, name: string, retain: int, a: Attempt) returns (panicked: bool)
    modifies d
    ensures panicked <==> retain + a.spare < 0
    ensures d.files == if panicked then old(d.files) else Retained(old(d.files), name, retain, a.stuck)
  {
    var found := set x | x in d.files.Keys && IsRotated(x, name);
    var sorted := SortedNames(found);
    ListingSize(sorted, found);
    SurplusIsPrefix(sorted, found, retain);
    if |found| <= retain {
      assert Surplus(found, retain) == {};
      return false;
    }
    if |found| - retain > |found| + a.spare {
      return true;
    }
    var old' := sorted[..if retain < 0 then |sorted| else |sorted| - retain];
    ghost var before := d.files;
    for i := 0 to |old'|
      invariant d.files == before - ((set x | x in old'[..i]) - a.stuck)
    {
      assert old'[..i + 1] == old'[..i] + [old'[i]];
      if old'[i] !in a.stuck {
        d.files := d.files - {old'[i]};
      }
    }
    assert old'[..|old'|] == old';
    assert (set x | x in old') == Surplus(found, retain);
    return false;
  }

  datatype Config = Config(rotation: bool, maxSize: int, retain: int)

  datatype Rotation = Refused | Done | Panicked

  ghost predicate Renames(files: map<string, File>, name: string, a: Attempt) {
    a.connects && a.stops && name in files && a.renames
  }

  /** All there is to say about an attempt to rotate the log `name`: a refused one
      leaves the interval alone, although the log may be renamed by then, and any
      other gives it the rotated name and stretches it to the end of that file. */
  ghost predicate Rotates(r: Rotation, a: Attempt, retain: int, files: map<string, File>, name: string, end: int,
                          files': map<string, File>, name': string, end': int)
  {
    && (r != Refused <==> Renames(files, name, a) && a.starts && a.flushes)
    && (r == Refused ==>
          && name' == name && end' == end
          && files' == if Renames(files, name, a) then Moved(files, name, a) else files)
    && (r != Refused ==>
          && name' == RotatedName(name, a.unixTime) && end' == files[name].size
          && (r == Panicked <==> retain + a.spare < 0)
          && files' == if r == Panicked then Renamed(files, name, a)
                       else Retained(Renamed(files, name, a), name, retain, a.stuck))
  }

  /** No log was rotated later than this attempt. */
  ghost predicate NoneLater(files: map<string, File>, name: string, a: Attempt) {
    forall x :: x in files && IsRotated(x, name) ==>
      x == RotatedName(name, a.unixTime) || Less(x, RotatedName(name, a.unixTime))
  }

  /** Moves the slow log away, has MySQL open a new one and stretches the interval
      to the end of the old one. */
  method RotateSlowLog(interval: Interval, d: Directory, retain: int, a: Attempt) returns (r: Rotation)
    modifies interval`Filename, interval`EndOffset, d
    ensures Rotates(r, a, retain, old(d.files), old(interval.Filename), old(interval.EndOffset),
                    d.files, interval.Filename, interval.EndOffset)
    ensures r == Done && NoneLater(old(d.files), old(interval.Filename), a) ==>
      (interval.Filename in d.files <==> retain >= 1 || interval.Filename in a.stuck)
  {
    hide Less, Surplus, IsRotated, RotatedName;
    if !a.connects { return Refused; }
    if !a.stops { return Refused; }
    var name := interval.Filename;
    var newName := RotatedName(name, a.unixTime);
    if name !in d.files || !a.renames { return Refused; }
    RotatedNameDiffers(name, a.unixTime);
    d.files := (d.files - {name})[newName := d.files[name]];
    if !a.starts { return Refused; }
    if !a.flushes { return Refused; }
    d.files := d.files[name := File(a.newId, 0)];
    interval.Filename := newName;
    interval.EndOffset := d.files[newName].size;
    if NoneLater(old(d.files), name, a) {
      RotatedLogSurvives(old(d.files), name, retain, a);
    }
    var panicked := PurgeOldLogs(d, name, retain, a);
    return if panicked then Panicked else Done;
  }

  lemma RotatedNameDiffers(name: string, unixTime: nat)
    ensures IsRotated(RotatedName(name, unixTime), name) && !IsRotated(name, name)
    ensures RotatedName(name, unixTime) != name
  {
    assert RotatedName(name, unixTime)[..|name + "-"|] == name + "-";
  }

  /** The file a job is to parse, being the newest rotated log, survives if and only
      if at least one is retained or it cannot be removed; with none its job will
      find no file. If nothing is stuck the retained number survives, or all. */
  lemma RotatedLogSurvives(files: map<string, File>, name: string, retain: int, a: Attempt)
    requires name in files && NoneLater(files, name, a)
    ensures var left := Retained(Renamed(files, name, a), name, retain, a.stuck);
      var newName := RotatedName(name, a.unixTime);
      && (newName in left <==> retain >= 1 || newName in a.stuck)
      && (newName in left ==> left[newName] == files[name])
      && name in left && left[name] == File(a.newId, 0)
    ensures a.stuck == {} ==>
      var found := Rotated(Renamed(files, name, a).Keys, name);
      |Rotated(Retained(Renamed(files, name, a), name, retain, {}).Keys, name)| == |found| - TooMany(|found|, retain)
  {
    hide Less, IsRotated, RotatedName, Surplus;
    RotatedNameDiffers(name, a.unixTime);
    var newName, after := RotatedName(name, a.unixTime), Renamed(files, name, a);
    var found := Rotated(after.Keys, name);
    NewestSurvives(found, newName, retain);
    assert name !in found;
    assert Surplus(found, retain) <= found by { SurplusPart(found, retain); }
    RetainedCount(found, retain);
    assert Rotated(Retained(after, name, retain, {}).Keys, name) == found - Surplus(found, retain);
  }

  /** What a rotation does to the other files: each stays as it is, unless it is a rotated
      log with at least `retain` newer ones that can be removed; and no other file
      appears but the rotated log and the new one. */
  lemma OtherFilesStay(files: map<string, File>, name: string, retain: int, a: Attempt, x: string)
    requires name in files && x != name && x != RotatedName(name, a.unixTime)
    ensures var after := Renamed(files, name, a);
      var left := Retained(after, name, retain, a.stuck);
      && (x in left <==>
            && x in files
            && (x in a.stuck || !IsRotated(x, name) || |Newer(x, Rotated(after.Keys, name))| < retain))
      && (x in left ==> left[x] == files[x])
  {
    hide IsRotated, RotatedName, Less;
  }

  /** A log is a rotated one if and only if its name is that of the slow log, a dash and
      something. */
  lemma IsRotatedIff(x: string, name: string)
    ensures IsRotated(x, name) <==> exists y :: x == name + "-" + y
  {
    if IsRotated(x, name) {
      assert x == name + "-" + x[|name| + 1..];
    }
    if y :| x == name + "-" + y {
      assert x[..|name| + 1] == name + "-";
    }
  }

  lemma SurplusPart(names: set<string>, retain: int)
    ensures Surplus(names, retain) <= names
  {
  }

  lemma NewestSurvives(names: set<string>, newest: string, retain: int)
    requires newest in names && forall x :: x in names ==> x == newest || Less(x, newest)
    ensures newest in Surplus(names, retain) <==> retain <= 0
  {
    forall x | x in names ensures !Less(newest, x) {
      LessTotal(newest, x);
    }
    assert Newer(newest, names) == {};
  }

  datatype Job = Job(file: string, start: int, end: int)

  /** The job for an interval, after trying to rotate the log if that is enabled and
      the log has grown too large. */
  method Setup(interval: Interval, config: Config, d: Directory, a: Attempt)
    returns (job: Option<Job>, rotation: Option<Rotation>)
    modifies interval`Filename, interval`EndOffset, d
    ensures job == if rotation == Some(Panicked) then None
      else Some(Job(interval.Filename, old(interval.StartOffset), interval.EndOffset))
    ensures rotation.Some? <==> config.rotation && old(interval.EndOffset) >= config.maxSize
    ensures rotation.Some? ==>
      Rotates(rotation.value, a, config.retain, old(d.files), old(interval.Filename), old(interval.EndOffset),
              d.files, interval.Filename, interval.EndOffset)
    ensures rotation.None? ==>
      && d.files == old(d.files)
      && interval.Filename == old(interval.Filename) && interval.EndOffset == old(interval.EndOffset)
  {
    hide Rotates, NoneLater;
    rotation := None;
    if config.rotation && interval.EndOffset >= config.maxSize {
      var r := RotateSlowLog(interval, d, config.retain, a);
      rotation := Some(r);
      if r == Panicked {
        return None, rotation;
      }
    }
    job := Some(Job(interval.Filename, interval.StartOffset, interval.EndOffset));
  }

  /** For timestamps of equal width the name order is the time order. */
  lemma RotatedOrder(name: string, t: nat, u: nat)
    requires |Decimal(t)| == |Decimal(u)|
    ensures Less(RotatedName(name, t), RotatedName(name, u)) <==> t < u
  {
    DecimalRoundTrip(t);
    DecimalRoundTrip(u);
    DecimalOrder(Decimal(t), Decimal(u));
    LessPrefix(name + "-", Decimal(t), Decimal(u));
  }

  ghost function RotatedNames(name: string, times: set<nat>): set<string> {
    set u | u in times :: RotatedName(name, u)
  }

  ghost function Younger(times: set<nat>, t: nat): set<nat> {
    set u | u in times && t < u
  }

  /** Retention by time: among rotated logs with timestamps of one width, a log is
      removed exactly when at least `retain` of the others are younger. */
  lemma RetentionByTime(name: string, times: set<nat>, retain: int, t: nat)
    requires t in times
    requires forall u :: u in times ==> |Decimal(u)| == |Decimal(t)|
    ensures RotatedName(name, t) in Surplus(RotatedNames(name, times), retain) <==> |Younger(times, t)| >= retain
  {
    hide Less, RotatedName, Decimal;
    forall u | u in times ensures Less(RotatedName(name, t), RotatedName(name, u)) <==> t < u {
      RotatedOrder(name, t, u);
    }
    assert Newer(RotatedName(name, t), RotatedNames(name, times)) == RotatedNames(name, Younger(times, t));
    forall u, v | u in times && v in times && RotatedName(name, u) == RotatedName(name, v) ensures u == v {
      RotatedOrder(name, u, v);
      RotatedOrder(name, v, u);
      LessTotal(RotatedName(name, u), RotatedName(name, v));
    }
    ImageSize(name, Younger(times, t));
  }

  lemma {:induction false} ImageSize(name: string, times: set<nat>)
    requires forall u, v :: u in times && v in times && RotatedName(name, u) == RotatedName(name, v) ==> u == v
    ensures |RotatedNames(name, times)| == |times|
    decreases |times|
  {
    hide RotatedName;
    if times == {} {
      assert RotatedNames(name, times) == {};
    } else {
      var t :| t in times;
      ImageSize(name, times - {t});
      assert RotatedNames(name, times) == RotatedNames(name, times - {t}) + {RotatedName(name, t)};
    }
  }

  /** Logs rotated at times of one width that are not after the attempt. */
  lemma NoneLaterByTime(files: map<string, File>, name: string, times: set<nat>, a: Attempt)
    requires Rotated(files.Keys, name) == RotatedNames(name, times)
    requires forall u :: u in times ==> u <= a.unixTime && |Decimal(u)| == |Decimal(a.unixTime)|
    ensures NoneLater(files, name, a)
  {
    hide Less, RotatedName, Decimal, IsRotated;
    forall x | x in files && IsRotated(x, name)
      ensures x == RotatedName(name, a.unixTime) || Less(x, RotatedName(name, a.unixTime))
    {
      assert x in Rotated(files.Keys, name);
      var u :| u in times && x == RotatedName(name, u);
      RotatedOrder(name, u, a.unixTime);
    }
  }

  // ----- the event loop -------------------------------------------------------------------

  datatype Event = Event(offset: int, rateType: string, rateLimit: int)

  /** An event as the loop meets it: whether a stop was requested by then, how long
      the job has been running and whether its query crashes the fingerprinter. */
  datatype Arrival = Arrival(event: Event, stopRequested: bool, runtime: int, crashes: bool)

  datatype Ending = EndOfLog | PastEnd | Stopped | TimedOut | MixedRates

  ghost predicate SameRate(a: Event, b: Event) {
    a.rateType != "" && b.rateType != "" ==> a.rateType == b.rateType && a.rateLimit == b.rateLimit
  }

  /** The events of the first `n` arrivals that can be fingerprinted. */
  function Fingerprinted(arrivals: seq<Arrival>, n: nat): seq<Event>
    requires n <= |arrivals|
  {
    if n == 0 then [] else
      Fingerprinted(arrivals, n - 1) + (if arrivals[n - 1].crashes then [] else [arrivals[n - 1].event])
  }

  /** How many arrivals the loop takes and why it ends. */
  ghost predicate LoopEnds(arrivals: seq<Arrival>, end: int, runTime: int, taken: nat, ending: Ending) {
    && taken <= |arrivals|
    && (forall i :: 0 <= i < taken ==>
          !arrivals[i].stopRequested && arrivals[i].runtime < runTime && arrivals[i].event.offset < end)
    && (ending == EndOfLog <==> taken == |arrivals|)
    && (taken < |arrivals| ==>
          var a := arrivals[taken];
          match ending
          case Stopped => a.stopRequested
          case TimedOut => !a.stopRequested && a.runtime >= runTime
          case PastEnd => !a.stopRequested && a.runtime < runTime && a.event.offset >= end
          case MixedRates =>
            a.event.offset < end && exists i :: 0 <= i < taken && !SameRate(arrivals[i].event, a.event)
          case EndOfLog => false)
  }

  ghost predicate Seen(arrivals: seq<Arrival>, n: nat, rateType: string, rateLimit: int)
    requires n <= |arrivals|
  {
    exists i :: 0 <= i < n && arrivals[i].event.rateType == rateType && arrivals[i].event.rateLimit == rateLimit
  }

  /** EVENT_LOOP: aggregates arrivals until something ends the job. */
  method AggregateEvents(arrivals: seq<Arrival>, end: int, runTime: int)
    returns (aggregated: seq<Event>, taken: nat, ending: Ending, rateType: string, rateLimit: int)
    ensures LoopEnds(arrivals, end, runTime, taken, ending)
    ensures aggregated == Fingerprinted(arrivals, taken)
    ensures forall i, j :: 0 <= i < taken && 0 <= j < taken ==> SameRate(arrivals[i].event, arrivals[j].event)
    ensures forall i :: 0 <= i < taken && arrivals[i].event.rateType != "" ==>
      arrivals[i].event.rateType == rateType && arrivals[i].event.rateLimit == rateLimit
  {
    aggregated, taken, ending, rateType, rateLimit := [], 0, EndOfLog, "", 0;
    while taken < |arrivals|
      invariant taken <= |arrivals| && aggregated == Fingerprinted(arrivals, taken)
      invariant ending == EndOfLog
      invariant forall i :: 0 <= i < taken ==>
        !arrivals[i].stopRequested && arrivals[i].runtime < runTime && arrivals[i].event.offset < end
      invariant forall i :: 0 <= i < taken && arrivals[i].event.rateType != "" ==>
        arrivals[i].event.rateType == rateType && arrivals[i].event.rateLimit == rateLimit
      invariant rateType != "" ==> Seen(arrivals, taken, rateType, rateLimit)
    {
      var a := arrivals[taken];
      if a.stopRequested {
        ending := Stopped;
        return;
      }
      if a.runtime >= runTime {
        ending := TimedOut;
        return;
      }
      if a.event.offset >= end {
        ending := PastEnd;
        return;
      }
      if a.event.rateType != "" {
        if rateType != "" {
          if rateType != a.event.rateType || rateLimit != a.event.rateLimit {
            ending := MixedRates;
            return;
          }
        } else {
          rateType, rateLimit := a.event.rateType, a.event.rateLimit;
          assert arrivals[taken].event.rateType == rateType;
        }
      }
      if !a.crashes {
        aggregated := aggregated + [a.event];
      }
      taken := taken + 1;
    }
  }

  /** The events of a log whose offset lies in [lo, hi). */
  function Within(log: seq<Event>, lo: int, hi: int): seq<Event> {
    if log == [] then [] else
      var rest := Within(log[..|log| - 1], lo, hi);
      if lo <= log[|log| - 1].offset < hi then rest + [log[|log| - 1]] else rest
  }

  ghost predicate InOrder(log: seq<Event>) {
    forall i, j :: 0 <= i < j < |log| ==> log[i].offset < log[j].offset
  }

  /** What the parser sends for a job that starts at `lo`: the events from there on. */
  ghost predicate ParsedFrom(arrivals: seq<Arrival>, log: seq<Event>, lo: int) {
    exists k :: 0 <= k <= |log| && ParsedSuffix(arrivals, log, lo, k)
  }

  ghost predicate ParsedSuffix(arrivals: seq<Arrival>, log: seq<Event>, lo: int, k: int)
    requires 0 <= k <= |log|
  {
    && |arrivals| == |log| - k
    && (forall i :: 0 <= i < k ==> log[i].offset < lo)
    && (forall i :: k <= i < |log| ==> lo <= log[i].offset)
    && (forall i :: 0 <= i < |arrivals| ==> arrivals[i].event == log[k + i])
  }

  /** The loop ran until the log or the job's range ended. */
  predicate NotEndedEarly(ending: Ending) {
    ending == EndOfLog || ending == PastEnd
  }

  lemma {:induction false} TakenIsWithin(arrivals: seq<Arrival>, log: seq<Event>, lo: int, hi: int, k: nat, taken: nat)
    requires k <= |log| && ParsedSuffix(arrivals, log, lo, k) && taken <= |arrivals|
    requires forall i :: 0 <= i < taken ==> arrivals[i].event.offset < hi && !arrivals[i].crashes
    ensures Fingerprinted(arrivals, taken) == Within(log[..k + taken], lo, hi)
  {
    if taken == 0 {
      NoneWithin(log[..k], lo, hi);
    } else {
      TakenIsWithin(arrivals, log, lo, hi, k, taken - 1);
      assert log[..k + taken][..k + taken - 1] == log[..k + taken - 1];
    }
  }

  lemma {:induction false} NoneWithin(log: seq<Event>, lo: int, hi: int)
    requires forall i :: 0 <= i < |log| ==> !(lo <= log[i].offset < hi)
    ensures Within(log, lo, hi) == []
  {
    if log != [] {
      NoneWithin(log[..|log| - 1], lo, hi);
    }
  }

  lemma {:induction false} WithinSplit(a: seq<Event>, b: seq<Event>, lo: int, hi: int)
    ensures Within(a + b, lo, hi) == Within(a, lo, hi) + Within(b, lo, hi)
  {
    if b == [] {
      assert a + b == a;
    } else {
      assert (a + b)[..|a + b| - 1] == a + b[..|b| - 1];
      WithinSplit(a, b[..|b| - 1], lo, hi);
    }
  }

  /** A job that nothing ends early and whose queries can all be fingerprinted
      aggregates exactly the log's events with an offset in [StartOffset, EndOffset),
      in log order. */
  lemma JobAggregatesItsRange(arrivals: seq<Arrival>, log: seq<Event>, job: Job, runTime: int,
                              taken: nat, ending: Ending)
    requires InOrder(log) && ParsedFrom(arrivals, log, job.start)
    requires LoopEnds(arrivals, job.end, runTime, taken, ending) && NotEndedEarly(ending)
    requires forall i :: 0 <= i < taken ==> !arrivals[i].crashes
    ensures Fingerprinted(arrivals, taken) == Within(log, job.start, job.end)
  {
    hide Within, Fingerprinted;
    var k :| 0 <= k <= |log| && ParsedSuffix(arrivals, log, job.start, k);
    TakenIsWithin(arrivals, log, job.start, job.end, k, taken);
    var tail := log[k + taken..];
    forall i | 0 <= i < |tail| ensures tail[i].offset >= job.end {
      assert tail[i] == log[k + taken + i];
      assert arrivals[taken].event == log[k + taken];
    }
    NoneWithin(tail, job.start, job.end);
    WithinSplit(log[..k + taken], tail, job.start, job.end);
    assert log == log[..k + taken] + tail;
  }

  /** The event can be fingerprinted wherever it is met. */
  ghost predicate CanFingerprint(arrivals: seq<Arrival>, e: Event) {
    forall i :: 0 <= i < |arrivals| && arrivals[i].event == e ==> !arrivals[i].crashes
  }

  ghost predicate ArrivesBefore(arrivals: seq<Arrival>, n: nat, e: Event)
    requires n <= |arrivals|
  {
    exists i :: 0 <= i < n && arrivals[i].event == e
  }

  /** How often a job that nothing ends early aggregates an event that can be
      fingerprinted, whatever becomes of other events: once if it is in the log and
      its offset in the job's range, else not at all. */
  lemma JobAggregatesOnce(arrivals: seq<Arrival>, log: seq<Event>, lo: int, hi: int, runTime: int,
                          taken: nat, ending: Ending, e: Event)
    requires InOrder(log) && ParsedFrom(arrivals, log, lo) && CanFingerprint(arrivals, e)
    requires LoopEnds(arrivals, hi, runTime, taken, ending) && NotEndedEarly(ending)
    ensures multiset(Fingerprinted(arrivals, taken))[e] == if e in log && lo <= e.offset < hi then 1 else 0
  {
    hide Fingerprinted;
    var k :| 0 <= k <= |log| && ParsedSuffix(arrivals, log, lo, k);
    assert forall i, j :: 0 <= i < j < |arrivals| ==> arrivals[i].event.offset < arrivals[j].event.offset;
    AggregatedOnce(arrivals, taken, e);
    if e in log && lo <= e.offset < hi {
      var p :| 0 <= p < |log| && log[p] == e;
      assert arrivals[p - k].event == e;
      if taken < |arrivals| {
        assert arrivals[taken].event.offset >= hi;
      }
    }
    if i :| 0 <= i < taken && arrivals[i].event == e {
      assert log[k + i] == e;
    }
  }

  lemma {:induction false} AggregatedOnce(arrivals: seq<Arrival>, n: nat, e: Event)
    requires n <= |arrivals| && CanFingerprint(arrivals, e)
    requires forall i, j :: 0 <= i < j < |arrivals| ==> arrivals[i].event.offset < arrivals[j].event.offset
    ensures multiset(Fingerprinted(arrivals, n))[e] == if ArrivesBefore(arrivals, n, e) then 1 else 0
  {
    if n > 0 {
      AggregatedOnce(arrivals, n - 1, e);
      var a := arrivals[n - 1];
      assert ArrivesBefore(arrivals, n, e) <==> ArrivesBefore(arrivals, n - 1, e) || a.event == e;
      assert a.event == e ==> !ArrivesBefore(arrivals, n - 1, e);
    }
  }
}
