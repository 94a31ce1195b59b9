/** Which files a purge keeps. */
module SpoolPurge {
  import opened Words
  import opened Text
  import opened SpoolKeys
  import opened Spooler

  ghost predicate AllValid(keys: seq<string>) {
    forall i :: 0 <= i < |keys| ==> Timestamp(keys[i]).Some?
  }

  function AgeOf(now: Int64, key: string): Uint64
    requires Timestamp(key).Some?
  {
    Age(now, Timestamp(key).value)
  }

  /** The total length of the listed files. */
  ghost function SizeOf(files: Files, keys: seq<string>): nat {
    if keys == [] then 0 else |Content(files, keys[0])| + SizeOf(files, keys[1..])
  }

  /** These files together are within all limits. */
  ghost predicate Fits(files: Files, keys: seq<string>, now: Int64, limits: Limits)
    requires AllValid(keys)
  {
    && (forall i :: 0 <= i < |keys| ==> AgeOf(now, keys[i]) <= limits.maxAge)
    && SizeOf(files, keys) <= limits.maxSize
    && |keys| <= limits.maxFiles
  }

  /** In name order no file is followed by an older one. Files of zero and of one
      second may mix: no non-zero limit tells them apart. */
  ghost predicate NewestLast(keys: seq<string>, now: Int64)
    requires AllValid(keys)
  {
    forall i, j :: 0 <= i <= j < |keys| ==> NotOlder(AgeOf(now, keys[j]), AgeOf(now, keys[i]))
  }

  predicate NotOlder(age: int, than: int) {
    age <= than || age <= 1
  }

  lemma {:induction false} TotalIsSizeOf(files: Files, all: Files, keys: seq<string>)
    requires Lists(keys, files.Keys)
    requires forall k :: k in files ==> k in all && all[k] == files[k]
    ensures TotalSize(files) == SizeOf(all, keys)
    decreases keys
  {
    if keys == [] {
      assert files.Keys == {};
      EmptyTotal(files);
    } else {
      assert keys[0] in files;
      ListingTail(keys, files.Keys);
      DropFile(files, keys[0]);
      assert (files - {keys[0]}).Keys == files.Keys - {keys[0]};
      TotalIsSizeOf(files - {keys[0]}, all, keys[1..]);
    }
  }

  /** Files that are within the limits are all kept. */
  lemma {:induction false} PurgeKeepsAll(p: Purging, keys: seq<string>, now: Int64, limits: Limits)
    requires AllValid(keys) && !PurgesAll(limits)
    requires forall i :: 0 <= i < |keys| ==> AgeOf(now, keys[i]) <= limits.maxAge
    requires p.spool.size <= limits.maxSize && p.spool.count <= limits.maxFiles
    ensures PurgeKeys(p, keys, now, limits, NO_FAULTS) == p
    decreases keys
  {
    hide Timestamp, Age;
    if keys != [] {
      assert AgeOf(now, keys[0]) <= limits.maxAge;
      assert forall i :: 0 <= i < |keys[1..]| ==> keys[1..][i] == keys[i + 1];
      PurgeKeepsAll(p, keys[1..], now, limits);
    }
  }

  /** A spool that holds exactly the listed files of `all`, with a true ledger. */
  ghost predicate Holds(s: Spool, all: Files, keys: seq<string>) {
    && Ledger(s) && Lists(keys, s.files.Keys)
    && (forall k :: k in s.files ==> k in all && all[k] == s.files[k])
    && s.count == |keys| && s.size == SizeOf(all, keys)
  }

  lemma HoldsAfterRemove(s: Spool, all: Files, keys: seq<string>)
    requires Holds(s, all, keys) && keys != []
    ensures Holds(AfterRemove(s, keys[0], true, true), all, keys[1..])
    ensures AfterRemove(s, keys[0], true, true).files == s.files - {keys[0]}
    ensures SizeOf(all, keys[1..]) <= SizeOf(all, keys)
  {
    hide Ledger, Timestamp, Less;
    var t := AfterRemove(s, keys[0], true, true);
    assert keys[0] in s.files;
    RemoveKeepsLedger(s, keys[0]);
    ListingTail(keys, s.files.Keys);
    assert t.files.Keys == s.files.Keys - {keys[0]};
    LedgerIsExact(s, keys[0], |keys| - 1, SizeOf(all, keys[1..]));
  }

  lemma LedgerIsExact(s: Spool, key: string, count: nat, size: nat)
    requires Ledger(s) && key in s.files && s.count == count + 1 && s.size == size + |s.files[key]|
    ensures AfterRemove(s, key, true, true).count == count && AfterRemove(s, key, true, true).size == size
  {
    hide Timestamp, Accurate;
    WrapInRange(count);
    WrapInRange(size);
  }

  /** Purging is limited, not of everything. */
  ghost predicate NonZero(limits: Limits) {
    limits.maxAge > 0 && limits.maxSize > 0 && limits.maxFiles > 0
  }

  /** When a file of a listing is rightly removed for a cause, in plain terms: it is over
      the age limit; else with it the rest is over the size limit; else with it the rest
      is over the limit on the number of files. */
  ghost predicate RemovedFor(c: Cause, all: Files, keys: seq<string>, i: nat, now: Int64, limits: Limits)
    requires AllValid(keys) && i < |keys|
  {
    match c
    case TooOld => AgeOf(now, keys[i]) > limits.maxAge
    case TooBig => AgeOf(now, keys[i]) <= limits.maxAge && SizeOf(all, keys[i..]) > limits.maxSize
    case TooMany =>
      && AgeOf(now, keys[i]) <= limits.maxAge && SizeOf(all, keys[i..]) <= limits.maxSize
      && |keys| - i > limits.maxFiles
  }

  ghost predicate RightlyRemoved(u: Purged, all: Files, keys: seq<string>, now: Int64, limits: Limits)
    requires AllValid(keys)
  {
    && |u.old'| + |u.big| + |u.many| <= |keys|
    && forall i :: 0 <= i < |u.old'| + |u.big| + |u.many| ==> RemovedFor(u.CauseAt(i), all, keys, i, now, limits)
  }

  lemma RemovedForTail(c: Cause, all: Files, keys: seq<string>, i: nat, now: Int64, limits: Limits)
    requires AllValid(keys) && 0 < i < |keys|
    ensures AllValid(keys[1..]) && keys[1..][i - 1] == keys[i]
    ensures RemovedFor(c, all, keys[1..], i - 1, now, limits) <==> RemovedFor(c, all, keys, i, now, limits)
  {
    hide Timestamp, Age, SizeOf;
    assert keys[1..][i - 1..] == keys[i..];
  }

  lemma RemovedForHead(c: Cause, s: Spool, all: Files, keys: seq<string>, now: Int64, limits: Limits)
    requires keys != [] && AllValid(keys) && Holds(s, all, keys)
    requires CauseOf(s, keys[0], now, limits) == Some(c)
    ensures RemovedFor(c, all, keys, 0, now, limits)
  {
    hide Timestamp, Age, SizeOf, Ledger, Lists;
    assert keys[0..] == keys;
  }

  lemma RightlyStep(u: Purged, c: Cause, s: Spool, all: Files, keys: seq<string>, now: Int64, limits: Limits)
    requires keys != [] && AllValid(keys) && AllValid(keys[1..]) && Holds(s, all, keys)
    requires RightlyRemoved(u, all, keys[1..], now, limits)
    requires CauseOf(s, keys[0], now, limits) == Some(c)
    requires (c != TooOld ==> u.old' == []) && (c == TooMany ==> u.big == [])
    ensures RightlyRemoved(u.Preceded(c, keys[0]), all, keys, now, limits)
  {
    hide RemovedFor, AllValid, Holds;
    var w := u.Preceded(c, keys[0]);
    forall i | 0 <= i < |w.old'| + |w.big| + |w.many| ensures RemovedFor(w.CauseAt(i), all, keys, i, now, limits) {
      if i == 0 {
        RemovedForHead(c, s, all, keys, now, limits);
      } else {
        assert w.CauseAt(i) == u.CauseAt(i - 1);
        RemovedForTail(w.CauseAt(i), all, keys, i, now, limits);
      }
    }
  }

  /** Why a file is purged. */
  datatype Cause = TooOld | TooBig | TooMany

  function CauseOf(s: Spool, key: string, now: Int64, limits: Limits): Option<Cause>
    requires Timestamp(key).Some?
  {
    if AgeOf(now, key) > limits.maxAge then Some(TooOld)
    else if s.size > limits.maxSize then Some(TooBig)
    else if s.count > limits.maxFiles then Some(TooMany)
    else None
  }

  /** Files purged for each cause, in order. */
  datatype Purged = Purged(old': seq<string>, big: seq<string>, many: seq<string>) {
    ghost function Flat(): seq<string> { old' + big + many }

    /** The cause of the i-th removal. */
    ghost function CauseAt(i: nat): Cause {
      if i < |old'| then TooOld else if i < |old'| + |big| then TooBig else TooMany
    }

    ghost function Preceded(c: Cause, key: string): Purged {
      match c
      case TooOld => this.(old' := [key] + old')
      case TooBig => this.(big := [key] + big)
      case TooMany => this.(many := [key] + many)
    }
  }

  ghost function Extended(r: Removed, u: Purged): Removed {
    Removed(r.age + u.old', r.size + u.big, r.files + u.many, r.purged)
  }

  function One(c: Cause, key: string): Purged {
    match c
    case TooOld => Purged([key], [], [])
    case TooBig => Purged([], [key], [])
    case TooMany => Purged([], [], [key])
  }

  lemma PurgeFileByCause(p: Purging, key: string, now: Int64, limits: Limits)
    requires Timestamp(key).Some? && !PurgesAll(limits)
    ensures var c := CauseOf(p.spool, key, now, limits);
      PurgeFile(p, key, now, limits, NO_FAULTS) ==
        if c.None? then p
        else Purging(AfterRemove(p.spool, key, true, true), Extended(p.removed, One(c.value, key)), p.n + 1)
  {
    hide Timestamp, Age, AfterRemove;
    var r := p.removed;
    assert r.age + [] == r.age && r.size + [] == r.size && r.files + [] == r.files;
  }

  lemma ExtendedTwice(r: Removed, c: Cause, key: string, u: Purged)
    ensures Extended(Extended(r, One(c, key)), u) == Extended(r, u.Preceded(c, key))
  {
    assert r.age + [key] + u.old' == r.age + ([key] + u.old');
    assert r.size + [key] + u.big == r.size + ([key] + u.big);
    assert r.files + [key] + u.many == r.files + ([key] + u.many);
    assert r.age + [] == r.age && r.size + [] == r.size && r.files + [] == r.files;
  }

  lemma FlatPreceded(c: Cause, key: string, u: Purged)
    requires c != TooOld ==> u.old' == []
    requires c == TooMany ==> u.big == []
    ensures u.Preceded(c, key).Flat() == [key] + u.Flat()
  {
    assert [key] + u.old' + u.big + u.many == [key] + (u.old' + u.big + u.many);
  }

  /** The listing must lose its first j files and no fewer to fit. */
  ghost predicate IsCut(all: Files, keys: seq<string>, now: Int64, limits: Limits, j: nat)
    requires AllValid(keys)
  {
    && j <= |keys|
    && Fits(all, keys[j..], now, limits)
    && forall i :: 0 <= i < j ==> !Fits(all, keys[i..], now, limits)
  }

  lemma CutStep(all: Files, keys: seq<string>, now: Int64, limits: Limits, j: nat)
    requires AllValid(keys) && keys != [] && !Fits(all, keys, now, limits)
    requires IsCut(all, keys[1..], now, limits, j)
    ensures IsCut(all, keys, now, limits, j + 1)
  {
    hide Fits, Timestamp;
    assert keys[j + 1..] == keys[1..][j..];
    forall i | 0 <= i < j + 1 ensures !Fits(all, keys[i..], now, limits) {
      if i > 0 { assert keys[i..] == keys[1..][i - 1..]; } else { assert keys[0..] == keys; }
    }
  }

  lemma NewestLastTail(keys: seq<string>, now: Int64)
    requires AllValid(keys) && NewestLast(keys, now) && keys != []
    ensures AllValid(keys[1..]) && NewestLast(keys[1..], now)
    ensures keys[1..] != [] ==> NotOlder(AgeOf(now, keys[1..][0]), AgeOf(now, keys[0]))
    ensures forall i :: 0 <= i < |keys| ==> NotOlder(AgeOf(now, keys[i]), AgeOf(now, keys[0]))
  {
    hide Timestamp, Age;
    assert forall i :: 0 <= i < |keys[1..]| ==> keys[1..][i] == keys[i + 1];
  }

  /** From p to q exactly the first j files of a listing are purged, under u, each for the
      right cause, and no fewer would do. */
  ghost predicate Cuts(p: Purging, q: Purging, all: Files, keys: seq<string>, now: Int64, limits: Limits,
                       j: nat, u: Purged)
    requires AllValid(keys)
  {
    && j <= |keys| && IsCut(all, keys, now, limits, j)
    && u.Flat() == keys[..j] && |u.old'| + |u.big| + |u.many| == j
    && RightlyRemoved(u, all, keys, now, limits)
    && Holds(q.spool, all, keys[j..]) && q.n == p.n + j && q.removed == Extended(p.removed, u)
  }

  /** Nothing has to be purged for age, or for size, if the first file is within the limit. */
  ghost predicate NoneBefore(all: Files, keys: seq<string>, now: Int64, limits: Limits, u: Purged)
    requires AllValid(keys)
  {
    keys != [] && AgeOf(now, keys[0]) <= limits.maxAge ==>
      u.old' == [] && (SizeOf(all, keys) <= limits.maxSize ==> u.big == [])
  }

  lemma CutsNothing(p: Purging, all: Files, keys: seq<string>, now: Int64, limits: Limits)
    requires AllValid(keys) && Holds(p.spool, all, keys) && Fits(all, keys, now, limits)
    ensures Cuts(p, p, all, keys, now, limits, 0, Purged([], [], []))
  {
    hide Holds, Fits;
    assert keys[0..] == keys && keys[..0] == [];
    CutNone(all, keys, now, limits);
    ExtendedNothing(p.removed);
    NothingRemoved(all, keys, now, limits);
  }

  lemma CutsOneMore(p: Purging, p1: Purging, q: Purging, all: Files, keys: seq<string>, now: Int64, limits: Limits,
                    c: Cause, j: nat, u: Purged)
    requires keys != [] && AllValid(keys) && AllValid(keys[1..]) && Holds(p.spool, all, keys)
    requires CauseOf(p.spool, keys[0], now, limits) == Some(c) && !Fits(all, keys, now, limits)
    requires p1.n == p.n + 1 && p1.removed == Extended(p.removed, One(c, keys[0]))
    requires Cuts(p1, q, all, keys[1..], now, limits, j, u)
    requires (c != TooOld ==> u.old' == []) && (c == TooMany ==> u.big == [])
    ensures Cuts(p, q, all, keys, now, limits, j + 1, u.Preceded(c, keys[0]))
  {
    hide AllValid, Holds, Fits, IsCut, Extended, RightlyRemoved, CauseOf;
    var tail := keys[1..];
    CutStep(all, keys, now, limits, j);
    assert keys[j + 1..] == tail[j..] && keys[..j + 1] == [keys[0]] + tail[..j];
    ExtendedTwice(p.removed, c, keys[0], u);
    FlatPreceded(c, keys[0], u);
    RightlyStep(u, c, p.spool, all, keys, now, limits);
  }

  lemma NoneBeforeStep(s: Spool, all: Files, keys: seq<string>, now: Int64, limits: Limits, c: Cause, u: Purged)
    requires keys != [] && AllValid(keys) && AllValid(keys[1..]) && Holds(s, all, keys) && NonZero(limits)
    requires keys[1..] != [] ==> NotOlder(AgeOf(now, keys[1..][0]), AgeOf(now, keys[0]))
    requires SizeOf(all, keys[1..]) <= SizeOf(all, keys) && (keys[1..] == [] ==> u.old' == [] && u.big == [])
    requires CauseOf(s, keys[0], now, limits) == Some(c) && NoneBefore(all, keys[1..], now, limits, u)
    ensures (c != TooOld ==> u.old' == []) && (c == TooMany ==> u.big == [])
    ensures NoneBefore(all, keys, now, limits, u.Preceded(c, keys[0]))
  {
    hide AllValid, Timestamp, Age, Ledger, Lists;
    CauseMeansNoFit(s, all, keys, now, limits);
  }

  /** Purging a held listing removes a prefix of it: first the files that are too
      old, then files for size, then files for number, and stops at the first
      suffix that fits. */
  lemma {:induction false} PurgeCuts(p: Purging, all: Files, keys: seq<string>, now: Int64, limits: Limits)
    returns (j: nat, u: Purged)
    requires Holds(p.spool, all, keys) && AllValid(keys) && NewestLast(keys, now) && NonZero(limits)
    ensures Cuts(p, PurgeKeys(p, keys, now, limits, NO_FAULTS), all, keys, now, limits, j, u)
    ensures NoneBefore(all, keys, now, limits, u)
    decreases keys
  {
    hide Timestamp, AgeOf, Holds, Fits, AfterRemove, NewestLast, Extended, PurgeFile, Cuts, NoneBefore;
    if keys == [] {
      NothingFits(all, now, limits);
      CutsNothing(p, all, keys, now, limits);
      NoneBeforeNone(all, keys, now, limits);
      return 0, Purged([], [], []);
    }
    NewestLastTail(keys, now);
    PurgeFileByCause(p, keys[0], now, limits);
    var c := CauseOf(p.spool, keys[0], now, limits);
    if c.None? {
      NoCauseFits(p.spool, all, keys, now, limits);
      PurgeKeepsAll(p, keys[1..], now, limits);
      CutsNothing(p, all, keys, now, limits);
      NoneBeforeNone(all, keys, now, limits);
      return 0, Purged([], [], []);
    }
    HoldsAfterRemove(p.spool, all, keys);
    CauseMeansNoFit(p.spool, all, keys, now, limits);
    var p1 := PurgeFile(p, keys[0], now, limits, NO_FAULTS);
    var j1, u1 := PurgeCuts(p1, all, keys[1..], now, limits);
    var q := PurgeKeys(p1, keys[1..], now, limits, NO_FAULTS);
    if keys[1..] == [] {
      CutsNoneOf(p1, q, all, keys[1..], now, limits, j1, u1);
    }
    NoneBeforeStep(p.spool, all, keys, now, limits, c.value, u1);
    CutsOneMore(p, p1, q, all, keys, now, limits, c.value, j1, u1);
    return j1 + 1, u1.Preceded(c.value, keys[0]);
  }

  lemma NoneBeforeNone(all: Files, keys: seq<string>, now: Int64, limits: Limits)
    requires AllValid(keys)
    ensures NoneBefore(all, keys, now, limits, Purged([], [], []))
  {
  }

  lemma CutsNoneOf(p: Purging, q: Purging, all: Files, keys: seq<string>, now: Int64, limits: Limits, j: nat, u: Purged)
    requires AllValid(keys) && keys == [] && Cuts(p, q, all, keys, now, limits, j, u)
    ensures u.old' == [] && u.big == []
  {
  }

  lemma NothingRemoved(all: Files, keys: seq<string>, now: Int64, limits: Limits)
    requires AllValid(keys)
    ensures RightlyRemoved(Purged([], [], []), all, keys, now, limits)
  {
  }

  lemma NothingFits(all: Files, now: Int64, limits: Limits)
    ensures Fits(all, [], now, limits)
  {
  }

  lemma NoCauseFits(s: Spool, all: Files, keys: seq<string>, now: Int64, limits: Limits)
    requires AllValid(keys) && keys != [] && Holds(s, all, keys)
    requires forall i :: 0 <= i < |keys| ==> NotOlder(AgeOf(now, keys[i]), AgeOf(now, keys[0]))
    requires CauseOf(s, keys[0], now, limits).None? && !PurgesAll(limits)
    ensures Fits(all, keys, now, limits)
    ensures s.size <= limits.maxSize && s.count <= limits.maxFiles
    ensures forall i :: 0 <= i < |keys[1..]| ==> AgeOf(now, keys[1..][i]) <= limits.maxAge
  {
    hide Timestamp, Age, Ledger, Lists;
    assert forall i :: 0 <= i < |keys[1..]| ==> keys[1..][i] == keys[i + 1];
  }

  lemma CauseMeansNoFit(s: Spool, all: Files, keys: seq<string>, now: Int64, limits: Limits)
    requires AllValid(keys) && keys != [] && Holds(s, all, keys)
    requires CauseOf(s, keys[0], now, limits).Some?
    ensures !Fits(all, keys, now, limits)
    ensures SizeOf(all, keys) <= limits.maxSize && AgeOf(now, keys[0]) <= limits.maxAge ==>
      CauseOf(s, keys[0], now, limits) == Some(TooMany)
    ensures AgeOf(now, keys[0]) <= limits.maxAge ==> CauseOf(s, keys[0], now, limits) != Some(TooOld)
    ensures CauseOf(s, keys[0], now, limits) != Some(TooOld) ==> AgeOf(now, keys[0]) <= limits.maxAge
    ensures CauseOf(s, keys[0], now, limits) == Some(TooMany) ==> SizeOf(all, keys) <= limits.maxSize
  {
    hide Timestamp, Age, Ledger, Lists;
  }

  lemma CutNone(all: Files, keys: seq<string>, now: Int64, limits: Limits)
    requires AllValid(keys) && Fits(all, keys, now, limits)
    ensures IsCut(all, keys, now, limits, 0)
  {
    assert keys[0..] == keys;
  }

  lemma ExtendedNothing(r: Removed)
    ensures Extended(r, Purged([], [], [])) == r
  {
    assert r.age + [] == r.age && r.size + [] == r.size && r.files + [] == r.files;
  }

  ghost function Restrict(files: Files, keys: seq<string>): Files {
    map k | k in files && k in keys :: files[k]
  }

  /** What a purge should do: what is left is the longest suffix of the listing
      that is within all three limits; the removed files are reported once each,
      in order, under age, size and files, for the right reason; n is their number;
      and the final recount changes nothing. */
  ghost predicate KeepsSuffix(s: Spool, now: Int64, limits: Limits, j: nat)
    requires AllValid(Listing(s.files.Keys))
  {
    var keys := Listing(s.files.Keys);
    var p := PurgeFiles(s, keys, now, limits, NO_FAULTS);
    && IsCut(s.files, keys, now, limits, j) && j <= |keys|
    && p.spool.files == Restrict(s.files, keys[j..])
    && p.removed.age + p.removed.size + p.removed.files == keys[..j]
    && |p.removed.age| + |p.removed.size| + |p.removed.files| == j
    && RightlyRemoved(Purged(p.removed.age, p.removed.size, p.removed.files), s.files, keys, now, limits)
    && p.removed.purged == [] && p.n == j
    && Recounted(p.spool, NO_FAULTS) == p.spool
  }

  ghost predicate Purgeable(s: Spool) {
    Ledger(s) && |s.files| < U64 && TotalSize(s.files) < U64
  }

  /** With an accurate ledger, no file followed by an older one and non-zero limits
      a purge does that. */
  lemma PurgeKeepsLongestFittingSuffix(s: Spool, now: Int64, limits: Limits) returns (j: nat)
    requires Purgeable(s) && NonZero(limits)
    requires AllValid(Listing(s.files.Keys)) && NewestLast(Listing(s.files.Keys), now)
    ensures KeepsSuffix(s, now, limits, j)
  {
    hide Timestamp, Age, Less, NewestLast, Fits, RightlyRemoved, Ledger, PurgeKeys, Listing;
    var keys := Listing(s.files.Keys);
    HoldsAtStart(s, keys);
    var u;
    j, u := PurgeCuts(Purging(s, NOTHING, 0), s.files, keys, now, limits);
    var p := PurgeFiles(s, keys, now, limits, NO_FAULTS);
    assert p.removed == Removed(u.old', u.big, u.many, []);
    IsRestricted(s.files, p.spool, keys, j);
    RecountChangesNothing(p.spool);
  }

  /** In particular for files of one service, with timestamps of one width that are
      not ahead of the clock. */
  lemma PurgeOfOneService(s: Spool, service: string, now: Int64, limits: Limits) returns (j: nat)
    requires Purgeable(s) && NonZero(limits)
    requires AllValid(Listing(s.files.Keys)) && OneService(Listing(s.files.Keys), service, now)
    ensures KeepsSuffix(s, now, limits, j)
  {
    hide Ledger, KeepsSuffix, Listing;
    OneServiceIsNewestLast(Listing(s.files.Keys), service, now);
    j := PurgeKeepsLongestFittingSuffix(s, now, limits);
  }

  ghost predicate AlwaysKeepsSuffix(s: Spool, now: Int64)
    requires AllValid(Listing(s.files.Keys))
  {
    forall limits :: NonZero(limits) ==> exists j: nat :: KeepsSuffix(s, now, limits, j)
  }

  /** And only then: a spool is purged that way under all non-zero limits if and only
      if no file in its listing is followed by an older one. */
  lemma AlwaysKeepsSuffixIff(s: Spool, now: Int64)
    requires Purgeable(s) && AllValid(Listing(s.files.Keys))
    ensures AlwaysKeepsSuffix(s, now) <==> NewestLast(Listing(s.files.Keys), now)
  {
    hide Timestamp, Age, Ledger, KeepsSuffix, NonZero, Listing, Less;
    var keys := Listing(s.files.Keys);
    if NewestLast(keys, now) {
      forall limits | NonZero(limits) ensures exists j: nat :: KeepsSuffix(s, now, limits, j) {
        var j := PurgeKeepsLongestFittingSuffix(s, now, limits);
      }
    } else {
      var i, j :| 0 <= i <= j < |keys| && !NotOlder(AgeOf(now, keys[j]), AgeOf(now, keys[i]));
      var limits := AgeLimit(AgeOf(now, keys[j]));
      assert NonZero(limits) by { AgeLimitIsPositive(AgeOf(now, keys[j])); }
      if cut: nat :| KeepsSuffix(s, now, limits, cut) {
        YoungKeptOldPurged(s, keys, now, limits, i, j, cut);
      }
    }
  }

  /** The limits that purge files of this age, and nothing for size or number. */
  function AgeLimit(age: Uint64): Limits {
    Limits(if age > 0 then age - 1 else 0, U64 - 1, U64 - 1)
  }

  lemma AgeLimitIsPositive(age: Uint64)
    requires age >= 2
    ensures NonZero(AgeLimit(age)) && AgeLimit(age).maxAge == age - 1
  {
  }

  /** A young file before an old one: purging the old one leaves no suffix. */
  lemma YoungKeptOldPurged(s: Spool, keys: seq<string>, now: Int64, limits: Limits, i: nat, j: nat, cut: nat)
    requires keys == Listing(s.files.Keys) && AllValid(keys) && i <= j < |keys|
    requires limits == AgeLimit(AgeOf(now, keys[j])) && !NotOlder(AgeOf(now, keys[j]), AgeOf(now, keys[i]))
    ensures !KeepsSuffix(s, now, limits, cut)
  {
    hide Timestamp, Age, Listing, Less, Fits, Recounted;
    PurgeByAgeOnly(Purging(s, NOTHING, 0), keys, now, limits);
    assert keys[i] in s.files && keys[j] in s.files;
    if cut <= |keys| && keys[i] in keys[cut..] {
      SuffixGoesOn(keys, cut, i, j);
    }
  }

  lemma SuffixGoesOn(keys: seq<string>, cut: nat, i: nat, j: nat)
    requires Ascending(keys) && cut <= |keys| && i <= j < |keys| && keys[i] in keys[cut..]
    ensures keys[j] in keys[cut..]
  {
    var tail := keys[cut..];
    var m :| 0 <= m < |tail| && tail[m] == keys[i];
    LessTotal(keys[cut + m], keys[i]);
    assert tail[j - cut] == keys[j];
  }

  /** If size and number are not limited, age alone decides. */
  lemma {:induction false} PurgeByAgeOnly(p: Purging, keys: seq<string>, now: Int64, limits: Limits)
    requires AllValid(keys) && NonZero(limits) && limits.maxSize == limits.maxFiles == U64 - 1
    ensures var files := PurgeKeys(p, keys, now, limits, NO_FAULTS).spool.files;
      forall k :: k in files <==> k in p.spool.files && !(k in keys && AgeOf(now, k) > limits.maxAge)
    decreases keys
  {
    hide Timestamp, Age, Wrap;
    if keys != [] {
      var tail := keys[1..];
      assert AllValid(tail) by { assert forall i :: 0 <= i < |tail| ==> tail[i] == keys[i + 1]; }
      PurgeByAgeOnly(PurgeFile(p, keys[0], now, limits, NO_FAULTS), tail, now, limits);
      assert forall k :: k in keys <==> k == keys[0] || k in tail;
    }
  }

  lemma HoldsAtStart(s: Spool, keys: seq<string>)
    requires Ledger(s) && Lists(keys, s.files.Keys) && |s.files| < U64 && TotalSize(s.files) < U64
    ensures Holds(s, s.files, keys) && AllValid(keys)
  {
    hide Timestamp, Ascending;
    ListingSize(keys, s.files.Keys);
    TotalIsSizeOf(s.files, s.files, keys);
    WrapInRange(TotalSize(s.files));
    WrapInRange(|s.files|);
  }

  lemma IsRestricted(all: Files, s: Spool, keys: seq<string>, j: nat)
    requires j <= |keys| && Holds(s, all, keys[j..])
    ensures s.files == Restrict(all, keys[j..])
  {
    hide Ledger, Ascending;
  }

  /** If any limit is zero every file is purged. */
  lemma {:induction false} PurgeTakesAll(p: Purging, all: Files, keys: seq<string>, now: Int64, limits: Limits)
    requires Holds(p.spool, all, keys) && AllValid(keys) && !NonZero(limits)
    ensures var q := PurgeKeys(p, keys, now, limits, NO_FAULTS);
      && Holds(q.spool, all, []) && q.spool.files == map[]
      && q.n == p.n + |keys|
      && q.removed == p.removed.(purged := p.removed.purged + keys)
    decreases keys
  {
    hide Timestamp, Age, Holds, AfterRemove;
    if keys == [] {
      assert p.removed.purged + keys == p.removed.purged;
      HoldsNothing(p.spool, all);
    } else {
      HoldsAfterRemove(p.spool, all, keys);
      var tail := keys[1..];
      assert AllValid(tail) by { assert forall i :: 0 <= i < |tail| ==> tail[i] == keys[i + 1]; }
      PurgeTakesAll(PurgeFile(p, keys[0], now, limits, NO_FAULTS), all, tail, now, limits);
      Append3(p.removed.purged, keys);
    }
  }

  lemma HoldsNothing(s: Spool, all: Files)
    requires Holds(s, all, [])
    ensures s.files == map[]
  {
    assert s.files.Keys == {};
  }

  lemma Append3(a: seq<string>, keys: seq<string>)
    requires keys != []
    ensures a + [keys[0]] + keys[1..] == a + keys
  {
  }

  // ----- when files get younger in name order ----------------------------------------------

  /** Between zero and now the age is the elapsed whole seconds. */
  lemma AgeOfPast(now: Int64, ts: Int64)
    requires 0 <= ts <= now
    ensures Age(now, ts) == (now - ts) / 1_000_000_000
  {
    assert WrapSigned((now as int) - (ts as int)) == now - ts;
    WrapInRange((now - ts) / SECOND);
  }

  ghost predicate OneService(keys: seq<string>, service: string, now: Int64)
    requires AllValid(keys)
  {
    && (forall i :: 0 <= i < |keys| ==>
          && keys[i] == Key(service, Timestamp(keys[i]).value)
          && 0 <= Timestamp(keys[i]).value <= now)
    && (forall i, j :: 0 <= i < |keys| && 0 <= j < |keys| ==>
          |PrintInt(Timestamp(keys[i]).value)| == |PrintInt(Timestamp(keys[j]).value)|)
  }

  /** Files of one service, with timestamps of one width that are not ahead of the
      clock, get younger in name order. */
  lemma OneServiceIsNewestLast(keys: seq<string>, service: string, now: Int64)
    requires Ascending(keys) && AllValid(keys) && OneService(keys, service, now)
    ensures NewestLast(keys, now)
  {
    hide Timestamp, Key, PrintInt, Less, Age;
    forall i, j | 0 <= i <= j < |keys| ensures AgeOf(now, keys[j]) <= AgeOf(now, keys[i]) {
      var t, u := Timestamp(keys[i]).value, Timestamp(keys[j]).value;
      if i < j {
        KeyOrder(service, t, u);
      }
      AgeOfPast(now, t);
      AgeOfPast(now, u);
      DivideMonotone(now - u, now - t);
    }
  }

  lemma DivideMonotone(a: int, b: int)
    requires 0 <= a <= b
    ensures a / SECOND <= b / SECOND
  {
  }

  /** A file stamped ahead of the clock counts as recent for less than a second;
      beyond that its negative age wraps and every sensible limit purges it. */
  lemma FutureFilesCountAsOld(now: Int64, ts: Int64)
    requires 0 <= now < ts
    ensures Age(now, ts) == 0 <==> ts - now < SECOND
    ensures ts - now >= SECOND ==> Age(now, ts) > I64_MAX
  {
    var d := ts - now;
    assert WrapSigned((now as int) - (ts as int)) == -d;
    if d >= SECOND {
      assert 0 < d / SECOND < I64_MAX;
    }
  }

  /** With two services the order of names is not the order of time: a purge for
      number drops the newest file, of service "agent", and keeps an old one. */
  lemma TwoServicesPurgeTheNewest(s: Spool, t: Int64, u: Int64, now: Int64, limits: Limits)
    requires 0 <= t < u <= now
    requires s.files == map[Key("agent", u) := [1], Key("mysql", t) := [1]] && Ledger(s)
    requires (now - t) / SECOND <= limits.maxAge && 0 < limits.maxAge && 2 <= limits.maxSize && limits.maxFiles == 1
    ensures Listing(s.files.Keys) == [Key("agent", u), Key("mysql", t)]
    ensures PurgeFiles(s, Listing(s.files.Keys), now, limits, NO_FAULTS).spool.files == map[Key("mysql", t) := [1]]
  {
    hide Key, Timestamp, Age;
    var a, b := Key("agent", u), Key("mysql", t);
    var keys := [a, b];
    assert Less(a, b) by { ServiceOrderOfNames("agent", "mysql", u, t); }
    LessTotal(a, b);
    assert s.files.Keys == {a, b};
    assert Lists(keys, {a, b}) by { assert keys[0] == a && keys[1] == b; }
    ListingUnique(Listing({a, b}), keys, {a, b});
    KeyRoundTrip("agent", u);
    KeyRoundTrip("mysql", t);
    AgeOfPast(now, t);
    AgeOfPast(now, u);
    DivideMonotone(now - u, now - t);
    TwoFiles(s, a, b);
    var p := Purging(s, NOTHING, 0);
    PurgeFileByCause(p, a, now, limits);
    var q := PurgeFile(p, a, now, limits, NO_FAULTS);
    PurgeFileByCause(q, b, now, limits);
    assert q.spool.files == map[b := [1]];
    assert keys[1..] == [b] && [b][1..] == [];
    assert PurgeKeys(q, [b], now, limits, NO_FAULTS) == q;
  }

  lemma TwoFiles(s: Spool, a: string, b: string)
    requires a != b && s.files == map[a := [1], b := [1]] && Ledger(s)
    ensures s.count == 2 && s.size == 2
    ensures AfterRemove(s, a, true, true).count == 1 && AfterRemove(s, a, true, true).size == 1
    ensures AfterRemove(s, a, true, true).files == map[b := [1]]
  {
    hide Timestamp, Wrap, TotalSize;
    var one := map[b := [1]];
    assert one[a := [1]] == s.files && map[][b := [1]] == one;
    AddFile(one, a, [1]);
    AddFile(map[], b, [1]);
    EmptyTotal(map[]);
    WrapInRange(2);
    LedgerIsExact(s, a, 1, 1);
    assert s.files - {a} == one;
  }
}
