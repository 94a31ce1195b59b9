/** The data spool: files on disk, a ledger of their number and size, and a purge
    that enforces limits on age, size and number. */
module Spooler {
  import opened Words
  import opened Sums
  import opened Text
  import opened SpoolKeys

  type Bytes = seq<bv8>

  type Files = map<string, Bytes>

  /** The files, the ledger, and the file sizes remembered by Read. */
  datatype Spool = Spool(files: Files, count: Uint64, size: Uint64, fileSize: map<string, nat>)

  ghost function Lengths(files: Files): map<string, int> {
    map k | k in files :: |files[k]|
  }

  ghost function TotalSize(files: Files): int {
    MapSum(Lengths(files))
  }

  /** The ledger agrees with the disk. */
  ghost predicate Accurate(s: Spool) {
    s.count == Wrap(|s.files|) && s.size == Wrap(TotalSize(s.files))
  }

  /** Sizes remembered for files that exist are right. */
  ghost predicate Remembers(s: Spool) {
    forall k :: k in s.fileSize && k in s.files ==> s.fileSize[k] == |s.files[k]|
  }

  function Content(files: Files, key: string): Bytes {
    if key in files then files[key] else []
  }

  // ----- the operations on values ------------------------------------------------------

  /** The ledger is moved even if the data could not be stored. */
  function AfterWrite(s: Spool, key: string, data: Bytes, stored: bool): Spool {
    s.(files := if stored then s.files[key := data] else s.files,
       count := Wrap((s.count as int) + 1),
       size := Wrap((s.size as int) + |data|))
  }

  /** A read that fails yields no bytes and remembers a size of zero. */
  function AfterRead(s: Spool, key: string, readable: bool): Spool {
    s.(fileSize := s.fileSize[key := if readable then |Content(s.files, key)| else 0])
  }

  /** `readable` is whether a read would succeed, and `erased` is false if the file
      exists but cannot be erased. A size that is not remembered is read; it is
      forgotten only if it was remembered before the call. */
  function AfterRemove(s: Spool, key: string, readable: bool, erased: bool): Spool {
    var known := key in s.fileSize;
    var t := if known then s else AfterRead(s, key, readable);
    if !erased then t
    else Spool(t.files - {key},
               Wrap((t.count as int) - 1),
               Wrap((t.size as int) - t.fileSize[key]),
               if known then t.fileSize - {key} else t.fileSize)
  }

  /** The files that cannot be read, and those that cannot be erased. */
  datatype Faults = Faults(unreadable: set<string>, stuck: set<string>)

  const NO_FAULTS := Faults({}, {})

  /** A file that is counted: it has a valid name and can be read. */
  predicate Good(key: string, f: Faults) {
    Timestamp(key).Some? && key !in f.unreadable
  }

  ghost function GoodFiles(files: Files, f: Faults): Files {
    map k | k in files && Good(k, f) :: files[k]
  }

  /** What is left once the other files are erased, as far as they can be. */
  ghost function Swept(files: Files, f: Faults): Files {
    map k | k in files && (Good(k, f) || k in f.stuck) :: files[k]
  }

  /** The recount of updateStats; files that are not good are erased. */
  ghost function Recounted(s: Spool, f: Faults): Spool {
    var good := GoodFiles(s.files, f);
    Spool(Swept(s.files, f), Wrap(|good|), Wrap(TotalSize(good)), s.fileSize)
  }

  // ----- the ledger -------------------------------------------------------------------------

  lemma AddFile(files: Files, key: string, data: Bytes)
    requires key !in files
    ensures |files[key := data]| == |files| + 1
    ensures TotalSize(files[key := data]) == TotalSize(files) + |data|
  {
    assert Lengths(files[key := data]) == Lengths(files)[key := |data|];
    MapSumInsert(Lengths(files), key, |data|);
    assert files[key := data].Keys == files.Keys + {key};
  }

  lemma DropFile(files: Files, key: string)
    requires key in files
    ensures |files - {key}| == |files| - 1
    ensures TotalSize(files - {key}) == TotalSize(files) - |files[key]|
  {
    var rest := files - {key};
    assert rest[key := files[key]] == files;
    AddFile(rest, key, files[key]);
  }

  lemma WrapSuccDiffers(n: int)
    ensures Wrap(n + 1) != Wrap(n) && Wrap(n - 1) != Wrap(n)
  {
  }

  lemma WrapSame(x: Uint64, n: int)
    ensures Wrap((x as int) + n) == Wrap(n) <==> x == 0
  {
  }

  lemma WrapShift(x: int, n: int, d: int)
    requires x == Wrap(n)
    ensures Wrap(x + d) == Wrap(n + d)
  {
  }

  /** A write keeps the ledger accurate if and only if the data is stored under a
      key that is not in use. */
  lemma WriteAccurateIff(s: Spool, key: string, data: Bytes, stored: bool)
    requires Accurate(s)
    ensures Accurate(AfterWrite(s, key, data, stored)) <==> stored && key !in s.files
  {
    hide Wrap, TotalSize;
    var n := |s.files|;
    WrapShift(s.count, n, 1);
    WrapShift(s.size, TotalSize(s.files), |data|);
    WrapSuccDiffers(n);
    if stored && key !in s.files {
      AddFile(s.files, key, data);
    } else if stored {
      assert s.files[key := data].Keys == s.files.Keys;
      assert |s.files[key := data]| == n;
    }
  }

  /** The length by which removing a file moves the ledger. */
  function LengthUsed(s: Spool, key: string, readable: bool): nat {
    if key in s.fileSize then s.fileSize[key] else if readable then |Content(s.files, key)| else 0
  }

  /** Removing an existing file moves the ledger by that length. */
  lemma RemoveMovesLedger(s: Spool, key: string, readable: bool)
    requires Accurate(s) && key in s.files
    ensures var t := AfterRemove(s, key, readable, true);
      && t.count == Wrap(|t.files|)
      && t.size == Wrap(TotalSize(t.files) + |s.files[key]| - LengthUsed(s, key, readable))
  {
    hide Wrap, TotalSize;
    DropFile(s.files, key);
    WrapShift(s.count, |s.files|, -1);
    WrapShift(s.size, TotalSize(s.files), -(LengthUsed(s, key, readable) as int));
  }

  lemma RemoveAbsent(s: Spool, key: string, readable: bool)
    requires Accurate(s) && key !in s.files
    ensures !Accurate(AfterRemove(s, key, readable, true))
  {
    hide TotalSize, Wrap;
    WrapShift(s.count, |s.files|, -1);
    WrapSuccDiffers(|s.files|);
    assert s.files - {key} == s.files;
  }

  lemma WrapOff(n: int, a: int, b: int)
    ensures Wrap(n + a - b) == Wrap(n) <==> Wrap(a) == Wrap(b)
  {
  }

  /** A remove keeps the ledger accurate if and only if it erases an existing file
      of the length remembered for it, or else read from it. */
  lemma RemoveAccurateIff(s: Spool, key: string, readable: bool)
    requires Accurate(s)
    ensures Accurate(AfterRemove(s, key, readable, true)) <==>
      key in s.files && Wrap(LengthUsed(s, key, readable)) == Wrap(|s.files[key]|)
  {
    hide AfterRemove, TotalSize, Wrap, LengthUsed;
    if key in s.files {
      RemoveMovesLedger(s, key, readable);
      var t := AfterRemove(s, key, readable, true);
      WrapOff(TotalSize(t.files), |s.files[key]|, LengthUsed(s, key, readable));
    } else {
      RemoveAbsent(s, key, readable);
    }
  }

  /** If remembered sizes are right and the file can be read, if it exists. */
  lemma RemoveAccurateIfPresent(s: Spool, key: string)
    requires Accurate(s) && Remembers(s)
    ensures Accurate(AfterRemove(s, key, true, true)) <==> key in s.files
  {
    hide AfterRemove, Accurate, Wrap;
    RemoveAccurateIff(s, key, true);
  }

  /** After a failed read a remove keeps the ledger accurate if and only if the file
      exists and its length is a multiple of 2^64, in practice if it is empty. */
  lemma FailedReadSpoilsLedger(s: Spool, key: string, readable: bool)
    requires Accurate(s)
    ensures Accurate(AfterRemove(AfterRead(s, key, false), key, readable, true)) <==>
      key in s.files && Wrap(|s.files[key]|) == 0
    ensures key in s.files && 0 < |s.files[key]| < U64 ==>
      !Accurate(AfterRemove(AfterRead(s, key, false), key, readable, true))
  {
    hide AfterRemove;
    RemoveAccurateIff(AfterRead(s, key, false), key, readable);
    assert Wrap(0) == 0;
  }

  datatype Operation =
    | Write(key: string, data: Bytes)
    | Read(key: string)
    | Remove(key: string)
    | Purge(now: Int64, limits: Limits, unreadable: set<string>)

  /** The operations the spooler is meant for: writes under valid keys that are not in
      use, nor remembered with another size, and removes of files that exist; while it
      purges some files may be unreadable. */
  ghost predicate Proper(s: Spool, op: Operation) {
    match op
    case Write(key, data) => Timestamp(key).Some? && key !in s.files && Recalls(s, key, |data|)
    case Read(_) => true
    case Remove(key) => key in s.files
    case Purge(_, _, _) => true
  }

  ghost function After(s: Spool, op: Operation): Spool {
    match op
    case Write(key, data) => AfterWrite(s, key, data, true)
    case Read(key) => AfterRead(s, key, true)
    case Remove(key) => AfterRemove(s, key, true, true)
    case Purge(now, limits, unreadable) => AfterPurge(s, now, limits, Faults(unreadable, {}))
  }

  ghost predicate Ledger(s: Spool) {
    Accurate(s) && Remembers(s) && forall k :: k in s.files ==> Timestamp(k).Some?
  }

  /** No other size is remembered for this key. A remove that had to read the size
      remembers it for good. */
  ghost predicate Recalls(s: Spool, key: string, len: nat) {
    key in s.fileSize ==> s.fileSize[key] == len
  }

  /** A write keeps the ledger if and only if it is proper. */
  lemma WriteKeepsLedgerIff(s: Spool, key: string, data: Bytes)
    requires Ledger(s)
    ensures Ledger(AfterWrite(s, key, data, true)) <==> Proper(s, Write(key, data))
  {
    hide Accurate, Timestamp;
    WriteAccurateIff(s, key, data, true);
    var t := AfterWrite(s, key, data, true);
    assert key in t.files && t.files[key] == data;
    assert forall k :: k in t.files <==> k in s.files || k == key;
  }

  /** A removed key can be used again for any data if and only if its size was remembered
      before the remove: only then is it forgotten. */
  lemma ReusableIff(s: Spool, key: string, readable: bool)
    requires Timestamp(key).Some?
    ensures (forall data :: Proper(AfterRemove(s, key, readable, true), Write(key, data))) <==> key in s.fileSize
  {
    hide Timestamp, Wrap;
    var t := AfterRemove(s, key, readable, true);
    if key !in s.fileSize {
      var data: Bytes := if t.fileSize[key] == 0 then [0] else [];
      assert !Proper(t, Write(key, data));
    }
  }

  lemma RemoveKeepsLedger(s: Spool, key: string)
    requires Ledger(s) && key in s.files
    ensures Ledger(AfterRemove(s, key, true, true))
  {
    RemoveAccurateIfPresent(s, key);
  }

  lemma LedgerStep(s: Spool, op: Operation)
    requires Ledger(s) && Proper(s, op)
    ensures Ledger(After(s, op))
  {
    hide Accurate, Timestamp, AfterPurge;
    match op {
      case Write(key, data) => WriteKeepsLedgerIff(s, key, data);
      case Read(key) => ReadKeepsAccurate(s, key);
      case Remove(key) => RemoveKeepsLedger(s, key);
      case Purge(now, limits, unreadable) => PurgeRestoresLedger(s, now, limits, unreadable);
    }
  }

  lemma ReadKeepsAccurate(s: Spool, key: string)
    requires Accurate(s)
    ensures Accurate(AfterRead(s, key, true))
  {
  }

  /** Whatever the ledger said, a purge that can erase every file leaves it right,
      even if files cannot be read. */
  lemma PurgeRestoresLedger(s: Spool, now: Int64, limits: Limits, unreadable: set<string>)
    requires Remembers(s)
    ensures Ledger(AfterPurge(s, now, limits, Faults(unreadable, {})))
  {
    hide Timestamp, PurgeKeys, Accurate;
    var f := Faults(unreadable, {});
    var p := PurgeFiles(s, Listing(s.files.Keys), now, limits, f);
    assert Remembers(p.spool) by { PurgeRemembers(Purging(s, NOTHING, 0), Listing(s.files.Keys), now, limits, f); }
    assert Swept(p.spool.files, f) == GoodFiles(p.spool.files, f);
    assert Accurate(Recounted(p.spool, f)) by { RecountIsAccurate(p.spool, f); }
  }

  lemma RecountIsAccurate(s: Spool, f: Faults)
    requires Swept(s.files, f) == GoodFiles(s.files, f)
    ensures Accurate(Recounted(s, f))
  {
  }

  lemma {:induction false} PurgeRemembers(p: Purging, keys: seq<string>, now: Int64, limits: Limits, f: Faults)
    requires Remembers(p.spool) && f.stuck == {}
    ensures Remembers(PurgeKeys(p, keys, now, limits, f).spool)
    decreases keys
  {
    hide Timestamp, Age, Wrap;
    if keys != [] {
      PurgeRemembers(PurgeFile(p, keys[0], now, limits, f), keys[1..], now, limits, f);
    }
  }

  /** Remove erases the file before it takes the lock ... */
  ghost function Erased(s: Spool, key: string): Spool {
    s.(files := s.files - {key})
  }

  /** ... and moves the ledger when it has it. */
  ghost function Debited(s: Spool, len: nat): Spool {
    s.(count := Wrap((s.count as int) - 1), size := Wrap((s.size as int) - len))
  }

  /** If nothing happens in between the ledger is right. If a purge does, whose recount
      already misses the file, the ledger is wrong until the next recount. */
  lemma InterruptedRemoveSpoilsLedger(s: Spool, key: string, now: Int64, limits: Limits)
    requires Ledger(s) && key in s.files
    ensures Accurate(Debited(Erased(s, key), LengthUsed(s, key, true)))
    ensures !Accurate(Debited(AfterPurge(Erased(s, key), now, limits, NO_FAULTS), LengthUsed(s, key, true)))
  {
    hide AfterPurge, Accurate, Debited, LengthUsed;
    UninterruptedRemove(s, key);
    PurgeRestoresLedger(Erased(s, key), now, limits, {});
    DebitSpoils(AfterPurge(Erased(s, key), now, limits, NO_FAULTS), LengthUsed(s, key, true));
  }

  lemma UninterruptedRemove(s: Spool, key: string)
    requires Ledger(s) && key in s.files
    ensures Accurate(Debited(Erased(s, key), LengthUsed(s, key, true)))
  {
    hide Timestamp, Wrap, TotalSize;
    RemoveAccurateIfPresent(s, key);
    var t := AfterRemove(s, key, true, true);
    assert Debited(Erased(s, key), LengthUsed(s, key, true)) == t.(fileSize := s.fileSize);
  }

  lemma DebitSpoils(s: Spool, len: nat)
    requires Accurate(s)
    ensures !Accurate(Debited(s, len))
  {
    hide Wrap, TotalSize;
    WrapShift(s.count, |s.files|, -1);
    WrapSuccDiffers(|s.files|);
  }

  /** A recount keeps exactly the files with a valid name that can be read, and those that
      cannot be erased, as they are, and counts the former. */
  lemma RecountKeepsIff(s: Spool, f: Faults, key: string)
    ensures key in Recounted(s, f).files <==>
      key in s.files && ((Timestamp(key).Some? && key !in f.unreadable) || key in f.stuck)
    ensures key in Recounted(s, f).files ==> Recounted(s, f).files[key] == s.files[key]
    ensures key in GoodFiles(s.files, f) <==> key in s.files && Timestamp(key).Some? && key !in f.unreadable
  {
    hide Timestamp;
  }

  /** Counting the files afresh gives the ledger that is already there. */
  lemma RecountChangesNothing(s: Spool)
    requires Ledger(s)
    ensures Recounted(s, NO_FAULTS) == s
  {
    assert GoodFiles(s.files, NO_FAULTS) == s.files == Swept(s.files, NO_FAULTS);
  }

  ghost predicate ProperRun(trace: seq<Spool>, ops: seq<Operation>) {
    && |trace| == |ops| + 1
    && forall i :: 0 <= i < |ops| ==> Proper(trace[i], ops[i]) && trace[i + 1] == After(trace[i], ops[i])
  }

  /** Over every sequence of proper operations on a spool whose ledger is accurate
      at the start, the ledger stays accurate and a recount changes nothing. */
  lemma {:induction false} LedgerStaysAccurate(trace: seq<Spool>, ops: seq<Operation>, k: nat)
    requires ProperRun(trace, ops) && Ledger(trace[0]) && k < |trace|
    ensures Ledger(trace[k]) && Recounted(trace[k], NO_FAULTS) == trace[k]
  {
    hide Ledger, Recounted;
    if k > 0 {
      LedgerStaysAccurate(trace, ops, k - 1);
      LedgerStep(trace[k - 1], ops[k - 1]);
    }
    RecountChangesNothing(trace[k]);
  }

  /** The keys that occur in the spool or in the first k operations. */
  ghost function Mentioned(s: Spool, ops: seq<Operation>, k: nat): set<string>
    requires k <= |ops|
  {
    if k == 0 then s.files.Keys + s.fileSize.Keys
    else Mentioned(s, ops, k - 1) + if ops[k - 1].Purge? then {} else {ops[k - 1].key}
  }

  ghost predicate Within(s: Spool, keys: set<string>) {
    s.files.Keys <= keys && s.fileSize.Keys <= keys
  }

  lemma {:induction false} PurgeWithin(p: Purging, keys: seq<string>, now: Int64, limits: Limits, f: Faults,
                                       all: set<string>)
    requires Within(p.spool, all) && forall i :: 0 <= i < |keys| ==> keys[i] in all
    ensures Within(PurgeKeys(p, keys, now, limits, f).spool, all)
    decreases keys
  {
    hide Timestamp, Age, Wrap;
    if keys != [] {
      assert forall i :: 0 <= i < |keys[1..]| ==> keys[1..][i] == keys[i + 1];
      PurgeWithin(PurgeFile(p, keys[0], now, limits, f), keys[1..], now, limits, f, all);
    }
  }

  lemma WithinStep(s: Spool, op: Operation, all: set<string>)
    requires Within(s, all)
    ensures Within(After(s, op), all + if op.Purge? then {} else {op.key})
  {
    hide Timestamp, Wrap, Age, PurgeKeys, Less;
    if op.Purge? {
      var keys := Listing(s.files.Keys);
      PurgeWithin(Purging(s, NOTHING, 0), keys, op.now, op.limits, Faults(op.unreadable, {}), all);
    }
  }

  lemma {:induction false} RunWithin(trace: seq<Spool>, ops: seq<Operation>, k: nat)
    requires |trace| == |ops| + 1 && k < |trace|
    requires forall i :: 0 <= i < k ==> trace[i + 1] == After(trace[i], ops[i])
    ensures Within(trace[k], Mentioned(trace[0], ops, k))
  {
    hide After, Within;
    if k == 0 {
      assert Within(trace[0], Mentioned(trace[0], ops, 0)) by { WithinItself(trace[0], ops); }
    } else {
      RunWithin(trace, ops, k - 1);
      WithinStep(trace[k - 1], ops[k - 1], Mentioned(trace[0], ops, k - 1));
    }
  }

  lemma WithinItself(s: Spool, ops: seq<Operation>)
    ensures Within(s, Mentioned(s, ops, 0))
  {
  }

  /** Writes are under valid keys that were never used before, and removes of files that
      exist. */
  ghost predicate FreshRun(trace: seq<Spool>, ops: seq<Operation>) {
    && |trace| == |ops| + 1
    && (forall i :: 0 <= i < |ops| ==> trace[i + 1] == After(trace[i], ops[i]))
    && (forall i :: 0 <= i < |ops| && ops[i].Write? ==>
          Timestamp(ops[i].key).Some? && ops[i].key !in Mentioned(trace[0], ops, i))
    && (forall i :: 0 <= i < |ops| && ops[i].Remove? ==> ops[i].key in trace[i].files)
  }

  /** Then every operation is proper and the ledger stays accurate. */
  lemma FreshKeysKeepLedger(trace: seq<Spool>, ops: seq<Operation>, k: nat)
    requires FreshRun(trace, ops) && Ledger(trace[0]) && k < |trace|
    ensures ProperRun(trace, ops) && Ledger(trace[k]) && Recounted(trace[k], NO_FAULTS) == trace[k]
  {
    hide After, Ledger, Timestamp, Recounted, Mentioned;
    forall i | 0 <= i < |ops| ensures Proper(trace[i], ops[i]) {
      RunWithin(trace, ops, i);
    }
    LedgerStaysAccurate(trace, ops, k);
  }

  // ----- purge ---------------------------------------------------------------------------------

  const SECOND: int := 1_000_000_000

  datatype Limits = Limits(maxAge: Uint64, maxSize: Uint64, maxFiles: Uint64)

  datatype Removed = Removed(age: seq<string>, size: seq<string>, files: seq<string>, purged: seq<string>)

  const NOTHING := Removed([], [], [], [])

  /** int64 arithmetic wraps. */
  function WrapSigned(x: int): Int64 {
    (x - I64_MIN) % U64 + I64_MIN
  }

  /** Go divides integers towards zero. */
  function TruncatedSeconds(x: int): int {
    if x >= 0 then x / SECOND else -((-x) / SECOND)
  }

  /** uint((nowNano - ts) / 1000000000). */
  function Age(now: Int64, ts: Int64): Uint64 {
    Wrap(TruncatedSeconds(WrapSigned((now as int) - (ts as int))))
  }

  datatype Purging = Purging(spool: Spool, removed: Removed, n: nat)

  predicate PurgesAll(limits: Limits) {
    limits.maxAge == 0 || limits.maxSize == 0 || limits.maxFiles == 0
  }

  /** The body of the purge loop for one file. */
  function PurgeFile(p: Purging, key: string, now: Int64, limits: Limits, f: Faults): Purging {
    var after := AfterRemove(p.spool, key, key !in f.unreadable, key !in f.stuck);
    var ts := Timestamp(key);
    if ts.None? then p.(spool := after)
    else if PurgesAll(limits) then Purging(after, p.removed.(purged := p.removed.purged + [key]), p.n + 1)
    else if Age(now, ts.value) > limits.maxAge then Purging(after, p.removed.(age := p.removed.age + [key]), p.n + 1)
    else if p.spool.size > limits.maxSize then Purging(after, p.removed.(size := p.removed.size + [key]), p.n + 1)
    else if p.spool.count > limits.maxFiles then Purging(after, p.removed.(files := p.removed.files + [key]), p.n + 1)
    else p
  }

  function PurgeKeys(p: Purging, keys: seq<string>, now: Int64, limits: Limits, f: Faults): Purging
    decreases keys
  {
    if keys == [] then p
    else PurgeKeys(PurgeFile(p, keys[0], now, limits, f), keys[1..], now, limits, f)
  }

  function PurgeFiles(s: Spool, keys: seq<string>, now: Int64, limits: Limits, f: Faults): Purging {
    PurgeKeys(Purging(s, NOTHING, 0), keys, now, limits, f)
  }

  /** The whole of purge: the loop over the files and the deferred recount. */
  ghost function AfterPurge(s: Spool, now: Int64, limits: Limits, f: Faults): Spool {
    Recounted(PurgeFiles(s, Listing(s.files.Keys), now, limits, f).spool, f)
  }

  lemma {:induction false} PurgeKeepsLedger(p: Purging, keys: seq<string>, now: Int64, limits: Limits)
    requires Ledger(p.spool) && Ascending(keys)
    requires forall i :: 0 <= i < |keys| ==> keys[i] in p.spool.files
    ensures Ledger(PurgeKeys(p, keys, now, limits, NO_FAULTS).spool)
    decreases keys
  {
    hide Ledger, Timestamp, Age;
    if keys != [] {
      var q := PurgeFile(p, keys[0], now, limits, NO_FAULTS);
      RemoveKeepsLedger(p.spool, keys[0]);
      forall i | 0 <= i < |keys[1..]| ensures keys[1..][i] in q.spool.files {
        LessTotal(keys[0], keys[i + 1]);
      }
      PurgeKeepsLedger(q, keys[1..], now, limits);
    }
  }

  lemma {:induction false} PurgeKeysAppend(p: Purging, keys: seq<string>, key: string, now: Int64, limits: Limits,
                                          f: Faults)
    ensures PurgeKeys(p, keys + [key], now, limits, f)
         == PurgeFile(PurgeKeys(p, keys, now, limits, f), key, now, limits, f)
    decreases keys
  {
    hide PurgeFile;
    if keys == [] {
      assert keys + [key] == [key];
      assert [key][1..] == [];
    } else {
      assert (keys + [key])[1..] == keys[1..] + [key];
      PurgeKeysAppend(PurgeFile(p, keys[0], now, limits, f), keys[1..], key, now, limits, f);
    }
  }

  // ----- what is stored --------------------------------------------------------------------------

  ghost predicate Listed(r: Removed, key: string) {
    key in r.age || key in r.size || key in r.files || key in r.purged
  }

  /** Every file keeps its contents. */
  ghost predicate Part(files: Files, of: Files) {
    forall k :: k in files ==> k in of && files[k] == of[k]
  }

  lemma {:induction false} PurgeListsWhatItRemoves(p: Purging, keys: seq<string>, now: Int64, limits: Limits, f: Faults,
                                                  key: string)
    ensures var q := PurgeKeys(p, keys, now, limits, f);
      && Part(q.spool.files, p.spool.files)
      && (Listed(p.removed, key) ==> Listed(q.removed, key))
      && (key in p.spool.files && Timestamp(key).Some? && !Listed(q.removed, key) ==> key in q.spool.files)
    decreases keys
  {
    hide Timestamp, Age, Wrap;
    if keys != [] {
      PurgeListsWhatItRemoves(PurgeFile(p, keys[0], now, limits, f), keys[1..], now, limits, f, key);
    }
  }

  /** The operation may take the file away or change it: it writes or removes it, or it is
      a purge that lists it, cannot read it or does not know its name. */
  ghost predicate Touches(s: Spool, op: Operation, key: string) {
    match op
    case Write(k, _) => k == key
    case Read(_) => false
    case Remove(k) => k == key
    case Purge(now, limits, unreadable) =>
      || key in unreadable || Timestamp(key).None?
      || Listed(PurgeFiles(s, Listing(s.files.Keys), now, limits, Faults(unreadable, {})).removed, key)
  }

  /** A write stores exactly its bytes, and whatever an operation does not touch stays as
      it is; nothing else appears. */
  lemma UntouchedStays(s: Spool, op: Operation, key: string)
    ensures op.Write? && op.key == key ==> key in After(s, op).files && After(s, op).files[key] == op.data
    ensures key in s.files && !Touches(s, op, key) ==>
      key in After(s, op).files && After(s, op).files[key] == s.files[key]
    ensures key in After(s, op).files && !(op.Write? && op.key == key) ==>
      key in s.files && After(s, op).files[key] == s.files[key]
  {
    hide Timestamp, Wrap, PurgeKeys, Less;
    if op.Purge? {
      PurgeListsWhatItRemoves(Purging(s, NOTHING, 0), Listing(s.files.Keys), op.now, op.limits,
                              Faults(op.unreadable, {}), key);
    }
  }

  /** Over every run: what was written under a key is what is stored there until a later
      operation touches it. */
  lemma {:induction false} WrittenStays(trace: seq<Spool>, ops: seq<Operation>, i: nat, j: nat)
    requires |trace| == |ops| + 1 && i < j < |trace| && ops[i].Write?
    requires forall m :: 0 <= m < |ops| ==> trace[m + 1] == After(trace[m], ops[m])
    requires forall m :: i < m < j ==> !Touches(trace[m], ops[m], ops[i].key)
    ensures ops[i].key in trace[j].files && trace[j].files[ops[i].key] == ops[i].data
    decreases j
  {
    hide After, Touches;
    if j > i + 1 {
      WrittenStays(trace, ops, i, j - 1);
    }
    UntouchedStays(trace[j - 1], ops[j - 1], ops[i].key);
  }

  // ----- the spooler object ---------------------------------------------------------------------

  /** The good files among the keys visited so far. */
  ghost function Visited(files: Files, keys: seq<string>, f: Faults): Files {
    map k | k in files && k in keys && Good(k, f) :: files[k]
  }

  /** What is on disk once the others among those keys are erased. */
  ghost function Pruned(files: Files, keys: seq<string>, f: Faults): Files {
    map k | k in files && (k in keys ==> Good(k, f) || k in f.stuck) :: files[k]
  }

  ghost predicate IsOldest(oldest: int, now: int, files: Files) {
    && oldest <= now
    && (forall k :: k in files && Timestamp(k).Some? ==> oldest <= Timestamp(k).value)
    && (oldest == now || exists k :: k in files && Timestamp(k) == Some(oldest))
  }

  ghost predicate Counts(count: int, size: int, count0: int, size0: int, files: Files) {
    count == Wrap(count0 + |files|) && size == Wrap(size0 + TotalSize(files))
  }

  lemma VisitStep(files: Files, keys: seq<string>, key: string, f: Faults)
    requires key in files && key !in keys
    ensures !Good(key, f) ==> Visited(files, keys + [key], f) == Visited(files, keys, f)
    ensures !Good(key, f) ==> Pruned(files, keys + [key], f) == Pruned(files, keys, f) - ({key} - f.stuck)
    ensures Good(key, f) ==> key !in Visited(files, keys, f)
    ensures Good(key, f) ==> Visited(files, keys + [key], f) == Visited(files, keys, f)[key := files[key]]
    ensures Good(key, f) ==> Pruned(files, keys + [key], f) == Pruned(files, keys, f)
    ensures key in Pruned(files, keys, f)
  {
    hide Good;
  }

  lemma CountStep(count: int, size: int, count0: int, size0: int, files: Files, key: string, data: Bytes)
    requires Counts(count, size, count0, size0, files) && key !in files
    ensures Counts(Wrap(count + 1), Wrap(size + |data|), count0, size0, files[key := data])
  {
    hide Wrap, TotalSize;
    AddFile(files, key, data);
    WrapShift(count, count0 + |files|, 1);
    WrapShift(size, size0 + TotalSize(files), |data|);
  }

  lemma OldestStep(oldest: int, now: int, files: Files, key: string, data: Bytes)
    requires IsOldest(oldest, now, files) && key !in files && Timestamp(key).Some?
    ensures IsOldest(if Timestamp(key).value < oldest then Timestamp(key).value else oldest, now, files[key := data])
  {
    hide Timestamp;
    var next := files[key := data];
    assert key in next;
    if oldest != now {
      var k :| k in files && Timestamp(k) == Some(oldest);
      assert k in next;
    }
  }

  lemma CountsAccurateIff(s: Spool, good: Files, count0: Uint64, size0: Uint64)
    requires Counts(s.count, s.size, count0, size0, good) && |s.files| < U64
    requires forall k :: k in good ==> k in s.files && s.files[k] == good[k]
    ensures s.files == good ==> (Accurate(s) <==> count0 == 0 && size0 == 0)
    ensures count0 == 0 && size0 == 0 ==> (Accurate(s) <==> s.files == good)
  {
    hide TotalSize, Wrap;
    if s.files == good {
      WrapSame(count0, |s.files|);
      WrapSame(size0, TotalSize(s.files));
    } else {
      FewerFiles(good, s.files);
      WrapInRange(|good|);
      WrapInRange(|s.files|);
    }
  }

  lemma FewerFiles(part: Files, files: Files)
    requires part != files && forall k :: k in part ==> k in files && files[k] == part[k]
    ensures |part| < |files|
  {
    var rest := files.Keys - part.Keys;
    assert files.Keys == part.Keys + rest;
    assert part.Keys == files.Keys ==> part == files;
  }

  lemma TallyStart(files: Files, count: Uint64, size: Uint64, f: Faults)
    ensures Visited(files, [], f) == map[] && Pruned(files, [], f) == files
    ensures Counts(count, size, count, size, map[])
  {
    EmptyTotal(map[]);
    WrapInRange(count);
    WrapInRange(size);
  }

  lemma TallyEnd(files: Files, keys: seq<string>, f: Faults)
    requires Lists(keys, files.Keys)
    ensures Visited(files, keys, f) == GoodFiles(files, f) && Pruned(files, keys, f) == Swept(files, f)
    ensures GoodFiles(Swept(files, f), f) == GoodFiles(files, f)
  {
    hide Good;
  }

  class DiskvSpooler {
    var files: Files
    var count: Uint64
    var size: Uint64
    var oldest: int
    var fileSize: map<string, nat>

    ghost function St(): Spool
      reads this
    {
      Spool(files, count, size, fileSize)
    }

    constructor (files: Files)
      ensures St() == Spool(files, 0, 0, map[])
    {
      this.files, count, size, oldest, fileSize := files, 0, 0, 0, map[];
    }

    /** After `seen` of the files `all` were visited, starting from the given ledger. */
    ghost predicate Tallied(all: Files, seen: seq<string>, f: Faults, count0: int, size0: int, now: int)
      reads this
    {
      && files == Pruned(all, seen, f)
      && Counts(count, size, count0, size0, Visited(all, seen, f))
      && IsOldest(oldest, now, Visited(all, seen, f))
    }

    /** The loop body of Start and updateStats. */
    method TallyFile(key: string, f: Faults, ghost all: Files, ghost seen: seq<string>,
                     ghost count0: int, ghost size0: int, ghost now: int)
      requires key in all && key !in seen && Tallied(all, seen, f, count0, size0, now)
      modifies this`files, this`count, this`size, this`oldest
      ensures Tallied(all, seen + [key], f, count0, size0, now)
    {
      hide Wrap, Timestamp, TotalSize, Counts, IsOldest, Visited, Pruned;
      VisitStep(all, seen, key, f);
      var ts := Timestamp(key);
      if key in f.unreadable || ts.None? {
        if key !in f.stuck {
          files := files - {key};
        }
        return;
      }
      PrunedContent(all, seen, key, f);
      CountStep(count, size, count0, size0, Visited(all, seen, f), key, files[key]);
      OldestStep(oldest, now, Visited(all, seen, f), key, files[key]);
      if ts.value < oldest {
        oldest := ts.value;
      }
      count := Wrap((count as int) + 1);
      size := Wrap((size as int) + |files[key]|);
    }

    /** The loop over all files of Start and updateStats: adds every file that can be
        read and has a valid name to the ledger and erases the others. */
    method Tally(now: int, f: Faults)
      modifies this
      ensures files == Swept(old(files), f) && fileSize == old(fileSize)
      ensures GoodFiles(files, f) == GoodFiles(old(files), f)
      ensures Counts(count, size, old(count), old(size), GoodFiles(files, f))
      ensures IsOldest(oldest, now, GoodFiles(files, f))
    {
      hide Counts, IsOldest, Visited, Pruned, GoodFiles, Swept, Less;
      oldest := now;
      var keys := SortedNames(files.Keys);
      ghost var all := files;
      TallyStart(all, count, size, f);
      NothingOlder(now);
      assert keys[..0] == [];
      for i := 0 to |keys|
        invariant fileSize == old(fileSize)
        invariant Tallied(all, keys[..i], f, old(count), old(size), now)
      {
        NotEarlier(keys, i);
        assert keys[..i + 1] == keys[..i] + [keys[i]];
        TallyFile(keys[i], f, all, keys[..i], old(count), old(size), now);
      }
      assert keys[..|keys|] == keys;
      TallyEnd(all, keys, f);
    }

    /** Adds to whatever the ledger holds. If no file that should be erased is left,
        it is accurate afterwards if and only if it was empty before; if it was
        empty, if and only if no such file is left. */
    method Start(now: int, f: Faults)
      modifies this
      ensures files == Swept(old(files), f) && fileSize == old(fileSize)
      ensures Counts(count, size, old(count), old(size), GoodFiles(files, f))
      ensures IsOldest(oldest, now, GoodFiles(files, f))
      ensures |files| < U64 && files == GoodFiles(files, f) ==>
        (Accurate(St()) <==> old(count) == 0 && old(size) == 0)
      ensures |files| < U64 && old(count) == 0 && old(size) == 0 ==>
        (Accurate(St()) <==> files == GoodFiles(files, f))
      ensures |files| < U64 && old(count) == 0 && old(size) == 0 && old(fileSize) == map[] ==>
        (Ledger(St()) <==> files == GoodFiles(files, f))
    {
      hide Accurate, Counts, IsOldest, Swept, Good;
      Tally(now, f);
      if |files| < U64 {
        CountsAccurateIff(St(), GoodFiles(files, f), old(count), old(size));
        GoodAreValid(files, f);
      }
    }

    method UpdateStats(now: int, f: Faults)
      modifies this
      ensures St() == Recounted(old(St()), f)
      ensures IsOldest(oldest, now, GoodFiles(files, f))
    {
      hide IsOldest, GoodFiles, Swept;
      count, size := 0, 0;
      Tally(now, f);
    }

    /** The write case of run. */
    method WriteData(key: string, ts: int, data: Bytes, stored: bool)
      modifies this
      ensures St() == AfterWrite(old(St()), key, data, stored)
      ensures oldest == if ts < old(oldest) then ts else old(oldest)
    {
      if stored {
        files := files[key := data];
      }
      count := Wrap((count as int) + 1);
      size := Wrap((size as int) + |data|);
      if ts < oldest {
        oldest := ts;
      }
    }

    method Read(key: string, readable: bool) returns (data: Bytes, ok: bool)
      modifies this`fileSize
      ensures St() == AfterRead(old(St()), key, readable)
      ensures ok <==> readable && key in files
      ensures data == if ok then files[key] else []
    {
      ok := readable && key in files;
      data := if ok then files[key] else [];
      fileSize := fileSize[key := |data|];
    }

    method Remove(key: string, readable: bool, erased: bool)
      modifies this`files, this`count, this`size, this`fileSize
      ensures St() == AfterRemove(old(St()), key, readable, erased)
    {
      var known := key in fileSize;
      var len;
      if known {
        len := fileSize[key];
      } else {
        var data, _ := Read(key, readable);
        len := |data|;
      }
      if !erased {
        return;
      }
      files := files - {key};
      count := Wrap((count as int) - 1);
      size := Wrap((size as int) - len);
      if known {
        fileSize := fileSize - {key};
      }
    }

    /** Visits the files in name order, removes those over a limit, recounts. */
    method Purge(now: Int64, limits: Limits, f: Faults) returns (n: nat, removed: Removed)
      modifies this
      ensures var p := PurgeFiles(old(St()), Listing(old(files).Keys), now, limits, f);
        n == p.n && removed == p.removed
      ensures St() == AfterPurge(old(St()), now, limits, f)
    {
      hide Timestamp, Age, Recounted;
      removed, n := NOTHING, 0;
      var purge := PurgesAll(limits);
      var keys := SortedNames(files.Keys);
      ghost var start := Purging(St(), NOTHING, 0);
      for i := 0 to |keys|
        invariant Purging(St(), removed, n) == PurgeKeys(start, keys[..i], now, limits, f)
      {
        var key := keys[i];
        assert keys[..i + 1] == keys[..i] + [key];
        PurgeKeysAppend(start, keys[..i], key, now, limits, f);
        var ts := Timestamp(key);
        if ts.None? {
          Remove(key, key !in f.unreadable, key !in f.stuck);
          continue;
        }
        var age := Age(now, ts.value);
        if purge {
          removed := removed.(purged := removed.purged + [key]);
        } else if age > limits.maxAge {
          removed := removed.(age := removed.age + [key]);
        } else if size > limits.maxSize {
          removed := removed.(size := removed.size + [key]);
        } else if count > limits.maxFiles {
          removed := removed.(files := removed.files + [key]);
        } else {
          continue;
        }
        Remove(key, key !in f.unreadable, key !in f.stuck);
        n := n + 1;
      }
      assert keys[..|keys|] == keys;
      UpdateStats(now, f);
    }
  }

  lemma GoodAreValid(files: Files, f: Faults)
    ensures files == GoodFiles(files, f) ==> forall k :: k in files ==> Timestamp(k).Some?
  {
    hide Timestamp;
  }

  lemma NothingOlder(now: int)
    ensures IsOldest(now, now, map[])
  {
  }

  lemma PrunedContent(files: Files, keys: seq<string>, key: string, f: Faults)
    requires key in Pruned(files, keys, f)
    ensures key in files && Pruned(files, keys, f)[key] == files[key]
  {
  }

  lemma EmptyTotal(files: Files)
    requires files == map[]
    ensures TotalSize(files) == 0
  {
    assert Lengths(files) == map[];
  }

  lemma NotEarlier(keys: seq<string>, i: nat)
    requires Ascending(keys) && i < |keys|
    ensures keys[i] !in keys[..i]
  {
    LessTotal(keys[i], keys[i]);
  }
}
