/** The data sender: delivers spooled files with bounded retries. */
module Sender {
  import opened Words
  import opened Text
  import opened Spooler
  import opened SenderStats

  const MAX_SEND_ERRORS := 3

  /** What happens to the bytes of one file. */
  datatype Reply = SendFails | RecvFails | Code(code: int)

  /** One turn of the retry loop: whether time is up, whether the API can be
      reached, and for the i-th file whether time is up then, whether the file can
      be read, what happens to it and whether it can be erased. */
  datatype Attempt = Attempt(late: bool, connects: bool, lateAt: nat -> bool,
                             readable: nat -> bool, reply: nat -> Reply, erasable: nat -> bool)

  datatype Why = Acknowledged(code: int) | Blackholed | Empty

  /** A file to be taken off the spool: the turn and the place in its listing, the
      bytes, the reason, and whether it could be erased, which the sender does not
      look at. */
  datatype Removal = Removal(turn: nat, at: nat, file: string, data: Bytes, why: Why, erased: bool)

  /** The codes after which a file is removed. */
  predicate Final(code: int) {
    200 <= code < 300 || 400 <= code < 500
  }

  predicate Bad(r: Removal) {
    r.why.Acknowledged? && 400 <= r.why.code < 500
  }

  // ----- one file ----------------------------------------------------------------------

  /** A file is removed only if everything is discarded, if it is empty, or if its
      bytes are acknowledged. */
  function Reason(blackhole: bool, data: Bytes, reply: Reply): Option<Why> {
    if blackhole then Some(Blackholed)
    else if data == [] then Some(Empty)
    else if reply.Code? && Final(reply.code) then Some(Acknowledged(reply.code))
    else None
  }

  /** What comes after a file: the next one, the end of the run, or another turn. */
  datatype After = GoOn | Stop | Retry

  function Follows(blackhole: bool, data: Bytes, reply: Reply): After {
    if blackhole || data == [] then GoOn
    else if !reply.Code? then Retry
    else if reply.code >= 500 || reply.code == 299 then Stop
    else if Final(reply.code) then GoOn
    else Retry
  }

  /** The counters after a file. Bytes count as sent without being acknowledged. */
  function Counting(sent: SentInfo, blackhole: bool, data: Bytes, reply: Reply): SentInfo {
    if blackhole || data == [] || reply.SendFails? then sent
    else
      var acked, code := reply.Code? && Final(reply.code), if reply.Code? then reply.code else 0;
      sent.(bytes := sent.bytes + |data|,
            files := sent.files + if acked then 1 else 0,
            badFiles := sent.badFiles + if acked && code >= 400 then 1 else 0,
            apiErrs := sent.apiErrs + if code >= 500 then 1 else 0)
  }

  /** The state of a run. */
  datatype Progress = Progress(spool: Spool, sent: SentInfo, removals: seq<Removal>)

  function AfterFile(p: Progress, file: string, data: Bytes, a: Attempt, turn: nat, at: nat,
                     blackhole: bool): Progress
  {
    var why, sent := Reason(blackhole, data, a.reply(at)), Counting(p.sent, blackhole, data, a.reply(at));
    if why.None? then p.(sent := sent)
    else Progress(AfterRemove(p.spool, file, true, a.erasable(at)), sent,
                  p.removals + [Removal(turn, at, file, data, why.value, a.erasable(at))])
  }

  // ----- one turn ----------------------------------------------------------------------

  /** The files keys[i..] in one turn; the flag is false if there must be another. */
  function Turn(p: Progress, keys: seq<string>, i: nat, a: Attempt, turn: nat, blackhole: bool): (r: (Progress, bool))
    requires i <= |keys|
    ensures r.0.sent.errs == p.sent.errs && r.0.sent.begin == p.sent.begin
    decreases |keys| - i
  {
    if i == |keys| then (p, true)
    else if a.lateAt(i) then (p.(sent := p.sent.(timeouts := p.sent.timeouts + 1)), true)
    else
      var ok := a.readable(i) && keys[i] in p.spool.files;
      var read := p.(spool := AfterRead(p.spool, keys[i], a.readable(i)));
      if !ok then (read, false)
      else
        var data := p.spool.files[keys[i]];
        var q := AfterFile(read, keys[i], data, a, turn, i, blackhole);
        match Follows(blackhole, data, a.reply(i))
        case GoOn => Turn(q, keys, i + 1, a, turn, blackhole)
        case Stop => (q, true)
        case Retry => (q, false)
  }

  // ----- the run -------------------------------------------------------------------------

  /** The retry loop from turn `turn` on, and how many connections it tried. */
  ghost function Turns(p: Progress, turn: nat, attempts: nat -> Attempt, blackhole: bool): (Progress, nat)
    decreases MAX_SEND_ERRORS - p.sent.errs
  {
    if p.sent.apiErrs != 0 || p.sent.errs >= MAX_SEND_ERRORS || p.sent.timeouts != 0 then (p, turn)
    else
      var a := attempts(turn);
      if a.late then (p.(sent := p.sent.(timeouts := p.sent.timeouts + 1)), turn)
      else if !a.connects then Turns(Failed(p), turn + 1, attempts, blackhole)
      else
        var (q, ok) := Turn(p, Listing(p.spool.files.Keys), 0, a, turn, blackhole);
        if ok then (q, turn + 1) else Turns(Failed(q), turn + 1, attempts, blackhole)
  }

  ghost function Failed(p: Progress): Progress {
    p.(sent := p.sent.(errs := p.sent.errs + 1))
  }

  function NewRun(s: Spool, begin: int): Progress {
    Progress(s, SentInfo(begin, 0, 0, 0, 0, 0, 0, 0, 0), [])
  }

  /** A whole send run. */
  ghost function SendRun(s: Spool, attempts: nat -> Attempt, begin: int, blackhole: bool): (Progress, nat) {
    Turns(NewRun(s, begin), 0, attempts, blackhole)
  }

  class Sender {
    const spool: DiskvSpooler
    const blackhole: bool

    constructor (spool: DiskvSpooler, blackhole: bool)
      ensures this.spool == spool && this.blackhole == blackhole
    {
      this.spool, this.blackhole := spool, blackhole;
    }

    /** The loop body once the file is read. */
    method Deliver(file: string, data: Bytes, a: Attempt, turn: nat, at: nat, sent: SentInfo, removals: seq<Removal>)
      returns (after: After, sent': SentInfo, removals': seq<Removal>)
      modifies spool
      ensures after == Follows(blackhole, data, a.reply(at))
      ensures Progress(spool.St(), sent', removals')
           == AfterFile(Progress(old(spool.St()), sent, removals), file, data, a, turn, at, blackhole)
    {
      hide AfterRemove;
      after, sent', removals' := GoOn, sent, removals;
      var erased := a.erasable(at);
      if blackhole {
        spool.Remove(file, true, erased);
        removals' := removals + [Removal(turn, at, file, data, Blackholed, erased)];
        return;
      }
      if |data| == 0 {
        spool.Remove(file, true, erased);
        removals' := removals + [Removal(turn, at, file, data, Empty, erased)];
        return;
      }
      var reply := a.reply(at);
      if reply.SendFails? {
        after := Retry;
        return;
      }
      sent' := sent'.(bytes := sent'.bytes + |data|);
      if reply.RecvFails? {
        after := Retry;
        return;
      }
      var code := reply.code;
      if code >= 500 {
        sent' := sent'.(apiErrs := sent'.apiErrs + 1);
        after := Stop;
      } else if code >= 400 {
        spool.Remove(file, true, erased);
        removals' := removals + [Removal(turn, at, file, data, Acknowledged(code), erased)];
        sent' := sent'.(files := sent'.files + 1, badFiles := sent'.badFiles + 1);
      } else if code >= 300 {
        after := Retry;
      } else if code >= 200 {
        spool.Remove(file, true, erased);
        removals' := removals + [Removal(turn, at, file, data, Acknowledged(code), erased)];
        sent' := sent'.(files := sent'.files + 1);
        if code == 299 {
          after := Stop;
        }
      } else {
        after := Retry;
      }
    }

    /** Sends the files in order until all are sent, an error occurs (not ok) or
        the API tells the sender to stop. */
    method SendAllFiles(a: Attempt, turn: nat, sent: SentInfo, removals: seq<Removal>)
      returns (ok: bool, sent': SentInfo, removals': seq<Removal>)
      modifies spool
      ensures (Progress(spool.St(), sent', removals'), ok)
           == Turn(Progress(old(spool.St()), sent, removals), Listing(old(spool.files).Keys), 0, a, turn, blackhole)
    {
      hide AfterFile, Follows, Less;
      ok, sent', removals' := true, sent, removals;
      var keys := SortedNames(spool.files.Keys);
      ghost var start := Progress(spool.St(), sent, removals);
      for i := 0 to |keys|
        invariant ok
        invariant Turn(start, keys, 0, a, turn, blackhole)
               == Turn(Progress(spool.St(), sent', removals'), keys, i, a, turn, blackhole)
      {
        if a.lateAt(i) {
          sent' := sent'.(timeouts := sent'.timeouts + 1);
          return;
        }
        var data, read := spool.Read(keys[i], a.readable(i));
        if !read {
          ok := false;
          return;
        }
        var after;
        after, sent', removals' := Deliver(keys[i], data, a, turn, i, sent', removals');
        if after == Retry {
          ok := false;
          return;
        }
        if after == Stop {
          return;
        }
      }
    }

    /** One send run. */
    method Send(attempts: nat -> Attempt, begin: int, end: int)
      returns (sent: SentInfo, connects: nat, removals: seq<Removal>)
      modifies spool
      ensures var (q, n) := SendRun(old(spool.St()), attempts, begin, blackhole);
        spool.St() == q.spool && sent == q.sent.(end := end) && removals == q.removals && connects == n
    {
      hide Turn, Less;
      sent := SentInfo(begin, 0, 0, 0, 0, 0, 0, 0, 0);
      connects, removals := 0, [];
      ghost var s := spool.St();
      while sent.apiErrs == 0 && sent.errs < MAX_SEND_ERRORS && sent.timeouts == 0
        invariant SendRun(s, attempts, begin, blackhole)
               == Turns(Progress(spool.St(), sent, removals), connects, attempts, blackhole)
        decreases MAX_SEND_ERRORS - sent.errs
      {
        var a := attempts(connects);
        if a.late {
          sent := sent.(timeouts := sent.timeouts + 1);
          break;
        }
        connects := connects + 1;
        if !a.connects {
          sent := sent.(errs := sent.errs + 1);
          continue;
        }
        var ok;
        ok, sent, removals := SendAllFiles(a, connects - 1, sent, removals);
        if ok {
          break;
        }
        sent := sent.(errs := sent.errs + 1);
      }
      assert SendRun(s, attempts, begin, blackhole) == (Progress(spool.St(), sent, removals), connects);
      sent := sent.(end := end);
    }
  }

  // ----- what leaves the spool ---------------------------------------------------------

  /** From place i on, the turn comes to place j and reads the file there: time is not
      up, every file up to it can be read, and every file before it lets the turn go on. */
  ghost predicate Reached(keys: seq<string>, files: Files, a: Attempt, i: nat, j: nat, blackhole: bool) {
    && i <= j < |keys|
    && (forall b: nat :: i <= b <= j ==> !a.lateAt(b) && a.readable(b))
    && (forall b: nat :: i <= b < j ==> Follows(blackhole, Content(files, keys[b]), a.reply(b)) == GoOn)
  }

  /** What the answer at place j has removed. */
  ghost function RemovalAt(keys: seq<string>, files: Files, a: Attempt, turn: nat, j: nat,
                           blackhole: bool): Option<Removal>
    requires j < |keys|
  {
    var data := Content(files, keys[j]);
    var why := Reason(blackhole, data, a.reply(j));
    if why.None? then None else Some(Removal(turn, j, keys[j], data, why.value, a.erasable(j)))
  }

  ghost function AsSeq(r: Option<Removal>): seq<Removal> {
    if r.None? then [] else [r.value]
  }

  ghost function TurnRemovals(keys: seq<string>, files: Files, a: Attempt, turn: nat, i: nat,
                              blackhole: bool): seq<Removal>
    requires i <= |keys|
    decreases |keys| - i
  {
    if i == |keys| || a.lateAt(i) || !a.readable(i) then []
    else
      AsSeq(RemovalAt(keys, files, a, turn, i, blackhole))
      + if Follows(blackhole, Content(files, keys[i]), a.reply(i)) == GoOn
        then TurnRemovals(keys, files, a, turn, i + 1, blackhole) else []
  }

  /** The files that could be erased before turn t. */
  ghost function GoneBefore(removals: seq<Removal>, t: nat): set<string> {
    set i | 0 <= i < |removals| && removals[i].erased && removals[i].turn < t :: removals[i].file
  }

  ghost function Gone(removals: seq<Removal>): set<string> {
    set i | 0 <= i < |removals| && removals[i].erased :: removals[i].file
  }

  lemma GoneConcat(a: seq<Removal>, b: seq<Removal>)
    ensures Gone(a + b) == Gone(a) + Gone(b)
  {
    var all := a + b;
    assert forall i :: 0 <= i < |a| ==> all[i] == a[i];
    assert forall i :: 0 <= i < |b| ==> all[|a| + i] == b[i];
  }

  /** The files still listed hold what they held when the turn began. */
  ghost predicate Untouched(keys: seq<string>, i: nat, now: Files, files: Files) {
    forall j :: i <= j < |keys| ==> keys[j] in now && keys[j] in files && now[keys[j]] == files[keys[j]]
  }

  lemma UntouchedStep(keys: seq<string>, i: nat, now: Files, next: Files, files: Files)
    requires Ascending(keys) && i < |keys| && Untouched(keys, i, now, files)
    requires next == now || next == now - {keys[i]}
    ensures Untouched(keys, i + 1, next, files)
  {
    forall j | i < j < |keys| ensures keys[j] != keys[i] {
      LessTotal(keys[i], keys[j]);
    }
  }

  lemma AfterFileExact(p: Progress, keys: seq<string>, i: nat, files: Files, a: Attempt, turn: nat, blackhole: bool)
    requires i < |keys| && Untouched(keys, i, p.spool.files, files)
    ensures var q := AfterFile(p, keys[i], files[keys[i]], a, turn, i, blackhole);
      var rs := AsSeq(RemovalAt(keys, files, a, turn, i, blackhole));
      && q.removals == p.removals + rs && q.spool.files == p.spool.files - Gone(rs)
      && (q.spool.files == p.spool.files || q.spool.files == p.spool.files - {keys[i]})
  {
    var r := RemovalAt(keys, files, a, turn, i, blackhole);
    assert Gone([]) == {};
    if r.Some? {
      assert [r.value][0] == r.value;
      assert Gone([r.value]) == if r.value.erased then {keys[i]} else {};
    }
  }

  /** A turn adds these removals and takes off the spool what could be erased. */
  lemma {:induction false} TurnExact(p: Progress, keys: seq<string>, i: nat, files: Files, a: Attempt, turn: nat,
                                     blackhole: bool)
    requires Ascending(keys) && i <= |keys| && Untouched(keys, i, p.spool.files, files)
    ensures var q, rs := Turn(p, keys, i, a, turn, blackhole).0, TurnRemovals(keys, files, a, turn, i, blackhole);
      q.removals == p.removals + rs && q.spool.files == p.spool.files - Gone(rs)
    decreases |keys| - i
  {
    hide AfterFile, Follows, Untouched, Less, Gone, RemovalAt, AsSeq;
    assert p.removals + [] == p.removals;
    GoneNothing();
    if i == |keys| || a.lateAt(i) {
      return;
    }
    UntouchedHere(keys, i, p.spool.files, files);
    if !a.readable(i) {
      return;
    }
    var read := p.(spool := AfterRead(p.spool, keys[i], true));
    AfterFileExact(read, keys, i, files, a, turn, blackhole);
    var q := AfterFile(read, keys[i], files[keys[i]], a, turn, i, blackhole);
    var rs := AsSeq(RemovalAt(keys, files, a, turn, i, blackhole));
    if Follows(blackhole, files[keys[i]], a.reply(i)) == GoOn {
      UntouchedStep(keys, i, p.spool.files, q.spool.files, files);
      TurnExact(q, keys, i + 1, files, a, turn, blackhole);
      TwoParts(p, q, keys, i, files, a, turn, blackhole, rs);
    } else {
      assert rs + [] == rs;
    }
  }

  lemma TwoParts(p: Progress, q: Progress, keys: seq<string>, i: nat, files: Files, a: Attempt, turn: nat,
                 blackhole: bool, rs: seq<Removal>)
    requires i < |keys| && q.removals == p.removals + rs && q.spool.files == p.spool.files - Gone(rs)
    ensures var more := TurnRemovals(keys, files, a, turn, i + 1, blackhole);
      && q.removals + more == p.removals + (rs + more)
      && q.spool.files - Gone(more) == p.spool.files - Gone(rs + more)
  {
    hide TurnRemovals, Gone;
    GoneConcat(rs, TurnRemovals(keys, files, a, turn, i + 1, blackhole));
  }

  lemma GoneNothing()
    ensures Gone([]) == {}
  {
  }

  lemma UntouchedHere(keys: seq<string>, i: nat, now: Files, files: Files)
    requires i < |keys| && Untouched(keys, i, now, files)
    ensures keys[i] in now && keys[i] in files && now[keys[i]] == files[keys[i]]
  {
  }

  /** They are exactly those of the places reached. */
  lemma {:induction false} TurnRemovalsIff(keys: seq<string>, files: Files, a: Attempt, turn: nat, i: nat,
                                           blackhole: bool, r: Removal)
    requires i <= |keys|
    ensures r in TurnRemovals(keys, files, a, turn, i, blackhole) <==>
      Reached(keys, files, a, i, r.at, blackhole) && RemovalAt(keys, files, a, turn, r.at, blackhole) == Some(r)
    decreases |keys| - i
  {
    hide Follows, RemovalAt, Reached;
    if i == |keys| || a.lateAt(i) || !a.readable(i) {
      NotReached(keys, files, a, i, r.at, blackhole);
    } else {
      TurnRemovalsIff(keys, files, a, turn, i + 1, blackhole, r);
      ReachedStep(keys, files, a, i, r.at, blackhole);
      RemovalPlace(keys, files, a, turn, i, blackhole, r);
    }
  }

  lemma NotReached(keys: seq<string>, files: Files, a: Attempt, i: nat, j: nat, blackhole: bool)
    requires i == |keys| || (i < |keys| && (a.lateAt(i) || !a.readable(i)))
    ensures !Reached(keys, files, a, i, j, blackhole)
  {
  }

  lemma RemovalPlace(keys: seq<string>, files: Files, a: Attempt, turn: nat, i: nat, blackhole: bool, r: Removal)
    requires i < |keys|
    ensures r in AsSeq(RemovalAt(keys, files, a, turn, i, blackhole)) <==>
      r.at == i && RemovalAt(keys, files, a, turn, i, blackhole) == Some(r)
    ensures !Reached(keys, files, a, i + 1, i, blackhole)
  {
    hide Reason;
  }

  lemma ReachedStep(keys: seq<string>, files: Files, a: Attempt, i: nat, j: nat, blackhole: bool)
    requires i < |keys| && !a.lateAt(i) && a.readable(i)
    ensures Reached(keys, files, a, i, j, blackhole) <==>
      || j == i
      || (Follows(blackhole, Content(files, keys[i]), a.reply(i)) == GoOn
          && Reached(keys, files, a, i + 1, j, blackhole))
  {
    hide Follows;
  }

  // ----- what a whole run takes off the spool ------------------------------------------

  ghost predicate Earlier(q: Removal, r: Removal) {
    q.turn < r.turn || (q.turn == r.turn && q.at < r.at)
  }

  /** Removals are in the order of the exchanges behind them, one each. */
  ghost predicate Ordered(removals: seq<Removal>) {
    forall i, j :: 0 <= i < j < |removals| ==> Earlier(removals[i], removals[j])
  }

  lemma {:induction false} TurnOrdered(keys: seq<string>, files: Files, a: Attempt, turn: nat, i: nat, blackhole: bool)
    requires i <= |keys|
    ensures var rs := TurnRemovals(keys, files, a, turn, i, blackhole);
      Ordered(rs) && forall k :: 0 <= k < |rs| ==> rs[k].turn == turn && i <= rs[k].at
    decreases |keys| - i
  {
    hide Follows, Reason;
    if i < |keys| && !a.lateAt(i) && a.readable(i) {
      TurnOrdered(keys, files, a, turn, i + 1, blackhole);
    }
  }

  /** The spool at the beginning of turn t. */
  ghost function FilesAt(files: Files, removals: seq<Removal>, t: nat): Files {
    files - GoneBefore(removals, t)
  }

  /** The exchange behind a removal: its turn connected and came to its place, and the
      answer there is the reason. */
  ghost predicate Happened(r: Removal, files: Files, a: Attempt, blackhole: bool) {
    var keys := Listing(files.Keys);
    && a.connects
    && Reached(keys, files, a, 0, r.at, blackhole)
    && RemovalAt(keys, files, a, r.turn, r.at, blackhole) == Some(r)
  }

  /** Before turn `turn` of a run that began with `files`. */
  ghost predicate RunInv(now: Files, removals: seq<Removal>, turn: nat, files: Files) {
    && now == FilesAt(files, removals, turn)
    && Ordered(removals)
    && forall i :: 0 <= i < |removals| ==> removals[i].turn < turn
  }

  lemma NoExchange(now: Files, removals: seq<Removal>, turn: nat, files: Files)
    requires RunInv(now, removals, turn, files)
    ensures RunInv(now, removals, turn + 1, files)
  {
    FilesAtLater(files, removals, turn, turn + 1);
  }

  lemma FilesAtLater(files: Files, removals: seq<Removal>, turn: nat, t: nat)
    requires turn <= t && forall i :: 0 <= i < |removals| ==> removals[i].turn < turn
    ensures FilesAt(files, removals, t) == FilesAt(files, removals, turn) == files - Gone(removals)
  {
    assert GoneBefore(removals, t) == GoneBefore(removals, turn) == Gone(removals);
  }

  lemma FilesAtEarlier(files: Files, removals: seq<Removal>, all: seq<Removal>, t: nat)
    requires removals <= all && forall i :: |removals| <= i < |all| ==> t <= all[i].turn
    ensures FilesAt(files, all, t) == FilesAt(files, removals, t)
  {
    assert forall i :: 0 <= i < |removals| ==> all[i] == removals[i];
    assert GoneBefore(all, t) == GoneBefore(removals, t);
  }

  lemma TurnKeepsInv(p: Progress, a: Attempt, turn: nat, files: Files, blackhole: bool)
    requires RunInv(p.spool.files, p.removals, turn, files)
    ensures var q, rs := Turn(p, Listing(p.spool.files.Keys), 0, a, turn, blackhole).0,
                         TurnRemovals(Listing(p.spool.files.Keys), p.spool.files, a, turn, 0, blackhole);
      && q.removals == p.removals + rs && RunInv(q.spool.files, q.removals, turn + 1, files)
      && forall i :: 0 <= i < |rs| ==> rs[i].turn == turn
  {
    hide Turn, TurnRemovals, Less;
    var keys := Listing(p.spool.files.Keys);
    TurnExact(p, keys, 0, p.spool.files, a, turn, blackhole);
    TurnOrdered(keys, p.spool.files, a, turn, 0, blackhole);
    var rs := TurnRemovals(keys, p.spool.files, a, turn, 0, blackhole);
    var q := Turn(p, keys, 0, a, turn, blackhole).0;
    FilesAtLater(files, p.removals, turn, turn);
    FilesAtLater(files, q.removals, turn + 1, turn + 1);
    GoneConcat(p.removals, rs);
  }

  /** The heart of it: from turn `turn` on a run removes exactly what the exchanges of
      the turns that follow have removed. */
  lemma {:induction false} TurnsExact(p: Progress, turn: nat, attempts: nat -> Attempt, files: Files, blackhole: bool)
    requires RunInv(p.spool.files, p.removals, turn, files)
    ensures var (q, n) := Turns(p, turn, attempts, blackhole);
      && turn <= n && RunInv(q.spool.files, q.removals, n, files) && p.removals <= q.removals
      && (forall i :: |p.removals| <= i < |q.removals| ==> turn <= q.removals[i].turn)
      && (forall r :: r in q.removals <==>
            || r in p.removals
            || (turn <= r.turn < n && Happened(r, FilesAt(files, q.removals, r.turn), attempts(r.turn), blackhole)))
    decreases MAX_SEND_ERRORS - p.sent.errs
  {
    hide RunInv, Happened, Turn, TurnRemovals, FilesAt;
    if p.sent.apiErrs != 0 || p.sent.errs >= MAX_SEND_ERRORS || p.sent.timeouts != 0 || attempts(turn).late {
      return;
    }
    var a := attempts(turn);
    var keys := Listing(p.spool.files.Keys);
    var rs := if a.connects then TurnRemovals(keys, p.spool.files, a, turn, 0, blackhole) else [];
    if !a.connects {
      NoExchange(p.spool.files, p.removals, turn, files);
      TurnsExact(Failed(p), turn + 1, attempts, files, blackhole);
    } else {
      TurnKeepsInv(p, a, turn, files, blackhole);
      var (q, ok) := Turn(p, Listing(p.spool.files.Keys), 0, a, turn, blackhole);
      if !ok {
        TurnsExact(Failed(q), turn + 1, attempts, files, blackhole);
      }
    }
    var (q, n) := Turns(p, turn, attempts, blackhole);
    assert FilesAt(files, q.removals, turn) == p.spool.files by {
      FilesAtEarlier(files, p.removals, q.removals, turn);
      InvFiles(p.spool.files, p.removals, turn, files);
    }
    forall r ensures r in rs <==> r.turn == turn && Happened(r, p.spool.files, a, blackhole) {
      HappenedIff(p.spool.files, a, turn, blackhole, r);
    }
  }

  lemma InvFiles(now: Files, removals: seq<Removal>, turn: nat, files: Files)
    requires RunInv(now, removals, turn, files)
    ensures now == FilesAt(files, removals, turn)
  {
  }

  lemma HappenedIff(files: Files, a: Attempt, turn: nat, blackhole: bool, r: Removal)
    ensures a.connects ==> (r in TurnRemovals(Listing(files.Keys), files, a, turn, 0, blackhole) <==>
      r.turn == turn && Happened(r, files, a, blackhole))
    ensures !a.connects ==> !Happened(r, files, a, blackhole)
  {
    hide TurnRemovals, Reached;
    TurnRemovalsIff(Listing(files.Keys), files, a, turn, 0, blackhole, r);
  }

  /** A removal is made if and only if its exchange happened in a turn of the run; they
      are in the order of the exchanges; and exactly the erased files are gone. */
  lemma SendRemovesIff(s: Spool, attempts: nat -> Attempt, begin: int, blackhole: bool)
    ensures var (q, n) := SendRun(s, attempts, begin, blackhole);
      && (forall r :: r in q.removals <==>
            r.turn < n && Happened(r, FilesAt(s.files, q.removals, r.turn), attempts(r.turn), blackhole))
      && Ordered(q.removals)
      && q.spool.files == s.files - Gone(q.removals)
  {
    hide Turns, Happened;
    var p := NewRun(s, begin);
    assert GoneBefore([], 0) == {};
    TurnsExact(p, 0, attempts, s.files, blackhole);
    var (q, n) := SendRun(s, attempts, begin, blackhole);
    FilesAtLater(s.files, q.removals, n, n);
  }

  /** The turn comes to the file, gets an answer on which it is removed, and can erase it. */
  ghost predicate TakesOff(files: Files, a: Attempt, i: nat, file: string, blackhole: bool) {
    var keys := Listing(files.Keys);
    && a.connects && Reached(keys, files, a, 0, i, blackhole) && keys[i] == file && file in files
    && Reason(blackhole, files[file], a.reply(i)).Some? && a.erasable(i)
  }

  /** A file leaves the spool if and only if some turn of the run took it off: only after
      a 2xx or 4xx acknowledgement of its bytes, or if it is empty or everything is
      discarded. */
  lemma FileLeavesIff(s: Spool, attempts: nat -> Attempt, begin: int, blackhole: bool, file: string)
    requires file in s.files
    ensures var (q, n) := SendRun(s, attempts, begin, blackhole);
      file !in q.spool.files <==> exists t: nat, i: nat ::
        t < n && TakesOff(FilesAt(s.files, q.removals, t), attempts(t), i, file, blackhole)
  {
    hide Turns, TakesOff, Less;
    SendRemovesIff(s, attempts, begin, blackhole);
    var (q, n) := SendRun(s, attempts, begin, blackhole);
    if file !in q.spool.files {
      var k :| 0 <= k < |q.removals| && q.removals[k].erased && q.removals[k].file == file;
      var r := q.removals[k];
      assert r in q.removals;
      RemovalTakesOff(FilesAt(s.files, q.removals, r.turn), attempts(r.turn), r, blackhole);
    }
    if t: nat, i: nat :| t < n && TakesOff(FilesAt(s.files, q.removals, t), attempts(t), i, file, blackhole) {
      var r := TakesOffRemoval(FilesAt(s.files, q.removals, t), attempts(t), t, i, file, blackhole);
      assert r in q.removals;
    }
  }

  lemma RemovalTakesOff(files: Files, a: Attempt, r: Removal, blackhole: bool)
    requires Happened(r, files, a, blackhole) && r.erased
    ensures TakesOff(files, a, r.at, r.file, blackhole)
  {
    hide Follows, Reason, Less;
  }

  lemma TakesOffRemoval(files: Files, a: Attempt, turn: nat, i: nat, file: string, blackhole: bool)
    returns (r: Removal)
    requires TakesOff(files, a, i, file, blackhole)
    ensures r.turn == turn && r.file == file && r.erased && Happened(r, files, a, blackhole)
  {
    hide Follows, Reason, Less;
    r := RemovalAt(Listing(files.Keys), files, a, turn, i, blackhole).value;
  }

  /** In plain numbers: a file that left the spool was read in time by a turn that
      connected, and everything is discarded, or it is empty, or the answer to it was a
      code from 200 to 299 or from 400 to 499. */
  lemma LeavesOnlyAcknowledged(s: Spool, attempts: nat -> Attempt, begin: int, blackhole: bool, file: string)
    returns (t: nat, i: nat)
    requires file in s.files && file !in SendRun(s, attempts, begin, blackhole).0.spool.files
    ensures var (q, n) := SendRun(s, attempts, begin, blackhole);
      var files := FilesAt(s.files, q.removals, t);
      && t < n && attempts(t).connects && !attempts(t).late
      && i < |Listing(files.Keys)| && Listing(files.Keys)[i] == file && file in files && files[file] == s.files[file]
      && !attempts(t).lateAt(i) && attempts(t).readable(i) && attempts(t).erasable(i)
      && (!blackhole && s.files[file] != [] ==>
            && attempts(t).reply(i).Code?
            && var c := attempts(t).reply(i).code; 200 <= c <= 299 || 400 <= c <= 499)
  {
    hide Turns, TakesPlace, Follows, Less;
    var (q, n) := SendRun(s, attempts, begin, blackhole);
    FileLeavesIff(s, attempts, begin, blackhole, file);
    t, i :| t < n && TakesOff(FilesAt(s.files, q.removals, t), attempts(t), i, file, blackhole);
    SendTurnsIff(s, attempts, begin, blackhole, t);
    assert !attempts(t).late by { PlaceIsInTime(t, attempts, s.files, q.removals, blackhole); }
  }

  lemma PlaceIsInTime(t: nat, attempts: nat -> Attempt, files: Files, removals: seq<Removal>, blackhole: bool)
    requires TakesPlace(t, 0, attempts, files, removals, blackhole)
    ensures !attempts(t).late
  {
  }

  /** Every answer in plain numbers, for a file that is not empty. */
  lemma FileByCode(p: Progress, file: string, data: Bytes, a: Attempt, turn: nat, at: nat)
    requires data != [] && a.reply(at).Code?
    ensures var q, c, after := AfterFile(p, file, data, a, turn, at, false), a.reply(at).code,
                               Follows(false, data, a.reply(at));
      && q.sent.(files := 0, badFiles := 0, apiErrs := 0)
           == p.sent.(bytes := p.sent.bytes + |data|, files := 0, badFiles := 0, apiErrs := 0)
      && (200 <= c <= 299 || 400 <= c <= 499 ==>
            && q.spool == AfterRemove(p.spool, file, true, a.erasable(at))
            && q.removals == p.removals + [Removal(turn, at, file, data, Acknowledged(c), a.erasable(at))]
            && q.sent.files == p.sent.files + 1 && q.sent.apiErrs == p.sent.apiErrs)
      && (200 <= c <= 299 ==> q.sent.badFiles == p.sent.badFiles && after == if c == 299 then Stop else GoOn)
      && (400 <= c <= 499 ==> q.sent.badFiles == p.sent.badFiles + 1 && after == GoOn)
      && (c <= 199 || 300 <= c <= 399 || 500 <= c ==>
            && q.spool == p.spool && q.removals == p.removals
            && q.sent.files == p.sent.files && q.sent.badFiles == p.sent.badFiles)
      && (c <= 199 || 300 <= c <= 399 ==> q.sent.apiErrs == p.sent.apiErrs && after == Retry)
      && (500 <= c ==> q.sent.apiErrs == p.sent.apiErrs + 1 && after == Stop)
  {
    hide AfterRemove;
  }

  /** What the answer to a file that is not empty does to the turn that comes to it. */
  lemma {:induction false} AnswerEndsTurn(p: Progress, keys: seq<string>, k: nat, files: Files, a: Attempt, turn: nat,
                                          i: nat)
    requires Ascending(keys) && k <= |keys| && Untouched(keys, k, p.spool.files, files)
    requires Reached(keys, files, a, k, i, false) && files[keys[i]] != []
    ensures var (q, ok) := Turn(p, keys, k, a, turn, false);
      var reply, kept := a.reply(i), keys[i] in q.spool.files && q.spool.files[keys[i]] == files[keys[i]];
      && (!reply.Code? || reply.code <= 199 || 300 <= reply.code <= 399 ==>
            kept && !ok && q.sent.apiErrs == p.sent.apiErrs && q.sent.timeouts == p.sent.timeouts)
      && (reply.Code? && 500 <= reply.code ==>
            kept && ok && q.sent.apiErrs == p.sent.apiErrs + 1 && q.sent.timeouts == p.sent.timeouts)
      && (reply == Code(299) ==>
            && ok && q.sent.apiErrs == p.sent.apiErrs && q.sent.timeouts == p.sent.timeouts
            && (keys[i] in q.spool.files <==> !a.erasable(i)))
    decreases |keys| - k
  {
    hide Untouched, Less, AfterFile, Follows;
    UntouchedHere(keys, k, p.spool.files, files);
    ReachedStep(keys, files, a, k, i, false);
    var read := p.(spool := AfterRead(p.spool, keys[k], true));
    if k == i {
      AnswerHere(read, keys[i], files[keys[i]], a, turn, i);
    } else {
      AfterFileExact(read, keys, k, files, a, turn, false);
      var q := AfterFile(read, keys[k], files[keys[k]], a, turn, k, false);
      UntouchedStep(keys, k, p.spool.files, q.spool.files, files);
      FileCounts(read, keys[k], files[keys[k]], a, turn, k, false);
      AnswerEndsTurn(q, keys, k + 1, files, a, turn, i);
    }
  }

  lemma AnswerHere(p: Progress, file: string, data: Bytes, a: Attempt, turn: nat, at: nat)
    requires data != [] && file in p.spool.files && p.spool.files[file] == data
    ensures var q, reply, after := AfterFile(p, file, data, a, turn, at, false), a.reply(at),
                                   Follows(false, data, a.reply(at));
      && q.sent.timeouts == p.sent.timeouts
      && (!reply.Code? || reply.code <= 199 || 300 <= reply.code <= 399 ==>
            q.spool == p.spool && after == Retry && q.sent.apiErrs == p.sent.apiErrs)
      && (reply.Code? && 500 <= reply.code ==>
            q.spool == p.spool && after == Stop && q.sent.apiErrs == p.sent.apiErrs + 1)
      && (reply == Code(299) ==>
            after == Stop && q.sent.apiErrs == p.sent.apiErrs && (file in q.spool.files <==> !a.erasable(at)))
  {
    hide Wrap;
    if a.reply(at).Code? {
      FileByCode(p, file, data, a, turn, at);
    }
  }

  /** What is sent are the bytes of the file. */
  lemma RemovalCarriesContent(s: Spool, attempts: nat -> Attempt, begin: int, blackhole: bool, r: Removal)
    requires r in SendRun(s, attempts, begin, blackhole).0.removals
    ensures r.file in s.files && r.data == s.files[r.file]
  {
    hide Turns, Reason, Follows, Less;
    SendRemovesIff(s, attempts, begin, blackhole);
    var rs := SendRun(s, attempts, begin, blackhole).0.removals;
    var files := FilesAt(s.files, rs, r.turn);
    assert Listing(files.Keys)[r.at] in files.Keys;
  }

  /** From the write to the wire: if the spool writes a file and nothing touches it before
      a send run, the bytes sent for it are the bytes written. */
  lemma WrittenIsSent(trace: seq<Spool>, ops: seq<Operation>, i: nat, j: nat,
                      attempts: nat -> Attempt, begin: int, blackhole: bool, r: Removal)
    requires |trace| == |ops| + 1 && i < j < |trace| && ops[i].Write?
    requires forall m :: 0 <= m < |ops| ==> trace[m + 1] == Spooler.After(trace[m], ops[m])
    requires forall m :: i < m < j ==> !Touches(trace[m], ops[m], ops[i].key)
    requires r in SendRun(trace[j], attempts, begin, blackhole).0.removals && r.file == ops[i].key
    ensures r.data == ops[i].data
  {
    hide SendRun, Touches;
    RemovalCarriesContent(trace[j], attempts, begin, blackhole, r);
    WrittenStays(trace, ops, i, j);
  }

  /** Nothing more is done with a file once it is erased. */
  lemma ErasedOnce(s: Spool, attempts: nat -> Attempt, begin: int, blackhole: bool, i: nat, j: nat)
    requires i < j < |SendRun(s, attempts, begin, blackhole).0.removals|
    ensures var rs := SendRun(s, attempts, begin, blackhole).0.removals;
      rs[i].erased ==> rs[i].file != rs[j].file
  {
    hide Turns, Less;
    SendRemovesIff(s, attempts, begin, blackhole);
    var rs := SendRun(s, attempts, begin, blackhole).0.removals;
    var files := FilesAt(s.files, rs, rs[j].turn);
    var keys := Listing(files.Keys);
    assert rs[j] in rs && rs[i] in rs;
    assert Earlier(rs[i], rs[j]);
    assert rs[j].file == keys[rs[j].at] && rs[j].file in files;
    if rs[i].turn == rs[j].turn {
      assert rs[i].file == keys[rs[i].at];
      LessTotal(keys[rs[i].at], keys[rs[j].at]);
    } else if rs[i].erased {
      assert rs[i].file in GoneBefore(rs, rs[j].turn);
    }
  }

  // ----- how many turns a run has ----------------------------------------------------------

  /** From place i on the turn breaks off at place j: it comes there in time, and cannot
      read the file or gets no answer it can use. */
  ghost predicate BreaksAt(keys: seq<string>, files: Files, a: Attempt, i: nat, j: nat, blackhole: bool) {
    && i <= j < |keys|
    && (forall b: nat :: i <= b < j ==>
          !a.lateAt(b) && a.readable(b) && Follows(blackhole, Content(files, keys[b]), a.reply(b)) == GoOn)
    && !a.lateAt(j)
    && (!a.readable(j) || Follows(blackhole, Content(files, keys[j]), a.reply(j)) == Retry)
  }

  ghost predicate BreaksOff(files: Files, a: Attempt, blackhole: bool) {
    !a.connects || exists j: nat :: BreaksAt(Listing(files.Keys), files, a, 0, j, blackhole)
  }

  lemma {:induction false} TurnBreaksIff(p: Progress, keys: seq<string>, i: nat, files: Files, a: Attempt, turn: nat,
                                         blackhole: bool)
    requires Ascending(keys) && i <= |keys| && Untouched(keys, i, p.spool.files, files)
    ensures !Turn(p, keys, i, a, turn, blackhole).1 <==> exists j: nat :: BreaksAt(keys, files, a, i, j, blackhole)
    decreases |keys| - i
  {
    hide AfterFile, Follows, Untouched, Less, BreaksAt;
    if i == |keys| {
      NoBreak(keys, files, a, i, blackhole);
      return;
    }
    UntouchedHere(keys, i, p.spool.files, files);
    BreakStep(keys, files, a, i, blackhole);
    if !a.lateAt(i) && a.readable(i) {
      var read := p.(spool := AfterRead(p.spool, keys[i], true));
      AfterFileExact(read, keys, i, files, a, turn, blackhole);
      var q := AfterFile(read, keys[i], files[keys[i]], a, turn, i, blackhole);
      UntouchedStep(keys, i, p.spool.files, q.spool.files, files);
      TurnBreaksIff(q, keys, i + 1, files, a, turn, blackhole);
      var after := Follows(blackhole, files[keys[i]], a.reply(i));
      if after == GoOn {
        if j: nat :| BreaksAt(keys, files, a, i, j, blackhole) {
          BreakMoves(keys, files, a, i, j, blackhole);
        }
        var next := i + 1;
        if j: nat :| BreaksAt(keys, files, a, next, j, blackhole) {
          BreakMoves(keys, files, a, i, j, blackhole);
        }
      }
    }
  }

  lemma NoBreak(keys: seq<string>, files: Files, a: Attempt, i: nat, blackhole: bool)
    requires i == |keys|
    ensures forall j: nat :: !BreaksAt(keys, files, a, i, j, blackhole)
  {
  }

  lemma BreakStep(keys: seq<string>, files: Files, a: Attempt, i: nat, blackhole: bool)
    requires i < |keys|
    ensures var after := Follows(blackhole, Content(files, keys[i]), a.reply(i));
      && (a.lateAt(i) ==> forall j: nat :: !BreaksAt(keys, files, a, i, j, blackhole))
      && (!a.lateAt(i) && !a.readable(i) ==> BreaksAt(keys, files, a, i, i, blackhole))
      && (!a.lateAt(i) && after == Retry ==> BreaksAt(keys, files, a, i, i, blackhole))
      && (a.readable(i) && after == Stop ==> forall j: nat :: !BreaksAt(keys, files, a, i, j, blackhole))
  {
    hide Follows;
  }

  lemma BreakMoves(keys: seq<string>, files: Files, a: Attempt, i: nat, j: nat, blackhole: bool)
    requires i < |keys| && !a.lateAt(i) && a.readable(i)
    requires Follows(blackhole, Content(files, keys[i]), a.reply(i)) == GoOn
    ensures BreaksAt(keys, files, a, i, j, blackhole) <==> BreaksAt(keys, files, a, i + 1, j, blackhole)
  {
    hide Follows;
  }

  /** A turn takes place if and only if fewer than three came before it, all of them
      broke off, and time is not up. */
  ghost predicate TakesPlace(t: nat, from: nat, attempts: nat -> Attempt, files: Files, removals: seq<Removal>,
                             blackhole: bool)
  {
    && t < 3
    && (forall u: nat :: from <= u <= t ==> !attempts(u).late)
    && (forall u: nat :: from <= u < t ==> BreaksOff(FilesAt(files, removals, u), attempts(u), blackhole))
  }

  lemma {:induction false} TurnsTakePlaceIff(p: Progress, turn: nat, attempts: nat -> Attempt, files: Files,
                                             blackhole: bool, t: nat)
    requires RunInv(p.spool.files, p.removals, turn, files) && turn <= t
    requires p.sent.apiErrs == 0 && p.sent.timeouts == 0 && turn == p.sent.errs <= MAX_SEND_ERRORS
    ensures var (q, n) := Turns(p, turn, attempts, blackhole);
      t < n <==> TakesPlace(t, turn, attempts, files, q.removals, blackhole)
    decreases MAX_SEND_ERRORS - p.sent.errs
  {
    hide RunInv, BreaksOff, Turn, FilesAt, Listing;
    if turn == MAX_SEND_ERRORS || attempts(turn).late {
      return;
    }
    hide TakesPlace;
    var (q, n) := Turns(p, turn, attempts, blackhole);
    var keys, a := Listing(p.spool.files.Keys), attempts(turn);
    assert FilesAt(files, q.removals, turn) == p.spool.files by {
      TurnsExact(p, turn, attempts, files, blackhole);
      FilesAtEarlier(files, p.removals, q.removals, turn);
      InvFiles(p.spool.files, p.removals, turn, files);
    }
    RetriesCleanly(p, keys, 0, a, turn, blackhole);
    BreaksOffIff(p, a, turn, blackhole);
    PlaceStep(t, turn, attempts, files, q.removals, blackhole);
    if BreaksOff(p.spool.files, a, blackhole) {
      var next := Failed(if a.connects then Turn(p, keys, 0, a, turn, blackhole).0 else p);
      if a.connects {
        TurnKeepsInv(p, a, turn, files, blackhole);
      } else {
        NoExchange(p.spool.files, p.removals, turn, files);
      }
      TurnsExact(next, turn + 1, attempts, files, blackhole);
      if t > turn {
        TurnsTakePlaceIff(next, turn + 1, attempts, files, blackhole, t);
      }
    }
  }

  lemma PlaceStep(t: nat, from: nat, attempts: nat -> Attempt, files: Files, removals: seq<Removal>, blackhole: bool)
    requires from <= t && from < MAX_SEND_ERRORS && !attempts(from).late
    ensures TakesPlace(t, from, attempts, files, removals, blackhole) <==>
      || t == from
      || (BreaksOff(FilesAt(files, removals, from), attempts(from), blackhole)
          && TakesPlace(t, from + 1, attempts, files, removals, blackhole))
  {
    hide BreaksOff, FilesAt;
  }

  lemma BreaksOffIff(p: Progress, a: Attempt, turn: nat, blackhole: bool)
    ensures BreaksOff(p.spool.files, a, blackhole) <==>
      !a.connects || !Turn(p, Listing(p.spool.files.Keys), 0, a, turn, blackhole).1
  {
    hide BreaksAt, Turn, Less;
    TurnBreaksIff(p, Listing(p.spool.files.Keys), 0, p.spool.files, a, turn, blackhole);
  }

  /** The run has exactly the turns that take place. */
  lemma SendTurnsIff(s: Spool, attempts: nat -> Attempt, begin: int, blackhole: bool, t: nat)
    ensures var (q, n) := SendRun(s, attempts, begin, blackhole);
      t < n <==> TakesPlace(t, 0, attempts, s.files, q.removals, blackhole)
  {
    hide Turns, TakesPlace;
    assert GoneBefore([], 0) == {};
    TurnsTakePlaceIff(NewRun(s, begin), 0, attempts, s.files, blackhole, t);
  }

  /** From place i on time is up when the turn comes to place j. */
  ghost predicate TimesOutAt(keys: seq<string>, files: Files, a: Attempt, i: nat, j: nat, blackhole: bool) {
    && i <= j < |keys|
    && (forall b: nat :: i <= b < j ==>
          !a.lateAt(b) && a.readable(b) && Follows(blackhole, Content(files, keys[b]), a.reply(b)) == GoOn)
    && a.lateAt(j)
  }

  ghost predicate TimesOut(keys: seq<string>, files: Files, a: Attempt, i: nat, blackhole: bool) {
    exists j: nat :: TimesOutAt(keys, files, a, i, j, blackhole)
  }

  lemma TimesOutStep(keys: seq<string>, files: Files, a: Attempt, i: nat, blackhole: bool)
    requires i <= |keys|
    ensures TimesOut(keys, files, a, i, blackhole) <==>
      && i < |keys|
      && (a.lateAt(i) || (a.readable(i) && Follows(blackhole, Content(files, keys[i]), a.reply(i)) == GoOn
                          && TimesOut(keys, files, a, i + 1, blackhole)))
  {
    hide Follows;
    if i < |keys| && a.lateAt(i) {
      assert TimesOutAt(keys, files, a, i, i, blackhole);
    }
    if i < |keys| && !a.lateAt(i) && a.readable(i)
       && Follows(blackhole, Content(files, keys[i]), a.reply(i)) == GoOn {
      if TimesOut(keys, files, a, i, blackhole) {
        var j: nat :| TimesOutAt(keys, files, a, i, j, blackhole);
        assert TimesOutAt(keys, files, a, i + 1, j, blackhole);
      }
      var next := i + 1;
      if j: nat :| TimesOutAt(keys, files, a, next, j, blackhole) {
        assert TimesOutAt(keys, files, a, i, j, blackhole);
      }
    }
  }

  /** A turn counts a timeout if and only if time is up when it comes to some file. */
  lemma {:induction false} TurnTimesOutIff(p: Progress, keys: seq<string>, i: nat, files: Files, a: Attempt, turn: nat,
                                           blackhole: bool)
    requires Ascending(keys) && i <= |keys| && Untouched(keys, i, p.spool.files, files)
    ensures Turn(p, keys, i, a, turn, blackhole).0.sent.timeouts
         == p.sent.timeouts + if TimesOut(keys, files, a, i, blackhole) then 1 else 0
    decreases |keys| - i
  {
    hide AfterFile, Follows, Untouched, Less, TimesOut;
    TimesOutStep(keys, files, a, i, blackhole);
    if i < |keys| && !a.lateAt(i) {
      UntouchedHere(keys, i, p.spool.files, files);
      if a.readable(i) {
        var read := p.(spool := AfterRead(p.spool, keys[i], true));
        AfterFileExact(read, keys, i, files, a, turn, blackhole);
        FileCounts(read, keys[i], files[keys[i]], a, turn, i, blackhole);
        var q := AfterFile(read, keys[i], files[keys[i]], a, turn, i, blackhole);
        UntouchedStep(keys, i, p.spool.files, q.spool.files, files);
        TurnTimesOutIff(q, keys, i + 1, files, a, turn, blackhole);
      }
    }
  }

  /** A run that is late at the head of the loop counts one timeout and connects no more. */
  lemma {:induction false} LateRunTimesOut(p: Progress, turn: nat, attempts: nat -> Attempt, blackhole: bool)
    requires p.sent.apiErrs == 0 && p.sent.timeouts == 0 && turn == p.sent.errs <= 3
    ensures var (q, n) := Turns(p, turn, attempts, blackhole);
      n < 3 && q.sent.errs == n ==> attempts(n).late && q.sent.timeouts == 1
    ensures turn < 3 && attempts(turn).late ==>
      Turns(p, turn, attempts, blackhole) == (p.(sent := p.sent.(timeouts := 1)), turn)
    decreases MAX_SEND_ERRORS - p.sent.errs
  {
    hide Turn, Less;
    if turn < MAX_SEND_ERRORS && !attempts(turn).late {
      if !attempts(turn).connects {
        LateRunTimesOut(Failed(p), turn + 1, attempts, blackhole);
      } else {
        var keys := Listing(p.spool.files.Keys);
        RetriesCleanly(p, keys, 0, attempts(turn), turn, blackhole);
        var (q, ok) := Turn(p, keys, 0, attempts(turn), turn, blackhole);
        if !ok {
          LateRunTimesOut(Failed(q), turn + 1, attempts, blackhole);
        }
      }
    }
  }

  // ----- progress ------------------------------------------------------------------------

  /** A turn in which nothing goes wrong and every file is acknowledged. */
  ghost predicate Smooth(a: Attempt) {
    && a.connects && !a.late
    && forall i: nat :: !a.lateAt(i) && a.readable(i) && a.erasable(i)
         && a.reply(i).Code? && (200 <= a.reply(i).code <= 298 || 400 <= a.reply(i).code <= 499)
  }

  lemma {:induction false} SmoothTurn(p: Progress, keys: seq<string>, i: nat, a: Attempt, turn: nat, blackhole: bool)
    requires Smooth(a) && Ascending(keys) && i <= |keys| && forall j :: i <= j < |keys| ==> keys[j] in p.spool.files
    ensures var (q, ok) := Turn(p, keys, i, a, turn, blackhole);
      && ok && q.sent.apiErrs == p.sent.apiErrs && q.sent.timeouts == p.sent.timeouts
      && (forall k :: k in q.spool.files <==> k in p.spool.files && k !in keys[i..])
    decreases |keys| - i
  {
    hide Less, Wrap;
    if i < |keys| {
      var read := p.(spool := AfterRead(p.spool, keys[i], true));
      var q := AfterFile(read, keys[i], p.spool.files[keys[i]], a, turn, i, blackhole);
      assert q.spool.files == p.spool.files - {keys[i]};
      UntouchedStep(keys, i, p.spool.files, q.spool.files, p.spool.files);
      SmoothTurn(q, keys, i + 1, a, turn, blackhole);
      assert keys[i..] == [keys[i]] + keys[i + 1..];
    }
  }

  /** A run that comes to such a turn ends with it and leaves an empty spool. */
  lemma {:induction false} SmoothTurnEmptiesSpool(p: Progress, turn: nat, attempts: nat -> Attempt,
                                                  blackhole: bool, t: nat)
    requires p.sent.apiErrs == 0 && p.sent.timeouts == 0
    requires turn <= t < Turns(p, turn, attempts, blackhole).1 && Smooth(attempts(t))
    ensures var (q, n) := Turns(p, turn, attempts, blackhole);
      n == t + 1 && q.spool.files == map[] && q.sent.apiErrs == 0 && q.sent.timeouts == 0
    decreases MAX_SEND_ERRORS - p.sent.errs
  {
    hide Smooth, Turn, Less;
    var keys := Listing(p.spool.files.Keys);
    if t == turn {
      assert attempts(t).connects && !attempts(t).late by { SmoothConnects(attempts(t)); }
      SmoothTurn(p, keys, 0, attempts(t), t, blackhole);
      assert keys[0..] == keys;
      assert Turns(p, turn, attempts, blackhole).0.spool.files.Keys == {};
    } else if !attempts(turn).connects {
      SmoothTurnEmptiesSpool(Failed(p), turn + 1, attempts, blackhole, t);
    } else {
      var (q, ok) := Turn(p, keys, 0, attempts(turn), turn, blackhole);
      RetriesCleanly(p, keys, 0, attempts(turn), turn, blackhole);
      SmoothTurnEmptiesSpool(Failed(q), turn + 1, attempts, blackhole, t);
    }
  }

  lemma SmoothConnects(a: Attempt)
    requires Smooth(a)
    ensures a.connects && !a.late
  {
  }

  // ----- counters and the ledger -----------------------------------------------------------

  function Acknowledgements(removals: seq<Removal>): nat {
    if removals == [] then 0 else
      Acknowledgements(removals[..|removals| - 1]) + (if removals[|removals| - 1].why.Acknowledged? then 1 else 0)
  }

  function BadOnes(removals: seq<Removal>): nat {
    if removals == [] then 0 else
      BadOnes(removals[..|removals| - 1]) + (if Bad(removals[|removals| - 1]) then 1 else 0)
  }

  /** The bytes of the acknowledged files. */
  function AcknowledgedBytes(removals: seq<Removal>): nat {
    if removals == [] then 0 else
      AcknowledgedBytes(removals[..|removals| - 1])
      + (if removals[|removals| - 1].why.Acknowledged? then |removals[|removals| - 1].data| else 0)
  }

  /** Files and bad files match the removals; bytes also count what was sent without
      being acknowledged. */
  ghost predicate Counted(sent: SentInfo, removals: seq<Removal>) {
    && sent.files == Acknowledgements(removals) && sent.badFiles == BadOnes(removals)
    && AcknowledgedBytes(removals) <= sent.bytes
  }

  lemma {:induction false} BadAreAcknowledged(removals: seq<Removal>)
    ensures BadOnes(removals) <= Acknowledgements(removals)
  {
    if removals != [] {
      BadAreAcknowledged(removals[..|removals| - 1]);
    }
  }

  lemma FileCounts(p: Progress, file: string, data: Bytes, a: Attempt, turn: nat, at: nat, blackhole: bool)
    ensures var q := AfterFile(p, file, data, a, turn, at, blackhole);
      && (Counted(p.sent, p.removals) ==> Counted(q.sent, q.removals)) && q.sent.timeouts == p.sent.timeouts
      && p.sent.apiErrs <= q.sent.apiErrs <= p.sent.apiErrs + 1
      && (q.sent.apiErrs != p.sent.apiErrs ==> Follows(blackhole, data, a.reply(at)) == Stop)
  {
    hide AfterRemove;
    var q := AfterFile(p, file, data, a, turn, at, blackhole);
    if q.removals != p.removals {
      assert q.removals[..|p.removals|] == p.removals;
    }
  }

  /** A turn that leads to another one had neither an API error nor a timeout; any
      other had at most one of them. */
  lemma {:induction false} RetriesCleanly(p: Progress, keys: seq<string>, i: nat, a: Attempt, turn: nat,
                                          blackhole: bool)
    requires i <= |keys| && p.sent.apiErrs == 0 && p.sent.timeouts == 0
    ensures var (q, ok) := Turn(p, keys, i, a, turn, blackhole);
      && q.sent.apiErrs + q.sent.timeouts <= 1
      && (!ok ==> q.sent.apiErrs == 0 && q.sent.timeouts == 0)
      && (Counted(p.sent, p.removals) ==> Counted(q.sent, q.removals))
    decreases |keys| - i
  {
    hide AfterFile, Follows, Acknowledgements, BadOnes, AcknowledgedBytes;
    if i < |keys| && !a.lateAt(i) && a.readable(i) && keys[i] in p.spool.files {
      var read, data := p.(spool := AfterRead(p.spool, keys[i], true)), p.spool.files[keys[i]];
      FileCounts(read, keys[i], data, a, turn, i, blackhole);
      if Follows(blackhole, data, a.reply(i)) == GoOn {
        RetriesCleanly(AfterFile(read, keys[i], data, a, turn, i, blackhole), keys, i + 1, a, turn, blackhole);
      }
    }
  }

  /** The rest of a run, after as many turns as there were errors. */
  lemma {:induction false} TurnsEnd(p: Progress, turn: nat, attempts: nat -> Attempt, blackhole: bool)
    requires p.sent.apiErrs == 0 && p.sent.timeouts == 0 && turn == p.sent.errs <= MAX_SEND_ERRORS
    requires Counted(p.sent, p.removals)
    ensures var (q, n) := Turns(p, turn, attempts, blackhole);
      && n <= MAX_SEND_ERRORS && q.sent.errs <= n <= q.sent.errs + 1
      && q.sent.apiErrs + q.sent.timeouts <= 1 && q.sent.begin == p.sent.begin
      && Counted(q.sent, q.removals)
    decreases MAX_SEND_ERRORS - p.sent.errs
  {
    hide Turn, Acknowledgements, BadOnes, AcknowledgedBytes;
    if turn < MAX_SEND_ERRORS && !attempts(turn).late {
      if !attempts(turn).connects {
        TurnsEnd(Failed(p), turn + 1, attempts, blackhole);
      } else {
        var keys := Listing(p.spool.files.Keys);
        RetriesCleanly(p, keys, 0, attempts(turn), turn, blackhole);
        var (q, ok) := Turn(p, keys, 0, attempts(turn), turn, blackhole);
        if !ok {
          TurnsEnd(Failed(q), turn + 1, attempts, blackhole);
        }
      }
    }
  }

  /** A run ends after at most three connections, one more than it had errors or as
      many, with at most one API error or timeout, and its counters match its removals. */
  lemma SendEnds(s: Spool, attempts: nat -> Attempt, begin: int, blackhole: bool)
    ensures var (q, n) := SendRun(s, attempts, begin, blackhole);
      && n <= 3 && q.sent.errs <= n <= q.sent.errs + 1
      && q.sent.apiErrs + q.sent.timeouts <= 1 && q.sent.begin == begin
      && Counted(q.sent, q.removals) && q.sent.badFiles <= q.sent.files
  {
    hide Turns;
    TurnsEnd(NewRun(s, begin), 0, attempts, blackhole);
    BadAreAcknowledged(SendRun(s, attempts, begin, blackhole).0.removals);
  }

  /** A whole run that comes to a smooth turn. */
  lemma SmoothRunEmptiesSpool(s: Spool, attempts: nat -> Attempt, begin: int, blackhole: bool, t: nat)
    requires t < SendRun(s, attempts, begin, blackhole).1 && Smooth(attempts(t))
    ensures var (q, n) := SendRun(s, attempts, begin, blackhole);
      n == t + 1 && q.spool.files == map[] && q.sent.apiErrs == 0 && q.sent.timeouts == 0
  {
    hide Turns, Smooth;
    SmoothTurnEmptiesSpool(NewRun(s, begin), 0, attempts, blackhole, t);
  }

  lemma {:induction false} TurnKeepsAccurate(p: Progress, keys: seq<string>, i: nat, a: Attempt, turn: nat,
                                             blackhole: bool)
    requires i <= |keys| && Accurate(p.spool)
    ensures Accurate(Turn(p, keys, i, a, turn, blackhole).0.spool)
    decreases |keys| - i
  {
    hide Accurate, AfterRemove, Follows, Reason, Counting, Wrap;
    if i < |keys| && !a.lateAt(i) {
      ReadMovesNothing(p.spool, keys[i], a.readable(i));
      if a.readable(i) && keys[i] in p.spool.files {
        var read, data := p.(spool := AfterRead(p.spool, keys[i], true)), p.spool.files[keys[i]];
        if a.erasable(i) {
          RemoveAccurateIff(read.spool, keys[i], true);
        } else {
          NotErased(read.spool, keys[i]);
        }
        TurnKeepsAccurate(AfterFile(read, keys[i], data, a, turn, i, blackhole), keys, i + 1, a, turn, blackhole);
      }
    }
  }

  lemma ReadMovesNothing(s: Spool, key: string, readable: bool)
    requires Accurate(s)
    ensures Accurate(AfterRead(s, key, readable))
  {
  }

  lemma NotErased(s: Spool, key: string)
    requires key in s.fileSize
    ensures AfterRemove(s, key, true, false) == s
  {
  }

  /** A run keeps an accurate ledger accurate, whatever cannot be read or erased. */
  lemma {:induction false} TurnsKeepAccurate(p: Progress, turn: nat, attempts: nat -> Attempt, blackhole: bool)
    requires Accurate(p.spool)
    ensures Accurate(Turns(p, turn, attempts, blackhole).0.spool)
    decreases MAX_SEND_ERRORS - p.sent.errs
  {
    hide Turn, Accurate;
    if p.sent.errs < MAX_SEND_ERRORS {
      var keys := Listing(p.spool.files.Keys);
      TurnKeepsAccurate(p, keys, 0, attempts(turn), turn, blackhole);
      TurnsKeepAccurate(Failed(p), turn + 1, attempts, blackhole);
      TurnsKeepAccurate(Failed(Turn(p, keys, 0, attempts(turn), turn, blackhole).0), turn + 1, attempts, blackhole);
    }
  }
}
