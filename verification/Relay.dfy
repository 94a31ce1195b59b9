/** The log relay: entries that cannot be sent are kept in two buffers, the first
    ones and the latest ones, and sent again on reconnect. */
module Relay {
  import opened Words

  const BUFFER_SIZE := 50

  datatype Entry = Logged(id: nat) | LostWarning(n: int)

  type Slots = seq<Option<Entry>>

  /** The two buffers with their recorded sizes and the number of lost entries. */
  datatype Buffers = Buffers(first: Slots, firstSize: int, second: Slots, secondSize: int, lost: int)

  function Filled(es: seq<Entry>): Slots {
    seq(BUFFER_SIZE, i => if 0 <= i < |es| then Some(es[i]) else None)
  }

  const EMPTY := Buffers(Filled([]), 0, Filled([]), 0, 0)

  /** How many slots are occupied. */
  ghost function Occupied(s: Slots): nat {
    if s == [] then 0 else Occupied(s[..|s| - 1]) + if s[|s| - 1].Some? then 1 else 0
  }

  /** The entries in the slots. */
  ghost function Contents(s: Slots): multiset<Entry> {
    if s == [] then multiset{}
    else Contents(s[..|s| - 1]) + Single(s[|s| - 1])
  }

  /** Sizes are within bounds and never below what is stored. */
  ghost predicate Sound(b: Buffers) {
    && |b.first| == |b.second| == BUFFER_SIZE
    && Occupied(b.first) <= b.firstSize <= BUFFER_SIZE
    && Occupied(b.second) <= b.secondSize <= BUFFER_SIZE
    && b.lost >= 0
  }

  // ----- the operations on values -----------------------------------------------------------

  function Buffered(b: Buffers, e: Entry): Buffers
    requires |b.first| == |b.second| == BUFFER_SIZE && 0 <= b.firstSize && 0 <= b.secondSize
  {
    if b.firstSize < BUFFER_SIZE then b.(first := b.first[b.firstSize := Some(e)], firstSize := b.firstSize + 1)
    else if b.secondSize < BUFFER_SIZE
    then b.(second := b.second[b.secondSize := Some(e)], secondSize := b.secondSize + 1)
    else b.(lost := b.lost + b.secondSize, second := Filled([e]), secondSize := 1)
  }

  /** The slots after every send that succeeds has emptied its slot. */
  function Kept(s: Slots, ok: nat -> bool): Slots {
    seq(|s|, i requires 0 <= i < |s| => if s[i].Some? && ok(i) then None else s[i])
  }

  /** The entries among the first n slots that are sent, in order. */
  function Sent(s: Slots, ok: nat -> bool, n: nat): seq<Entry>
    requires n <= |s|
  {
    if n == 0 then [] else
      Sent(s, ok, n - 1) + if s[n - 1].Some? && ok(n - 1) then [s[n - 1].value] else []
  }

  /** Which sends of a resend succeed. */
  datatype Outcomes = Outcomes(first: nat -> bool, warning: bool, second: nat -> bool)

  ghost function AfterResend(b: Buffers, o: Outcomes): Buffers {
    Buffers(Kept(b.first, o.first), b.firstSize - |Sent(b.first, o.first, |b.first|)|,
            Kept(b.second, o.second), b.secondSize - |Sent(b.second, o.second, |b.second|)|,
            if b.lost > 0 then 0 else b.lost)
  }

  /** What a resend puts on the wire. */
  ghost function Resent(b: Buffers, o: Outcomes): seq<Entry> {
    Sent(b.first, o.first, |b.first|)
    + (if b.lost > 0 && o.warning then [LostWarning(b.lost)] else [])
    + Sent(b.second, o.second, |b.second|)
  }

  // ----- the relay ------------------------------------------------------------------------------

  class Relay {
    var connected: bool
    const firstBuf: array<Option<Entry>>
    var firstBufSize: int
    const secondBuf: array<Option<Entry>>
    var secondBufSize: int
    var lost: int
    var wire: seq<Entry>   // what the client sent successfully

    ghost predicate Valid()
      reads this, firstBuf, secondBuf
    {
      && firstBuf != secondBuf && firstBuf.Length == secondBuf.Length == BUFFER_SIZE
      && Sound(St())
    }

    ghost function St(): Buffers
      reads this, firstBuf, secondBuf
    {
      Buffers(firstBuf[..], firstBufSize, secondBuf[..], secondBufSize, lost)
    }

    constructor ()
      ensures Valid() && St() == EMPTY && wire == [] && !connected
      ensures fresh(firstBuf) && fresh(secondBuf)
    {
      connected := false;
      firstBuf := new Option<Entry>[BUFFER_SIZE](_ => None);
      secondBuf := new Option<Entry>[BUFFER_SIZE](_ => None);
      firstBufSize, secondBufSize, lost, wire := 0, 0, 0, [];
      new;
      assert firstBuf[..] == Filled([]) && secondBuf[..] == Filled([]);
      EmptyIsSound();
    }

    /** Throws the second buffer away and starts it again. */
    method Recycle(e: Entry)
      requires firstBuf != secondBuf && secondBuf.Length == BUFFER_SIZE
      modifies this`lost, this`secondBufSize, secondBuf
      ensures lost == old(lost) + old(secondBufSize) && secondBufSize == 1 && secondBuf[..] == Filled([e])
    {
      lost := lost + secondBufSize;
      forall i | 0 <= i < BUFFER_SIZE {
        secondBuf[i] := None;
      }
      secondBuf[0] := Some(e);
      secondBufSize := 1;
      assert secondBuf[..] == Filled([e]);
    }

    method Buffer(e: Entry)
      requires Valid()
      modifies this`firstBufSize, this`secondBufSize, this`lost, firstBuf, secondBuf
      ensures Valid() && St() == Buffered(old(St()), e)
    {
      ghost var b := St();
      assert 0 <= firstBufSize <= BUFFER_SIZE && 0 <= secondBufSize <= BUFFER_SIZE;
      hide Sound, Filled, Occupied;
      BufferedIsSound(b, e);
      if firstBufSize < BUFFER_SIZE {
        firstBuf[firstBufSize] := Some(e);
        assert firstBuf[..] == b.first[firstBufSize := Some(e)];
        firstBufSize := firstBufSize + 1;
        assert secondBuf[..] == b.second;
      } else if secondBufSize < BUFFER_SIZE {
        secondBuf[secondBufSize] := Some(e);
        assert secondBuf[..] == b.second[secondBufSize := Some(e)];
        secondBufSize := secondBufSize + 1;
        assert firstBuf[..] == b.first;
      } else {
        Recycle(e);
        assert firstBuf[..] == b.first;
      }
      assert St() == Buffered(b, e);
      assert Sound(St());
    }

    /** Not being connected is no error to the caller: the entry is buffered. */
    method Send(e: Entry, bufferOnErr: bool, ok: bool) returns (err: bool)
      requires Valid()
      modifies this, firstBuf, secondBuf
      ensures Valid() && connected == old(connected)
      ensures err == (connected && !ok)
      ensures wire == if connected && ok then old(wire) + [e] else old(wire)
      ensures St() == if !connected || (!ok && bufferOnErr) then Buffered(old(St()), e) else old(St())
    {
      err := false;
      if connected {
        if ok {
          wire := wire + [e];
        } else {
          err := true;
          if bufferOnErr {
            Buffer(e);
          }
        }
      } else {
        Buffer(e);
      }
    }

    /** One of the two loops of resend. */
    method ResendBuffer(buf: array<Option<Entry>>, size: int, ok: nat -> bool) returns (size': int)
      requires connected && buf.Length == BUFFER_SIZE
      modifies this`wire, buf
      ensures buf[..] == Kept(old(buf[..]), ok)
      ensures wire == old(wire) + Sent(old(buf[..]), ok, BUFFER_SIZE)
      ensures size' == size - |Sent(old(buf[..]), ok, BUFFER_SIZE)|
    {
      ghost var slots := buf[..];
      size' := size;
      for i := 0 to BUFFER_SIZE
        invariant forall j :: 0 <= j < i ==> buf[j] == Kept(slots, ok)[j]
        invariant forall j :: i <= j < BUFFER_SIZE ==> buf[j] == slots[j]
        invariant wire == old(wire) + Sent(slots, ok, i)
        invariant size' == size - |Sent(slots, ok, i)|
      {
        if buf[i].Some? {
          if ok(i) {
            wire := wire + [buf[i].value];
            buf[i] := None;
            size' := size' - 1;
          }
        }
      }
      assert buf[..] == Kept(slots, ok);
    }

    /** The warning about lost entries is not buffered if it cannot be sent. */
    method Warn(ok: bool)
      modifies this`wire, this`lost
      ensures wire == old(wire) + (if old(lost) > 0 && ok then [LostWarning(old(lost))] else [])
      ensures lost == if old(lost) > 0 then 0 else old(lost)
    {
      if lost > 0 {
        if ok {
          wire := wire + [LostWarning(lost)];
        }
        lost := 0;
      }
    }

    method Resend(o: Outcomes)
      requires Valid() && connected
      modifies this, firstBuf, secondBuf
      ensures Valid() && connected
      ensures St() == AfterResend(old(St()), o) && wire == old(wire) + Resent(old(St()), o)
    {
      ghost var b := St();
      hide Kept, Sent, Sound, Occupied;
      ResentIsSound(b, o);
      firstBufSize := ResendBuffer(firstBuf, firstBufSize, o.first);
      Warn(o.warning);
      assert secondBuf[..] == b.second;
      secondBufSize := ResendBuffer(secondBuf, secondBufSize, o.second);
      assert firstBuf[..] == Kept(b.first, o.first);
      Associate(old(wire), Sent(b.first, o.first, BUFFER_SIZE),
                if b.lost > 0 && o.warning then [LostWarning(b.lost)] else [],
                Sent(b.second, o.second, BUFFER_SIZE));
      assert St() == AfterResend(b, o);
    }
  }

  lemma Associate(a: seq<Entry>, b: seq<Entry>, c: seq<Entry>, d: seq<Entry>)
    ensures a + b + c + d == a + (b + c + d)
  {
  }

  // ----- sizes -------------------------------------------------------------------------------------

  lemma {:induction false} OccupiedUpdate(s: Slots, i: nat, x: Option<Entry>)
    requires i < |s|
    ensures Occupied(s[i := x]) + (if s[i].Some? then 1 else 0) == Occupied(s) + (if x.Some? then 1 else 0)
  {
    var n := |s| - 1;
    if i < n {
      OccupiedUpdate(s[..n], i, x);
      assert s[i := x][..n] == s[..n][i := x];
    } else {
      assert s[i := x][..n] == s[..n];
    }
  }

  ghost function Single(x: Option<Entry>): multiset<Entry> {
    if x.Some? then multiset{x.value} else multiset{}
  }

  lemma Shift(a: multiset<Entry>, b: multiset<Entry>, x: multiset<Entry>, y: multiset<Entry>, k: multiset<Entry>)
    requires a + x == b + y
    ensures a + k + x == b + k + y && k + a + x == k + b + y
  {
    assert a + k + x == (a + x) + k && b + k + y == (b + y) + k;
    assert k + a + x == (a + x) + k && k + b + y == (b + y) + k;
  }

  lemma {:induction false} ContentsUpdate(s: Slots, i: nat, x: Option<Entry>)
    requires i < |s|
    ensures Contents(s[i := x]) + Single(s[i]) == Contents(s) + Single(x)
  {
    hide Single;
    var n := |s| - 1;
    var c := Contents(s[..n]);
    if i < n {
      ContentsUpdate(s[..n], i, x);
      assert s[i := x][..n] == s[..n][i := x];
      Shift(Contents(s[..n][i := x]), c, Single(s[i]), Single(x), Single(s[n]));
    } else {
      assert s[i := x][..n] == s[..n];
      assert c + Single(x) + Single(s[n]) == c + Single(s[n]) + Single(x);
    }
  }

  lemma {:induction false} NoneStored(s: Slots)
    requires forall i :: 0 <= i < |s| ==> s[i].None?
    ensures Occupied(s) == 0 && Contents(s) == multiset{}
  {
    if s != [] {
      NoneStored(s[..|s| - 1]);
    }
  }

  lemma {:induction false} KeptOccupied(s: Slots, ok: nat -> bool)
    ensures Occupied(Kept(s, ok)) + |Sent(s, ok, |s|)| == Occupied(s)
  {
    if s != [] {
      var n := |s| - 1;
      KeptOccupied(s[..n], ok);
      assert Kept(s, ok)[..n] == Kept(s[..n], ok);
      SentPrefix(s, ok, n);
    }
  }

  /** Sending the last slot or keeping it takes its entry out of the buffer or not. */
  lemma KeptLast(s: Slots, ok: nat -> bool)
    requires s != []
    ensures var n := |s| - 1;
      var gone := if ok(n) then Single(s[n]) else multiset{};
      var stays := if ok(n) then multiset{} else Single(s[n]);
      && Contents(s) == Contents(s[..n]) + Single(s[n])
      && Contents(Kept(s, ok)) == Contents(Kept(s[..n], ok)) + stays
      && multiset(Sent(s, ok, |s|)) == multiset(Sent(s[..n], ok, n)) + gone
      && gone + stays == Single(s[n])
  {
    var n := |s| - 1;
    SentPrefix(s, ok, n);
    assert Kept(s, ok)[..n] == Kept(s[..n], ok);
  }

  lemma {:induction false} KeptContents(s: Slots, ok: nat -> bool)
    ensures Contents(Kept(s, ok)) + multiset(Sent(s, ok, |s|)) == Contents(s)
  {
    if s != [] {
      hide Contents, Kept, Sent, Single;
      var n := |s| - 1;
      KeptContents(s[..n], ok);
      KeptLast(s, ok);
    }
  }

  lemma {:induction false} SentPrefix(s: Slots, ok: nat -> bool, n: nat)
    requires n <= |s|
    ensures Sent(s[..n], ok, n) == Sent(s, ok, n)
    decreases n
  {
    if n > 0 {
      SentPrefix(s, ok, n - 1);
      SentPrefix(s[..n], ok, n - 1);
      assert s[..n][..n - 1] == s[..n - 1];
    }
  }

  lemma EmptyIsSound()
    ensures Sound(EMPTY) && Contents(EMPTY.first) == Contents(EMPTY.second) == multiset{}
  {
    FilledNone();
  }

  /** The entry that buffering overwrites, if any: it lies at the recorded size, above a
      hole left by a partial resend. */
  ghost function Overwritten(b: Buffers): multiset<Entry>
    requires Sound(b)
  {
    if b.firstSize < BUFFER_SIZE then Single(b.first[b.firstSize])
    else if b.secondSize < BUFFER_SIZE then Single(b.second[b.secondSize])
    else multiset{}
  }

  /** What buffering gives up on purpose. */
  ghost function Counted(b: Buffers): multiset<Entry>
    requires Sound(b)
  {
    if b.firstSize == BUFFER_SIZE == b.secondSize then Contents(b.second) else multiset{}
  }

  ghost function Stored(b: Buffers): multiset<Entry> {
    Contents(b.first) + Contents(b.second)
  }

  /** Buffering stays within the buffers. */
  lemma BufferedIsSound(b: Buffers, e: Entry)
    requires Sound(b)
    ensures Sound(Buffered(b, e))
  {
    hide Occupied, Filled;
    if b.firstSize < BUFFER_SIZE {
      OccupiedUpdate(b.first, b.firstSize, Some(e));
    } else if b.secondSize < BUFFER_SIZE {
      OccupiedUpdate(b.second, b.secondSize, Some(e));
    } else {
      FilledOne(e);
    }
  }

  /** ... and accounts for every entry. */
  lemma BufferedAccounts(b: Buffers, e: Entry)
    requires Sound(b)
    ensures Stored(Buffered(b, e)) + Overwritten(b) + Counted(b) == Stored(b) + multiset{e}
  {
    hide Occupied, Contents, Filled;
    assert Single(Some(e)) == multiset{e};
    if b.firstSize < BUFFER_SIZE {
      ContentsUpdate(b.first, b.firstSize, Some(e));
      var first := Contents(b.first[b.firstSize := Some(e)]);
      Shift(first, Contents(b.first), Overwritten(b), multiset{e}, Contents(b.second));
    } else if b.secondSize < BUFFER_SIZE {
      ContentsUpdate(b.second, b.secondSize, Some(e));
      var second := Contents(b.second[b.secondSize := Some(e)]);
      Shift(second, Contents(b.second), Overwritten(b), multiset{e}, Contents(b.first));
    } else {
      FilledOne(e);
    }
  }

  lemma FilledNone()
    ensures |Filled([])| == BUFFER_SIZE && Occupied(Filled([])) == 0 && Contents(Filled([])) == multiset{}
  {
    NoneStored(Filled([]));
  }

  lemma EmptySum(a: multiset<Entry>, b: multiset<Entry>)
    requires a + multiset{} == multiset{} + b
    ensures a == b
  {
    assert a + multiset{} == a && multiset{} + b == b;
  }

  lemma FilledOne(e: Entry)
    ensures |Filled([e])| == BUFFER_SIZE && Occupied(Filled([e])) == 1 && Contents(Filled([e])) == multiset{e}
  {
    hide Occupied, Contents;
    FilledNone();
    var s := Filled([]);
    assert s[0 := Some(e)] == Filled([e]);
    OccupiedUpdate(s, 0, Some(e));
    ContentsUpdate(s, 0, Some(e));
    assert Single(None) == multiset{} && Single(Some(e)) == multiset{e};
    EmptySum(Contents(Filled([e])), multiset{e});
  }

  /** Whichever sends fail, sizes stay within bounds. */
  lemma ResentIsSound(b: Buffers, o: Outcomes)
    requires Sound(b)
    ensures Sound(AfterResend(b, o))
  {
    hide Occupied, Sent;
    KeptOccupied(b.first, o.first);
    KeptOccupied(b.second, o.second);
  }

  /** ... and what leaves the buffers is what was sent. */
  lemma ResentAccounts(b: Buffers, o: Outcomes)
    ensures Stored(AfterResend(b, o))
      + multiset(Sent(b.first, o.first, |b.first|)) + multiset(Sent(b.second, o.second, |b.second|)) == Stored(b)
  {
    hide Contents, Sent, Kept;
    KeptContents(b.first, o.first);
    KeptContents(b.second, o.second);
  }

  // ----- runs ---------------------------------------------------------------------------------------

  /** Everything logged is on the wire, stored, or dropped. */
  datatype World = World(buffers: Buffers, wire: seq<Entry>, logged: multiset<Entry>, dropped: multiset<Entry>)

  datatype Happening =
    | Delays(e: Entry)        // an entry that cannot be sent is buffered
    | Passes(e: Entry)        // an entry is sent at once
    | Reconnects(o: Outcomes)

  ghost function Next(w: World, h: Happening): World {
    match h
    case Delays(e) =>
      if !Sound(w.buffers) then w else
        World(Buffered(w.buffers, e), w.wire, w.logged + multiset{e},
              w.dropped + Overwritten(w.buffers) + Counted(w.buffers))
    case Passes(e) => World(w.buffers, w.wire + [e], w.logged + multiset{e}, w.dropped)
    case Reconnects(o) => w.(buffers := AfterResend(w.buffers, o), wire := w.wire + Resent(w.buffers, o))
  }

  ghost predicate OnlyLogged(es: multiset<Entry>) {
    forall e :: e in es ==> e.Logged?
  }

  ghost predicate Inv(w: World) {
    && Sound(w.buffers)
    && OnlyLogged(w.logged)
    && forall e: Entry :: e.Logged? ==> multiset(w.wire)[e] + Stored(w.buffers)[e] + w.dropped[e] == w.logged[e]
  }

  /** Only log entries, no warnings of the relay itself, come in. */
  ghost predicate Accepts(h: Happening) {
    (h.Delays? || h.Passes?) ==> h.e.Logged?
  }

  lemma ResentCounts(b: Buffers, o: Outcomes, e: Entry)
    requires Sound(b) && e.Logged?
    ensures multiset(Resent(b, o))[e] + Stored(AfterResend(b, o))[e] == Stored(b)[e]
  {
    ResentAccounts(b, o);
    hide Sent, Stored, AfterResend, Sound;
    var one, two := Sent(b.first, o.first, |b.first|), Sent(b.second, o.second, |b.second|);
    var warning := if b.lost > 0 && o.warning then [LostWarning(b.lost)] else [];
    assert multiset(Resent(b, o)) == multiset(one) + multiset(warning) + multiset(two);
    assert multiset(warning)[e] == 0;
  }

  lemma DelayKeepsInv(w: World, e: Entry)
    requires Inv(w) && e.Logged?
    ensures Inv(Next(w, Delays(e)))
  {
    BufferedIsSound(w.buffers, e);
    BufferedAccounts(w.buffers, e);
    hide Sound, Buffered, Stored, Overwritten, Counted;
    var v := Next(w, Delays(e));
    forall x: Entry | x.Logged? ensures multiset(v.wire)[x] + Stored(v.buffers)[x] + v.dropped[x] == v.logged[x] {
      assert (Stored(v.buffers) + Overwritten(w.buffers) + Counted(w.buffers))[x]
          == (Stored(w.buffers) + multiset{e})[x];
    }
  }

  lemma PassKeepsInv(w: World, e: Entry)
    requires Inv(w) && e.Logged?
    ensures Inv(Next(w, Passes(e)))
  {
    hide Sound, Stored;
  }

  lemma ReconnectKeepsInv(w: World, o: Outcomes)
    requires Inv(w)
    ensures Inv(Next(w, Reconnects(o)))
  {
    ResentIsSound(w.buffers, o);
    hide Sound, Stored, AfterResend, Resent;
    var v := Next(w, Reconnects(o));
    assert multiset(v.wire) == multiset(w.wire) + multiset(Resent(w.buffers, o));
    forall x: Entry | x.Logged? ensures multiset(v.wire)[x] + Stored(v.buffers)[x] + v.dropped[x] == v.logged[x] {
      ResentCounts(w.buffers, o, x);
    }
  }

  lemma InvStep(w: World, h: Happening)
    requires Inv(w) && Accepts(h)
    ensures Inv(Next(w, h))
  {
    hide Inv, Next;
    match h {
      case Delays(e) => DelayKeepsInv(w, e);
      case Passes(e) => PassKeepsInv(w, e);
      case Reconnects(o) => ReconnectKeepsInv(w, o);
    }
  }

  ghost predicate IsRun(trace: seq<World>, hs: seq<Happening>) {
    && |trace| == |hs| + 1 && trace[0] == World(EMPTY, [], multiset{}, multiset{})
    && forall i :: 0 <= i < |hs| ==> Accepts(hs[i]) && trace[i + 1] == Next(trace[i], hs[i])
  }

  /** Over every run, whichever sends of whichever resends fail: no size leaves its
      bounds, so no write is out of range, and every logged entry is on the wire,
      stored or dropped as often as it was logged. */
  lemma {:induction false} RunsAreSound(trace: seq<World>, hs: seq<Happening>, k: nat)
    requires IsRun(trace, hs) && k < |trace|
    ensures Inv(trace[k])
  {
    hide Inv;
    if k == 0 {
      EmptyInv();
    } else {
      RunsAreSound(trace, hs, k - 1);
      InvStep(trace[k - 1], hs[k - 1]);
    }
  }

  lemma EmptyInv()
    ensures Inv(World(EMPTY, [], multiset{}, multiset{}))
  {
    EmptyIsSound();
  }

  /** If entries are logged once, none is sent twice, and none that was sent is
      still in a buffer to be sent again. */
  lemma NeverSentTwice(trace: seq<World>, hs: seq<Happening>, k: nat, e: Entry)
    requires IsRun(trace, hs) && k < |trace| && e.Logged? && trace[k].logged[e] <= 1
    ensures multiset(trace[k].wire)[e] <= 1
    ensures multiset(trace[k].wire)[e] == 1 ==> Stored(trace[k].buffers)[e] == 0
  {
    RunsAreSound(trace, hs, k);
  }

  // ----- the lossless case ----------------------------------------------------------------------------

  ghost function BufferAll(es: seq<Entry>): (b: Buffers)
    ensures Sound(b)
  {
    if es == [] then EmptyIsSound(); EMPTY
    else
      BufferedIsSound(BufferAll(es[..|es| - 1]), es[|es| - 1]);
      Buffered(BufferAll(es[..|es| - 1]), es[|es| - 1])
  }

  function FirstCount(n: nat): nat {
    if n <= 50 then n else 50
  }

  /** How many of the latest n entries the second buffer holds. */
  function LatestCount(n: nat): nat {
    if n <= 50 then 0 else (n - 51) % 50 + 1
  }

  /** The first f entries, the latest l, and the number of those between them. */
  ghost function Form(es: seq<Entry>, f: nat, l: nat): Buffers
    requires f + l <= |es|
  {
    Buffers(Filled(es[..f]), f, Filled(es[|es| - l..]), l, |es| - f - l)
  }

  /** What the buffers hold after the n entries of es. */
  ghost function FormOf(es: seq<Entry>): Buffers
    requires FirstCount(|es|) + LatestCount(|es|) <= |es|
  {
    Form(es, FirstCount(|es|), LatestCount(|es|))
  }

  lemma CountsFit(n: nat)
    ensures FirstCount(n) + LatestCount(n) <= n && LatestCount(n) <= BUFFER_SIZE
    ensures FirstCount(n) == if n < BUFFER_SIZE then n else BUFFER_SIZE
    ensures n <= BUFFER_SIZE ==> LatestCount(n) == 0
    ensures LatestCount(n + 1)
         == if n < BUFFER_SIZE then 0 else if LatestCount(n) < BUFFER_SIZE then LatestCount(n) + 1 else 1
  {
  }

  lemma FilledStep(es: seq<Entry>, e: Entry)
    requires |es| < BUFFER_SIZE
    ensures Filled(es)[|es| := Some(e)] == Filled(es + [e])
  {
  }

  lemma PrefixOfFront(es: seq<Entry>, k: nat)
    requires k < |es|
    ensures es[..|es| - 1][..k] == es[..k]
  {
  }

  lemma SuffixOfFront(es: seq<Entry>, l: nat)
    requires l < |es|
    ensures var n := |es|; es[..n - 1][n - 1 - l..] + [es[n - 1]] == es[n - (l + 1)..]
  {
  }

  lemma FormFirst(es: seq<Entry>)
    requires 0 < |es| <= BUFFER_SIZE
    ensures Buffered(Form(es[..|es| - 1], |es| - 1, 0), es[|es| - 1]) == Form(es, |es|, 0)
  {
    hide Filled;
    var n := |es|;
    var front := es[..n - 1];
    FilledStep(front[..n - 1], es[n - 1]);
    assert front[..n - 1] + [es[n - 1]] == es[..n] && es[n..] == front[n - 1..];
    FilledSize(front[..n - 1]);
    FilledSize(es[n..]);
  }

  lemma FormSecond(es: seq<Entry>, l: nat)
    requires BUFFER_SIZE + l < |es| && l < BUFFER_SIZE
    ensures Buffered(Form(es[..|es| - 1], BUFFER_SIZE, l), es[|es| - 1]) == Form(es, BUFFER_SIZE, l + 1)
  {
    hide Filled;
    var front := es[..|es| - 1];
    PrefixOfFront(es, BUFFER_SIZE);
    FilledStep(front[|front| - l..], es[|es| - 1]);
    SuffixOfFront(es, l);
    FilledSize(front[..BUFFER_SIZE]);
    FilledSize(front[|front| - l..]);
  }

  lemma FormRecycled(es: seq<Entry>)
    requires 2 * BUFFER_SIZE < |es|
    ensures Buffered(Form(es[..|es| - 1], BUFFER_SIZE, BUFFER_SIZE), es[|es| - 1]) == Form(es, BUFFER_SIZE, 1)
  {
    hide Filled;
    var front := es[..|es| - 1];
    PrefixOfFront(es, BUFFER_SIZE);
    assert es[|es| - 1..] == [es[|es| - 1]];
    FilledSize(front[..BUFFER_SIZE]);
    FilledSize(front[|front| - BUFFER_SIZE..]);
  }

  lemma FilledSize(es: seq<Entry>)
    ensures |Filled(es)| == BUFFER_SIZE
  {
  }

  /** After n entries are buffered without a reconnect the first buffer holds the
      first 50, the second exactly the latest ones, and the rest is counted lost. */
  lemma {:induction false} BufferAllForm(es: seq<Entry>)
    ensures FirstCount(|es|) + LatestCount(|es|) <= |es|
    ensures BufferAll(es) == FormOf(es)
  {
    hide Sound, LatestCount, FirstCount, Buffered, Form;
    var n := |es|;
    CountsFit(n);
    if n == 0 {
      NothingForm(es);
    } else {
      var l := LatestCount(n - 1);
      BufferAllForm(es[..n - 1]);
      CountsFit(n - 1);
      if n <= BUFFER_SIZE {
        FormFirst(es);
      } else if l < BUFFER_SIZE {
        FormSecond(es, l);
      } else {
        FormRecycled(es);
      }
    }
  }

  lemma NothingForm(es: seq<Entry>)
    requires es == []
    ensures EMPTY == Form(es, 0, 0)
  {
  }

  ghost predicate AllSucceed(o: Outcomes) {
    o.warning && forall i: nat :: o.first(i) && o.second(i)
  }

  lemma {:induction false} SentFilled(es: seq<Entry>, ok: nat -> bool, n: nat)
    requires n <= BUFFER_SIZE && |es| <= BUFFER_SIZE && forall i: nat :: ok(i)
    ensures Sent(Filled(es), ok, n) == if n <= |es| then es[..n] else es
  {
    if n > 0 {
      SentFilled(es, ok, n - 1);
      if n <= |es| { assert es[..n] == es[..n - 1] + [es[n - 1]]; }
      if n == |es| + 1 { assert es[..n - 1] == es; }
    }
  }

  /** A reconnect in which every send succeeds then emits the first entries, one
      warning if any were lost, and the latest entries, in the order logged, and
      leaves both buffers empty. */
  lemma ReconnectEmitsInOrder(es: seq<Entry>, o: Outcomes)
    requires AllSucceed(o)
    ensures var n, f, l := |es|, FirstCount(|es|), LatestCount(|es|);
      f + l <= n
      && Resent(BufferAll(es), o) ==
           es[..f] + (if n > f + l then [LostWarning(n - f - l)] else []) + es[n - l..]
    ensures AfterResend(BufferAll(es), o) == EMPTY
  {
    hide Resent, AfterResend, BufferAll, LatestCount, FirstCount, Form;
    BufferAllForm(es);
    CountsFit(|es|);
    FormEmits(es, FirstCount(|es|), LatestCount(|es|), o);
  }

  lemma FormEmits(es: seq<Entry>, f: nat, l: nat, o: Outcomes)
    requires AllSucceed(o) && f <= BUFFER_SIZE && l <= BUFFER_SIZE && f + l <= |es|
    ensures Resent(Form(es, f, l), o)
         == es[..f] + (if |es| > f + l then [LostWarning(|es| - f - l)] else []) + es[|es| - l..]
    ensures AfterResend(Form(es, f, l), o) == EMPTY
  {
    hide Sent, Kept, Filled;
    EmptiesFilled(es[..f], o.first);
    EmptiesFilled(es[|es| - l..], o.second);
    var b := Form(es, f, l);
    assert Sent(b.first, o.first, |b.first|) == es[..f];
    assert Sent(b.second, o.second, |b.second|) == es[|es| - l..];
  }

  lemma EmptiesFilled(es: seq<Entry>, ok: nat -> bool)
    requires |es| <= BUFFER_SIZE && forall i: nat :: ok(i)
    ensures |Filled(es)| == BUFFER_SIZE && Sent(Filled(es), ok, BUFFER_SIZE) == es
    ensures Kept(Filled(es), ok) == Filled([])
  {
    SentFilled(es, ok, BUFFER_SIZE);
    assert es[..|es|] == es;
  }

  // ----- what is counted as lost ------------------------------------------------------------------------

  /** How much the recorded size exceeds what is stored. */
  ghost function Gap(s: Slots, size: int): int {
    size - Occupied(s)
  }

  /** The losses that the warnings on the wire admit. */
  ghost function Warned(wire: seq<Entry>): int {
    if wire == [] then 0 else
      Warned(wire[..|wire| - 1]) + if wire[|wire| - 1].LostWarning? then wire[|wire| - 1].n else 0
  }

  /** The losses in warnings that could not be sent. */
  ghost function Unsaid(trace: seq<World>, hs: seq<Happening>, k: nat): int
    requires k <= |trace| && k <= |hs|
  {
    if k == 0 then 0 else
      Unsaid(trace, hs, k - 1)
      + if hs[k - 1].Reconnects? && !hs[k - 1].o.warning then trace[k - 1].buffers.lost else 0
  }

  lemma {:induction false} ContentsSize(s: Slots)
    ensures |Contents(s)| == Occupied(s)
  {
    if s != [] {
      ContentsSize(s[..|s| - 1]);
    }
  }

  lemma {:induction false} WarnedConcat(a: seq<Entry>, b: seq<Entry>)
    ensures Warned(a + b) == Warned(a) + Warned(b)
  {
    if b == [] {
      assert a + b == a;
    } else {
      WarnedConcat(a, b[..|b| - 1]);
      assert (a + b)[..|a + b| - 1] == a + b[..|b| - 1];
    }
  }

  lemma {:induction false} NoWarning(es: seq<Entry>)
    requires forall i :: 0 <= i < |es| ==> es[i].Logged?
    ensures Warned(es) == 0
  {
    if es != [] {
      NoWarning(es[..|es| - 1]);
    }
  }

  /** Only log entries are stored. */
  ghost predicate Clean(s: Slots) {
    forall i :: 0 <= i < |s| && s[i].Some? ==> s[i].value.Logged?
  }

  lemma {:induction false} SentIsClean(s: Slots, ok: nat -> bool, n: nat)
    requires n <= |s| && Clean(s)
    ensures forall i :: 0 <= i < |Sent(s, ok, n)| ==> Sent(s, ok, n)[i].Logged?
  {
    if n > 0 {
      SentIsClean(s, ok, n - 1);
    }
  }

  lemma ResentWarns(b: Buffers, o: Outcomes)
    requires Clean(b.first) && Clean(b.second)
    ensures Warned(Resent(b, o)) == if b.lost > 0 && o.warning then b.lost else 0
  {
    hide Sent, Clean;
    var one, two := Sent(b.first, o.first, |b.first|), Sent(b.second, o.second, |b.second|);
    var warning := if b.lost > 0 && o.warning then [LostWarning(b.lost)] else [];
    SentIsClean(b.first, o.first, |b.first|);
    SentIsClean(b.second, o.second, |b.second|);
    NoWarning(one);
    NoWarning(two);
    WarnedConcat(one + warning, two);
    WarnedConcat(one, warning);
    if warning != [] {
      assert warning[..0] == [];
    }
  }

  ghost predicate Tidy(w: World) {
    Sound(w.buffers) && Clean(w.buffers.first) && Clean(w.buffers.second)
  }

  lemma TidyStep(w: World, h: Happening)
    requires Tidy(w) && Accepts(h)
    ensures Tidy(Next(w, h))
  {
    hide Occupied, Sent, Contents;
    if h.Delays? {
      BufferedIsSound(w.buffers, h.e);
    } else if h.Reconnects? {
      ResentIsSound(w.buffers, h.o);
    }
  }

  lemma {:induction false} RunIsTidy(trace: seq<World>, hs: seq<Happening>, k: nat)
    requires IsRun(trace, hs) && k < |trace|
    ensures Tidy(trace[k])
  {
    hide Next, Sound;
    if k == 0 {
      EmptyIsSound();
    } else {
      RunIsTidy(trace, hs, k - 1);
      TidyStep(trace[k - 1], hs[k - 1]);
    }
  }

  /** What was dropped and is neither admitted nor kept in mind. */
  ghost function Balance(w: World): int {
    |w.dropped| - Warned(w.wire) - w.buffers.lost
    - Gap(w.buffers.first, w.buffers.firstSize) - Gap(w.buffers.second, w.buffers.secondSize)
  }

  lemma DelayBalances(w: World, e: Entry)
    requires Sound(w.buffers)
    ensures Balance(Next(w, Delays(e))) == Balance(w)
  {
    hide Occupied, Contents, Filled;
    var b := w.buffers;
    if b.firstSize < BUFFER_SIZE {
      OccupiedUpdate(b.first, b.firstSize, Some(e));
    } else if b.secondSize < BUFFER_SIZE {
      OccupiedUpdate(b.second, b.secondSize, Some(e));
    } else {
      FilledOne(e);
      ContentsSize(b.second);
    }
  }

  lemma ReconnectBalances(w: World, o: Outcomes)
    requires Tidy(w)
    ensures Balance(Next(w, Reconnects(o))) == Balance(w) + if o.warning then 0 else w.buffers.lost
  {
    hide Occupied, Contents, Sent, Kept, Resent, Clean;
    var b := w.buffers;
    KeptOccupied(b.first, o.first);
    KeptOccupied(b.second, o.second);
    ResentWarns(b, o);
    WarnedConcat(w.wire, Resent(b, o));
  }

  /** Over every run every dropped entry is accounted for: in a warning on the wire, in
      one that could not be sent, in the number lost since, or in a recorded size that
      exceeds what is stored. */
  lemma {:induction false} DropsAreAccounted(trace: seq<World>, hs: seq<Happening>, k: nat)
    requires IsRun(trace, hs) && k < |trace|
    ensures Balance(trace[k]) == Unsaid(trace, hs, k)
  {
    hide Next, Balance, Tidy;
    if k == 0 {
      EmptyBalances();
    } else {
      DropsAreAccounted(trace, hs, k - 1);
      RunIsTidy(trace, hs, k - 1);
      var w, h := trace[k - 1], hs[k - 1];
      match h {
        case Delays(e) => assert Sound(w.buffers) by { TidyIsSound(w); } DelayBalances(w, e);
        case Passes(e) => PassBalances(w, e);
        case Reconnects(o) => ReconnectBalances(w, o);
      }
    }
  }

  lemma TidyIsSound(w: World)
    requires Tidy(w)
    ensures Sound(w.buffers)
  {
  }

  lemma EmptyBalances()
    ensures Balance(World(EMPTY, [], multiset{}, multiset{})) == 0
  {
    hide Filled, Occupied, Contents;
    FilledNone();
  }

  lemma PassBalances(w: World, e: Entry)
    requires e.Logged?
    ensures Balance(Next(w, Passes(e))) == Balance(w)
  {
    WarnedConcat(w.wire, [e]);
    NoWarning([e]);
  }

  /** So all drops have been counted, whether or not the warning came through, if and
      only if both recorded sizes are what is stored. */
  lemma AllDropsCountedIff(trace: seq<World>, hs: seq<Happening>, k: nat)
    requires IsRun(trace, hs) && k < |trace|
    ensures var w := trace[k];
      |w.dropped| == Warned(w.wire) + Unsaid(trace, hs, k) + w.buffers.lost <==>
      Occupied(w.buffers.first) == w.buffers.firstSize && Occupied(w.buffers.second) == w.buffers.secondSize
  {
    hide Next, Occupied, Warned;
    DropsAreAccounted(trace, hs, k);
    RunIsTidy(trace, hs, k);
  }

  /** What is missing in the count of the first buffer is never made up for; in the
      second buffer it is when that is thrown away. */
  lemma {:induction false} FirstGapStays(trace: seq<World>, hs: seq<Happening>, j: nat, k: nat)
    requires IsRun(trace, hs) && j <= k < |trace|
    ensures Gap(trace[j].buffers.first, trace[j].buffers.firstSize)
         <= Gap(trace[k].buffers.first, trace[k].buffers.firstSize)
    decreases k - j
  {
    hide Next, Gap, Tidy;
    if j < k {
      FirstGapStays(trace, hs, j, k - 1);
      RunIsTidy(trace, hs, k - 1);
      GapStep(trace[k - 1], hs[k - 1]);
    }
  }

  lemma GapStep(w: World, h: Happening)
    requires Tidy(w)
    ensures Gap(w.buffers.first, w.buffers.firstSize)
         <= Gap(Next(w, h).buffers.first, Next(w, h).buffers.firstSize)
    ensures h.Delays? && w.buffers.firstSize == BUFFER_SIZE == w.buffers.secondSize ==>
      Gap(Next(w, h).buffers.second, Next(w, h).buffers.secondSize) == 0
  {
    hide Occupied, Contents, Sent, Kept, Filled;
    var b := w.buffers;
    match h {
      case Delays(e) =>
        if b.firstSize < BUFFER_SIZE {
          OccupiedUpdate(b.first, b.firstSize, Some(e));
        } else {
          FilledOne(e);
        }
      case Passes(_) =>
      case Reconnects(o) => KeptOccupied(b.first, o.first);
    }
  }

  // ----- when entries are overwritten ---------------------------------------------------------------------

  /** No occupied slot lies at or above the recorded size. */
  ghost predicate Clear(s: Slots, size: int) {
    forall i :: 0 <= i < |s| && size <= i ==> s[i].None?
  }

  ghost function BufferMore(b: Buffers, es: seq<Entry>): (r: Buffers)
    requires Sound(b)
    ensures Sound(r)
  {
    if es == [] then b
    else
      BufferedIsSound(BufferMore(b, es[..|es| - 1]), es[|es| - 1]);
      Buffered(BufferMore(b, es[..|es| - 1]), es[|es| - 1])
  }

  /** Some sequence of entries would come to overwrite one. */
  ghost predicate MayOverwrite(b: Buffers)
    requires Sound(b)
  {
    exists es :: Overwritten(BufferMore(b, es)) != multiset{}
  }

  lemma {:induction false} StaysClear(b: Buffers, es: seq<Entry>)
    requires Sound(b) && Clear(b.first, b.firstSize) && Clear(b.second, b.secondSize)
    ensures var r := BufferMore(b, es);
      && Clear(r.first, r.firstSize) && Clear(r.second, r.secondSize) && Overwritten(r) == multiset{}
  {
    if es != [] {
      StaysClear(b, es[..|es| - 1]);
    }
  }

  /** Filling a buffer up does not touch the slots above. */
  lemma {:induction false} FillsFirst(b: Buffers, es: seq<Entry>)
    requires Sound(b) && b.firstSize + |es| <= BUFFER_SIZE
    ensures var r := BufferMore(b, es);
      && r.firstSize == b.firstSize + |es| && r.second == b.second && r.secondSize == b.secondSize
      && forall i :: r.firstSize <= i < BUFFER_SIZE ==> r.first[i] == b.first[i]
  {
    hide Occupied;
    if es != [] {
      FillsFirst(b, es[..|es| - 1]);
    }
  }

  lemma {:induction false} FillsSecond(b: Buffers, es: seq<Entry>)
    requires Sound(b) && b.firstSize == BUFFER_SIZE && b.secondSize + |es| <= BUFFER_SIZE
    ensures var r := BufferMore(b, es);
      && r.firstSize == BUFFER_SIZE && r.secondSize == b.secondSize + |es|
      && forall i :: r.secondSize <= i < BUFFER_SIZE ==> r.second[i] == b.second[i]
  {
    hide Occupied;
    if es != [] {
      FillsSecond(b, es[..|es| - 1]);
    }
  }

  lemma {:induction false} BufferMoreConcat(b: Buffers, x: seq<Entry>, y: seq<Entry>)
    requires Sound(b)
    ensures BufferMore(b, x + y) == BufferMore(BufferMore(b, x), y)
  {
    if y == [] {
      assert x + y == x;
    } else {
      BufferMoreConcat(b, x, y[..|y| - 1]);
      assert (x + y)[..|x + y| - 1] == x + y[..|y| - 1];
    }
  }

  function Entries(n: nat): seq<Entry> {
    seq(n, i => Logged(0))
  }

  /** Entries can come to be overwritten if and only if an occupied slot lies at or above
      the recorded size of its buffer. */
  lemma MayOverwriteIff(b: Buffers)
    requires Sound(b)
    ensures MayOverwrite(b) <==> !(Clear(b.first, b.firstSize) && Clear(b.second, b.secondSize))
  {
    hide Occupied, BufferMore;
    if !Clear(b.first, b.firstSize) {
      var i :| 0 <= i < |b.first| && b.firstSize <= i && b.first[i].Some?;
      FillsFirst(b, Entries(i - b.firstSize));
      assert Overwritten(BufferMore(b, Entries(i - b.firstSize))) == Single(b.first[i]);
    } else if !Clear(b.second, b.secondSize) {
      var i :| 0 <= i < |b.second| && b.secondSize <= i && b.second[i].Some?;
      var x, y := Entries(BUFFER_SIZE - b.firstSize), Entries(i - b.secondSize);
      FillsFirst(b, x);
      FillsSecond(BufferMore(b, x), y);
      BufferMoreConcat(b, x, y);
      assert Overwritten(BufferMore(b, x + y)) == Single(b.second[i]);
    } else {
      forall es ensures Overwritten(BufferMore(b, es)) == multiset{} {
        StaysClear(b, es);
      }
    }
  }

  // ----- holes ------------------------------------------------------------------------------------------

  /** Exactly the slots below the recorded size are occupied. */
  ghost predicate Compact(s: Slots, size: int) {
    && |s| == BUFFER_SIZE && 0 <= size <= BUFFER_SIZE
    && forall i :: 0 <= i < BUFFER_SIZE ==> (s[i].Some? <==> i < size)
  }

  /** As long as the buffers have no holes nothing is overwritten. */
  lemma CompactOverwritesNothing(b: Buffers, e: Entry)
    requires Sound(b) && Compact(b.first, b.firstSize) && Compact(b.second, b.secondSize)
    ensures Overwritten(b) == multiset{}
    ensures Compact(Buffered(b, e).first, Buffered(b, e).firstSize)
    ensures Compact(Buffered(b, e).second, Buffered(b, e).secondSize)
  {
  }

  /** Once a send succeeds, all later ones do. */
  ghost predicate FailuresFirst(ok: nat -> bool, size: nat) {
    forall i: nat, j: nat :: i < j < size && ok(i) ==> ok(j)
  }

  lemma {:induction false} SentCount(s: Slots, ok: nat -> bool, size: nat, n: nat, m: nat)
    requires Compact(s, size) && n <= BUFFER_SIZE && m <= size
    requires forall i: nat :: i < size ==> (ok(i) <==> m <= i)
    ensures |Sent(s, ok, n)| == if n <= m then 0 else if n <= size then n - m else size - m
  {
    if n > 0 {
      SentCount(s, ok, size, n - 1, m);
    }
  }

  lemma {:induction false} FirstSuccess(ok: nat -> bool, size: nat) returns (m: nat)
    requires FailuresFirst(ok, size)
    ensures m <= size && forall i: nat :: i < size ==> (ok(i) <==> m <= i)
  {
    if size == 0 {
      m := 0;
    } else {
      m := FirstSuccess(ok, size - 1);
      if m < size - 1 {
        assert ok(m) && ok(size - 1);
      } else if !ok(size - 1) {
        m := size;
      }
    }
  }

  /** A resend of a buffer without holes leaves one if and only if some send fails after
      one has succeeded. */
  lemma ResendStaysCompactIff(s: Slots, size: nat, ok: nat -> bool)
    requires Compact(s, size)
    ensures Compact(Kept(s, ok), size - |Sent(s, ok, |s|)|) <==> FailuresFirst(ok, size)
  {
    var left := size - |Sent(s, ok, |s|)|;
    if FailuresFirst(ok, size) {
      var m := FirstSuccess(ok, size);
      SentCount(s, ok, size, BUFFER_SIZE, m);
    } else {
      var i: nat, j: nat :| i < j < size && ok(i) && !ok(j);
      assert Kept(s, ok)[i].None? && Kept(s, ok)[j].Some?;
    }
  }

  lemma {:induction false} ClearOccupied(s: Slots, size: nat)
    requires Clear(s, size) && size <= |s|
    ensures Occupied(s) <= size
    ensures Occupied(s) == size ==> forall i :: 0 <= i < size ==> s[i].Some?
    decreases |s|
  {
    if s != [] {
      var n := |s| - 1;
      ClearOccupied(s[..n], if size <= n then size else n);
    }
  }

  lemma {:induction false} CompactOccupied(s: Slots, size: nat)
    requires size <= |s| && forall i :: 0 <= i < |s| ==> (s[i].Some? <==> i < size)
    ensures Occupied(s) == size
    decreases |s|
  {
    if s != [] {
      var n := |s| - 1;
      CompactOccupied(s[..n], if size <= n then size else n);
    }
  }

  /** For a buffer whose size is what it stores, no hole and nothing above the size are
      the same. */
  lemma ResendClearIff(s: Slots, size: nat, ok: nat -> bool)
    requires Compact(s, size)
    ensures Clear(Kept(s, ok), size - |Sent(s, ok, |s|)|) <==> FailuresFirst(ok, size)
  {
    hide Occupied, Sent, Kept;
    ResendStaysCompactIff(s, size, ok);
    CompactOccupied(s, size);
    KeptOccupied(s, ok);
    assert |Kept(s, ok)| == BUFFER_SIZE by { KeptLength(s, ok); }
    if Clear(Kept(s, ok), size - |Sent(s, ok, |s|)|) {
      ClearOccupied(Kept(s, ok), size - |Sent(s, ok, |s|)|);
    }
  }

  lemma KeptLength(s: Slots, ok: nat -> bool)
    ensures |Kept(s, ok)| == |s|
  {
  }

  /** After a resend of buffers without holes, entries can come to be overwritten if and
      only if in one of them some send failed after one had succeeded. */
  lemma ResendMayOverwriteIff(b: Buffers, o: Outcomes)
    requires Sound(b) && Compact(b.first, b.firstSize) && Compact(b.second, b.secondSize)
    ensures Sound(AfterResend(b, o))
    ensures MayOverwrite(AfterResend(b, o)) <==>
      !(FailuresFirst(o.first, b.firstSize) && FailuresFirst(o.second, b.secondSize))
  {
    hide Occupied, Sent, Kept, Clear, Compact, FailuresFirst;
    ResentIsSound(b, o);
    MayOverwriteIff(AfterResend(b, o));
    ResendClearIff(b.first, b.firstSize, o.first);
    ResendClearIff(b.second, b.secondSize, o.second);
  }

  /** For example: of two buffered entries the first is resent and the second is not;
      the next entry takes the second one's slot, and that is never counted. */
  lemma PartialResendLosesSilently(a: Entry, b: Entry, c: Entry, o: Outcomes)
    requires a.Logged? && b.Logged? && c.Logged? && o.first(0) && !o.first(1)
    ensures var w := AfterResend(BufferAll([a, b]), o);
      && Sound(w) && w.lost == 0 && Overwritten(w) == multiset{b}
      && Buffered(w, c).lost == 0
  {
    BufferAllForm([a, b]);
    hide BufferAll, Sent, Contents, Occupied;
    var w := BufferAll([a, b]);
    assert [a, b][..2] == [a, b] && [a, b][2..] == [];
    assert w.first == Filled([a, b]) && w.firstSize == 2 && w.lost == 0;
    ResentIsSound(w, o);
    SentNoMore([a, b], o.first, BUFFER_SIZE);
    hide Sound;
    assert |w.first| == BUFFER_SIZE;
    assert AfterResend(w, o).firstSize == 1;
    assert AfterResend(w, o).first[1] == Some(b);
  }

  lemma {:induction false} SentNoMore(es: seq<Entry>, ok: nat -> bool, n: nat)
    requires |es| == 2 && 2 <= n <= BUFFER_SIZE && ok(0) && !ok(1)
    ensures Sent(Filled(es), ok, n) == [es[0]]
  {
    if n > 2 {
      SentNoMore(es, ok, n - 1);
    } else {
      assert Sent(Filled(es), ok, 1) == Sent(Filled(es), ok, 0) + [es[0]];
    }
  }
}
