/**
  The OP verifier (verifier/op/op_verifier.go).  A tick fast-forwards to Ethereum finality,
  drains the streamer against the full node, and writes the store once.  The streamer, the full
  node, the finality poller, the disk and the clock are inputs of the tick: whatever they answer.
*/
module OpVerifier {
  import opened Common
  import opened OpBlocks
  import S = Store

  /** The poller's last result: the finalized L2 block's header and its L1 origin. */
  datatype Snapshot = Snapshot(l2: Header, l1Origin: nat)

  /** One turn of the drain loop: what the context, the streamer and the full node answer. */
  datatype Attempt = Cancelled | StreamerError | NoBatch | Offer(batch: Batch, node: Option<Block>)

  datatype Tick = Tick(
    snapshot: Option<Snapshot>, syncPos: nat, syncNow: nat, syncIo: S.Io, refreshed: bool,
    script: seq<Attempt>, cancelled: bool, pos: nat, now: nat, io: S.Io)

  datatype Outcome =
    | NoSnapshot | SyncFailed | RefreshFailed | TickCancelled | NothingVerified
    | NotGreater | WriteFailed | Advanced | Crashed

  /** What moved the verifier, in order: starts, verified batches, jumps to Ethereum finality. */
  datatype Evidence = Started(number: nat) | Verified(batch: Batch, node: Block) | Jumped(header: Header) {
    function Number(): nat {
      match this
      case Started(n) => n
      case Verified(b, _) => b.header.number
      case Jumped(h) => h.number
    }

    function Tip(c: Codecs): Hash {
      match this
      case Started(_) => NO_HASH
      case Verified(b, _) => c.hash(b.header)
      case Jumped(h) => c.hash(h)
    }
  }

  /** `origin` 0 is the unset L1 origin.  `up` is false once the process is gone. */
  datatype Op = Op(up: bool, cell: S.Cell, tip: Hash, origin: nat, log: seq<Evidence>)

  // ---------------------------------------------------------------- a tick

  predicate Chains(tip: Hash, h: Header) {
    tip == NO_HASH || h.parent == tip
  }

  /** The attempt ends with a verified batch. */
  predicate Takes(c: Codecs, tip: Hash, a: Attempt) {
    a.Offer? && Chains(tip, a.batch.header) && a.node.Some? && Agrees(c, a.batch, a.node.value)
  }

  function Take(c: Codecs, s: Op, a: Attempt): Op
    requires Takes(c, s.tip, a)
  {
    s.(tip := c.hash(a.batch.header), origin := a.batch.l1Origin, log := s.log + [Verified(a.batch, a.node.value)])
  }

  datatype Drained = Drained(state: Op, last: Option<Batch>, cancelled: bool)

  function Drain(c: Codecs, s: Op, script: seq<Attempt>, last: Option<Batch>): Drained
    decreases |script|
  {
    if script == [] then Drained(s, last, false)
    else if script[0].Cancelled? then Drained(s, None, true)
    else if Takes(c, s.tip, script[0]) then Drain(c, Take(c, s, script[0]), script[1..], Some(script[0].batch))
    else Drained(s, last, false)
  }

  /** Fast-forward to the finalized L2 block when it is ahead of the store. */
  function Sync(c: Codecs, s: Op, snap: Snapshot, pos: nat, now: nat, io: S.Io): (Op, S.Verdict) {
    if snap.l2.number <= s.cell.mem.l2 then (s, S.NotGreater)
    else
      var (cell, v) := S.Update(s.cell, S.State(snap.l2.number, pos, now), io);
      match v
      case Updated =>
        (s.(cell := cell, tip := c.hash(snap.l2), origin := snap.l1Origin, log := s.log + [Jumped(snap.l2)]), v)
      case Crashed => (s.(up := false, cell := cell, log := s.log + [Jumped(snap.l2)]), v)
      case _ => (s, v)
  }

  function Settle(d: Drained, t: Tick): (Op, Outcome) {
    if d.cancelled || t.cancelled then (d.state, TickCancelled)
    else if d.last.None? then (d.state, NothingVerified)
    else
      var (cell, v) := S.Update(d.state.cell, S.State(d.last.value.header.number, t.pos, t.now), t.io);
      match v
      case Updated => (d.state.(cell := cell), Advanced)
      case NotGreater => (d.state, NotGreater)
      case WriteFailed => (d.state, WriteFailed)
      case Crashed => (d.state.(up := false, cell := cell), Crashed)
  }

  function Synced(c: Codecs, s: Op, t: Tick): (Op, S.Verdict)
    requires t.snapshot.Some?
  {
    Sync(c, s, t.snapshot.value, t.syncPos, t.syncNow, t.syncIo)
  }

  function WithOrigin(s: Op, snap: Snapshot): Op {
    if s.origin == 0 then s.(origin := snap.l1Origin) else s
  }

  function VerifyAndAdvance(c: Codecs, s: Op, t: Tick): (Op, Outcome) {
    if t.snapshot.None? then (s, NoSnapshot)
    else
      var (s1, v) := Synced(c, s, t);
      if v.Crashed? then (s1, Crashed)
      else if v.WriteFailed? then (s1, SyncFailed)
      else
        var s2 := WithOrigin(s1, t.snapshot.value);
        if !t.refreshed then (s2, RefreshFailed)
        else Settle(Drain(c, s2, t.script, None), t)
  }

  // ---------------------------------------------------------------- runs

  datatype Event = Ticks(tick: Tick) | Reboots

  /** A restart loads the file, or refuses to come up. */
  function Reboot(s: Op): Op {
    if S.Loadable(s.cell.file)
    then Op(true, S.Cell(s.cell.file, s.cell.file), NO_HASH, 0, s.log + [Started(s.cell.file.l2)])
    else s.(up := false)
  }

  function Step(c: Codecs, s: Op, e: Event): Op {
    match e
    case Ticks(t) => if s.up then VerifyAndAdvance(c, s, t).0 else s
    case Reboots => Reboot(s)
  }

  function Run(c: Codecs, s: Op, events: seq<Event>): Op {
    if events == [] then s else Step(c, Run(c, s, events[..|events| - 1]), events[|events| - 1])
  }

  function Init(file: S.State): Op {
    Op(true, S.Cell(file, file), NO_HASH, 0, [Started(file.l2)])
  }

  // ---------------------------------------------------------------- what is assumed of the inputs

  /** Among the headers that batches and finalized blocks carry, a child's number follows its parent's. */
  ghost predicate WellNumbered(c: Codecs, headers: set<Header>) {
    forall a, b :: a in headers && b in headers && b.parent == c.hash(a) ==> b.number == a.number + 1
  }

  predicate Carries(headers: set<Header>, t: Tick) {
    && (t.snapshot.Some? ==> t.snapshot.value.l2 in headers)
    && forall i :: 0 <= i < |t.script| && t.script[i].Offer? ==> t.script[i].batch.header in headers
  }

  /** A batch taken with no tip to chain on leaves no gap above the stored number; `exact`: it is the next one. */
  predicate Follows(number: nat, stored: nat, exact: bool) {
    number <= stored + 1 && (exact ==> number == stored + 1)
  }

  /** With no tip to chain on, the streamer, created at the stored number, offers what follows it. */
  predicate Anchored(c: Codecs, s: Op, t: Tick, exact: bool) {
    t.snapshot.Some? && t.script != [] && t.script[0].Offer? ==>
      var s1 := Synced(c, s, t).0;
      s1.tip == NO_HASH ==> Follows(t.script[0].batch.header.number, s1.cell.mem.l2, exact)
  }

  ghost predicate Contract(c: Codecs, headers: set<Header>, s: Op, e: Event, exact: bool) {
    e.Ticks? && s.up ==> Carries(headers, e.tick) && Anchored(c, s, e.tick, exact)
  }

  ghost predicate Environment(c: Codecs, headers: set<Header>, s: Op, events: seq<Event>, exact: bool) {
    forall i :: 0 <= i < |events| ==> Contract(c, headers, Run(c, s, events[..i]), events[i], exact)
  }

  lemma EnvironmentBefore(c: Codecs, headers: set<Header>, s: Op, events: seq<Event>, j: nat, exact: bool)
    requires j <= |events| && Environment(c, headers, s, events, exact)
    ensures Environment(c, headers, s, events[..j], exact)
  {
    forall i | 0 <= i < j ensures Contract(c, headers, Run(c, s, events[..j][..i]), events[..j][i], exact) {
      assert events[..j][..i] == events[..i];
    }
  }

  // ---------------------------------------------------------------- coverage

  /** Evidence that number n agrees with the full node or is at or below Ethereum finality. */
  predicate Settles(e: Evidence, n: nat) {
    match e
    case Started(_) => false
    case Verified(b, _) => b.header.number == n
    case Jumped(h) => n <= h.number
  }

  ghost predicate Covered(log: seq<Evidence>, n: nat) {
    exists i :: 0 <= i < |log| && Settles(log[i], n)
  }

  /** Every number above the first start's and up to `top` is covered; none is skipped. */
  ghost predicate CoveredUpTo(log: seq<Evidence>, top: nat)
    requires log != []
  {
    forall n :: log[0].Number() < n <= top ==> Covered(log, n)
  }

  lemma CoverageGrows(log: seq<Evidence>, e: Evidence, top: nat)
    requires log != [] && CoveredUpTo(log, top)
    ensures CoveredUpTo(log + [e], top)
    ensures e.Verified? && e.Number() == top + 1 ==> CoveredUpTo(log + [e], top + 1)
    ensures e.Jumped? ==> CoveredUpTo(log + [e], e.Number())
  {
    var more := log + [e];
    forall n: nat | more[0].Number() < n
      ensures n <= top || Settles(e, n) ==> Covered(more, n)
    {
      if n <= top {
        assert Covered(log, n);
        var i :| 0 <= i < |log| && Settles(log[i], n);
        assert Settles(more[i], n);
      } else if Settles(e, n) {
        assert Settles(more[|log|], n);
      }
    }
  }

  function Last(log: seq<Evidence>): Evidence
    requires log != []
  {
    log[|log| - 1]
  }

  /**
    The verified batch at position i agrees with the full node's block and extends what is right
    before it in the log: by number and parent hash, and with no gap if that is a start.
  */
  predicate Extends(c: Codecs, log: seq<Evidence>, i: nat, exact: bool)
    requires 0 < i < |log| && log[i].Verified?
  {
    && Agrees(c, log[i].batch, log[i].node)
    && Follows(log[i].Number(), log[i - 1].Number(), exact || !log[i - 1].Started?)
    && (log[i - 1].Started? || log[i].batch.header.parent == log[i - 1].Tip(c))
  }

  ghost predicate LogOk(c: Codecs, headers: set<Header>, log: seq<Evidence>, exact: bool) {
    && log != []
    && log[0].Started?
    && (forall i :: 0 < i < |log| && log[i].Verified? ==> Extends(c, log, i, exact))
    && (Last(log).Verified? ==> Last(log).batch.header in headers)
    && (Last(log).Jumped? ==> Last(log).header in headers)
  }

  /** Nothing is skipped; if batches come exactly in turn, the verifier is also never behind the store. */
  ghost predicate Invariant(c: Codecs, headers: set<Header>, s: Op, exact: bool) {
    && LogOk(c, headers, s.log, exact)
    && CoveredUpTo(s.log, Last(s.log).Number())
    && CoveredUpTo(s.log, s.cell.file.l2)
    && s.cell.mem.l2 <= s.cell.file.l2
    && (s.up ==>
          && s.tip == Last(s.log).Tip(c)
          && s.cell.mem == s.cell.file
          && (exact ==> s.cell.mem.l2 <= Last(s.log).Number()))
  }

  lemma TakeKeeps(c: Codecs, headers: set<Header>, s: Op, a: Attempt, exact: bool)
    requires Ideal(c) && WellNumbered(c, headers)
    requires Invariant(c, headers, s, exact) && s.up
    requires Takes(c, s.tip, a) && a.batch.header in headers
    requires s.tip == NO_HASH ==>
               Follows(a.batch.header.number, s.cell.mem.l2, exact) && s.cell.mem.l2 == Last(s.log).Number()
    ensures Invariant(c, headers, Take(c, s, a), exact)
    ensures exact ==> s.cell.mem.l2 < a.batch.header.number
  {
    var e := Verified(a.batch, a.node.value);
    var last := Last(s.log);
    if !last.Started? {
      assert c.hash(if last.Verified? then last.batch.header else last.header) != NO_HASH;
    }
    CoverageGrows(s.log, e, last.Number());
    CoverageGrows(s.log, e, s.cell.file.l2);
    var log := s.log + [e];
    forall i | 0 < i < |log| && log[i].Verified? ensures Extends(c, log, i, exact) {
      if i < |s.log| {
        assert Extends(c, s.log, i, exact);
      }
    }
  }

  /** With no tip, the process has only started: memory is what it started with. */
  ghost predicate Fresh(s: Op)
    requires s.log != []
  {
    s.up && s.tip == NO_HASH ==> Last(s.log).Started? && s.cell.mem.l2 == Last(s.log).Number()
  }

  ghost predicate Good(c: Codecs, headers: set<Header>, s: Op, exact: bool) {
    Invariant(c, headers, s, exact) && Fresh(s)
  }

  /** A batch that ends a drain is the log's last entry, numbered above the store if all come in turn. */
  ghost predicate LastIs(s: Op, last: Option<Batch>, exact: bool) {
    last.Some? ==>
      && s.log != [] && Last(s.log).Verified? && Last(s.log).batch == last.value
      && (exact ==> s.cell.mem.l2 < last.value.header.number)
  }

  ghost predicate DrainedOk(c: Codecs, headers: set<Header>, d: Drained, exact: bool) {
    Good(c, headers, d.state, exact) && d.state.up && LastIs(d.state, d.last, exact)
  }

  lemma {:induction false} DrainKeeps(
      c: Codecs, headers: set<Header>, s: Op, script: seq<Attempt>, last: Option<Batch>, exact: bool)
    requires Ideal(c) && WellNumbered(c, headers)
    requires Good(c, headers, s, exact) && s.up && LastIs(s, last, exact)
    requires forall i :: 0 <= i < |script| && script[i].Offer? ==> script[i].batch.header in headers
    requires s.tip == NO_HASH && script != [] && script[0].Offer? ==>
               Follows(script[0].batch.header.number, s.cell.mem.l2, exact)
    ensures DrainedOk(c, headers, Drain(c, s, script, last), exact)
    decreases |script|
  {
    if script == [] || script[0].Cancelled? || !Takes(c, s.tip, script[0]) {
    } else {
      TakeKeeps(c, headers, s, script[0], exact);
      assert c.hash(script[0].batch.header) != NO_HASH;
      DrainKeeps(c, headers, Take(c, s, script[0]), script[1..], Some(script[0].batch), exact);
    }
  }

  lemma SettleKeeps(c: Codecs, headers: set<Header>, d: Drained, t: Tick, exact: bool)
    requires DrainedOk(c, headers, d, exact)
    ensures Good(c, headers, Settle(d, t).0, exact)
    ensures exact ==> Settle(d, t).1 != NotGreater
  {
  }

  lemma SyncKeeps(c: Codecs, headers: set<Header>, s: Op, snap: Snapshot, pos: nat, now: nat, io: S.Io, exact: bool)
    requires Ideal(c) && Good(c, headers, s, exact) && s.up && snap.l2 in headers
    ensures Good(c, headers, Sync(c, s, snap, pos, now, io).0, exact)
    ensures Sync(c, s, snap, pos, now, io).0.up <==> !Sync(c, s, snap, pos, now, io).1.Crashed?
  {
  }

  lemma {:induction false} TickKeeps(c: Codecs, headers: set<Header>, s: Op, t: Tick, exact: bool)
    requires Ideal(c) && WellNumbered(c, headers)
    requires Good(c, headers, s, exact) && s.up && Carries(headers, t) && Anchored(c, s, t, exact)
    ensures Good(c, headers, VerifyAndAdvance(c, s, t).0, exact)
    ensures exact ==> VerifyAndAdvance(c, s, t).1 != NotGreater
  {
    if t.snapshot.Some? {
      var (s1, v) := Synced(c, s, t);
      SyncKeeps(c, headers, s, t.snapshot.value, t.syncPos, t.syncNow, t.syncIo, exact);
      if !v.Crashed? && !v.WriteFailed? && t.refreshed {
        var s2 := WithOrigin(s1, t.snapshot.value);
        DrainKeeps(c, headers, s2, t.script, None, exact);
        SettleKeeps(c, headers, Drain(c, s2, t.script, None), t, exact);
      }
    }
  }

  lemma StepKeeps(c: Codecs, headers: set<Header>, s: Op, e: Event, exact: bool)
    requires Ideal(c) && WellNumbered(c, headers)
    requires Good(c, headers, s, exact) && Contract(c, headers, s, e, exact)
    ensures Good(c, headers, Step(c, s, e), exact)
  {
    match e
    case Ticks(t) =>
      if s.up {
        TickKeeps(c, headers, s, t, exact);
      }
    case Reboots =>
      var e' := Started(s.cell.file.l2);
      CoverageGrows(s.log, e', s.cell.file.l2);
      var log := s.log + [e'];
      forall i | 0 < i < |log| && log[i].Verified? ensures Extends(c, log, i, exact) {
        assert Extends(c, s.log, i, exact);
      }
  }

  lemma {:induction false} RunKeeps(c: Codecs, headers: set<Header>, file: S.State, events: seq<Event>, exact: bool)
    requires Ideal(c) && WellNumbered(c, headers)
    requires Environment(c, headers, Init(file), events, exact)
    ensures Good(c, headers, Run(c, Init(file), events), exact)
    ensures Run(c, Init(file), events).log[0] == Started(file.l2)
  {
    if events == [] {
    } else {
      var n := |events| - 1;
      var before := events[..n];
      EnvironmentBefore(c, headers, Init(file), events, n, exact);
      RunKeeps(c, headers, file, before, exact);
      StepKeeps(c, headers, Run(c, Init(file), before), events[n], exact);
      LogOnlyGrows(c, Run(c, Init(file), before), events[n]);
    }
  }

  // ---------------------------------------------------------------- where the evidence comes from

  /** The event showed the verifier this evidence. */
  predicate Shows(ev: Event, e: Evidence) {
    ev.Ticks? &&
    match e
    case Started(_) => false
    case Verified(b, node) => Offer(b, Some(node)) in ev.tick.script
    case Jumped(h) => ev.tick.snapshot.Some? && ev.tick.snapshot.value.l2 == h
  }

  lemma {:induction false} DrainLogs(c: Codecs, s: Op, script: seq<Attempt>, last: Option<Batch>)
    ensures var log := Drain(c, s, script, last).state.log;
            && s.log <= log
            && forall i :: |s.log| <= i < |log| ==> log[i].Verified? && Offer(log[i].batch, Some(log[i].node)) in script
    decreases |script|
  {
    if script == [] || script[0].Cancelled? || !Takes(c, s.tip, script[0]) {
    } else {
      DrainLogs(c, Take(c, s, script[0]), script[1..], Some(script[0].batch));
      assert script[0] == Offer(script[0].batch, Some(script[0].node.value));
    }
  }

  /** A step only appends to the log, and only what its event showed, or a start. */
  lemma LogOnlyGrows(c: Codecs, s: Op, e: Event)
    ensures var log := Step(c, s, e).log;
            && s.log <= log
            && forall i :: |s.log| <= i < |log| ==> log[i].Started? || Shows(e, log[i])
  {
    if e.Ticks? && s.up && e.tick.snapshot.Some? {
      var (s1, _) := Synced(c, s, e.tick);
      DrainLogs(c, WithOrigin(s1, e.tick.snapshot.value), e.tick.script, None);
    }
  }

  lemma {:induction false} EvidenceIsShown(c: Codecs, s: Op, events: seq<Event>, i: nat)
    requires i < |Run(c, s, events).log|
    requires i >= |s.log|
    ensures Run(c, s, events).log[i].Started?
         || exists k :: 0 <= k < |events| && Shows(events[k], Run(c, s, events).log[i])
  {
    if events == [] {
    } else {
      var n := |events| - 1;
      var before := Run(c, s, events[..n]);
      LogOnlyGrows(c, before, events[n]);
      if i < |before.log| {
        EvidenceIsShown(c, s, events[..n], i);
        if !before.log[i].Started? {
          var k :| 0 <= k < n && Shows(events[..n][k], before.log[i]);
          assert Shows(events[k], before.log[i]);
        }
      } else {
        assert before.log <= Run(c, s, events).log;
      }
    }
  }

  /** The verifier logged a batch numbered n that some tick offered and that agrees with the full node's block. */
  ghost predicate VerifiedAt(c: Codecs, s: Op, events: seq<Event>, n: nat) {
    exists i, k :: 0 <= i < |s.log| && 0 <= k < |events| && Shows(events[k], s.log[i])
      && s.log[i].Verified? && s.log[i].Number() == n && Agrees(c, s.log[i].batch, s.log[i].node)
  }

  /** The verifier jumped to an Ethereum-finalized L2 block at or above n that some tick was told of. */
  ghost predicate FinalizedAt(s: Op, events: seq<Event>, n: nat) {
    exists i, k :: 0 <= i < |s.log| && 0 <= k < |events| && Shows(events[k], s.log[i])
      && s.log[i].Jumped? && n <= s.log[i].Number()
  }

  /**
    In every run with reorgs, failed writes, cancellations, crashes and restarts, each number above
    the first start's and at most the stored one, in memory or on disk, was verified against the full
    node or lies at or below an Ethereum-finalized number the verifier jumped to.  None is skipped.
  */
  lemma {:induction false} EveryStoredNumberIsCovered(
      c: Codecs, headers: set<Header>, file: S.State, events: seq<Event>, n: nat)
    requires Ideal(c) && WellNumbered(c, headers)
    requires Environment(c, headers, Init(file), events, false)
    requires file.l2 < n <= Max(Run(c, Init(file), events).cell.mem.l2, Run(c, Init(file), events).cell.file.l2)
    ensures var s := Run(c, Init(file), events);
            VerifiedAt(c, s, events, n) || FinalizedAt(s, events, n)
  {
    var i := SettlingEntry(c, headers, file, events, n);
    EvidenceIsShown(c, Init(file), events, i);
    var s := Run(c, Init(file), events);
    var k :| 0 <= k < |events| && Shows(events[k], s.log[i]);
    if s.log[i].Verified? {
      assert VerifiedAt(c, s, events, n);
    } else {
      assert FinalizedAt(s, events, n);
    }
  }

  lemma {:induction false} SettlingEntry(
      c: Codecs, headers: set<Header>, file: S.State, events: seq<Event>, n: nat) returns (i: nat)
    requires Ideal(c) && WellNumbered(c, headers)
    requires Environment(c, headers, Init(file), events, false)
    requires file.l2 < n <= Max(Run(c, Init(file), events).cell.mem.l2, Run(c, Init(file), events).cell.file.l2)
    ensures var log := Run(c, Init(file), events).log;
            && 0 < i < |log| && Settles(log[i], n)
            && (log[i].Verified? ==> Agrees(c, log[i].batch, log[i].node))
  {
    RunKeeps(c, headers, file, events, false);
    var s := Run(c, Init(file), events);
    assert Covered(s.log, n);
    i :| 0 <= i < |s.log| && Settles(s.log[i], n);
    assert s.log[i].Verified? ==> Extends(c, s.log, i, false);
  }

  /**
    Verified headers form chains: each has as parent the header right before it in the log, verified
    or jumped to, and the next number; a chain begins only at a start, with no gap after the loaded
    number, and with the very next one if batches come exactly in turn.
  */
  lemma {:induction false} VerifiedHeadersChain(
      c: Codecs, headers: set<Header>, file: S.State, events: seq<Event>, i: nat, exact: bool)
    requires Ideal(c) && WellNumbered(c, headers)
    requires Environment(c, headers, Init(file), events, exact)
    requires 0 < i < |Run(c, Init(file), events).log| && Run(c, Init(file), events).log[i].Verified?
    ensures var log := Run(c, Init(file), events).log;
            && Agrees(c, log[i].batch, log[i].node)
            && log[i].batch.header.number <= log[i - 1].Number() + 1
            && (exact ==> log[i].batch.header.number == log[i - 1].Number() + 1)
            && (!log[i - 1].Started? ==>
                  && log[i].batch.header.parent == log[i - 1].Tip(c)
                  && log[i].batch.header.number == log[i - 1].Number() + 1)
  {
    RunKeeps(c, headers, file, events, exact);
    assert Extends(c, Run(c, Init(file), events).log, i, exact);
  }

  ghost predicate CellOk(s: Op) {
    s.cell.mem.l2 <= s.cell.file.l2 && (s.up ==> s.cell.mem == s.cell.file)
  }

  /** Memory and file of s' hold numbers at least as high as those of s. */
  ghost predicate NotLower(s: Op, s': Op) {
    s.cell.mem.l2 <= s'.cell.mem.l2 && s.cell.file.l2 <= s'.cell.file.l2
  }

  lemma SettleNeverLowers(d: Drained, t: Tick)
    requires CellOk(d.state) && d.state.up
    ensures CellOk(Settle(d, t).0) && NotLower(d.state, Settle(d, t).0)
  {
  }

  lemma StepNeverLowers(c: Codecs, s: Op, e: Event)
    requires CellOk(s)
    ensures CellOk(Step(c, s, e)) && NotLower(s, Step(c, s, e))
  {
    if e.Ticks? && s.up && e.tick.snapshot.Some? {
      var (s1, v) := Synced(c, s, e.tick);
      assert CellOk(s1) && NotLower(s, s1) && (s1.up <==> !v.Crashed?);
      if s1.up {
        var s2 := WithOrigin(s1, e.tick.snapshot.value);
        DrainKeepsCell(c, s2, e.tick.script, None);
        SettleNeverLowers(Drain(c, s2, e.tick.script, None), e.tick);
      }
    }
  }

  /**
    The stored number never moves backwards, in memory or on disk, between any two points of any run,
    restarts included and with nothing assumed of the inputs.
  */
  lemma {:induction false} StoredNumberNeverDecreases(c: Codecs, file: S.State, events: seq<Event>, i: nat, j: nat)
    requires i <= j <= |events|
    ensures CellOk(Run(c, Init(file), events[..j]))
    ensures NotLower(Run(c, Init(file), events[..i]), Run(c, Init(file), events[..j]))
    decreases j
  {
    if j == 0 {
      assert events[..j] == [];
    } else {
      assert events[..j][..j - 1] == events[..j - 1];
      StoredNumberNeverDecreases(c, file, events, if i < j then i else j - 1, j - 1);
      StepNeverLowers(c, Run(c, Init(file), events[..j - 1]), events[j - 1]);
    }
  }

  lemma {:induction false} DrainKeepsCell(c: Codecs, s: Op, script: seq<Attempt>, last: Option<Batch>)
    ensures Drain(c, s, script, last).state.cell == s.cell && Drain(c, s, script, last).state.up == s.up
    decreases |script|
  {
    if script == [] || script[0].Cancelled? || !Takes(c, s.tip, script[0]) {
    } else {
      DrainKeepsCell(c, Take(c, s, script[0]), script[1..], Some(script[0].batch));
    }
  }

  // ---------------------------------------------------------------- tip and store

  /** No write failed in the tick and nothing cancelled it. */
  predicate Clean(e: Event) {
    e.Ticks? ==>
      && !e.tick.syncIo.Fails? && !e.tick.io.Fails? && !e.tick.cancelled
      && forall i :: 0 <= i < |e.tick.script| ==> !e.tick.script[i].Cancelled?
  }

  /** The verifier's own position is exactly the stored number. */
  ghost predicate InStep(s: Op)
    requires s.log != []
  {
    s.up ==> Last(s.log).Number() == s.cell.mem.l2
  }

  lemma {:induction false} CleanDrain(c: Codecs, s: Op, script: seq<Attempt>, last: Option<Batch>)
    requires forall i :: 0 <= i < |script| ==> !script[i].Cancelled?
    ensures var d := Drain(c, s, script, last);
            !d.cancelled && (d.last.None? ==> d.state == s) && (last.Some? ==> d.last.Some?)
    decreases |script|
  {
    if script == [] || !Takes(c, s.tip, script[0]) {
    } else {
      CleanDrain(c, Take(c, s, script[0]), script[1..], Some(script[0].batch));
    }
  }

  lemma SettleStaysInStep(c: Codecs, headers: set<Header>, d: Drained, t: Tick)
    requires DrainedOk(c, headers, d, true)
    ensures Settle(d, t).1 == Advanced ==> InStep(Settle(d, t).0)
    ensures d.last.None? && InStep(d.state) ==> InStep(Settle(d, t).0)
    ensures !d.cancelled && !t.cancelled && !t.io.Fails? && d.last.Some? ==> Settle(d, t).1 in {Advanced, Crashed}
  {
  }

  lemma SyncStaysInStep(c: Codecs, s: Op, t: Tick)
    requires t.snapshot.Some? && s.log != [] && s.up && InStep(s) && !t.syncIo.Fails?
    ensures var (s1, v) := Synced(c, s, t);
            && s1.log != [] && InStep(s1) && !v.WriteFailed?
            && InStep(WithOrigin(s1, t.snapshot.value))
  {
  }

  lemma CleanTickStaysInStep(c: Codecs, headers: set<Header>, s: Op, t: Tick)
    requires Ideal(c) && WellNumbered(c, headers)
    requires Good(c, headers, s, true) && s.up && Carries(headers, t) && Anchored(c, s, t, true)
    requires InStep(s) && Clean(Ticks(t))
    ensures var s' := VerifyAndAdvance(c, s, t).0; s'.log != [] && InStep(s')
  {
    if t.snapshot.Some? {
      var (s1, v) := Synced(c, s, t);
      SyncKeeps(c, headers, s, t.snapshot.value, t.syncPos, t.syncNow, t.syncIo, true);
      SyncStaysInStep(c, s, t);
      if !v.Crashed? && t.refreshed {
        var s2 := WithOrigin(s1, t.snapshot.value);
        DrainKeeps(c, headers, s2, t.script, None, true);
        CleanDrain(c, s2, t.script, None);
        SettleStaysInStep(c, headers, Drain(c, s2, t.script, None), t);
      }
    }
  }

  /** A tick that stores a batch brings tip and store together again, whatever failed before it. */
  lemma AdvancingComesIntoStep(c: Codecs, headers: set<Header>, s: Op, t: Tick)
    requires Ideal(c) && WellNumbered(c, headers)
    requires Good(c, headers, s, true) && s.up && Carries(headers, t) && Anchored(c, s, t, true)
    requires VerifyAndAdvance(c, s, t).1 == Advanced
    ensures var s' := VerifyAndAdvance(c, s, t).0; s'.log != [] && InStep(s')
  {
    var s2 := WithOrigin(Synced(c, s, t).0, t.snapshot.value);
    SyncKeeps(c, headers, s, t.snapshot.value, t.syncPos, t.syncNow, t.syncIo, true);
    DrainKeeps(c, headers, s2, t.script, None, true);
    SettleStaysInStep(c, headers, Drain(c, s2, t.script, None), t);
  }

  lemma CleanStepStaysInStep(c: Codecs, headers: set<Header>, s: Op, e: Event)
    requires Ideal(c) && WellNumbered(c, headers)
    requires Good(c, headers, s, true) && Contract(c, headers, s, e, true)
    requires InStep(s) && Clean(e)
    ensures Good(c, headers, Step(c, s, e), true) && InStep(Step(c, s, e))
  {
    StepKeeps(c, headers, s, e, true);
    if e.Ticks? && s.up {
      CleanTickStaysInStep(c, headers, s, e.tick);
    }
  }

  /**
    The tip's number is at least the stored one in every reachable state, so a verified batch is
    always news to the store: the "not updating" branch is never taken, even after failed writes.
  */
  lemma {:induction false} TipIsNeverBehindStore(c: Codecs, headers: set<Header>, file: S.State, events: seq<Event>)
    requires Ideal(c) && WellNumbered(c, headers)
    requires Environment(c, headers, Init(file), events, true)
    ensures var s := Run(c, Init(file), events);
            s.up ==> s.log != [] && s.tip == Last(s.log).Tip(c) && Last(s.log).Number() >= s.cell.mem.l2
    ensures forall t :: Run(c, Init(file), events).up && Contract(c, headers, Run(c, Init(file), events), Ticks(t), true) ==>
              VerifyAndAdvance(c, Run(c, Init(file), events), t).1 != NotGreater
  {
    RunKeeps(c, headers, file, events, true);
    var s := Run(c, Init(file), events);
    forall t | s.up && Contract(c, headers, s, Ticks(t), true)
      ensures VerifyAndAdvance(c, s, t).1 != NotGreater
    {
      TickKeeps(c, headers, s, t, true);
    }
  }

  /** From any state in step with the store, clean events keep the tip's number equal to the stored one. */
  lemma {:induction false} CleanRunsStayInStep(c: Codecs, headers: set<Header>, s: Op, events: seq<Event>)
    requires Ideal(c) && WellNumbered(c, headers)
    requires Good(c, headers, s, true) && InStep(s)
    requires Environment(c, headers, s, events, true)
    requires forall i :: 0 <= i < |events| ==> Clean(events[i])
    ensures Good(c, headers, Run(c, s, events), true) && InStep(Run(c, s, events))
  {
    if events == [] {
    } else {
      var n := |events| - 1;
      var before := events[..n];
      EnvironmentBefore(c, headers, s, events, n, true);
      CleanRunsStayInStep(c, headers, s, before);
      assert Contract(c, headers, Run(c, s, events[..n]), events[n], true);
      CleanStepStaysInStep(c, headers, Run(c, s, before), events[n]);
    }
  }

  /** The last batch a tick verified: the last entry it logged, if that is a batch. */
  function LastVerified(c: Codecs, s: Op, t: Tick): Option<Batch> {
    if t.snapshot.None? then None
    else Drain(c, WithOrigin(Synced(c, s, t).0, t.snapshot.value), t.script, None).last
  }

  /** A tick that ends without error or cancellation leaves the maximum of what it knew. */
  lemma TickComputesMaximum(c: Codecs, s: Op, t: Tick)
    requires VerifyAndAdvance(c, s, t).1 in {NothingVerified, NotGreater, Advanced}
    ensures t.snapshot.Some?
    ensures VerifyAndAdvance(c, s, t).0.cell.mem.l2 ==
            Max(Max(s.cell.mem.l2, t.snapshot.value.l2.number),
                if LastVerified(c, s, t).Some? then LastVerified(c, s, t).value.header.number else 0)
  {
    var s2 := WithOrigin(Synced(c, s, t).0, t.snapshot.value);
    DrainKeepsCell(c, s2, t.script, None);
  }

  /** A tick in which a fresh process is offered one batch, sees no newer finality, and no write fails. */
  predicate OffersOnly(c: Codecs, file: S.State, t: Tick, batch: Batch, node: Block) {
    && t.snapshot.Some? && t.snapshot.value.l2.number <= file.l2 && t.refreshed
    && t.script == [Offer(batch, Some(node))] && Agrees(c, batch, node)
    && !t.cancelled && t.io.Succeeds?
  }

  /**
    That the first batch leaves no gap is exactly what coverage needs: the code takes it whatever its
    number, and every number in a gap between it and the stored one then counts as stored and is
    covered by nothing.
  */
  lemma FirstBatchIsCoveredIff(c: Codecs, file: S.State, t: Tick, batch: Batch, node: Block)
    requires OffersOnly(c, file, t, batch, node)
    ensures var s := VerifyAndAdvance(c, Init(file), t).0;
            && s.log != []
            && (CoveredUpTo(s.log, s.cell.mem.l2) <==> Follows(batch.header.number, file.l2, false))
            && forall n :: file.l2 < n < batch.header.number ==> n <= s.cell.mem.l2 && !Covered(s.log, n)
  {
    var s := VerifyAndAdvance(c, Init(file), t).0;
    var s2 := WithOrigin(Init(file), t.snapshot.value);
    assert Takes(c, s2.tip, t.script[0]);
    assert Drain(c, s2, t.script, None) == Drain(c, Take(c, s2, t.script[0]), [], Some(batch));
    assert s.log == [Started(file.l2), Verified(batch, node)];
    assert Settles(s.log[1], batch.header.number);
    assert s.cell.mem.l2 == Max(file.l2, batch.header.number);
    if batch.header.number > file.l2 + 1 {
      assert !Covered(s.log, file.l2 + 1);
    }
  }
}
