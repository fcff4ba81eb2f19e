/**
  What a tick of the OP verifier does, said without the functions that compute it: which batches it
  takes, where that leaves tip and L1 origin, and what exactly it persists.
*/
module OpTick {
  import opened Common
  import opened OpBlocks
  import opened OpVerifier
  import S = Store

  // ---------------------------------------------------------------- which batches a drain takes

  /** The k-th answer offers a batch that agrees with the node's block and has as parent the one before it. */
  predicate FollowsOn(c: Codecs, tip: Hash, script: seq<Attempt>, k: nat)
    requires k < |script|
  {
    && script[k].Offer? && script[k].node.Some? && Agrees(c, script[k].batch, script[k].node.value)
    && var parent := script[k].batch.header.parent;
       if k == 0 then tip == NO_HASH || parent == tip
       else script[k - 1].Offer? && parent == c.hash(script[k - 1].batch.header)
  }

  /** The first n answers follow on one another, and the next one does not. */
  ghost predicate LongestPrefix(c: Codecs, tip: Hash, script: seq<Attempt>, n: nat) {
    && n <= |script|
    && (forall k :: 0 <= k < n ==> FollowsOn(c, tip, script, k))
    && (n < |script| ==> !FollowsOn(c, tip, script, n))
  }

  lemma PrefixStep(c: Codecs, tip: Hash, script: seq<Attempt>, n: nat)
    requires Ideal(c) && script != [] && FollowsOn(c, tip, script, 0)
    requires LongestPrefix(c, c.hash(script[0].batch.header), script[1..], n)
    ensures LongestPrefix(c, tip, script, n + 1)
  {
    var rest, next := script[1..], c.hash(script[0].batch.header);
    forall k | 0 <= k < |rest| ensures FollowsOn(c, next, rest, k) <==> FollowsOn(c, tip, script, k + 1) {
      assert rest[k] == script[k + 1];
    }
    forall k | 0 <= k < n + 1 ensures FollowsOn(c, tip, script, k) {
      assert k == 0 || FollowsOn(c, next, rest, k - 1);
    }
  }

  /** The log gains the first n offered batches with the blocks they were compared with. */
  ghost predicate LogsOffers(log: seq<Evidence>, log': seq<Evidence>, script: seq<Attempt>, n: nat) {
    && n <= |script| && |log'| == |log| + n && log <= log'
    && forall k :: 0 <= k < n ==>
         script[k].Offer? && script[k].node.Some? && log'[|log| + k] == Verified(script[k].batch, script[k].node.value)
  }

  /** Where taking n batches of the script leads from s. */
  ghost predicate TakesFirst(c: Codecs, s: Op, s': Op, script: seq<Attempt>, n: nat) {
    && LogsOffers(s.log, s'.log, script, n)
    && s'.up == s.up && s'.cell == s.cell
    && s'.tip == (if n == 0 then s.tip else c.hash(script[n - 1].batch.header))
    && s'.origin == (if n == 0 then s.origin else script[n - 1].batch.l1Origin)
  }

  /**
    A drain takes all batches that follow on one another and stops at the first answer that does not;
    if that is a cancellation it reports none.
  */
  lemma {:induction false} DrainTakesLongestPrefix(c: Codecs, s: Op, script: seq<Attempt>, last: Option<Batch>)
    returns (n: nat)
    requires Ideal(c)
    ensures LongestPrefix(c, s.tip, script, n)
    ensures var d := Drain(c, s, script, last);
            && TakesFirst(c, s, d.state, script, n)
            && (d.cancelled <==> n < |script| && script[n].Cancelled?)
            && d.last == if d.cancelled then None else if n == 0 then last else Some(script[n - 1].batch)
    decreases |script|
  {
    if script == [] || script[0].Cancelled? || !Takes(c, s.tip, script[0]) {
      n := 0;
    } else {
      var s1 := Take(c, s, script[0]);
      n := DrainTakesLongestPrefix(c, s1, script[1..], Some(script[0].batch));
      PrefixStep(c, s.tip, script, n);
      TakesOneMore(c, s, s1, Drain(c, s1, script[1..], Some(script[0].batch)).state, script, n);
      n := n + 1;
    }
  }

  lemma TakesOneMore(c: Codecs, s: Op, s1: Op, s': Op, script: seq<Attempt>, n: nat)
    requires script != [] && Takes(c, s.tip, script[0]) && s1 == Take(c, s, script[0])
    requires TakesFirst(c, s1, s', script[1..], n)
    ensures TakesFirst(c, s, s', script, n + 1)
  {
    forall k | 0 <= k < n + 1
      ensures script[k].Offer? && script[k].node.Some?
      ensures s'.log[|s.log| + k] == Verified(script[k].batch, script[k].node.value)
    {
      assert k > 0 ==> script[k] == script[1..][k - 1] && s'.log[|s1.log| + (k - 1)] == s'.log[|s.log| + k];
      assert k == 0 ==> s'.log[|s.log|] == s1.log[|s.log|];
    }
  }

  // ---------------------------------------------------------------- a whole tick

  /** The finalized block the tick was told of is ahead of the store. */
  predicate SeesNewFinality(s: Op, t: Tick) {
    t.snapshot.Some? && t.snapshot.value.l2.number > s.cell.mem.l2
  }

  /** What the fast-forward writes, and what the tick writes for the batch it verified last. */
  function FinalizedState(t: Tick): S.State
    requires t.snapshot.Some?
  {
    S.State(t.snapshot.value.l2.number, t.syncPos, t.syncNow)
  }

  function VerifiedState(t: Tick, batch: Batch): S.State {
    S.State(batch.header.number, t.pos, t.now)
  }

  /** Where a tick stands before it drains: at the finalized block if that is news, and with an L1 origin. */
  ghost predicate FastForwarded(c: Codecs, s: Op, s1: Op, t: Tick)
    requires t.snapshot.Some?
  {
    var snap := t.snapshot.value;
    if SeesNewFinality(s, t)
    then s1 == Op(true, S.Cell(FinalizedState(t), FinalizedState(t)), c.hash(snap.l2), snap.l1Origin,
                  s.log + [Jumped(snap.l2)])
    else s1 == s.(origin := s1.origin) && s1.origin == if s.origin == 0 then snap.l1Origin else s.origin
  }

  /**
    The ticks that verify nothing: without a snapshot, when the fast-forward's write fails or the
    process dies in it, and when the streamer cannot be refreshed.
  */
  lemma TickThatDoesNotDrain(c: Codecs, s: Op, t: Tick)
    requires s.up
    ensures var (s', o) := VerifyAndAdvance(c, s, t);
            var blocked := SeesNewFinality(s, t) && !t.syncIo.Succeeds?;
            && (o == NoSnapshot <==> t.snapshot.None?)
            && (o == SyncFailed <==> SeesNewFinality(s, t) && t.syncIo.Fails?)
            && (o == RefreshFailed <==> t.snapshot.Some? && !blocked && !t.refreshed)
            && (o in {NoSnapshot, SyncFailed} ==> s' == s)
            && (o == RefreshFailed ==> FastForwarded(c, s, s', t))
            && (SeesNewFinality(s, t) && t.syncIo.CrashesAfterRename? ==>
                  && o == Crashed
                  && s' == s.(up := false, cell := S.Cell(s.cell.mem, FinalizedState(t)),
                              log := s.log + [Jumped(t.snapshot.value.l2)]))
  {
    if t.snapshot.Some? {
      var s2 := WithOrigin(Synced(c, s, t).0, t.snapshot.value);
      assert Settle(Drain(c, s2, t.script, None), t).1 !in {NoSnapshot, SyncFailed, RefreshFailed};
    }
  }

  /** Every other tick: fast-forward, then drain, then at most one write for the last batch. */
  ghost predicate TickDrains(c: Codecs, s: Op, t: Tick) {
    t.snapshot.Some? && !(SeesNewFinality(s, t) && !t.syncIo.Succeeds?) && t.refreshed
  }

  /** What the write at the end of a tick leaves, n batches having been taken. */
  ghost predicate Stored(before: S.Cell, after: Op, o: Outcome, t: Tick, n: nat)
    requires n <= |t.script| && (n > 0 ==> t.script[n - 1].Offer?)
  {
    var cancelled := t.cancelled || (n < |t.script| && t.script[n].Cancelled?);
    if cancelled then o == TickCancelled && after.cell == before
    else if n == 0 then o == NothingVerified && after.cell == before
    else
      var next := VerifiedState(t, t.script[n - 1].batch);
      if next.l2 <= before.mem.l2 then o == NotGreater && after.cell == before
      else match t.io
        case Succeeds => o == Advanced && after.cell == S.Cell(next, next)
        case Fails => o == WriteFailed && after.cell == before
        case CrashesAfterRename => o == Crashed && after.cell == S.Cell(before.mem, next)
  }

  lemma {:induction false} TickThatDrains(c: Codecs, s: Op, t: Tick) returns (s1: Op, n: nat)
    requires Ideal(c) && s.up && TickDrains(c, s, t)
    ensures FastForwarded(c, s, s1, t) && LongestPrefix(c, s1.tip, t.script, n)
    ensures var (s', o) := VerifyAndAdvance(c, s, t);
            && TakesFirst(c, s1, s'.(up := true, cell := s1.cell), t.script, n)
            && Stored(s1.cell, s', o, t, n)
            && (s'.up <==> o != Crashed)
  {
    s1 := WithOrigin(Synced(c, s, t).0, t.snapshot.value);
    n := DrainTakesLongestPrefix(c, s1, t.script, None);
  }

  /** After a tick that advanced, memory and file hold the last batch's number with this tick's height and clock. */
  lemma {:induction false} AdvancingStores(c: Codecs, s: Op, t: Tick)
    requires Ideal(c) && s.up && VerifyAndAdvance(c, s, t).1 == Advanced
    ensures var s' := VerifyAndAdvance(c, s, t).0;
            && s.log < s'.log && Last(s'.log).Verified?
            && s'.cell.mem == s'.cell.file == VerifiedState(t, Last(s'.log).batch)
            && s'.tip == c.hash(Last(s'.log).batch.header) && s'.origin == Last(s'.log).batch.l1Origin
  {
    TickThatDoesNotDrain(c, s, t);
    var s1, n := TickThatDrains(c, s, t);
    var s' := VerifyAndAdvance(c, s, t).0;
    assert s'.log[|s1.log| + (n - 1)] == Verified(t.script[n - 1].batch, t.script[n - 1].node.value);
    assert s.log <= s1.log;
  }

  // ---------------------------------------------------------------- what runs persist

  /** The tick wrote this state: for the finalized block it was told of, or for the batch it verified last. */
  ghost predicate Wrote(before: Op, t: Tick, after: Op, st: S.State) {
    before.up &&
    ((t.snapshot.Some? && st == FinalizedState(t)) ||
     (before.log < after.log && Last(after.log).Verified? && st == VerifiedState(t, Last(after.log).batch)))
  }

  lemma {:induction false} TickWrites(c: Codecs, s: Op, t: Tick)
    requires Ideal(c) && s.up
    ensures var s' := VerifyAndAdvance(c, s, t).0;
            && (s'.cell.mem == s.cell.mem || Wrote(s, t, s', s'.cell.mem))
            && (s'.cell.file == s.cell.file || Wrote(s, t, s', s'.cell.file))
  {
    TickThatDoesNotDrain(c, s, t);
    if TickDrains(c, s, t) {
      var s1, n := TickThatDrains(c, s, t);
      var s' := VerifyAndAdvance(c, s, t).0;
      if n > 0 {
        assert s'.log[|s1.log| + (n - 1)] == Verified(t.script[n - 1].batch, t.script[n - 1].node.value);
        assert s.log <= s1.log;
      }
    }
  }

  /** The state is the first file's, or some tick of the run wrote it. */
  ghost predicate Sourced(c: Codecs, file: S.State, events: seq<Event>, st: S.State) {
    st == file || exists k :: 0 <= k < |events| && WroteAt(c, file, events, k, st)
  }

  ghost predicate WroteAt(c: Codecs, file: S.State, events: seq<Event>, k: nat, st: S.State)
    requires k < |events|
  {
    events[k].Ticks? &&
    Wrote(Run(c, Init(file), events[..k]), events[k].tick, Run(c, Init(file), events[..k + 1]), st)
  }

  lemma SourcedGrows(c: Codecs, file: S.State, events: seq<Event>, n: nat, st: S.State)
    requires n <= |events| && Sourced(c, file, events[..n], st)
    ensures Sourced(c, file, events, st)
  {
    var before := events[..n];
    if st != file {
      var k :| 0 <= k < n && WroteAt(c, file, before, k, st);
      assert before[..k] == events[..k] && before[..k + 1] == events[..k + 1];
      assert WroteAt(c, file, events, k, st);
    }
  }

  /**
    In every run, in memory and on disk, the whole persisted state, with its HotShot height and its
    time, is the first file's or was written by one tick: the number of the batch it verified last with
    its own position and clock, or its finalized number with those read for the fast-forward.
  */
  lemma {:induction false} StoredStateHasASource(c: Codecs, file: S.State, events: seq<Event>)
    requires Ideal(c)
    ensures var s := Run(c, Init(file), events);
            Sourced(c, file, events, s.cell.mem) && Sourced(c, file, events, s.cell.file)
  {
    if events == [] {
    } else {
      var n := |events| - 1;
      var before, after := Run(c, Init(file), events[..n]), Run(c, Init(file), events);
      StoredStateHasASource(c, file, events[..n]);
      SourcedGrows(c, file, events, n, before.cell.mem);
      SourcedGrows(c, file, events, n, before.cell.file);
      if events[n].Ticks? && before.up {
        TickWrites(c, before, events[n].tick);
        assert events[..n + 1] == events;
        assert forall st :: Wrote(before, events[n].tick, after, st) ==> WroteAt(c, file, events, n, st);
      }
    }
  }
}
