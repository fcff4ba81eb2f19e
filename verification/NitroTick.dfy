/**
  What a tick of the Nitro verifier does, said without the functions that compute it: when a message is
  verified, what a match leaves in the delayed-message cache, and what exactly is persisted.
*/
module NitroTick {
  import opened Common
  import opened NitroVerifier
  import S = Store
  import F = Feed
  import D = DelayedFetcher

  // ---------------------------------------------------------------- when a message is verified

  /** The payload that a peek shows at the cursor: Espresso's, or one written there earlier. */
  function Payload(env: Env, s: Nitro, a: Attempt): Bytes
    requires a.Try?
  {
    if a.reread && s.cursor in s.written then s.written[s.cursor] else env.content(s.cursor).l2msg
  }

  /** A message without payload that names an index, the feed's message naming the same. */
  predicate AsksL1(env: Env, s: Nitro, a: Attempt)
    requires a.Try?
  {
    && a.available && s.cursor in s.feed.cache && Payload(env, s, a) == []
    && s.feed.cache[s.cursor].delayedRead == env.content(s.cursor).delayedRead
    && env.content(s.cursor).delayedRead > 0
  }

  /**
    The feed has Espresso's message, with the payload that the peek shows or, if it shows none, with the
    one that L1 vouches for.
  */
  predicate Verifiable(env: Env, s: Nitro, a: Attempt)
    requires a.Try?
  {
    && a.available && s.cursor in s.feed.cache
    && var msg, payload := env.content(s.cursor), Payload(env, s, a);
       if payload != [] then s.feed.cache[s.cursor] == msg.(l2msg := payload)
       else
         && AsksL1(env, s, a)
         && D.HandsOut(env.fetch, s.fetcher, msg.delayedRead - 1, a.probe)
         && s.feed.cache[s.cursor] == msg.(l2msg := s.fetcher.cache[msg.delayedRead - 1].data)
  }

  /** What the other goroutines do before an attempt does not move the verifier. */
  lemma BeforeAttempt(env: Env, s: Nitro, a: Attempt)
    requires Sound(s) && DataOk(env, s) && s.up && a.Try?
    ensures var s0 := InBackground(env, s, a.before);
            && Sound(s0) && DataOk(env, s0) && s0.up && s0.cursor == s.cursor && s0.log == s.log && s0.cell == s.cell
            && s0.written == s.written
  {
    BackgroundKeeps(env, s, a.before);
    BackgroundKeepsData(env, s, a.before);
  }

  /** What an attempt leaves when it goes through L1, and when it does not. */
  lemma TurnOpens(env: Env, s: Nitro, a: Attempt)
    requires Sound(s) && DataOk(env, s) && s.up && a.Try?
    ensures InBackground(env, s, a.before).cursor == s.cursor && InBackground(env, s, a.before).written == s.written
    ensures var s0 := InBackground(env, s, a.before);
            var (s', verified) := Turn(env, s, a);
            var msg := env.content(s.cursor);
            var index := D.PruneIndex(msg.delayedRead);
            if AsksL1(env, s0, a) then
              var (f, reply) := D.GetDelayed(env.fetch, s0.fetcher, msg.delayedRead - 1, a.during, a.probe);
              && (verified <==> reply.Data? && s0.feed.cache[s.cursor] == msg.(l2msg := reply.data))
              && s'.fetcher == (if verified then D.Prune(f, index) else f)
              && s'.written == (if reply.Data? then s.written[s.cursor := reply.data] else s.written)
            else
              && (verified <==> a.available && Payload(env, s0, a) != [] && s.cursor in s0.feed.cache
                                && s0.feed.cache[s.cursor] == msg.(l2msg := Payload(env, s0, a)))
              && s'.fetcher == (if verified then D.Prune(s0.fetcher, index) else s0.fetcher)
              && s'.written == s.written
  {
    BeforeAttempt(env, s, a);
  }

  /** An attempt verifies its message exactly when feed, Espresso and L1 agree on it. */
  lemma TurnVerifiesIff(env: Env, s: Nitro, a: Attempt)
    requires Sound(s) && DataOk(env, s) && s.up && a.Try?
    ensures Turn(env, s, a).1 <==> Verifiable(env, InBackground(env, s, a.before), a)
  {
    AskingL1(env, s, a);
    TurnOpens(env, s, a);
  }

  /** The reply of L1, if it is asked. */
  lemma AskingL1(env: Env, s: Nitro, a: Attempt)
    requires Sound(s) && DataOk(env, s) && s.up && a.Try?
    ensures InBackground(env, s, a.before).cursor == s.cursor && InBackground(env, s, a.before).written == s.written
    ensures var s0 := InBackground(env, s, a.before);
            AsksL1(env, s0, a) ==>
              var index := env.content(s.cursor).delayedRead - 1;
              var (f, reply) := D.GetDelayed(env.fetch, s0.fetcher, index, a.during, a.probe);
              && D.RepliesExactly(env.fetch, s0.fetcher, index, a.probe, reply)
              && D.LeavesExactly(env.fetch, s0.fetcher, index, D.ActAll(env.fetch, s0.fetcher, a.during), a.probe, f)
  {
    var s0 := InBackground(env, s, a.before);
    BeforeAttempt(env, s, a);
    if AsksL1(env, s0, a) {
      D.GetDelayedExactly(env.fetch, s0.fetcher, env.content(s0.cursor).delayedRead - 1, a.during, a.probe);
    }
  }

  /** A payload that L1 vouches for is written into the peeked message, whether or not the comparison then succeeds. */
  lemma PayloadIsWritten(env: Env, s: Nitro, a: Attempt)
    requires Sound(s) && DataOk(env, s) && s.up && a.Try?
    ensures InBackground(env, s, a.before).cursor == s.cursor && InBackground(env, s, a.before).written == s.written
    ensures var s0 := InBackground(env, s, a.before);
            var index := env.content(s.cursor).delayedRead - 1;
            Turn(env, s, a).0.written ==
              if AsksL1(env, s0, a) && D.HandsOut(env.fetch, s0.fetcher, index, a.probe)
              then s.written[s.cursor := s0.fetcher.cache[index].data]
              else s.written
  {
    AskingL1(env, s, a);
    TurnOpens(env, s, a);
  }

  // ---------------------------------------------------------------- what a match leaves in the cache

  /** The fetcher at the moment of the match: after the poller's actions while L1 was asked, if it was. */
  function HeldAtMatch(env: Env, s: Nitro, a: Attempt): D.Fetcher
    requires a.Try?
  {
    if Payload(env, s, a) == [] then D.ActAll(env.fetch, s.fetcher, a.during) else s.fetcher
  }

  /** Of the cached entries exactly those with an index at or above c are left, as they were. */
  ghost predicate KeepsFrom(held: D.Fetcher, left: D.Fetcher, c: nat) {
    && left.cursor == held.cursor && left.scan == held.scan
    && (forall i :: i in left.cache <==> i in held.cache && i >= c)
    && (forall i :: i in left.cache ==> left.cache[i] == held.cache[i])
  }

  lemma PruneKeepsFrom(held: D.Fetcher, c: nat)
    requires c < D.TWO_64
    ensures KeepsFrom(held, D.Prune(held, D.PruneIndex(c)), if c == 0 then D.TWO_64 else c)
  {
  }

  /**
    A match at a position with delayed count c keeps exactly the entries from index c on, the first one
    that a later delayed message can need; with count 0 the index wraps around and nothing is kept.
  */
  lemma MatchKeepsFromCount(env: Env, s: Nitro, a: Attempt)
    requires Sound(s) && DataOk(env, s) && s.up && a.Try? && Turn(env, s, a).1
    requires env.content(s.cursor).delayedRead < D.TWO_64
    ensures var c := env.content(s.cursor).delayedRead;
            KeepsFrom(HeldAtMatch(env, InBackground(env, s, a.before), a), Turn(env, s, a).0.fetcher,
                      if c == 0 then D.TWO_64 else c)
  {
    AskingL1(env, s, a);
    TurnOpens(env, s, a);
    PruneKeepsFrom(HeldAtMatch(env, InBackground(env, s, a.before), a), env.content(s.cursor).delayedRead);
  }

  // ---------------------------------------------------------------- over runs

  /** Along Espresso's messages the delayed count never falls, and a message without payload raises it by one. */
  ghost predicate CountsGrow(env: Env) {
    forall p: nat :: CountGrowsAfter(env, p)
  }

  predicate CountGrowsAfter(env: Env, p: nat) {
    && env.content(p).delayedRead <= env.content(p + 1).delayedRead < D.TWO_64
    && (env.content(p + 1).l2msg == [] ==> env.content(p + 1).delayedRead == env.content(p).delayedRead + 1)
  }

  lemma {:induction false} CountsClimbTo(env: Env, p: nat, q: nat)
    requires CountsGrow(env) && p <= q
    ensures env.content(p).delayedRead <= env.content(q).delayedRead < D.TWO_64
    ensures p < q && env.content(q).l2msg == [] ==> env.content(p).delayedRead < env.content(q).delayedRead
    decreases q
  {
    assert CountGrowsAfter(env, q);
    if p == q {
    } else {
      CountsClimbTo(env, p, q - 1);
      assert CountGrowsAfter(env, q - 1);
    }
  }

  /** Index i is the one that the delayed message at position q needs. */
  predicate Needs(env: Env, q: nat, i: nat) {
    env.content(q).l2msg == [] && env.content(q).delayedRead == i + 1
  }

  /** The attempt asks L1 for a cached message that L1 no longer has: the fetcher rewinds. */
  predicate TurnRewinds(env: Env, s: Nitro, a: Attempt)
    requires a.Try?
  {
    var s0 := InBackground(env, s, a.before);
    && AsksL1(env, s0, a)
    && var index := env.content(s0.cursor).delayedRead - 1;
       && index in s0.fetcher.cache && a.probe.chain.Some?
       && !D.StillThere(env.fetch, s0.fetcher, index, a.probe.chain.value)
  }

  predicate DrainRewinds(env: Env, s: Nitro, script: seq<Attempt>)
    decreases |script|
  {
    && script != [] && script[0].Try?
    && (TurnRewinds(env, s, script[0]) ||
        (Turn(env, s, script[0]).1 && DrainRewinds(env, Turn(env, s, script[0]).0, script[1..])))
  }

  /** Some tick of the run, given to a live process, rewinds the fetcher. */
  predicate RunRewinds(env: Env, s: Nitro, events: seq<Event>) {
    && events != []
    && var n := |events| - 1;
       var before := Run(env, s, events[..n]);
       || RunRewinds(env, s, events[..n])
       || (before.up && events[n].Ticks? && DrainRewinds(env, before, events[n].tick.script))
  }

  /** All matches the log gains are at positions before q. */
  ghost predicate MatchesBefore(log: seq<Evidence>, log': seq<Evidence>, q: nat) {
    log <= log' && forall k :: |log| <= k < |log'| && log'[k].Matched? ==> log'[k].pos < q
  }

  /** The log gains a match at a position whose delayed count is 0. */
  ghost predicate MatchesCountZero(env: Env, log: seq<Evidence>, log': seq<Evidence>) {
    exists k :: |log| <= k < |log'| && log'[k].Matched? && env.content(log'[k].pos).delayedRead == 0
  }

  /** Index i stayed cached, unless a match with count 0 emptied the cache. */
  ghost predicate Spared(env: Env, s: Nitro, s': Nitro, i: nat) {
    i in s'.fetcher.cache || MatchesCountZero(env, s.log, s'.log)
  }

  lemma MatchesBeforeSplits(a: seq<Evidence>, b: seq<Evidence>, c: seq<Evidence>, q: nat)
    requires a <= b <= c && MatchesBefore(a, c, q)
    ensures MatchesBefore(a, b, q) && MatchesBefore(b, c, q)
  {
    assert forall k :: 0 <= k < |b| ==> b[k] == c[k];
  }

  lemma CountZeroGrows(env: Env, a: seq<Evidence>, b: seq<Evidence>, c: seq<Evidence>)
    requires a <= b <= c && (MatchesCountZero(env, a, b) || MatchesCountZero(env, b, c))
    ensures MatchesCountZero(env, a, c)
  {
    if MatchesCountZero(env, a, b) {
      var k :| |a| <= k < |b| && b[k].Matched? && env.content(b[k].pos).delayedRead == 0;
      assert c[k] == b[k];
    }
  }

  lemma {:induction false} PollerKeepsIndex(p: D.Params, f: D.Fetcher, actions: seq<D.Action>, i: nat)
    requires i in f.cache
    ensures i in D.ActAll(p, f, actions).cache
    decreases |actions|
  {
    if actions == [] {
    } else {
      PollerKeepsIndex(p, D.Act(p, f, actions[0]), actions[1..], i);
    }
  }

  lemma {:induction false} BackgroundKeepsIndex(env: Env, s: Nitro, bs: seq<Background>, i: nat)
    requires i in s.fetcher.cache
    ensures i in InBackground(env, s, bs).fetcher.cache
    decreases |bs|
  {
    if bs == [] {
    } else {
      BackgroundKeepsIndex(env, OneInBackground(env, s, bs[0]), bs[1..], i);
    }
  }

  /** A match is logged last, at the position that was at the cursor. */
  lemma TurnLogsMatch(env: Env, s: Nitro, a: Attempt)
    requires Sound(s) && s.up && a.Try? && Turn(env, s, a).1
    ensures var log := Turn(env, s, a).0.log;
            |log| > |s.log| && log[|log| - 1].Matched? && log[|log| - 1].pos == s.cursor
  {
    BackgroundKeeps(env, s, a.before);
  }

  lemma MatchSpares(env: Env, s: Nitro, a: Attempt, i: nat, q: nat)
    requires Sound(s) && DataOk(env, s) && s.up && a.Try? && Turn(env, s, a).1
    requires CountsGrow(env) && Needs(env, q, i) && s.cursor < q
    requires i in s.fetcher.cache
    ensures i in Turn(env, s, a).0.fetcher.cache || env.content(s.cursor).delayedRead == 0
  {
    BackgroundKeepsIndex(env, s, a.before, i);
    PollerKeepsIndex(env.fetch, InBackground(env, s, a.before).fetcher, a.during, i);
    CountsClimbTo(env, s.cursor, q);
    MatchKeepsFromCount(env, s, a);
  }

  lemma MatchIsSpared(env: Env, s: Nitro, a: Attempt, i: nat, q: nat)
    requires Sound(s) && DataOk(env, s) && s.up && a.Try? && Turn(env, s, a).1
    requires CountsGrow(env) && Needs(env, q, i) && i in s.fetcher.cache
    requires MatchesBefore(s.log, Turn(env, s, a).0.log, q)
    ensures Spared(env, s, Turn(env, s, a).0, i)
  {
    TurnLogsMatch(env, s, a);
    var log := Turn(env, s, a).0.log;
    assert log[|log| - 1].pos < q;
    MatchSpares(env, s, a, i, q);
  }

  /** An attempt that verifies nothing removes nothing, unless it rewinds. */
  lemma FailedTurnSpares(env: Env, s: Nitro, a: Attempt, i: nat)
    requires Sound(s) && DataOk(env, s) && s.up && a.Try? && !Turn(env, s, a).1 && !TurnRewinds(env, s, a)
    requires i in s.fetcher.cache
    ensures i in Turn(env, s, a).0.fetcher.cache
  {
    BackgroundKeepsIndex(env, s, a.before, i);
    PollerKeepsIndex(env.fetch, InBackground(env, s, a.before).fetcher, a.during, i);
    AskingL1(env, s, a);
    TurnOpens(env, s, a);
  }

  lemma TurnSpares(env: Env, s: Nitro, a: Attempt, i: nat, q: nat)
    requires Sound(s) && DataOk(env, s) && s.up && a.Try?
    requires CountsGrow(env) && Needs(env, q, i) && i in s.fetcher.cache
    requires !TurnRewinds(env, s, a) && MatchesBefore(s.log, Turn(env, s, a).0.log, q)
    ensures Spared(env, s, Turn(env, s, a).0, i)
  {
    if Turn(env, s, a).1 {
      MatchIsSpared(env, s, a, i, q);
    } else {
      FailedTurnSpares(env, s, a, i);
    }
  }

  lemma SparedChains(env: Env, a: Nitro, b: Nitro, c: Nitro, i: nat)
    requires a.log <= b.log <= c.log && Spared(env, a, b, i) && (i in b.fetcher.cache ==> Spared(env, b, c, i))
    ensures Spared(env, a, c, i)
  {
    if i !in c.fetcher.cache {
      CountZeroGrows(env, a.log, b.log, c.log);
    }
  }

  lemma {:induction false} DrainSpares(env: Env, s: Nitro, script: seq<Attempt>, last: Option<nat>, i: nat, q: nat)
    requires Sound(s) && DataOk(env, s) && s.up
    requires CountsGrow(env) && Needs(env, q, i) && i in s.fetcher.cache
    requires !DrainRewinds(env, s, script) && MatchesBefore(s.log, Drain(env, s, script, last).state.log, q)
    ensures Spared(env, s, Drain(env, s, script, last).state, i)
    decreases |script|
  {
    if script == [] || script[0].Cancelled? {
    } else {
      var (s1, verified) := Turn(env, s, script[0]);
      TurnKeeps(env, s, script[0]);
      TurnKeepsData(env, s, script[0]);
      if verified {
        var rest := script[1..];
        var end := Drain(env, s1, rest, Some(s1.cursor - 1)).state;
        DrainLogsNoJump(env, s1, rest, Some(s1.cursor - 1));
        MatchesBeforeSplits(s.log, s1.log, end.log, q);
        TurnSpares(env, s, script[0], i, q);
        if i in s1.fetcher.cache {
          DrainSpares(env, s1, rest, Some(s1.cursor - 1), i, q);
        }
        SparedChains(env, s, s1, end, i);
      } else {
        TurnSpares(env, s, script[0], i, q);
      }
    }
  }

  lemma TickSpares(env: Env, s: Nitro, t: Tick, i: nat, q: nat)
    requires Sound(s) && DataOk(env, s) && s.up
    requires CountsGrow(env) && Needs(env, q, i) && i in s.fetcher.cache
    requires !DrainRewinds(env, s, t.script) && MatchesBefore(s.log, VerifyAndAdvance(env, s, t).0.log, q)
    ensures Spared(env, s, VerifyAndAdvance(env, s, t).0, i)
  {
    var d := Drain(env, s, t.script, None);
    var s1 := InBackground(env, d.state, t.mid);
    var s' := VerifyAndAdvance(env, s, t).0;
    DrainKeeps(env, s, t.script, None);
    BackgroundKeeps(env, d.state, t.mid);
    TickLog(env, s, t);
    SyncLogs(s1, t);
    MatchesBeforeSplits(s.log, d.state.log, s'.log, q);
    DrainSpares(env, s, t.script, None, i, q);
    if i in d.state.fetcher.cache {
      BackgroundKeepsIndex(env, d.state, t.mid, i);
      TickKeepsFetcher(env, s, t);
    } else {
      CountZeroGrows(env, s.log, d.state.log, s'.log);
    }
  }

  /** After the drain only the poller touches the fetcher. */
  lemma TickKeepsFetcher(env: Env, s: Nitro, t: Tick)
    ensures var d := Drain(env, s, t.script, None);
            VerifyAndAdvance(env, s, t).0.fetcher ==
            if d.cancelled || t.cancelled then d.state.fetcher else InBackground(env, d.state, t.mid).fetcher
  {
    var d := Drain(env, s, t.script, None);
    var s2 := Sync(InBackground(env, d.state, t.mid), t).0;
    assert s2.fetcher == InBackground(env, d.state, t.mid).fetcher;
    assert Settle(env, s2, d.last, t).0.fetcher == s2.fetcher;
  }

  lemma StepSpares(env: Env, s: Nitro, e: Event, i: nat, q: nat)
    requires Sound(s) && DataOk(env, s) && !e.Reboots?
    requires CountsGrow(env) && Needs(env, q, i) && i in s.fetcher.cache
    requires !(s.up && e.Ticks? && DrainRewinds(env, s, e.tick.script)) && MatchesBefore(s.log, Step(env, s, e).log, q)
    ensures Spared(env, s, Step(env, s, e), i)
  {
    if s.up {
      match e
      case Ticks(t) => TickSpares(env, s, t, i, q);
      case Meanwhile(bs) => BackgroundKeepsIndex(env, s, bs, i);
    }
  }

  lemma StepKeepsData(env: Env, s: Nitro, e: Event)
    requires Sound(s) && DataOk(env, s) && !e.Reboots?
    ensures Sound(Step(env, s, e)) && DataOk(env, Step(env, s, e)) && s.log <= Step(env, s, e).log
  {
    StepKeeps(env, s, e);
    if s.up {
      match e
      case Ticks(t) => TickKeepsData(env, s, t);
      case Meanwhile(bs) => BackgroundKeepsData(env, s, bs);
    }
  }

  lemma {:induction false} RunSpares(env: Env, s: Nitro, events: seq<Event>, i: nat, q: nat)
    requires Sound(s) && DataOk(env, s) && forall k :: 0 <= k < |events| ==> !events[k].Reboots?
    requires CountsGrow(env) && Needs(env, q, i) && i in s.fetcher.cache
    requires !RunRewinds(env, s, events) && MatchesBefore(s.log, Run(env, s, events).log, q)
    ensures Sound(Run(env, s, events)) && DataOk(env, Run(env, s, events)) && Spared(env, s, Run(env, s, events), i)
  {
    if events == [] {
    } else {
      var n := |events| - 1;
      var s1 := Run(env, s, events[..n]);
      RunKeepsAll(env, s, events[..n]);
      StepKeepsData(env, s1, events[n]);
      MatchesBeforeSplits(s.log, s1.log, Run(env, s, events).log, q);
      RunSpares(env, s, events[..n], i, q);
      if i in s1.fetcher.cache {
        StepSpares(env, s1, events[n], i, q);
      }
      SparedChains(env, s, s1, Run(env, s, events), i);
    }
  }

  lemma {:induction false} RunKeepsAll(env: Env, s: Nitro, events: seq<Event>)
    requires Sound(s) && DataOk(env, s) && forall k :: 0 <= k < |events| ==> !events[k].Reboots?
    ensures var s' := Run(env, s, events); Sound(s') && DataOk(env, s') && s.log <= s'.log
  {
    if events == [] {
    } else {
      var n := |events| - 1;
      RunKeepsAll(env, s, events[..n]);
      StepKeepsData(env, Run(env, s, events[..n]), events[n]);
    }
  }

  /**
    From any reachable state, along any run without a restart: an entry that the delayed message at
    position q needs stays in the cache as long as only positions before q are matched.  Exceptions are
    just two, a rewind, and a match at a position whose delayed count is 0.
  */
  lemma {:induction false} MatchesSpareWhatIsNeeded(
      env: Env, file: S.State, l1Finalized: nat, before: seq<Event>, after: seq<Event>, i: nat, q: nat)
    requires CountsGrow(env) && Needs(env, q, i)
    requires forall k :: 0 <= k < |after| ==> !after[k].Reboots?
    requires var s := Run(env, Init(file, l1Finalized), before);
             && i in s.fetcher.cache
             && MatchesBefore(s.log, Run(env, s, after).log, q)
    ensures var s := Run(env, Init(file, l1Finalized), before);
            || i in Run(env, s, after).fetcher.cache
            || RunRewinds(env, s, after)
            || MatchesCountZero(env, s.log, Run(env, s, after).log)
  {
    var s := Run(env, Init(file, l1Finalized), before);
    RunKeeps(env, file, l1Finalized, before);
    RunKeepsData(env, file, l1Finalized, before);
    if !RunRewinds(env, s, after) {
      RunSpares(env, s, after, i, q);
    }
  }

  // ---------------------------------------------------------------- a whole drain and a whole tick

  /** The states a drain goes through, one verified message after the other. */
  ghost predicate InTurn(env: Env, script: seq<Attempt>, states: seq<Nitro>) {
    && 0 < |states| <= |script| + 1
    && forall k :: 0 <= k < |states| - 1 ==> Verifies(env, states[k], script[k], states[k + 1])
  }

  predicate Verifies(env: Env, s: Nitro, a: Attempt, s': Nitro) {
    a.Try? && Turn(env, s, a) == (s', true)
  }

  /** How a drain ends after the messages it verified: with its script, cancelled, or at a message it cannot verify. */
  ghost predicate EndsAfter(env: Env, script: seq<Attempt>, states: seq<Nitro>, d: Drained)
    requires InTurn(env, script, states)
  {
    var n := |states| - 1;
    if n == |script| then d.state == states[n] && !d.cancelled
    else if script[n].Cancelled? then d.state == states[n] && d.cancelled
    else Turn(env, states[n], script[n]) == (d.state, false) && !d.cancelled
  }

  lemma {:induction false} DrainVerifiesInTurn(env: Env, s: Nitro, script: seq<Attempt>, last: Option<nat>)
    returns (states: seq<Nitro>)
    ensures InTurn(env, script, states) && states[0] == s && EndsAfter(env, script, states, Drain(env, s, script, last))
    ensures var d := Drain(env, s, script, last);
            d.last == if d.cancelled then None else if |states| == 1 then last else Some(states[|states| - 1].cursor - 1)
    decreases |script|
  {
    if script == [] || script[0].Cancelled? || !Turn(env, s, script[0]).1 {
      states := [s];
    } else {
      var s1, rest := Turn(env, s, script[0]).0, script[1..];
      var later := DrainVerifiesInTurn(env, s1, rest, Some(s1.cursor - 1));
      states := [s] + later;
      TurnsPrepend(env, s, script, later, Drain(env, s1, rest, Some(s1.cursor - 1)));
    }
  }

  lemma TurnsPrepend(env: Env, s: Nitro, script: seq<Attempt>, later: seq<Nitro>, d: Drained)
    requires script != [] && script[0].Try? && InTurn(env, script[1..], later)
    requires Turn(env, s, script[0]) == (later[0], true) && EndsAfter(env, script[1..], later, d)
    ensures InTurn(env, script, [s] + later) && EndsAfter(env, script, [s] + later, d)
  {
    var states, rest := [s] + later, script[1..];
    forall k | 0 <= k < |states| - 1 ensures Verifies(env, states[k], script[k], states[k + 1]) {
      if k == 0 {
        assert states[1] == later[0];
      } else {
        assert Verifies(env, later[k - 1], rest[k - 1], later[k]);
        assert states[k] == later[k - 1] && script[k] == rest[k - 1] && states[k + 1] == later[k];
      }
    }
    var n := |later| - 1;
    assert states[n + 1] == later[n] && (n < |rest| ==> script[n + 1] == rest[n]);
  }

  /** Finality that the tick was told of is ahead of the store. */
  predicate SeesNewFinality(s: Nitro, t: Tick) {
    t.snapshot.Some? && t.snapshot.value > s.cell.mem.l2
  }

  function FinalizedState(t: Tick): S.State
    requires t.snapshot.Some?
  {
    S.State(t.snapshot.value, t.syncHeight, t.syncNow)
  }

  /** The position with the HotShot height at which Espresso finalized it, and this tick's clock. */
  function VerifiedState(env: Env, t: Tick, pos: nat): S.State {
    S.State(pos, env.height(pos), t.now)
  }

  /** What the final write leaves of the cell that the sync left. */
  ghost predicate Stored(env: Env, before: S.Cell, after: Nitro, o: Outcome, t: Tick, last: Option<nat>) {
    if last.None? then o == NothingVerified && after.cell == before
    else
      var next := VerifiedState(env, t, last.value);
      if next.l2 <= before.mem.l2 then o == NotGreater && after.cell == before
      else match t.io
        case Succeeds => o == Advanced && after.cell == S.Cell(next, next)
        case Fails => o == WriteFailed && after.cell == before
        case CrashesAfterRename => o == Crashed && after.cell == S.Cell(before.mem, next)
  }

  /** Outcome and store of a tick in every case. */
  lemma TickStores(env: Env, s: Nitro, t: Tick)
    requires Sound(s) && s.up
    ensures var d := Drain(env, s, t.script, None);
            var (s', o) := VerifyAndAdvance(env, s, t);
            if d.cancelled || t.cancelled then o == TickCancelled && s' == d.state && s'.cell == s.cell
            else if SeesNewFinality(s, t) && t.syncIo.Fails? then o == SyncFailed && s'.cell == s.cell
            else if SeesNewFinality(s, t) && t.syncIo.CrashesAfterRename? then
              o == Crashed && s'.cell == S.Cell(s.cell.mem, FinalizedState(t))
            else Stored(env, if SeesNewFinality(s, t) then S.Cell(FinalizedState(t), FinalizedState(t)) else s.cell,
                        s', o, t, d.last)
    ensures VerifyAndAdvance(env, s, t).0.up <==> VerifyAndAdvance(env, s, t).1 != Crashed
  {
    var d := Drain(env, s, t.script, None);
    DrainKeeps(env, s, t.script, None);
    BackgroundKeeps(env, d.state, t.mid);
  }

  // ---------------------------------------------------------------- what runs persist

  /** The k-th entry is the last match the log gained. */
  ghost predicate LastMatch(log: seq<Evidence>, log': seq<Evidence>, k: nat) {
    |log| <= k < |log'| && log'[k].Matched? && forall m :: k < m < |log'| ==> !log'[m].Matched?
  }

  ghost predicate NoMatch(log: seq<Evidence>, log': seq<Evidence>) {
    log <= log' && forall m :: |log| <= m < |log'| ==> !log'[m].Matched?
  }

  /** What the drain reports as last is the position of the last match, or what it was given if there is none. */
  ghost predicate ReportsLast(log: seq<Evidence>, d: Drained, last: Option<nat>, k: nat) {
    d.last.Some? ==>
      || (NoMatch(log, d.state.log) && d.last == last)
      || (LastMatch(log, d.state.log, k) && d.state.log[k].pos == d.last.value)
  }

  lemma ReportsAfterMatch(a: seq<Evidence>, b: seq<Evidence>, d: Drained, last: Option<nat>, k: nat) returns (k': nat)
    requires a <= b <= d.state.log && |a| < |b| && b[|b| - 1].Matched?
    requires ReportsLast(b, d, Some(b[|b| - 1].pos), k)
    ensures ReportsLast(a, d, last, k')
  {
    k' := if NoMatch(b, d.state.log) then |b| - 1 else k;
  }

  lemma {:induction false} DrainReportsLastMatch(env: Env, s: Nitro, script: seq<Attempt>, last: Option<nat>)
    returns (k: nat)
    requires Sound(s) && s.up
    ensures ReportsLast(s.log, Drain(env, s, script, last), last, k)
    decreases |script|
  {
    k := 0;
    if script == [] || script[0].Cancelled? {
    } else {
      var (s1, verified) := Turn(env, s, script[0]);
      TurnLog(env, s, script[0]);
      if verified {
        TurnKeeps(env, s, script[0]);
        TurnLogsMatch(env, s, script[0]);
        DrainLogsNoJump(env, s1, script[1..], Some(s1.cursor - 1));
        k := DrainReportsLastMatch(env, s1, script[1..], Some(s1.cursor - 1));
        k := ReportsAfterMatch(s.log, s1.log, Drain(env, s1, script[1..], Some(s1.cursor - 1)), last, k);
      }
    }
  }

  /** The tick wrote this state: for the finality it was told of, or for the position it matched last. */
  ghost predicate Wrote(env: Env, before: Nitro, t: Tick, after: Nitro, st: S.State) {
    before.up &&
    ((t.snapshot.Some? && st == FinalizedState(t)) ||
     exists k: nat :: LastMatch(before.log, after.log, k) && st == VerifiedState(env, t, after.log[k].pos))
  }

  lemma {:induction false} TickWrites(env: Env, s: Nitro, t: Tick)
    requires Sound(s) && s.up
    ensures var s' := VerifyAndAdvance(env, s, t).0;
            && (s'.cell.mem == s.cell.mem || Wrote(env, s, t, s', s'.cell.mem))
            && (s'.cell.file == s.cell.file || Wrote(env, s, t, s', s'.cell.file))
  {
    var d := Drain(env, s, t.script, None);
    var s' := VerifyAndAdvance(env, s, t).0;
    TickStores(env, s, t);
    var k := DrainReportsLastMatch(env, s, t.script, None);
    DrainKeeps(env, s, t.script, None);
    BackgroundKeeps(env, d.state, t.mid);
    TickLog(env, s, t);
    SyncLogs(InBackground(env, d.state, t.mid), t);
    if d.last.Some? {
      assert LastMatch(s.log, s'.log, k) && s'.log[k].pos == d.last.value;
    }
  }

  /** The state is the first file's, or some tick of the run wrote it. */
  ghost predicate Sourced(env: Env, s0: Nitro, events: seq<Event>, st: S.State) {
    st == s0.cell.file || exists k :: 0 <= k < |events| && WroteAt(env, s0, events, k, st)
  }

  ghost predicate WroteAt(env: Env, s0: Nitro, events: seq<Event>, k: nat, st: S.State)
    requires k < |events|
  {
    events[k].Ticks? && Wrote(env, Run(env, s0, events[..k]), events[k].tick, Run(env, s0, events[..k + 1]), st)
  }

  lemma SourcedGrows(env: Env, s0: Nitro, events: seq<Event>, n: nat, st: S.State)
    requires n <= |events| && Sourced(env, s0, events[..n], st)
    ensures Sourced(env, s0, events, st)
  {
    var before := events[..n];
    if st != s0.cell.file {
      var k :| 0 <= k < n && WroteAt(env, s0, before, k, st);
      assert before[..k] == events[..k] && before[..k + 1] == events[..k + 1];
      assert WroteAt(env, s0, events, k, st);
    }
  }

  /**
    In every run, in memory and on disk, the whole persisted state is the first file's or was written by
    one tick: the position it matched last with the height of that very position and its own clock, or
    its finalized number with what was read for the sync.
  */
  lemma {:induction false} StoredStateHasASource(env: Env, file: S.State, l1Finalized: nat, events: seq<Event>)
    ensures var s0 := Init(file, l1Finalized);
            var s := Run(env, s0, events);
            Sourced(env, s0, events, s.cell.mem) && Sourced(env, s0, events, s.cell.file)
  {
    if events == [] {
    } else {
      var s0, n := Init(file, l1Finalized), |events| - 1;
      var before, after := Run(env, s0, events[..n]), Run(env, s0, events);
      StoredStateHasASource(env, file, l1Finalized, events[..n]);
      RunKeeps(env, file, l1Finalized, events[..n]);
      SourcedGrows(env, s0, events, n, before.cell.mem);
      SourcedGrows(env, s0, events, n, before.cell.file);
      if before.up {
        match events[n]
        case Ticks(t) =>
          TickWrites(env, before, t);
          assert events[..n + 1] == events;
          assert forall st :: Wrote(env, before, t, after, st) ==> WroteAt(env, s0, events, n, st);
        case Meanwhile(bs) => BackgroundKeeps(env, before, bs);
        case Reboots(_) =>
      }
    }
  }
}
