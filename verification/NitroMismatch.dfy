/**
  Mismatches between Espresso and the feed in the Nitro verifier: a position at which they differ is
  never verified, and exactly two things take the verifier past it.
*/
module NitroMismatch {
  import opened Common
  import opened NitroVerifier
  import S = Store
  import F = Feed
  import D = DelayedFetcher

  // ---------------------------------------------------------------- a mismatch stays a mismatch

  /** Espresso's message at p came with a payload and differs from the cached feed message. */
  ghost predicate Blocked(env: Env, s: Nitro, p: nat) {
    && env.content(p).l2msg != [] && p !in s.written
    && p in s.feed.cache && s.feed.cache[p] != env.content(p)
    && s.cursor <= p
  }

  /** The verifier is beyond p for good. */
  ghost predicate Passed(s: Nitro, p: nat) {
    p <= s.cell.mem.l2 && p < s.cursor
  }

  /** The log gains no match at p. */
  ghost predicate NoMatchAt(log: seq<Evidence>, log': seq<Evidence>, p: nat) {
    log <= log' && forall i :: |log| <= i < |log'| && log'[i].Matched? ==> log'[i].pos != p
  }

  /** From s to s' position p is not verified, and a verifier that is beyond p stays there. */
  ghost predicate Stuck(env: Env, s: Nitro, s': Nitro, p: nat) {
    && NoMatchAt(s.log, s'.log, p)
    && (Blocked(env, s, p) ==> Blocked(env, s', p) || Passed(s', p))
    && (Passed(s, p) ==> Passed(s', p))
  }

  lemma StuckChains(env: Env, a: Nitro, b: Nitro, c: Nitro, p: nat)
    requires Stuck(env, a, b, p) && Stuck(env, b, c, p)
    ensures Stuck(env, a, c, p)
  {
  }

  lemma TurnBlocked(env: Env, s: Nitro, a: Attempt, p: nat)
    requires Sound(s) && s.up && a.Try? && Blocked(env, s, p)
    ensures Blocked(env, Turn(env, s, a).0, p)
    ensures Turn(env, s, a).1 ==> s.cursor < p
  {
    BackgroundKeeps(env, s, a.before);
  }

  lemma TurnStuck(env: Env, s: Nitro, a: Attempt, p: nat)
    requires Sound(s) && s.up && a.Try?
    requires Blocked(env, s, p) || Passed(s, p)
    ensures Stuck(env, s, Turn(env, s, a).0, p)
    ensures Blocked(env, s, p) ==> Blocked(env, Turn(env, s, a).0, p)
  {
    TurnKeeps(env, s, a);
    TurnLog(env, s, a);
    if Blocked(env, s, p) {
      TurnBlocked(env, s, a, p);
    }
  }

  lemma {:induction false} DrainStuck(env: Env, s: Nitro, script: seq<Attempt>, last: Option<nat>, p: nat)
    requires Sound(s) && s.up
    requires Blocked(env, s, p) || Passed(s, p)
    ensures var d := Drain(env, s, script, last);
            && Stuck(env, s, d.state, p)
            && (Blocked(env, s, p) ==> Blocked(env, d.state, p))
    decreases |script|
  {
    if script == [] || script[0].Cancelled? {
    } else {
      TurnKeeps(env, s, script[0]);
      TurnStuck(env, s, script[0], p);
      var (s', verified) := Turn(env, s, script[0]);
      if verified {
        DrainStuck(env, s', script[1..], Some(s'.cursor - 1), p);
        StuckChains(env, s, s', Drain(env, s', script[1..], Some(s'.cursor - 1)).state, p);
      }
    }
  }

  lemma BackgroundStuck(env: Env, s: Nitro, bs: seq<Background>, p: nat)
    requires Sound(s) && s.up
    ensures Sound(InBackground(env, s, bs)) && Stuck(env, s, InBackground(env, s, bs), p)
    ensures Blocked(env, s, p) ==> Blocked(env, InBackground(env, s, bs), p)
  {
    BackgroundKeeps(env, s, bs);
  }

  lemma SyncStuck(env: Env, s: Nitro, t: Tick, p: nat)
    requires Sound(s) && s.up
    ensures Stuck(env, s, Sync(s, t).0, p)
  {
  }

  lemma SettleStuck(env: Env, s: Nitro, last: Option<nat>, t: Tick, p: nat)
    requires Sound(s) && s.up
    ensures Stuck(env, s, Settle(env, s, last, t).0, p)
  {
  }

  lemma TickStuck(env: Env, s: Nitro, t: Tick, p: nat)
    requires Sound(s) && s.up
    requires Blocked(env, s, p) || Passed(s, p)
    ensures Stuck(env, s, VerifyAndAdvance(env, s, t).0, p)
  {
    var d := Drain(env, s, t.script, None);
    DrainKeeps(env, s, t.script, None);
    DrainStuck(env, s, t.script, None, p);
    var s1 := InBackground(env, d.state, t.mid);
    BackgroundStuck(env, d.state, t.mid, p);
    BackgroundKeeps(env, d.state, t.mid);
    StuckChains(env, s, d.state, s1, p);
    SyncKeeps(s1, t);
    SyncStuck(env, s1, t, p);
    var (s2, v) := Sync(s1, t);
    StuckChains(env, s, s1, s2, p);
    if !v.WriteFailed? && !v.Crashed? {
      SettleStuck(env, s2, d.last, t, p);
      StuckChains(env, s, s2, Settle(env, s2, d.last, t).0, p);
    }
  }

  lemma StepStuck(env: Env, s: Nitro, e: Event, p: nat)
    requires Sound(s) && !e.Reboots?
    requires Blocked(env, s, p) || Passed(s, p)
    ensures Stuck(env, s, Step(env, s, e), p)
  {
    if s.up {
      match e
      case Ticks(t) => TickStuck(env, s, t, p);
      case Meanwhile(bs) => BackgroundStuck(env, s, bs, p);
    }
  }

  /**
    Once Espresso's message at p, which came with its payload, differs from the cached feed message, no
    later step of the process verifies p, whatever the feed sends afterwards.
  */
  lemma {:induction false} MismatchIsSticky(env: Env, s: Nitro, events: seq<Event>, p: nat)
    requires Sound(s) && (Blocked(env, s, p) || Passed(s, p))
    requires forall i :: 0 <= i < |events| ==> !events[i].Reboots?
    ensures var s' := Run(env, s, events);
            Sound(s') && NoMatchAt(s.log, s'.log, p) && Stuck(env, s, s', p) && (Blocked(env, s', p) || Passed(s', p))
  {
    if events == [] {
    } else {
      var n := |events| - 1;
      var s1 := Run(env, s, events[..n]);
      MismatchIsSticky(env, s, events[..n], p);
      StepKeeps(env, s1, events[n]);
      StepStuck(env, s1, events[n], p);
      StuckChains(env, s, s1, Step(env, s1, events[n]), p);
    }
  }

  /** An attempt that finds the two messages different does not verify the position and blocks it. */
  lemma MismatchBlocks(env: Env, s: Nitro, a: Attempt)
    requires Sound(s) && DataOk(env, s) && s.up && a.Try?
    requires env.content(s.cursor).l2msg != []
    requires var f := InBackground(env, s, a.before).feed;
             s.cursor in f.cache && f.cache[s.cursor] != env.content(s.cursor)
    ensures !Turn(env, s, a).1 && Blocked(env, Turn(env, s, a).0, s.cursor)
  {
    BackgroundKeeps(env, s, a.before);
  }

  // ---------------------------------------------------------------- what takes the verifier past a mismatch

  /** The log gains a jump to finality at or beyond p. */
  ghost predicate JumpedPast(log: seq<Evidence>, log': seq<Evidence>, p: nat) {
    exists i :: |log| <= i < |log'| && log'[i].Jumped? && p <= log'[i].finalized
  }

  lemma JumpedPastGrows(a: seq<Evidence>, b: seq<Evidence>, c: seq<Evidence>, p: nat)
    requires a <= b <= c
    ensures JumpedPast(a, c, p) <==> JumpedPast(a, b, p) || JumpedPast(b, c, p)
  {
  }

  /**
    The tick verifies something and goes on to the store, while no finality above the stored number is
    reported: the branch in which the verifier catches up with the store is open.
  */
  ghost predicate CatchesUp(env: Env, s: Nitro, t: Tick) {
    Drain(env, s, t.script, None).last.Some? && !t.cancelled && Finalized(t.snapshot) <= s.cell.mem.l2
  }

  /** From s to s' a position p that was blocked is passed by a jump or by catching up, and only so. */
  ghost predicate PassedAfter(s: Nitro, s': Nitro, p: nat, caughtUp: bool) {
    && s.log <= s'.log
    && (s'.cursor > p ==> JumpedPast(s.log, s'.log, p) || caughtUp)
    && (p <= s'.cell.mem.l2 ==> JumpedPast(s.log, s'.log, p) || p <= s.cell.mem.l2)
    && (p <= s.cell.mem.l2 ==> p <= s'.cell.mem.l2)
    && (s'.up && (JumpedPast(s.log, s'.log, p) || caughtUp) ==> s'.cursor > p)
  }

  lemma SyncJumps(env: Env, s: Nitro, t: Tick, p: nat)
    requires Sound(s) && s.up && s.cursor <= p
    ensures var (s', v) := Sync(s, t);
            && (JumpedPast(s.log, s'.log, p) <==>
                  Finalized(t.snapshot) > s.cell.mem.l2 && Finalized(t.snapshot) >= p && !v.WriteFailed?)
            && (v.Updated? ==> s'.cell.mem.l2 == Finalized(t.snapshot))
            && (v.Updated? && JumpedPast(s.log, s'.log, p) ==> s'.cursor > p)
            && (!JumpedPast(s.log, s'.log, p) || v.Crashed? ==> s'.cursor <= p)
            && (!v.Updated? ==> s'.cell.mem == s.cell.mem)
  {
    var n := Finalized(t.snapshot);
    assert (s.log + [Jumped(n)])[|s.log|] == Jumped(n);
  }

  /** The store write moves a cursor at or below p past it exactly when it finds the store at or beyond p. */
  lemma SettlePasses(env: Env, s: Nitro, last: Option<nat>, t: Tick, p: nat)
    requires s.up && (last.Some? ==> last.value < p)
    ensures var s' := Settle(env, s, last, t).0;
            && (s'.cell.mem.l2 >= p <==> s.cell.mem.l2 >= p)
            && (s.cursor <= p ==> (s'.cursor > p <==> last.Some? && p <= s.cell.mem.l2))
            && (s.cursor > p && p <= s.cell.mem.l2 ==> s'.cursor > p)
  {
  }

  /** Sync and store write together, from the state the drain left. */
  lemma SyncAndSettlePass(env: Env, s: Nitro, last: Option<nat>, t: Tick, p: nat)
    requires Sound(s) && s.up && s.cursor <= p && (last.Some? ==> last.value < p)
    ensures var (s1, v) := Sync(s, t);
            var s' := if v.WriteFailed? || v.Crashed? then s1 else Settle(env, s1, last, t).0;
            var caughtUp := p <= s.cell.mem.l2 && last.Some? && Finalized(t.snapshot) <= s.cell.mem.l2;
            PassedAfter(s, s', p, caughtUp) && (caughtUp ==> s'.up && !JumpedPast(s.log, s'.log, p))
  {
    SyncJumps(env, s, t, p);
    SyncKeeps(s, t);
    var (s1, v) := Sync(s, t);
    if !v.WriteFailed? && !v.Crashed? {
      SettlePasses(env, s1, last, t, p);
      SettleKeepsLog(env, s1, last, t);
    }
  }

  /**
    A tick takes a blocked verifier past p without a jump to p or beyond exactly when the stored number
    is already at or beyond p and the tick catches up with it.
  */
  lemma TickPassesIff(env: Env, s: Nitro, t: Tick, p: nat)
    requires Sound(s) && s.up && Blocked(env, s, p)
    ensures PassedAfter(s, VerifyAndAdvance(env, s, t).0, p, p <= s.cell.mem.l2 && CatchesUp(env, s, t))
    ensures var s' := VerifyAndAdvance(env, s, t).0;
            s'.cursor > p && !JumpedPast(s.log, s'.log, p) <==> p <= s.cell.mem.l2 && CatchesUp(env, s, t)
  {
    var d := Drain(env, s, t.script, None);
    DrainKeeps(env, s, t.script, None);
    DrainStuck(env, s, t.script, None, p);
    DrainLogsNoJump(env, s, t.script, None);
    assert !JumpedPast(s.log, d.state.log, p);
    if !d.cancelled && !t.cancelled {
      var s1 := InBackground(env, d.state, t.mid);
      BackgroundKeeps(env, d.state, t.mid);
      BackgroundStuck(env, d.state, t.mid, p);
      SyncAndSettlePass(env, s1, d.last, t, p);
      JumpedPastGrows(s.log, s1.log, VerifyAndAdvance(env, s, t).0.log, p);
    }
  }

  ghost predicate CatchesUpAt(env: Env, s: Nitro, e: Event) {
    s.up && e.Ticks? && CatchesUp(env, s, e.tick)
  }

  /** Some tick of the run, given to a live process, catches up with the store. */
  ghost predicate CaughtUp(env: Env, s: Nitro, events: seq<Event>) {
    && events != []
    && var before := events[..|events| - 1];
       CaughtUp(env, s, before) || CatchesUpAt(env, Run(env, s, before), events[|events| - 1])
  }

  lemma StepPasses(env: Env, s: Nitro, e: Event, p: nat)
    requires Sound(s) && Blocked(env, s, p) && !e.Reboots?
    ensures PassedAfter(s, Step(env, s, e), p, p <= s.cell.mem.l2 && CatchesUpAt(env, s, e))
  {
    if s.up {
      match e
      case Ticks(t) => TickPassesIff(env, s, t, p);
      case Meanwhile(bs) => BackgroundKeeps(env, s, bs);
    }
  }

  /**
    Over a whole run without a restart: a blocked position p is passed only by a jump to finality at or
    beyond p, or, if the stored number was at or beyond p from the beginning, by a tick that catches up
    with it; and in a process that is still up each of the two does take it past p.
  */
  lemma {:induction false} MismatchIsPassedIff(env: Env, s: Nitro, events: seq<Event>, p: nat)
    requires Sound(s) && Blocked(env, s, p)
    requires forall i :: 0 <= i < |events| ==> !events[i].Reboots?
    ensures PassedAfter(s, Run(env, s, events), p, p <= s.cell.mem.l2 && CaughtUp(env, s, events))
    ensures var s' := Run(env, s, events);
            s'.up ==>
              (s'.cursor > p <==> JumpedPast(s.log, s'.log, p) || (p <= s.cell.mem.l2 && CaughtUp(env, s, events)))
  {
    if events == [] {
    } else {
      var n := |events| - 1;
      var s1 := Run(env, s, events[..n]);
      MismatchIsSticky(env, s, events[..n], p);
      MismatchIsPassedIff(env, s, events[..n], p);
      LastStepPasses(env, s, s1, events[n], p, p <= s.cell.mem.l2 && CaughtUp(env, s, events[..n]));
    }
  }

  lemma LastStepPasses(env: Env, s: Nitro, s1: Nitro, e: Event, p: nat, caughtUp: bool)
    requires Sound(s1) && (Blocked(env, s1, p) || Passed(s1, p)) && !e.Reboots?
    requires PassedAfter(s, s1, p, caughtUp)
    ensures PassedAfter(s, Step(env, s1, e), p, caughtUp || (p <= s.cell.mem.l2 && CatchesUpAt(env, s1, e)))
  {
    var s2 := Step(env, s1, e);
    StepKeeps(env, s1, e);
    JumpedPastGrows(s.log, s1.log, s2.log, p);
    StepStuck(env, s1, e, p);
    if Blocked(env, s1, p) {
      StepPasses(env, s1, e, p);
    }
  }

  /** So with the stored number below p, only a jump to finality at or beyond p passes it. */
  lemma OnlyFinalityPassesAMismatch(env: Env, s: Nitro, events: seq<Event>, p: nat)
    requires Sound(s) && Blocked(env, s, p) && s.cell.mem.l2 < p
    requires forall i :: 0 <= i < |events| ==> !events[i].Reboots?
    ensures var s' := Run(env, s, events);
            JumpedPast(s.log, s'.log, p) || (s'.cell.mem.l2 < p && Blocked(env, s', p))
  {
    MismatchIsSticky(env, s, events, p);
    MismatchIsPassedIff(env, s, events, p);
  }

  // ---------------------------------------------------------------- a run that catches up past a mismatch

  /** A message is available and nothing else happens. */
  function Plain(): Attempt {
    Try([], true, false, [], D.Probe(None, None))
  }

  function Plains(n: nat): seq<Attempt> {
    if n == 0 then [] else [Plain()] + Plains(n - 1)
  }

  /** The feed has Espresso's messages, with their payloads, at n positions from the cursor on. */
  ghost predicate FeedAgrees(env: Env, s: Nitro, n: nat) {
    forall k :: s.cursor <= k < s.cursor + n ==>
      k in s.feed.cache && s.feed.cache[k] == env.content(k) && env.content(k).l2msg != []
  }

  lemma PlainTurn(env: Env, s: Nitro, n: nat, last: Option<nat>)
    requires n > 0 && s.written == map[] && FeedAgrees(env, s, n)
    ensures var s' := Accept(s, env.content(s.cursor), env.content(s.cursor));
            Drain(env, s, Plains(n), last) == Drain(env, s', Plains(n - 1), Some(s.cursor))
  {
  }

  lemma PlainAccept(env: Env, s: Nitro, n: nat)
    requires n > 0 && s.feed.next <= s.cursor && FeedAgrees(env, s, n)
    ensures var s' := Accept(s, env.content(s.cursor), env.content(s.cursor));
            && s'.feed.next <= s'.cursor && FeedAgrees(env, s', n - 1)
            && F.SteppedTo(s'.feed, s.feed.next + n) == F.SteppedTo(s.feed, s.feed.next + n)
  {
  }

  lemma {:induction false} PlainDrain(env: Env, s: Nitro, n: nat, last: Option<nat>)
    requires s.written == map[] && s.feed.next <= s.cursor && FeedAgrees(env, s, n)
    ensures var d := Drain(env, s, Plains(n), last);
            && !d.cancelled && d.last == (if n == 0 then last else Some(s.cursor + n - 1))
            && d.state.up == s.up && d.state.cell == s.cell && d.state.cursor == s.cursor + n
            && d.state.written == map[]
            && d.state.feed == F.SteppedTo(s.feed, s.feed.next + n)
    decreases n
  {
    if n == 0 {
      assert Drain(env, s, [], last) == Drained(s, last, false);
      assert F.SteppedTo(s.feed, s.feed.next) == s.feed;
    } else {
      PlainTurn(env, s, n, last);
      PlainAccept(env, s, n);
      PlainDrain(env, Accept(s, env.content(s.cursor), env.content(s.cursor)), n - 1, Some(s.cursor));
    }
  }

  /** A tick of n plain attempts in which no write fails. */
  function PlainTick(n: nat, snapshot: Option<nat>, syncLowers: bool): Tick {
    Tick(Plains(n), false, [], snapshot, 1, 1, S.Succeeds, syncLowers, 1, S.Succeeds, false)
  }

  function Sends(number: nat, msg: F.Msg): Event {
    Meanwhile([FeedReads([F.Item(number, msg)])])
  }

  lemma SentArrives(env: Env, s: Nitro, number: nat, msg: F.Msg)
    requires s.up && s.feed.next <= number && number !in s.feed.cache
    ensures var s' := Step(env, s, Sends(number, msg));
            s' == s.(heard := s'.heard, feed := F.Feed(s.feed.next, s.feed.cache[number := msg]))
  {
    var items := [F.Item(number, msg)];
    assert items[1..] == [];
    assert F.ReceivedAll(s.feed, items) == F.Received(s.feed, items[0]);
    assert [FeedReads(items)][1..] == [];
    assert InBackground(env, s, [FeedReads(items)]) == OneInBackground(env, s, FeedReads(items));
  }

  /** What matters of the state at one moment of the run. */
  datatype Moment = Moment(cursor: nat, stored: nat, feed: F.Feed)

  ghost predicate At(s: Nitro, m: Moment) {
    s.up && s.written == map[] && s.cursor == m.cursor && s.cell.mem.l2 == m.stored && s.feed == m.feed
  }

  /** The tick verifies 1 to 4 and stores 4, but finality at 1 takes the cursor back to 2. */
  lemma TickLowersTheCursor(env: Env, s: Nitro)
    requires At(s, Moment(1, 0, F.Feed(0, s.feed.cache))) && FeedAgrees(env, s, 4)
    ensures var s' := VerifyAndAdvance(env, s, PlainTick(4, Some(1), true)).0;
            At(s', Moment(2, 4, F.SteppedTo(F.SteppedTo(s.feed, 4), 2)))
  {
    PlainDrain(env, s, 4, None);
  }

  function Start(): Nitro {
    Init(S.State(0, 1, 1), 0)
  }

  ghost predicate NoReboot(events: seq<Event>) {
    forall i :: 0 <= i < |events| ==> !events[i].Reboots?
  }

  lemma {:induction false} OneMoreEvent(env: Env, events: seq<Event>, e: Event) returns (more: seq<Event>)
    requires NoReboot(events) && !e.Reboots?
    ensures NoReboot(more) && Run(env, Start(), more) == Step(env, Run(env, Start(), events), e)
  {
    more := events + [e];
    assert more[..|events|] == events;
  }

  lemma {:induction false} FourArrive(env: Env) returns (events: seq<Event>)
    ensures NoReboot(events)
    ensures At(Run(env, Start(), events), Moment(1, 0, F.Feed(0, map[
              1 := env.content(1), 2 := env.content(2), 3 := env.content(3), 4 := env.content(4)])))
  {
    events := [];
    SentArrives(env, Run(env, Start(), events), 1, env.content(1));
    events := OneMoreEvent(env, events, Sends(1, env.content(1)));
    SentArrives(env, Run(env, Start(), events), 2, env.content(2));
    events := OneMoreEvent(env, events, Sends(2, env.content(2)));
    SentArrives(env, Run(env, Start(), events), 3, env.content(3));
    events := OneMoreEvent(env, events, Sends(3, env.content(3)));
    SentArrives(env, Run(env, Start(), events), 4, env.content(4));
    events := OneMoreEvent(env, events, Sends(4, env.content(4)));
  }

  lemma {:induction false} ThreeChanges(env: Env, before: seq<Event>, other: F.Msg) returns (events: seq<Event>)
    requires NoReboot(before) && At(Run(env, Start(), before), Moment(2, 4, F.Feed(2, map[4 := env.content(4)])))
    ensures NoReboot(events)
    ensures At(Run(env, Start(), events), Moment(2, 4, F.Feed(2, map[
              4 := env.content(4), 2 := env.content(2), 3 := other])))
  {
    SentArrives(env, Run(env, Start(), before), 2, env.content(2));
    events := OneMoreEvent(env, before, Sends(2, env.content(2)));
    SentArrives(env, Run(env, Start(), events), 3, other);
    events := OneMoreEvent(env, events, Sends(3, other));
  }

  lemma FourthIsLeft(env: Env, feed: F.Feed)
    requires feed == F.Feed(0, map[1 := env.content(1), 2 := env.content(2), 3 := env.content(3), 4 := env.content(4)])
    ensures F.SteppedTo(F.SteppedTo(feed, 4), 2) == F.Feed(2, map[4 := env.content(4)])
  {
  }

  lemma {:induction false} RunUntilBlocked(env: Env, other: F.Msg) returns (events: seq<Event>)
    requires forall k :: 1 <= k <= 4 ==> env.content(k).l2msg != []
    ensures NoReboot(events)
    ensures At(Run(env, Start(), events), Moment(2, 4, F.Feed(2, map[
              4 := env.content(4), 2 := env.content(2), 3 := other])))
  {
    var four := FourArrive(env);
    TickLowersTheCursor(env, Run(env, Start(), four));
    FourthIsLeft(env, Run(env, Start(), four).feed);
    var lowered := OneMoreEvent(env, four, Ticks(PlainTick(4, Some(1), true)));
    events := ThreeChanges(env, lowered, other);
  }

  lemma ReadyToCatchUp(env: Env, s: Nitro, other: F.Msg)
    requires At(s, Moment(2, 4, F.Feed(2, map[4 := env.content(4), 2 := env.content(2), 3 := other])))
    requires other != env.content(3) && env.content(2).l2msg != [] && env.content(3).l2msg != []
    ensures Blocked(env, s, 3) && CatchesUp(env, s, PlainTick(1, None, false))
  {
    PlainDrain(env, s, 1, None);
  }

  /**
    Catching up does pass a mismatch.  The feed sends messages 1 to 4 and a tick verifies and stores
    them, while finality at 1 lowers the cursor to 2; then the feed sends 2 once more and another
    message for 3.  The next tick verifies 2, finds 4 stored, and moves to 5, with no jump to 3 or beyond.
  */
  lemma {:induction false} CatchingUpPassesAMismatch(env: Env, other: F.Msg) returns (before: seq<Event>, t: Tick)
    requires other != env.content(3) && forall k :: 1 <= k <= 4 ==> env.content(k).l2msg != []
    ensures forall i :: 0 <= i < |before| ==> !before[i].Reboots?
    ensures var s := Run(env, Init(S.State(0, 1, 1), 0), before);
            var s' := VerifyAndAdvance(env, s, t).0;
            && Sound(s) && s.up && Blocked(env, s, 3)
            && s'.cursor > 3 && !JumpedPast(s.log, s'.log, 3) && NoMatchAt(s.log, s'.log, 3)
  {
    before := RunUntilBlocked(env, other);
    t := PlainTick(1, None, false);
    var s := Run(env, Start(), before);
    RunKeeps(env, S.State(0, 1, 1), 0, before);
    ReadyToCatchUp(env, s, other);
    TickPassesIff(env, s, t, 3);
    TickStuck(env, s, t, 3);
  }
}
