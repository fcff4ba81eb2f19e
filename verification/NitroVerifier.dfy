/**
  The Nitro verifier (verifier/nitro/nitro_verifier.go).  A tick drains the Espresso streamer against
  the sequencer feed, then syncs with Nitro finality, then writes the store.  Meanwhile the feed and
  the delayed-message poller run on.

  The streamer is a cursor over the messages Espresso finalized.  Two things about it are left open, so
  that the results hold either way: whether `AdvanceTo` may lower the cursor, and whether `Peek` hands
  out the streamer's own buffer, so that a payload written into a peeked message is still there when
  the message is peeked again.
*/
module NitroVerifier {
  import opened Common
  import S = Store
  import F = Feed
  import D = DelayedFetcher

  /** What Espresso finalized at each position and at which HotShot height, and the fetcher's parameters. */
  datatype Env = Env(content: nat -> F.Msg, height: nat -> nat, fetch: D.Params)

  /** What the other goroutines do: the feed reader and the delayed-message poller. */
  datatype Background = FeedReads(items: seq<F.Item>) | PollerActs(action: D.Action)

  /**
    One turn of the drain loop: what happens before it, whether a message is available, whether a
    payload written earlier shows, and what L1 and the poller do if a delayed message is fetched.
  */
  datatype Attempt =
    | Cancelled
    | Try(before: seq<Background>, available: bool, reread: bool, during: seq<D.Action>, probe: D.Probe)

  datatype Tick = Tick(
    script: seq<Attempt>, cancelled: bool, mid: seq<Background>,
    snapshot: Option<nat>, syncHeight: nat, syncNow: nat, syncIo: S.Io, syncLowers: bool,
    now: nat, io: S.Io, lowers: bool)

  datatype Outcome = TickCancelled | SyncFailed | NothingVerified | NotGreater | WriteFailed | Advanced | Crashed

  /** What moved the verifier, in order. */
  datatype Evidence =
    | Started(l2: nat)
    | Fetched(pos: nat, index: nat, data: Bytes, probe: D.Probe)
    | Matched(pos: nat, msg: F.Msg, feedMsg: F.Msg)
    | Jumped(finalized: nat)

  /** `written` are the payloads put into peeked messages; `heard` is everything the feed ever sent. */
  datatype Nitro = Nitro(
    up: bool, cell: S.Cell, cursor: nat, written: map<nat, Bytes>,
    feed: F.Feed, fetcher: D.Fetcher, log: seq<Evidence>, heard: set<F.Item>)

  // ---------------------------------------------------------------- a tick

  function OneInBackground(env: Env, s: Nitro, b: Background): Nitro {
    match b
    case FeedReads(items) => s.(feed := F.ReceivedAll(s.feed, items), heard := s.heard + set i | i in items)
    case PollerActs(a) => s.(fetcher := D.Act(env.fetch, s.fetcher, a))
  }

  function InBackground(env: Env, s: Nitro, bs: seq<Background>): Nitro
    decreases |bs|
  {
    if bs == [] then s else InBackground(env, OneInBackground(env, s, bs[0]), bs[1..])
  }

  /** What `Peek` returns at the cursor. */
  function Peeked(env: Env, s: Nitro, reread: bool): F.Msg {
    var msg := env.content(s.cursor);
    if reread && s.cursor in s.written then msg.(l2msg := s.written[s.cursor]) else msg
  }

  /** `verifyDelayedMessage`: the payload comes from L1 and is written into the peeked message. */
  function FetchPayload(env: Env, s: Nitro, msg: F.Msg, during: seq<D.Action>, probe: D.Probe): (Nitro, Option<F.Msg>)
    requires msg.delayedRead > 0
  {
    var index := msg.delayedRead - 1;
    var (fetcher, reply) := D.GetDelayed(env.fetch, s.fetcher, index, during, probe);
    if !reply.Data? then (s.(fetcher := fetcher), None)
    else (s.(fetcher := fetcher, written := s.written[s.cursor := reply.data],
             log := s.log + [Fetched(s.cursor, index, reply.data, probe)]),
          Some(msg.(l2msg := reply.data)))
  }

  /** `verifyMessage`, giving the message that was compared equal to the feed's. */
  function Verify(env: Env, s: Nitro, msg: F.Msg, feedMsg: F.Msg, during: seq<D.Action>, probe: D.Probe)
    : (Nitro, Option<F.Msg>)
  {
    if msg.l2msg != [] then (s, if msg == feedMsg then Some(msg) else None)
    else if msg.delayedRead != feedMsg.delayedRead || msg.delayedRead == 0 then (s, None)
    else
      var (s', filled) := FetchPayload(env, s, msg, during, probe);
      (s', if filled == Some(feedMsg) then filled else None)
  }

  /** After a match all three cursors move; the pruned index wraps around when nothing delayed was read. */
  function Accept(s: Nitro, msg: F.Msg, feedMsg: F.Msg): Nitro {
    s.(cursor := s.cursor + 1,
       feed := F.Stepped(s.feed),
       fetcher := D.Prune(s.fetcher, D.PruneIndex(msg.delayedRead)),
       log := s.log + [Matched(s.cursor, msg, feedMsg)])
  }

  /** One turn of the drain loop, and whether it verified the message at the cursor. */
  function Turn(env: Env, s: Nitro, a: Attempt): (Nitro, bool)
    requires a.Try?
  {
    var s0 := InBackground(env, s, a.before);
    if !a.available || s0.cursor !in s0.feed.cache then (s0, false)
    else
      var feedMsg := s0.feed.cache[s0.cursor];
      var (s1, matched) := Verify(env, s0, Peeked(env, s0, a.reread), feedMsg, a.during, a.probe);
      if matched.None? then (s1, false) else (Accept(s1, matched.value, feedMsg), true)
  }

  /** `last` is the position of the last verified message. */
  datatype Drained = Drained(state: Nitro, last: Option<nat>, cancelled: bool)

  function Drain(env: Env, s: Nitro, script: seq<Attempt>, last: Option<nat>): Drained
    decreases |script|
  {
    if script == [] then Drained(s, last, false)
    else if script[0].Cancelled? then Drained(s, None, true)
    else
      var (s', verified) := Turn(env, s, script[0]);
      if verified then Drain(env, s', script[1..], Some(s'.cursor - 1))
      else Drained(s', last, false)
  }

  lemma DrainUnfolds(env: Env, s: Nitro, a: Attempt, rest: seq<Attempt>, last: Option<nat>)
    requires a.Try?
    ensures var (s', verified) := Turn(env, s, a);
            Drain(env, s, [a] + rest, last) ==
            if verified then Drain(env, s', rest, Some(s'.cursor - 1)) else Drained(s', last, false)
  {
    assert ([a] + rest)[1..] == rest;
  }

  function AdvanceTo(s: Nitro, pos: nat, lowers: bool): Nitro {
    s.(cursor := if pos >= s.cursor || lowers then pos else s.cursor, feed := F.SteppedTo(s.feed, pos))
  }

  function Finalized(snapshot: Option<nat>): nat {
    if snapshot.Some? then snapshot.value else 0
  }

  function Sync(s: Nitro, t: Tick): (Nitro, S.Verdict) {
    var n := Finalized(t.snapshot);
    if n <= s.cell.mem.l2 then (s, S.NotGreater)
    else
      var (cell, v) := S.Update(s.cell, S.State(n, t.syncHeight, t.syncNow), t.syncIo);
      match v
      case Updated => (AdvanceTo(s.(cell := cell, log := s.log + [Jumped(n)]), n + 1, t.syncLowers), v)
      case Crashed => (s.(up := false, cell := cell, log := s.log + [Jumped(n)]), v)
      case _ => (s, v)
  }

  /** The store write for the last verified position. */
  function Settle(env: Env, s: Nitro, last: Option<nat>, t: Tick): (Nitro, Outcome) {
    if last.None? then (s, NothingVerified)
    else
      var (cell, v) := S.Update(s.cell, S.State(last.value, env.height(last.value), t.now), t.io);
      match v
      case Updated => (s.(cell := cell), Advanced)
      case WriteFailed => (s, WriteFailed)
      case Crashed => (s.(up := false, cell := cell), Crashed)
      case NotGreater => (AdvanceTo(s, s.cell.mem.l2 + 1, t.lowers), NotGreater)
  }

  function VerifyAndAdvance(env: Env, s: Nitro, t: Tick): (Nitro, Outcome) {
    var d := Drain(env, s, t.script, None);
    if d.cancelled || t.cancelled then (d.state, TickCancelled)
    else
      var (s1, v) := Sync(InBackground(env, d.state, t.mid), t);
      if v.WriteFailed? then (s1, SyncFailed)
      else if v.Crashed? then (s1, Crashed)
      else Settle(env, s1, d.last, t)
  }

  // ---------------------------------------------------------------- runs

  datatype Event = Ticks(tick: Tick) | Meanwhile(background: seq<Background>) | Reboots(l1Finalized: nat)

  function Boot(file: S.State, l1Finalized: nat, log: seq<Evidence>, heard: set<F.Item>): Nitro {
    Nitro(true, S.Cell(file, file), file.l2 + 1, map[], F.New(file.l2), D.New(l1Finalized),
          log + [Started(file.l2)], heard)
  }

  function Init(file: S.State, l1Finalized: nat): Nitro {
    Boot(file, l1Finalized, [], {})
  }

  function Step(env: Env, s: Nitro, e: Event): Nitro {
    match e
    case Ticks(t) => if s.up then VerifyAndAdvance(env, s, t).0 else s
    case Meanwhile(bs) => if s.up then InBackground(env, s, bs) else s
    case Reboots(f) => if S.Loadable(s.cell.file) then Boot(s.cell.file, f, s.log, s.heard) else s.(up := false)
  }

  function Run(env: Env, s: Nitro, events: seq<Event>): Nitro {
    if events == [] then s else Step(env, Run(env, s, events[..|events| - 1]), events[|events| - 1])
  }

  // ---------------------------------------------------------------- coverage

  predicate Settles(e: Evidence, n: nat) {
    match e
    case Matched(p, msg, feedMsg) => p == n && msg == feedMsg
    case Jumped(f) => n <= f
    case _ => false
  }

  /** Position n is at or below the first start, was verified equal to the feed, or is final on Nitro. */
  ghost predicate Settled(log: seq<Evidence>, n: nat)
    requires log != []
  {
    (log[0].Started? && n <= log[0].l2) || exists i :: 0 <= i < |log| && Settles(log[i], n)
  }

  ghost predicate SettledBelow(log: seq<Evidence>, top: nat)
    requires log != []
  {
    forall n: nat :: n < top ==> Settled(log, n)
  }

  lemma SettledGrows(log: seq<Evidence>, log': seq<Evidence>, n: nat)
    requires log != [] && log <= log' && Settled(log, n)
    ensures Settled(log', n)
  {
  }

  lemma SettledBelowGrows(log: seq<Evidence>, log': seq<Evidence>, top: nat)
    requires log != [] && log <= log' && SettledBelow(log, top)
    ensures SettledBelow(log', top)
  {
    forall n: nat | n < top ensures Settled(log', n) {
      SettledGrows(log, log', n);
    }
  }

  lemma EvidenceSettles(log: seq<Evidence>, e: Evidence, n: nat)
    requires log != [] && Settles(e, n)
    ensures Settled(log + [e], n)
  {
    assert Settles((log + [e])[|log|], n);
  }

  /** Cursors and store: all below the streamer cursor and up to the stored number is settled. */
  ghost predicate Covered(s: Nitro) {
    && s.log != [] && s.log[0].Started?
    && s.cell.mem.l2 <= s.cell.file.l2
    && SettledBelow(s.log, s.cell.file.l2 + 1)
    && (s.up ==> s.cell.mem == s.cell.file && SettledBelow(s.log, s.cursor))
  }

  /** The feed cursor never passes the streamer's, and everything cached is at or above it. */
  ghost predicate FeedOk(s: Nitro) {
    s.up ==> s.feed.next <= s.cursor && F.Valid(s.feed)
  }

  /** From s to s' a cached feed message stays as it is until its position is settled. */
  ghost predicate FeedSafe(s: Nitro, s': Nitro)
    requires s'.log != []
  {
    forall k :: k in s.feed.cache ==>
      (k in s'.feed.cache && s'.feed.cache[k] == s.feed.cache[k]) || Settled(s'.log, k)
  }

  /** The log and the cached feed messages move forward together. */
  ghost predicate Forward(s: Nitro, s': Nitro) {
    s.log != [] && s.log <= s'.log && FeedSafe(s, s')
  }

  lemma ForwardChains(a: Nitro, b: Nitro, c: Nitro)
    requires Forward(a, b) && Forward(b, c)
    ensures Forward(a, c)
  {
  }

  ghost predicate Sound(s: Nitro) {
    Covered(s) && FeedOk(s)
  }

  lemma {:induction false} BackgroundKeeps(env: Env, s: Nitro, bs: seq<Background>)
    requires s.log != [] && FeedOk(s) && s.up
    ensures var s' := InBackground(env, s, bs);
            && FeedOk(s') && Forward(s, s')
            && F.Keeps(s.feed, s'.feed) && s'.feed.next == s.feed.next
            && s' == s.(feed := s'.feed, fetcher := s'.fetcher, heard := s'.heard)
    decreases |bs|
  {
    if bs == [] {
    } else {
      var s1 := OneInBackground(env, s, bs[0]);
      if bs[0].FeedReads? {
        F.ArrivalsKeepTheCache(s.feed, bs[0].items);
      }
      BackgroundKeeps(env, s1, bs[1..]);
    }
  }

  lemma AcceptKeeps(s: Nitro, msg: F.Msg, feedMsg: F.Msg)
    requires Sound(s) && s.up && msg == feedMsg
    ensures Sound(Accept(s, msg, feedMsg)) && Forward(s, Accept(s, msg, feedMsg))
  {
    var s' := Accept(s, msg, feedMsg);
    SettledBelowGrows(s.log, s'.log, s.cell.file.l2 + 1);
    SettledBelowGrows(s.log, s'.log, s.cursor);
    EvidenceSettles(s.log, Matched(s.cursor, msg, feedMsg), s.cursor);
  }

  lemma VerifyKeeps(env: Env, s: Nitro, msg: F.Msg, feedMsg: F.Msg, during: seq<D.Action>, probe: D.Probe)
    requires Sound(s) && s.up
    ensures var (s', matched) := Verify(env, s, msg, feedMsg, during, probe);
            && Sound(s') && s'.up && Forward(s, s')
            && s' == s.(written := s'.written, fetcher := s'.fetcher, log := s'.log)
            && (matched.Some? ==> matched.value == feedMsg)
  {
    var (s', _) := Verify(env, s, msg, feedMsg, during, probe);
    SettledBelowGrows(s.log, s'.log, s.cell.file.l2 + 1);
    SettledBelowGrows(s.log, s'.log, s.cursor);
  }

  lemma TurnKeeps(env: Env, s: Nitro, a: Attempt)
    requires Sound(s) && s.up && a.Try?
    ensures var (s', verified) := Turn(env, s, a);
            && Sound(s') && s'.up && Forward(s, s') && s'.cell == s.cell
            && s'.cursor == if verified then s.cursor + 1 else s.cursor
  {
    var s0 := InBackground(env, s, a.before);
    BackgroundKeeps(env, s, a.before);
    if a.available && s0.cursor in s0.feed.cache {
      var feedMsg := s0.feed.cache[s0.cursor];
      VerifyKeeps(env, s0, Peeked(env, s0, a.reread), feedMsg, a.during, a.probe);
      var (s1, matched) := Verify(env, s0, Peeked(env, s0, a.reread), feedMsg, a.during, a.probe);
      ForwardChains(s, s0, s1);
      if matched.Some? {
        AcceptKeeps(s1, matched.value, feedMsg);
        ForwardChains(s, s1, Accept(s1, matched.value, feedMsg));
      }
    }
  }

  /** From s to s' the process stays sound and up and loses no evidence and no cached message. */
  ghost predicate Carried(s: Nitro, s': Nitro) {
    Sound(s') && s'.up && Forward(s, s') && s'.cell == s.cell
  }

  lemma CarriedChains(a: Nitro, b: Nitro, c: Nitro)
    requires Carried(a, b) && Carried(b, c)
    ensures Carried(a, c)
  {
    ForwardChains(a, b, c);
  }

  lemma {:induction false} DrainKeeps(env: Env, s: Nitro, script: seq<Attempt>, last: Option<nat>)
    requires Sound(s) && s.up
    requires last.Some? ==> last.value + 1 == s.cursor
    ensures var d := Drain(env, s, script, last);
            Carried(s, d.state) && (d.last.Some? ==> d.last.value + 1 == d.state.cursor && !d.cancelled)
    decreases |script|
  {
    if script == [] || script[0].Cancelled? {
      assert Carried(s, s);
    } else {
      TurnKeeps(env, s, script[0]);
      var (s', verified) := Turn(env, s, script[0]);
      assert Carried(s, s');
      if verified {
        DrainKeeps(env, s', script[1..], Some(s'.cursor - 1));
        CarriedChains(s, s', Drain(env, s', script[1..], Some(s'.cursor - 1)).state);
      }
    }
  }

  /** Moving to a position below which everything is settled loses nothing. */
  lemma AdvanceToKeeps(s: Nitro, pos: nat, lowers: bool)
    requires Sound(s) && s.up && SettledBelow(s.log, pos)
    ensures Sound(AdvanceTo(s, pos, lowers)) && Forward(s, AdvanceTo(s, pos, lowers))
  {
  }

  lemma SyncKeeps(s: Nitro, t: Tick)
    requires Sound(s) && s.up
    ensures var (s', v) := Sync(s, t);
            && Sound(s') && Forward(s, s') && (s'.up <==> !v.Crashed?)
  {
    var n := Finalized(t.snapshot);
    var log' := s.log + [Jumped(n)];
    SettledBelowGrows(s.log, log', s.cursor);
    SettledBelowGrows(s.log, log', s.cell.file.l2 + 1);
    forall m: nat | m <= n ensures Settled(log', m) {
      EvidenceSettles(s.log, Jumped(n), m);
    }
    var (cell, v) := S.Update(s.cell, S.State(n, t.syncHeight, t.syncNow), t.syncIo);
    if n > s.cell.mem.l2 && v.Updated? {
      var jumped := s.(cell := cell, log := log');
      assert Sound(jumped) && Forward(s, jumped);
      AdvanceToKeeps(jumped, n + 1, t.syncLowers);
      ForwardChains(s, jumped, AdvanceTo(jumped, n + 1, t.syncLowers));
    }
  }

  lemma SettleKeeps(env: Env, s: Nitro, last: Option<nat>, t: Tick)
    requires Sound(s) && s.up
    requires last.Some? ==> SettledBelow(s.log, last.value + 1)
    ensures Sound(Settle(env, s, last, t).0) && Forward(s, Settle(env, s, last, t).0)
  {
  }

  lemma TickKeeps(env: Env, s: Nitro, t: Tick)
    requires Sound(s) && s.up
    ensures Sound(VerifyAndAdvance(env, s, t).0) && Forward(s, VerifyAndAdvance(env, s, t).0)
  {
    var d := Drain(env, s, t.script, None);
    DrainKeeps(env, s, t.script, None);
    var s1 := InBackground(env, d.state, t.mid);
    BackgroundKeeps(env, d.state, t.mid);
    SyncKeeps(s1, t);
    var (s2, v) := Sync(s1, t);
    ForwardChains(s, d.state, s1);
    ForwardChains(s, s1, s2);
    if d.last.Some? {
      SettledBelowGrows(d.state.log, s2.log, d.last.value + 1);
    }
    if !v.WriteFailed? && !v.Crashed? {
      SettleKeeps(env, s2, d.last, t);
      ForwardChains(s, s2, Settle(env, s2, d.last, t).0);
    }
  }

  lemma StepKeeps(env: Env, s: Nitro, e: Event)
    requires Sound(s)
    ensures Sound(Step(env, s, e)) && s.log <= Step(env, s, e).log
    ensures !e.Reboots? ==> Forward(s, Step(env, s, e))
  {
    match e
    case Ticks(t) =>
      if s.up {
        TickKeeps(env, s, t);
      }
    case Meanwhile(bs) =>
      if s.up {
        BackgroundKeeps(env, s, bs);
      }
    case Reboots(f) =>
      SettledBelowGrows(s.log, s.log + [Started(s.cell.file.l2)], s.cell.file.l2 + 1);
  }

  lemma {:induction false} RunKeeps(env: Env, file: S.State, l1Finalized: nat, events: seq<Event>)
    ensures Sound(Run(env, Init(file, l1Finalized), events))
    ensures Run(env, Init(file, l1Finalized), events).log[0] == Started(file.l2)
  {
    if events == [] {
    } else {
      var n := |events| - 1;
      RunKeeps(env, file, l1Finalized, events[..n]);
      StepKeeps(env, Run(env, Init(file, l1Finalized), events[..n]), events[n]);
    }
  }

  /** In every run the feed cursor never passes the streamer's, and every cached key is at or above it. */
  lemma FeedCursorStaysBehind(env: Env, file: S.State, l1Finalized: nat, events: seq<Event>)
    ensures var s := Run(env, Init(file, l1Finalized), events);
            s.up ==> s.feed.next <= s.cursor && forall k :: k in s.feed.cache ==> s.feed.next <= k
  {
    RunKeeps(env, file, l1Finalized, events);
  }

  /** Within a process a cached feed message is neither replaced nor dropped before its position is settled. */
  lemma CachedMessagesWaitToBeSettled(env: Env, file: S.State, l1Finalized: nat, events: seq<Event>, e: Event, k: nat)
    requires !e.Reboots?
    requires k in Run(env, Init(file, l1Finalized), events).feed.cache
    ensures var s := Run(env, Init(file, l1Finalized), events);
            var s' := Step(env, s, e);
            s'.log != [] &&
            ((k in s'.feed.cache && s'.feed.cache[k] == s.feed.cache[k]) || Settled(s'.log, k))
  {
    RunKeeps(env, file, l1Finalized, events);
    StepKeeps(env, Run(env, Init(file, l1Finalized), events), e);
  }

  // ---------------------------------------------------------------- the stored number

  /** Memory and file of s' hold numbers at least as high as those of s. */
  ghost predicate NotLower(s: Nitro, s': Nitro) {
    s.cell.mem.l2 <= s'.cell.mem.l2 && s.cell.file.l2 <= s'.cell.file.l2
  }

  lemma SyncNeverLowers(s: Nitro, t: Tick)
    requires s.cell.mem == s.cell.file
    ensures NotLower(s, Sync(s, t).0)
  {
  }

  lemma SettleNeverLowers(env: Env, s: Nitro, last: Option<nat>, t: Tick)
    requires s.cell.mem == s.cell.file
    ensures NotLower(s, Settle(env, s, last, t).0)
  {
  }

  lemma TickNeverLowers(env: Env, s: Nitro, t: Tick)
    requires Sound(s) && s.up
    ensures NotLower(s, VerifyAndAdvance(env, s, t).0)
  {
    var d := Drain(env, s, t.script, None);
    DrainKeeps(env, s, t.script, None);
    var s1 := InBackground(env, d.state, t.mid);
    BackgroundKeeps(env, d.state, t.mid);
    SyncKeeps(s1, t);
    SyncNeverLowers(s1, t);
    var (s2, v) := Sync(s1, t);
    if !v.WriteFailed? && !v.Crashed? {
      SettleNeverLowers(env, s2, d.last, t);
    }
  }

  lemma StepNeverLowers(env: Env, s: Nitro, e: Event)
    requires Sound(s)
    ensures NotLower(s, Step(env, s, e))
  {
    if s.up {
      match e
      case Ticks(t) => TickNeverLowers(env, s, t);
      case Meanwhile(bs) => BackgroundKeeps(env, s, bs);
      case Reboots(_) =>
    }
  }

  /** The stored number never moves backwards between any two points of any run, restarts included. */
  lemma {:induction false} StoredNumberNeverDecreases(
      env: Env, file: S.State, l1Finalized: nat, events: seq<Event>, i: nat, j: nat)
    requires i <= j <= |events|
    ensures NotLower(Run(env, Init(file, l1Finalized), events[..i]), Run(env, Init(file, l1Finalized), events[..j]))
    decreases j
  {
    if i < j {
      assert events[..j][..j - 1] == events[..j - 1];
      StoredNumberNeverDecreases(env, file, l1Finalized, events, i, j - 1);
      RunKeeps(env, file, l1Finalized, events[..j - 1]);
      StepNeverLowers(env, Run(env, Init(file, l1Finalized), events[..j - 1]), events[j - 1]);
    }
  }

  // ---------------------------------------------------------------- what a tick leaves behind

  /** A tick that ends without error or cancellation leaves the maximum of what it knew. */
  lemma TickComputesMaximum(env: Env, s: Nitro, t: Tick)
    requires Sound(s) && s.up
    requires VerifyAndAdvance(env, s, t).1 in {NothingVerified, NotGreater, Advanced}
    ensures var last := Drain(env, s, t.script, None).last;
            VerifyAndAdvance(env, s, t).0.cell.mem.l2 ==
            Max(Max(s.cell.mem.l2, Finalized(t.snapshot)), if last.Some? then last.value else 0)
  {
    var d := Drain(env, s, t.script, None);
    DrainKeeps(env, s, t.script, None);
    BackgroundKeeps(env, d.state, t.mid);
  }

  /**
    The cursor is not always right behind the stored number: after a tick that stored what it verified it
    is exactly when finality did not move the store first or the streamer's cursor cannot be lowered.
  */
  lemma CursorFollowsStoreIff(env: Env, s: Nitro, t: Tick)
    requires Sound(s) && s.up && VerifyAndAdvance(env, s, t).1 == Advanced
    ensures var s' := VerifyAndAdvance(env, s, t).0;
            s'.cursor == s'.cell.mem.l2 + 1 <==> Finalized(t.snapshot) <= s.cell.mem.l2 || !t.syncLowers
  {
    var d := Drain(env, s, t.script, None);
    DrainKeeps(env, s, t.script, None);
    BackgroundKeeps(env, d.state, t.mid);
  }

  // ---------------------------------------------------------------- where verified data comes from

  /** L1 vouched for this payload of the message at p, at some attempt on it. */
  ghost predicate HasFetched(log: seq<Evidence>, p: nat, data: Bytes) {
    exists j :: 0 <= j < |log| && log[j].Fetched? && log[j].pos == p && log[j].data == data
  }

  /**
    A match is between Espresso's message and one the feed sent for that position.  If Espresso's came
    without payload, the payload is one L1 vouched for, for the index its delayed count names.
  */
  ghost predicate EntryOk(env: Env, heard: set<F.Item>, before: seq<Evidence>, e: Evidence) {
    match e
    case Matched(p, msg, feedMsg) =>
      && F.Item(p, feedMsg) in heard
      && msg == feedMsg
      && msg == env.content(p).(l2msg := msg.l2msg)
      && (if env.content(p).l2msg == [] then HasFetched(before, p, msg.l2msg) else msg == env.content(p))
    case Fetched(p, index, data, probe) =>
      env.content(p).delayedRead == index + 1 && D.Vouched(env.fetch, index, data, probe)
    case _ => true
  }

  ghost predicate AllHeard(f: F.Feed, heard: set<F.Item>) {
    forall k :: k in f.cache ==> F.Item(k, f.cache[k]) in heard
  }

  ghost predicate DataOk(env: Env, s: Nitro) {
    && D.KeysAreIndices(s.fetcher)
    && AllHeard(s.feed, s.heard)
    && (forall p :: p in s.written ==> env.content(p).l2msg == [] && HasFetched(s.log, p, s.written[p]))
    && (forall i :: 0 <= i < |s.log| ==> EntryOk(env, s.heard, s.log[..i], s.log[i]))
  }

  lemma HasFetchedGrows(log: seq<Evidence>, log': seq<Evidence>, p: nat, data: Bytes)
    requires log <= log' && HasFetched(log, p, data)
    ensures HasFetched(log', p, data)
  {
  }

  /** Growing the log by entries that are in order keeps the data in order. */
  lemma LoggingKeepsData(env: Env, s: Nitro, e: Evidence)
    requires DataOk(env, s) && EntryOk(env, s.heard, s.log, e)
    ensures DataOk(env, s.(log := s.log + [e]))
  {
    var log' := s.log + [e];
    forall p | p in s.written ensures HasFetched(log', p, s.written[p]) {
      HasFetchedGrows(s.log, log', p, s.written[p]);
    }
    forall i | 0 <= i < |log'| ensures EntryOk(env, s.heard, log'[..i], log'[i]) {
      assert log'[..i] == s.log[..i];
    }
  }

  lemma {:induction false} ArrivalsAreHeard(f: F.Feed, items: seq<F.Item>, heard: set<F.Item>)
    requires AllHeard(f, heard) && forall i :: 0 <= i < |items| ==> items[i] in heard
    ensures AllHeard(F.ReceivedAll(f, items), heard)
    decreases |items|
  {
    if items == [] {
    } else {
      if items[0].Item? {
        assert items[0] == F.Item(items[0].number, items[0].msg);
      }
      ArrivalsAreHeard(F.Received(f, items[0]), items[1..], heard);
    }
  }

  lemma {:induction false} BackgroundKeepsData(env: Env, s: Nitro, bs: seq<Background>)
    requires DataOk(env, s)
    ensures DataOk(env, InBackground(env, s, bs))
    decreases |bs|
  {
    if bs == [] {
    } else {
      var s1 := OneInBackground(env, s, bs[0]);
      if bs[0].FeedReads? {
        ArrivalsAreHeard(s.feed, bs[0].items, s1.heard);
        forall i | 0 <= i < |s.log| ensures EntryOk(env, s1.heard, s.log[..i], s.log[i]) {
          assert EntryOk(env, s.heard, s.log[..i], s.log[i]);
        }
      }
      BackgroundKeepsData(env, s1, bs[1..]);
    }
  }

  lemma FetchKeepsData(env: Env, s: Nitro, msg: F.Msg, during: seq<D.Action>, probe: D.Probe)
    requires DataOk(env, s) && env.content(s.cursor).l2msg == []
    requires msg.delayedRead > 0 && msg.delayedRead == env.content(s.cursor).delayedRead
    ensures var (s', filled) := FetchPayload(env, s, msg, during, probe);
            DataOk(env, s') && (filled.Some? ==> HasFetched(s'.log, s.cursor, filled.value.l2msg))
  {
    var index := msg.delayedRead - 1;
    D.DelayedMessageIsVouched(env.fetch, s.fetcher, index, during, probe);
    var (fetcher, reply) := D.GetDelayed(env.fetch, s.fetcher, index, during, probe);
    if reply.Data? {
      var e := Fetched(s.cursor, index, reply.data, probe);
      LoggingKeepsData(env, s.(fetcher := fetcher), e);
      assert (s.log + [e])[|s.log|] == e;
    }
  }

  lemma VerifyKeepsData(env: Env, s: Nitro, reread: bool, feedMsg: F.Msg, during: seq<D.Action>, probe: D.Probe)
    requires DataOk(env, s) && F.Item(s.cursor, feedMsg) in s.heard
    ensures var (s', matched) := Verify(env, s, Peeked(env, s, reread), feedMsg, during, probe);
            && DataOk(env, s')
            && s'.cursor == s.cursor && s'.heard == s.heard
            && (matched.Some? ==> EntryOk(env, s'.heard, s'.log, Matched(s.cursor, matched.value, feedMsg)))
  {
    var msg := Peeked(env, s, reread);
    if msg.l2msg == [] && msg.delayedRead == feedMsg.delayedRead && msg.delayedRead != 0 {
      FetchKeepsData(env, s, msg, during, probe);
    }
  }

  lemma TurnKeepsData(env: Env, s: Nitro, a: Attempt)
    requires DataOk(env, s) && a.Try?
    ensures DataOk(env, Turn(env, s, a).0)
  {
    var s0 := InBackground(env, s, a.before);
    BackgroundKeepsData(env, s, a.before);
    if a.available && s0.cursor in s0.feed.cache {
      var feedMsg := s0.feed.cache[s0.cursor];
      VerifyKeepsData(env, s0, a.reread, feedMsg, a.during, a.probe);
      var (s1, matched) := Verify(env, s0, Peeked(env, s0, a.reread), feedMsg, a.during, a.probe);
      if matched.Some? {
        LoggingKeepsData(env, s1, Matched(s1.cursor, matched.value, feedMsg));
      }
    }
  }

  lemma {:induction false} DrainKeepsData(env: Env, s: Nitro, script: seq<Attempt>, last: Option<nat>)
    requires DataOk(env, s)
    ensures DataOk(env, Drain(env, s, script, last).state)
    decreases |script|
  {
    if script == [] || script[0].Cancelled? {
    } else {
      TurnKeepsData(env, s, script[0]);
      var (s', verified) := Turn(env, s, script[0]);
      if verified {
        DrainKeepsData(env, s', script[1..], Some(s'.cursor - 1));
      }
    }
  }

  /** Store and cursors do not matter to the data, and the feed's cache may shrink. */
  lemma SameData(env: Env, s: Nitro, s': Nitro)
    requires DataOk(env, s)
    requires s' == s.(up := s'.up, cell := s'.cell, cursor := s'.cursor, feed := s'.feed)
    requires F.Keeps(s'.feed, s.feed)
    ensures DataOk(env, s')
  {
  }

  lemma SyncKeepsData(env: Env, s: Nitro, t: Tick)
    requires DataOk(env, s)
    ensures DataOk(env, Sync(s, t).0)
  {
    var s' := Sync(s, t).0;
    LoggingKeepsData(env, s, Jumped(Finalized(t.snapshot)));
    SyncLogs(s, t);
    SameData(env, s.(log := s'.log), s');
  }

  lemma SettleKeepsData(env: Env, s: Nitro, last: Option<nat>, t: Tick)
    requires DataOk(env, s)
    ensures DataOk(env, Settle(env, s, last, t).0)
  {
    SameData(env, s, Settle(env, s, last, t).0);
  }

  lemma TickKeepsData(env: Env, s: Nitro, t: Tick)
    requires DataOk(env, s)
    ensures DataOk(env, VerifyAndAdvance(env, s, t).0)
  {
    var d := Drain(env, s, t.script, None);
    DrainKeepsData(env, s, t.script, None);
    var s1 := InBackground(env, d.state, t.mid);
    BackgroundKeepsData(env, d.state, t.mid);
    SyncKeepsData(env, s1, t);
    SettleKeepsData(env, Sync(s1, t).0, d.last, t);
  }

  lemma {:induction false} RunKeepsData(env: Env, file: S.State, l1Finalized: nat, events: seq<Event>)
    ensures DataOk(env, Run(env, Init(file, l1Finalized), events))
  {
    if events == [] {
    } else {
      var n := |events| - 1;
      var s := Run(env, Init(file, l1Finalized), events[..n]);
      RunKeepsData(env, file, l1Finalized, events[..n]);
      match events[n]
      case Ticks(t) => TickKeepsData(env, s, t);
      case Meanwhile(bs) => BackgroundKeepsData(env, s, bs);
      case Reboots(_) => LoggingKeepsData(env, s, Started(s.cell.file.l2));
    }
  }

  /**
    In every run each match compares Espresso's message with one the feed sent for that position.  A
    delayed message, which comes without payload, is matched only with a payload for which L1 vouched at
    this attempt or an earlier one on the same position: its hash is the one a Bridge event commits to
    for the index the delayed count names, in a finalized block if the verifier waits for finality.
  */
  lemma MatchesAreGenuine(env: Env, file: S.State, l1Finalized: nat, events: seq<Event>, i: nat)
    requires i < |Run(env, Init(file, l1Finalized), events).log|
    requires Run(env, Init(file, l1Finalized), events).log[i].Matched?
    ensures var s := Run(env, Init(file, l1Finalized), events);
            var m := s.log[i];
            && m.msg == m.feedMsg && F.Item(m.pos, m.feedMsg) in s.heard
            && m.msg == env.content(m.pos).(l2msg := m.msg.l2msg)
            && (env.content(m.pos).l2msg != [] ==> m.msg == env.content(m.pos))
            && (env.content(m.pos).l2msg == [] ==>
                  exists j :: 0 <= j < i && s.log[j].Fetched? && s.log[j].pos == m.pos && s.log[j].data == m.msg.l2msg
                    && s.log[j].index + 1 == m.msg.delayedRead
                    && D.Vouched(env.fetch, s.log[j].index, s.log[j].data, s.log[j].probe))
  {
    RunKeepsData(env, file, l1Finalized, events);
    var s := Run(env, Init(file, l1Finalized), events);
    var m := s.log[i];
    assert EntryOk(env, s.heard, s.log[..i], m);
    if env.content(m.pos).l2msg == [] {
      var before := s.log[..i];
      var j :| 0 <= j < |before| && before[j].Fetched? && before[j].pos == m.pos && before[j].data == m.msg.l2msg;
      assert s.log[j] == before[j] && EntryOk(env, s.heard, s.log[..j], s.log[j]);
    }
  }

  // ---------------------------------------------------------------- jumps come from the poller

  /** A turn logs a match only for the position at the cursor. */
  lemma TurnLog(env: Env, s: Nitro, a: Attempt)
    requires Sound(s) && s.up && a.Try?
    ensures var (s', verified) := Turn(env, s, a);
            && s.log <= s'.log
            && forall i :: |s.log| <= i < |s'.log| && s'.log[i].Matched? ==> verified && s'.log[i].pos == s.cursor
  {
    BackgroundKeeps(env, s, a.before);
  }

  lemma {:induction false} DrainLogsNoJump(env: Env, s: Nitro, script: seq<Attempt>, last: Option<nat>)
    requires Sound(s) && s.up
    ensures var log := Drain(env, s, script, last).state.log;
            s.log <= log && forall i :: |s.log| <= i < |log| ==> !log[i].Jumped? && !log[i].Started?
    decreases |script|
  {
    if script == [] || script[0].Cancelled? {
    } else {
      TurnKeeps(env, s, script[0]);
      BackgroundKeeps(env, s, script[0].before);
      var (s', verified) := Turn(env, s, script[0]);
      if verified {
        DrainLogsNoJump(env, s', script[1..], Some(s'.cursor - 1));
      }
    }
  }

  lemma SyncLogs(s: Nitro, t: Tick)
    ensures var log := Sync(s, t).0.log;
            log == s.log || (t.snapshot.Some? && log == s.log + [Jumped(t.snapshot.value)])
  {
  }

  lemma SettleKeepsLog(env: Env, s: Nitro, last: Option<nat>, t: Tick)
    ensures Settle(env, s, last, t).0.log == s.log
  {
  }

  lemma TickLog(env: Env, s: Nitro, t: Tick)
    ensures var d := Drain(env, s, t.script, None);
            VerifyAndAdvance(env, s, t).0.log ==
            if d.cancelled || t.cancelled then d.state.log else Sync(InBackground(env, d.state, t.mid), t).0.log
  {
    var d := Drain(env, s, t.script, None);
    SettleKeepsLog(env, Sync(InBackground(env, d.state, t.mid), t).0, d.last, t);
  }

  /** A jump in the log is to a finalized block the poller reported to that very tick. */
  lemma JumpsArePolled(env: Env, s: Nitro, e: Event, i: nat)
    requires Sound(s) && |s.log| <= i < |Step(env, s, e).log| && Step(env, s, e).log[i].Jumped?
    ensures e.Ticks? && e.tick.snapshot == Some(Step(env, s, e).log[i].finalized)
  {
    if s.up {
      match e
      case Ticks(t) =>
        var d := Drain(env, s, t.script, None);
        DrainLogsNoJump(env, s, t.script, None);
        DrainKeeps(env, s, t.script, None);
        BackgroundKeeps(env, d.state, t.mid);
        var s1 := InBackground(env, d.state, t.mid);
        SyncLogs(s1, t);
        TickLog(env, s, t);
      case Meanwhile(bs) => BackgroundKeeps(env, s, bs);
      case Reboots(_) =>
    }
  }

  /** The event is a tick to which the poller reported this finalized block. */
  predicate Reports(e: Event, finalized: nat) {
    e.Ticks? && e.tick.snapshot == Some(finalized)
  }

  lemma {:induction false} JumpsAreReported(env: Env, file: S.State, l1Finalized: nat, events: seq<Event>, i: nat)
    requires i < |Run(env, Init(file, l1Finalized), events).log|
    requires Run(env, Init(file, l1Finalized), events).log[i].Jumped?
    ensures exists k :: 0 <= k < |events| && Reports(events[k], Run(env, Init(file, l1Finalized), events).log[i].finalized)
  {
    if events == [] {
    } else {
      var n := |events| - 1;
      var s := Run(env, Init(file, l1Finalized), events[..n]);
      RunKeeps(env, file, l1Finalized, events[..n]);
      StepKeeps(env, s, events[n]);
      if i < |s.log| {
        JumpsAreReported(env, file, l1Finalized, events[..n], i);
        var k :| 0 <= k < n && Reports(events[..n][k], s.log[i].finalized);
        assert Reports(events[k], s.log[i].finalized);
      } else {
        JumpsArePolled(env, s, events[n], i);
      }
    }
  }

  /** Position n was matched: Espresso's message against one the feed sent for it. */
  ghost predicate VerifiedAt(env: Env, s: Nitro, n: nat) {
    exists i :: 0 <= i < |s.log| && s.log[i].Matched? && s.log[i].pos == n && EntryOk(env, s.heard, s.log[..i], s.log[i])
  }

  /** The process jumped to a Nitro-finalized block at or above n that a tick was told of. */
  ghost predicate FinalizedAt(s: Nitro, events: seq<Event>, n: nat) {
    exists i, k :: 0 <= i < |s.log| && 0 <= k < |events| && s.log[i].Jumped? && n <= s.log[i].finalized
      && Reports(events[k], s.log[i].finalized)
  }

  /**
    In every run, whether or not the streamer's cursor may be lowered and whether or not a peeked message
    is shared: every position above the first start that lies below the streamer cursor or up to the
    stored number, in memory or on disk, was verified equal to the feed or lies at or below a
    Nitro-finalized block that a tick was told of.
  */
  lemma EveryPositionIsVerifiedOrFinal(env: Env, file: S.State, l1Finalized: nat, events: seq<Event>, n: nat)
    requires file.l2 < n
    requires var s := Run(env, Init(file, l1Finalized), events);
             n <= s.cell.mem.l2 || n <= s.cell.file.l2 || (s.up && n < s.cursor)
    ensures var s := Run(env, Init(file, l1Finalized), events);
            VerifiedAt(env, s, n) || FinalizedAt(s, events, n)
  {
    var s := Run(env, Init(file, l1Finalized), events);
    RunKeeps(env, file, l1Finalized, events);
    assert Settled(s.log, n);
    var i :| 0 <= i < |s.log| && Settles(s.log[i], n);
    if s.log[i].Jumped? {
      JumpsAreReported(env, file, l1Finalized, events, i);
    } else {
      RunKeepsData(env, file, l1Finalized, events);
    }
  }
}
