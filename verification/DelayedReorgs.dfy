/**
  The delayed-message fetcher under L1 reorgs: every interleaving of the poller, the verifier's
  lookups and prunings, and a chain that may replace any block that is not final, also between two
  steps of one poll or of one lookup.
*/
module DelayedReorgs {
  import opened Common
  import opened DelayedFetcher

  datatype L1 = L1(chain: Chain, finalized: nat)

  /** Index and block of an Inbox log that L1 returned. */
  datatype Sighting = Sighting(index: nat, block: nat)

  /**
    `held` is the entry the verifier's goroutine has looked up and not yet decided on, `missing` says
    that L1 no longer had it when asked, and `logs` are the Inbox logs the poll in flight has got.
  */
  datatype World = World(l1: L1, f: Fetcher, held: Option<Entry>, missing: bool, logs: set<Sighting>)

  datatype Move =
    | Reorg(next: L1)
    | Start(latest: nat, finalized: nat)
    | ReadBridge
    | ReadInbox(logs: set<Sighting>)
    | Store(log: InboxLog)
    | Finish(committed: bool)
    | Lookup(index: nat)
    | Check
    | GiveUp
    | Discard(upTo: nat)

  function Boot(l1: L1, finalized: nat): World {
    World(l1, New(finalized), None, false, {})
  }

  function Between(chain: Chain, start: nat, end: nat): Chain {
    map i | i in chain && start <= chain[i].block <= end :: chain[i]
  }

  function Next(p: Params, w: World, m: Move): World {
    match m
    case Reorg(next) => w.(l1 := next)
    case Start(latest, finalized) =>
      if w.f.scan.Some? then w else w.(f := Act(p, w.f, Begin(latest, finalized)), logs := {})
    case ReadBridge =>
      if w.f.scan.None? then w
      else w.(f := Act(p, w.f, Read(Between(w.l1.chain, w.f.scan.value.start, w.f.scan.value.end))))
    case ReadInbox(logs) => if w.f.scan.None? then w else w.(logs := logs)
    case Store(log) => w.(f := Act(p, w.f, Put(log)))
    case Finish(committed) => w.(f := Act(p, w.f, if committed then Commit else Abort))
    case Lookup(index) => w.(held := if index in w.f.cache then Some(w.f.cache[index]) else None, missing := false)
    case Check =>
      if w.held.None? then w
      else if OnChain(p, w.l1.chain, w.held.value) then w.(held := None, missing := false)
      else w.(missing := true)
    case GiveUp =>
      if w.held.Some? && w.missing then w.(f := Rewind(w.f, w.held.value), held := None, missing := false) else w
    case Discard(k) => w.(f := Prune(w.f, k))
  }

  /**
    `GetDelayed` leaves the fetcher as the machine's moves do: the lookup, the poller's actions, and,
    if L1 answers, the check and the rewind.  It replies `NotFound` exactly for an index that is not
    cached or an entry the check does not find.
  */
  lemma GetDelayedIsTheMoves(p: Params, w: World, index: nat, during: seq<Action>, probe: Probe)
    requires probe.chain.Some? ==> probe.chain.value == w.l1.chain
    ensures var looked := Next(p, w, Lookup(index));
            var polled := looked.(f := ActAll(p, looked.f, during));
            var checked := Next(p, polled, Check);
            var (f', reply) := GetDelayed(p, w.f, index, during, probe);
            && f' == (if probe.chain.None? then polled else Next(p, checked, GiveUp)).f
            && (reply.NotFound? <==> polled.held.None? || (probe.chain.Some? && checked.missing))
  {
  }

  function RunMoves(p: Params, w: World, moves: seq<Move>): World {
    if moves == [] then w else Next(p, RunMoves(p, w, moves[..|moves| - 1]), moves[|moves| - 1])
  }

  // ---------------------------------------------------------------- what L1 promises

  /** Message indices grow with the block number. */
  ghost predicate Ordered(chain: Chain) {
    forall i, j :: i in chain && j in chain && i <= j ==> chain[i].block <= chain[j].block
  }

  /** Two chains have the same events up to a block. */
  ghost predicate SameBelow(a: Chain, b: Chain, block: nat) {
    forall i :: (i in a && a[i].block <= block) || (i in b && b[i].block <= block) ==> i in a && i in b && a[i] == b[i]
  }

  /** Finalized blocks never change, and finality only grows. */
  ghost predicate Evolves(a: L1, b: L1) {
    a.finalized <= b.finalized && Ordered(b.chain) && SameBelow(a.chain, b.chain, a.finalized)
  }

  /**
    A reorg respects finality.  The finalized block a poll works with was reported at some time before.
    The Inbox logs that a query returns belong to Bridge events of the chain at that time, and what a
    poll stores are logs of its query, whatever has become of the chain since.
  */
  ghost predicate Allowed(w: World, m: Move) {
    match m
    case Reorg(next) => Evolves(w.l1, next)
    case Start(latest, finalized) => finalized <= w.l1.finalized && latest + 1 < TWO_64
    case ReadInbox(logs) => forall s :: s in logs ==> s.index in w.l1.chain && w.l1.chain[s.index].block == s.block
    case Store(log) => log.InboxLog? ==> Sighting(log.index, log.block) in w.logs
    case _ => true
  }

  ghost predicate AllAllowed(p: Params, w: World, moves: seq<Move>) {
    forall i :: 0 <= i < |moves| ==> Allowed(RunMoves(p, w, moves[..i]), moves[i])
  }

  lemma AllowedBefore(p: Params, w: World, moves: seq<Move>)
    requires moves != [] && AllAllowed(p, w, moves)
    ensures AllAllowed(p, w, moves[..|moves| - 1])
    ensures Allowed(RunMoves(p, w, moves[..|moves| - 1]), moves[|moves| - 1])
  {
    var before := moves[..|moves| - 1];
    forall i | 0 <= i < |before| ensures Allowed(RunMoves(p, w, before[..i]), before[i]) {
      assert before[..i] == moves[..i];
    }
  }

  // ---------------------------------------------------------------- the invariant

  /** Every message that is in a block up to `finalized` has an index below i. */
  ghost predicate AboveFinal(chain: Chain, finalized: nat, i: nat) {
    forall j :: j in chain && chain[j].block <= finalized ==> j < i
  }

  /**
    An entry found in a block that was final stays on chain.  Otherwise everything final when it was
    found has a lower index.
  */
  ghost predicate EntryOk(p: Params, l1: L1, e: Entry) {
    && e.finalized <= l1.finalized
    && (e.block <= e.finalized ==> OnChain(p, l1.chain, e))
    && (e.block > e.finalized ==> AboveFinal(l1.chain, e.finalized, e.index))
  }

  ghost predicate SightingOk(l1: L1, finalized: nat, s: Sighting) {
    && (s.block <= finalized ==> s.index in l1.chain && l1.chain[s.index].block == s.block)
    && (s.block > finalized ==> AboveFinal(l1.chain, finalized, s.index))
  }

  ghost predicate ScanOk(l1: L1, scan: Scan) {
    && scan.start <= scan.end && scan.end + 1 < TWO_64
    && scan.finalized <= l1.finalized
    && (scan.bridge.Some? ==>
          forall i :: i in scan.bridge.value && i in l1.chain && l1.chain[i].block <= scan.finalized
                  ==> scan.bridge.value[i] == l1.chain[i])
  }

  /** Every canonical message with index i or higher lies in a block the scan has still to visit. */
  ghost predicate StillAhead(chain: Chain, i: nat, cursor: nat) {
    forall j :: j in chain && j >= i ==> chain[j].block >= cursor
  }

  ghost predicate Invariant(p: Params, w: World) {
    && Ordered(w.l1.chain)
    && KeysAreIndices(w.f)
    && (forall k :: k in w.f.cache ==> EntryOk(p, w.l1, w.f.cache[k]))
    && (w.held.Some? ==> EntryOk(p, w.l1, w.held.value))
    && (w.held.Some? && w.missing ==> StillAhead(w.l1.chain, w.held.value.index, w.held.value.finalized))
    && (w.f.scan.Some? ==>
          ScanOk(w.l1, w.f.scan.value) && forall s :: s in w.logs ==> SightingOk(w.l1, w.f.scan.value.finalized, s))
  }

  /** What is still ahead of a final block stays ahead of it. */
  lemma AheadSurvivesReorg(a: L1, b: L1, i: nat, cursor: nat)
    requires StillAhead(a.chain, i, cursor) && cursor <= a.finalized && Evolves(a, b)
    ensures StillAhead(b.chain, i, cursor)
  {
  }

  lemma ReorgKeeps(p: Params, w: World, next: L1)
    requires Invariant(p, w) && Evolves(w.l1, next)
    ensures Invariant(p, w.(l1 := next))
  {
  }

  lemma MissingEntryIsAhead(p: Params, l1: L1, e: Entry)
    requires EntryOk(p, l1, e) && !OnChain(p, l1.chain, e)
    ensures StillAhead(l1.chain, e.index, e.finalized)
  {
  }

  lemma {:induction false} MoveKeeps(p: Params, w: World, m: Move)
    requires Invariant(p, w) && Allowed(w, m)
    ensures Invariant(p, Next(p, w, m))
  {
    match m
    case Reorg(next) => ReorgKeeps(p, w, next);
    case Start(latest, _) => WindowIsPlain(w.f.cursor, latest, p.maxBlocksPerScan);
    case ReadInbox(logs) =>
      if w.f.scan.Some? {
        forall s | s in logs ensures SightingOk(w.l1, w.f.scan.value.finalized, s) {
        }
      }
    case Store(log) =>
      if w.f.scan.Some? && Fits(p, w.f.scan.value, log) {
        assert SightingOk(w.l1, w.f.scan.value.finalized, Sighting(log.index, log.block));
        assert EntryOk(p, w.l1, Entry(log.data, log.block, log.index, w.f.scan.value.finalized));
      }
    case Check =>
      if w.held.Some? && !OnChain(p, w.l1.chain, w.held.value) {
        MissingEntryIsAhead(p, w.l1, w.held.value);
      }
    case _ =>
  }

  lemma {:induction false} MovesKeep(p: Params, w: World, moves: seq<Move>)
    requires Invariant(p, w) && AllAllowed(p, w, moves)
    ensures Invariant(p, RunMoves(p, w, moves))
  {
    if moves == [] {
    } else {
      var n := |moves| - 1;
      AllowedBefore(p, w, moves);
      MovesKeep(p, w, moves[..n]);
      MoveKeeps(p, RunMoves(p, w, moves[..n]), moves[n]);
    }
  }

  // ---------------------------------------------------------------- what a rewind is for

  /**
    Under any interleaving of polls, lookups, prunings and reorgs, wherever the reorgs fall: when the
    fetcher gives up an entry that L1 did not have when asked, every message that is canonical by then
    and has that index or a higher one lies at or after the new scan position.
  */
  lemma {:induction false} RewindLosesNothing(p: Params, l1: L1, finalized: nat, moves: seq<Move>)
    requires Ordered(l1.chain) && AllAllowed(p, Boot(l1, finalized), moves)
    ensures var w := RunMoves(p, Boot(l1, finalized), moves);
            w.held.Some? && w.missing ==>
              var w' := Next(p, w, GiveUp);
              && w'.f.cache == map[]
              && w'.f.cursor == w.held.value.finalized <= w.l1.finalized
              && StillAhead(w'.l1.chain, w.held.value.index, w'.f.cursor)
  {
    MovesKeep(p, Boot(l1, finalized), moves);
  }

  // ---------------------------------------------------------------- a rewind during a poll

  /** The moves neither end the poll in flight nor rewind again. */
  ghost predicate WithinPoll(p: Params, w: World, moves: seq<Move>) {
    && (forall k :: 0 <= k <= |moves| ==> RunMoves(p, w, moves[..k]).f.scan.Some?)
    && (forall k :: 0 <= k < |moves| ==> !moves[k].Finish? && !moves[k].GiveUp?)
  }

  lemma WithinPollBefore(p: Params, w: World, moves: seq<Move>)
    requires WithinPoll(p, w, moves)
    ensures RunMoves(p, w, moves).f.scan.Some?
    ensures moves != [] ==> WithinPoll(p, w, moves[..|moves| - 1])
  {
    assert moves[..|moves|] == moves;
    if moves != [] {
      var before := moves[..|moves| - 1];
      forall k | 0 <= k <= |before| ensures RunMoves(p, w, before[..k]).f.scan.Some? {
        assert before[..k] == moves[..k];
      }
    }
  }

  lemma {:induction false} CursorRests(p: Params, w: World, moves: seq<Move>)
    requires WithinPoll(p, w, moves)
    ensures w.f.scan.Some?
    ensures var f' := RunMoves(p, w, moves).f;
            && f'.scan.Some? && f'.cursor == w.f.cursor
            && f'.scan.value.start == w.f.scan.value.start && f'.scan.value.end == w.f.scan.value.end
  {
    WithinPollBefore(p, w, moves);
    if moves == [] {
    } else {
      CursorRests(p, w, moves[..|moves| - 1]);
    }
  }

  lemma {:induction false} AheadThroughMoves(p: Params, w: World, moves: seq<Move>, i: nat, cursor: nat)
    requires StillAhead(w.l1.chain, i, cursor) && cursor <= w.l1.finalized && AllAllowed(p, w, moves)
    ensures var l1 := RunMoves(p, w, moves).l1;
            StillAhead(l1.chain, i, cursor) && cursor <= l1.finalized
  {
    if moves == [] {
    } else {
      var n := |moves| - 1;
      AllowedBefore(p, w, moves);
      AheadThroughMoves(p, w, moves[..n], i, cursor);
      if moves[n].Reorg? {
        AheadSurvivesReorg(RunMoves(p, w, moves[..n]).l1, moves[n].next, i, cursor);
      }
    }
  }

  predicate Stores(m: Move, j: nat) {
    m.Store? && m.log.InboxLog? && m.log.index == j
  }

  predicate Prunes(m: Move, j: nat) {
    m.Discard? && j <= m.upTo
  }

  /** Some move stores message j and none after it prunes it. */
  ghost predicate StoredAndKept(moves: seq<Move>, j: nat) {
    exists k :: 0 <= k < |moves| && Stores(moves[k], j) && forall m :: k < m < |moves| ==> !Prunes(moves[m], j)
  }

  lemma StoredAndKeptStep(moves: seq<Move>, j: nat)
    requires moves != []
    ensures var last := moves[|moves| - 1];
            StoredAndKept(moves, j) <==> Stores(last, j) || (StoredAndKept(moves[..|moves| - 1], j) && !Prunes(last, j))
  {
  }

  /** After a rewind the cache holds just what the same poll stores and nobody prunes. */
  lemma {:induction false} CacheIsStoredAndKept(p: Params, w: World, moves: seq<Move>, j: nat)
    requires w.f.cache == map[] && WithinPoll(p, w, moves)
    ensures j in RunMoves(p, w, moves).f.cache <==> StoredAndKept(moves, j)
  {
    if moves == [] {
    } else {
      WithinPollBefore(p, w, moves);
      CacheIsStoredAndKept(p, w, moves[..|moves| - 1], j);
      StoredAndKeptStep(moves, j);
    }
  }

  /** A run in which the fetcher gives up an entry while a poll is in flight, up to that poll's commit. */
  ghost predicate RewindsDuringPoll(p: Params, w0: World, before: seq<Move>, after: seq<Move>) {
    && Ordered(w0.l1.chain) && AllAllowed(p, w0, before)
    && var w := RunMoves(p, w0, before);
       && w.held.Some? && w.missing && w.f.scan.Some?
       && AllAllowed(p, Next(p, w, GiveUp), after) && WithinPoll(p, Next(p, w, GiveUp), after)
  }

  /**
    The commit of the poll in flight leaves a rewind in place exactly when the rewind does not aim at
    the block the poll started from, whatever happens in between.
  */
  lemma {:induction false} RewindSurvivesPollIff(p: Params, l1: L1, finalized: nat, before: seq<Move>, after: seq<Move>)
    requires RewindsDuringPoll(p, Boot(l1, finalized), before, after)
    ensures var w := RunMoves(p, Boot(l1, finalized), before);
            var end := Next(p, RunMoves(p, Next(p, w, GiveUp), after), Finish(true));
            && (end.f.cursor == w.held.value.finalized <==> w.held.value.finalized != w.f.scan.value.start)
            && (end.f.cursor != w.held.value.finalized ==> end.f.cursor == w.f.scan.value.end + 1)
  {
    var w := RunMoves(p, Boot(l1, finalized), before);
    MovesKeep(p, Boot(l1, finalized), before);
    CursorRests(p, Next(p, w, GiveUp), after);
    CommitMoves(p, RunMoves(p, Next(p, w, GiveUp), after));
  }

  lemma CommitMoves(p: Params, w: World)
    requires w.f.scan.Some? && w.f.scan.value.end + 1 < TWO_64
    ensures var scan := w.f.scan.value;
            Next(p, w, Finish(true)).f ==
            Fetcher(w.f.cache, if w.f.cursor == scan.start then scan.end + 1 else w.f.cursor, None)
  {
  }

  /** What the commit of the poll in flight does to a message that a rewind was for. */
  lemma {:induction false} LostAfterRewind(p: Params, w: World, moves: seq<Move>, i: nat, j: nat)
    requires w.f.cache == map[] && WithinPoll(p, w, moves) && AllAllowed(p, w, moves)
    requires StillAhead(w.l1.chain, i, w.f.cursor) && w.f.cursor <= w.l1.finalized
    requires w.f.scan.Some? && w.f.scan.value.end + 1 < TWO_64
    requires j >= i && j in RunMoves(p, w, moves).l1.chain
    ensures var end := Next(p, RunMoves(p, w, moves), Finish(true));
            var block := RunMoves(p, w, moves).l1.chain[j].block;
            block < end.f.cursor && j !in end.f.cache <==>
              && w.f.cursor == w.f.scan.value.start
              && w.f.scan.value.start <= block <= w.f.scan.value.end
              && !StoredAndKept(moves, j)
  {
    CursorRests(p, w, moves);
    AheadThroughMoves(p, w, moves, i, w.f.cursor);
    CacheIsStoredAndKept(p, w, moves, j);
    CommitMoves(p, RunMoves(p, w, moves));
  }

  /**
    And a message that the rewind was for ends up lost, behind the cursor and not in the cache, exactly
    when the rewind aims at the block the poll started from, the message's block is in the poll's
    window, and the rest of the poll did not store it or somebody pruned it.
  */
  lemma {:induction false} MessageIsLostIff(
      p: Params, l1: L1, finalized: nat, before: seq<Move>, after: seq<Move>, j: nat)
    requires RewindsDuringPoll(p, Boot(l1, finalized), before, after)
    requires var w := RunMoves(p, Boot(l1, finalized), before);
             j >= w.held.value.index && j in RunMoves(p, Next(p, w, GiveUp), after).l1.chain
    ensures var w := RunMoves(p, Boot(l1, finalized), before);
            var scan := w.f.scan.value;
            var last := RunMoves(p, Next(p, w, GiveUp), after);
            var end := Next(p, last, Finish(true));
            last.l1.chain[j].block < end.f.cursor && j !in end.f.cache <==>
              && w.held.value.finalized == scan.start
              && scan.start <= last.l1.chain[j].block <= scan.end
              && !StoredAndKept(after, j)
  {
    var w := RunMoves(p, Boot(l1, finalized), before);
    MovesKeep(p, Boot(l1, finalized), before);
    LostAfterRewind(p, Next(p, w, GiveUp), after, w.held.value.index, j);
  }

  // ---------------------------------------------------------------- a run that loses a message

  function ZeroAt(p: Params, block: nat): L1 {
    L1(map[0 := Delivery(block, p.keccak([]))], 0)
  }

  function RaceMove(p: Params, k: nat): Move {
    if k == 0 then Reorg(ZeroAt(p, 5))
    else if k == 1 then Start(10, 0)
    else if k == 2 then ReadBridge
    else if k == 3 then ReadInbox({Sighting(0, 5)})
    else if k == 4 then Store(InboxLog(0, 5, []))
    else if k == 5 then Lookup(0)
    else if k == 6 then Reorg(ZeroAt(p, 6))
    else Check
  }

  /** Where the first k moves lead. */
  function RaceWorld(p: Params, k: nat): World {
    var entry := Entry([], 5, 0, 0);
    World(
      if k == 0 then L1(map[], 0) else if k <= 6 then ZeroAt(p, 5) else ZeroAt(p, 6),
      Fetcher(
        if k <= 4 then map[] else map[0 := entry],
        0,
        if k <= 1 then None else Some(Scan(0, 10, 0, if k == 2 then None else Some(ZeroAt(p, 5).chain)))),
      if k <= 5 then None else Some(entry),
      k == 8,
      if k <= 3 then {} else {Sighting(0, 5)})
  }

  lemma RaceStep(p: Params, k: nat)
    requires p.maxBlocksPerScan > 10 && k < 8
    ensures Allowed(RaceWorld(p, k), RaceMove(p, k))
    ensures Next(p, RaceWorld(p, k), RaceMove(p, k)) == RaceWorld(p, k + 1)
  {
    assert Between(ZeroAt(p, 5).chain, 0, 10) == ZeroAt(p, 5).chain;
  }

  lemma {:induction false} RaceRuns(p: Params, k: nat) returns (moves: seq<Move>)
    requires p.maxBlocksPerScan > 10 && k <= 8
    ensures AllAllowed(p, RaceWorld(p, 0), moves) && RunMoves(p, RaceWorld(p, 0), moves) == RaceWorld(p, k)
  {
    if k == 0 {
      moves := [];
    } else {
      moves := RaceRuns(p, k - 1);
      RaceStep(p, k - 1);
      moves := OneMore(p, RaceWorld(p, 0), moves, RaceMove(p, k - 1));
    }
  }

  /**
    The bad case is reachable.  A poll from block 0 stores message 0, a reorg moves it from block 5
    to block 6, the verifier rewinds to block 0, and the poll commits: the scan goes on from block 11
    with an empty cache, so message 0 stays behind it.
  */
  lemma {:induction false} RewindCanBeOverwritten(p: Params) returns (before: seq<Move>)
    requires p.maxBlocksPerScan > 10
    ensures var w0 := Boot(L1(map[], 0), 0);
            && RewindsDuringPoll(p, w0, before, [])
            && var end := Next(p, Next(p, RunMoves(p, w0, before), GiveUp), Finish(true));
               end.f == Fetcher(map[], 11, None) && 0 in end.l1.chain && end.l1.chain[0].block == 6
  {
    before := RaceRuns(p, 8);
  }

  lemma {:induction false} OneMore(p: Params, w: World, moves: seq<Move>, m: Move) returns (more: seq<Move>)
    requires AllAllowed(p, w, moves) && Allowed(RunMoves(p, w, moves), m)
    ensures AllAllowed(p, w, more)
    ensures RunMoves(p, w, more) == Next(p, RunMoves(p, w, moves), m)
  {
    more := moves + [m];
    assert more[..|moves|] == moves;
    forall i | 0 <= i < |more| ensures Allowed(RunMoves(p, w, more[..i]), more[i]) {
      if i < |moves| {
        assert more[..i] == moves[..i];
      }
    }
  }
}
