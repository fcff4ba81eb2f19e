/**
  The delayed-message fetcher (verifier/nitro/delayed_message_fetcher/delayed_message_fetcher.go):
  a cache of L1 messages that one goroutine fills by scanning block windows while the verifier's
  goroutine reads, prunes and rewinds it.
*/
module DelayedFetcher {
  import opened Common

  const TWO_64: nat := 0x1_0000_0000_0000_0000
  const START_BLOCK_LOOKBACK: nat := 5000
  const DEFAULT_MAX_BLOCKS_PER_SCAN: nat := 10000

  function Add64(a: nat, b: nat): nat { (a + b) % TWO_64 }

  function Sub64(a: nat, b: nat): nat { (a - b) % TWO_64 }

  /** A cached message; `finalized` is the finalized L1 block of the poll that found it. */
  datatype Entry = Entry(data: Bytes, block: nat, index: nat, finalized: nat)

  /** A Bridge MessageDelivered event. */
  datatype Delivery = Delivery(block: nat, dataHash: nat)

  /** The Bridge events of the canonical L1 chain, by message index. */
  type Chain = map<nat, Delivery>

  /** An Inbox log as `extractInboxData` reads it; `Unparsable` is one it returns an error for. */
  datatype InboxLog = Unparsable | InboxLog(index: nat, block: nat, data: Bytes)

  /** Keccak-256, the scan range, and whether to wait for L1 finality. */
  datatype Params = Params(keccak: Bytes -> nat, maxBlocksPerScan: nat, waitForFinality: bool)

  /** A poll in flight: its window, the finalized block it read, and the Bridge events it got. */
  datatype Scan = Scan(start: nat, end: nat, finalized: nat, bridge: Option<Chain>)

  datatype Fetcher = Fetcher(cache: map<nat, Entry>, cursor: nat, scan: Option<Scan>)

  /** A new fetcher starts behind the finalized block. */
  function New(finalized: nat): Fetcher {
    Fetcher(map[], if finalized > START_BLOCK_LOOKBACK then finalized - START_BLOCK_LOOKBACK else 0, None)
  }

  // ---------------------------------------------------------------- the poller's actions

  /** The window of the next poll, if the cursor has not passed the latest block. */
  function Window(cursor: nat, latest: nat, range: nat): Option<(nat, nat)> {
    if cursor > latest then None
    else if Sub64(latest, cursor) >= range then Some((cursor, Add64(cursor, range)))
    else Some((cursor, latest))
  }

  datatype Action = Begin(latest: nat, finalized: nat) | Read(events: Chain) | Put(log: InboxLog) | Commit | Abort

  predicate Fits(p: Params, scan: Scan, log: InboxLog) {
    && log.InboxLog? && scan.bridge.Some?
    && log.index in scan.bridge.value
    && p.keccak(log.data) == scan.bridge.value[log.index].dataHash
  }

  /** One locked action of a poll; without a poll in flight only `Begin` does anything. */
  function Act(p: Params, f: Fetcher, a: Action): Fetcher {
    if f.scan.None? then
      if a.Begin? then
        var w := Window(f.cursor, a.latest, p.maxBlocksPerScan);
        if w.None? then f else f.(scan := Some(Scan(w.value.0, w.value.1, a.finalized, None)))
      else f
    else
      var scan := f.scan.value;
      match a
      case Begin(_, _) => f
      case Read(events) => f.(scan := Some(scan.(bridge := Some(events))))
      case Put(log) =>
        if Fits(p, scan, log)
        then f.(cache := f.cache[log.index := Entry(log.data, log.block, log.index, scan.finalized)])
        else f.(scan := None)
      case Commit => f.(cursor := if f.cursor == scan.start then Add64(scan.end, 1) else f.cursor, scan := None)
      case Abort => f.(scan := None)
  }

  function ActAll(p: Params, f: Fetcher, actions: seq<Action>): Fetcher
    decreases |actions|
  {
    if actions == [] then f else ActAll(p, Act(p, f, actions[0]), actions[1..])
  }

  // ---------------------------------------------------------------- the verifier's actions

  function Rewind(f: Fetcher, e: Entry): Fetcher {
    f.(cache := map[], cursor := e.finalized)
  }

  /** `Advance(k)` of the code. */
  function Prune(f: Fetcher, k: nat): Fetcher {
    f.(cache := map i | i in f.cache && i > k :: f.cache[i])
  }

  /** The Bridge event for the entry's index, in its recorded block, carries its data's hash. */
  predicate OnChain(p: Params, chain: Chain, e: Entry) {
    && e.index in chain
    && chain[e.index].block == e.block
    && p.keccak(e.data) == chain[e.index].dataHash
  }

  /** What L1 answers while a message is re-checked: none is an RPC error. */
  datatype Probe = Probe(chain: Option<Chain>, finalized: Option<nat>)

  datatype Reply = Data(data: Bytes) | NotFound | NotFinalized | RpcError

  /** `GetDelayedMessage`; `during` are the poller's actions between the lookup and the decision. */
  function GetDelayed(p: Params, f: Fetcher, index: nat, during: seq<Action>, probe: Probe): (Fetcher, Reply) {
    var f' := ActAll(p, f, during);
    if index !in f.cache then (f', NotFound)
    else if probe.chain.None? then (f', RpcError)
    else
      var e := f.cache[index];
      if !OnChain(p, probe.chain.value, e) then (Rewind(f', e), NotFound)
      else if p.waitForFinality && probe.finalized.None? then (f', RpcError)
      else if p.waitForFinality && e.block > probe.finalized.value then (f', NotFinalized)
      else (f', Data(e.data))
  }

  /** L1 still has the cached message: the index's Bridge event, in the recorded block, with the data's hash. */
  predicate StillThere(p: Params, f: Fetcher, index: nat, chain: Chain)
    requires index in f.cache
  {
    && index in chain
    && chain[index].block == f.cache[index].block
    && chain[index].dataHash == p.keccak(f.cache[index].data)
  }

  /** The message is cached, L1 still has it, and it is final if that is asked for. */
  predicate HandsOut(p: Params, f: Fetcher, index: nat, probe: Probe) {
    && index in f.cache && probe.chain.Some? && StillThere(p, f, index, probe.chain.value)
    && (p.waitForFinality ==> probe.finalized.Some? && f.cache[index].block <= probe.finalized.value)
  }

  /** When a call hands out data, and when it fails in which way. */
  ghost predicate RepliesExactly(p: Params, f: Fetcher, index: nat, probe: Probe, reply: Reply) {
    var checked := index in f.cache && probe.chain.Some? && StillThere(p, f, index, probe.chain.value);
    && (reply.Data? <==> HandsOut(p, f, index, probe))
    && (reply.Data? ==> reply.data == f.cache[index].data)
    && (reply.NotFinalized? <==>
          checked && p.waitForFinality && probe.finalized.Some? && f.cache[index].block > probe.finalized.value)
    && (reply.RpcError? <==>
          || (index in f.cache && probe.chain.None?)
          || (checked && p.waitForFinality && probe.finalized.None?))
    && (reply.NotFound? <==>
          index !in f.cache || (probe.chain.Some? && !StillThere(p, f, index, probe.chain.value)))
  }

  /** What a call leaves: an empty cache and a lowered cursor if L1 lost the message, else what the poller left. */
  ghost predicate LeavesExactly(p: Params, f: Fetcher, index: nat, polled: Fetcher, probe: Probe, after: Fetcher) {
    if index in f.cache && probe.chain.Some? && !StillThere(p, f, index, probe.chain.value)
    then after == Fetcher(map[], f.cache[index].finalized, polled.scan)
    else after == polled
  }

  lemma GetDelayedExactly(p: Params, f: Fetcher, index: nat, during: seq<Action>, probe: Probe)
    requires KeysAreIndices(f)
    ensures var (after, reply) := GetDelayed(p, f, index, during, probe);
            RepliesExactly(p, f, index, probe, reply) && LeavesExactly(p, f, index, ActAll(p, f, during), probe, after)
  {
  }

  // ---------------------------------------------------------------- every key is its entry's index

  ghost predicate KeysAreIndices(f: Fetcher) {
    forall k :: k in f.cache ==> f.cache[k].index == k
  }

  lemma {:induction false} ActionsKeepKeys(p: Params, f: Fetcher, actions: seq<Action>)
    requires KeysAreIndices(f)
    ensures KeysAreIndices(ActAll(p, f, actions))
    decreases |actions|
  {
    if actions == [] {
    } else {
      ActionsKeepKeys(p, Act(p, f, actions[0]), actions[1..]);
    }
  }

  /** A `Put` of the run stored this entry, with the finalized block of a poll that had begun before. */
  ghost predicate PutBy(f: Fetcher, actions: seq<Action>, e: Entry) {
    exists j :: 0 <= j < |actions|
      && actions[j] == Put(InboxLog(e.index, e.block, e.data)) && BegunWith(f, actions, j, e.finalized)
  }

  ghost predicate BegunWith(f: Fetcher, actions: seq<Action>, j: nat, finalized: nat)
    requires j <= |actions|
  {
    || (f.scan.Some? && f.scan.value.finalized == finalized)
    || exists i :: 0 <= i < j && actions[i].Begin? && actions[i].finalized == finalized
  }

  lemma BegunEarlier(p: Params, f: Fetcher, actions: seq<Action>, j: nat, finalized: nat)
    requires actions != [] && j < |actions| && BegunWith(Act(p, f, actions[0]), actions[1..], j, finalized)
    ensures BegunWith(f, actions, j + 1, finalized)
  {
    if i :| 0 <= i < j && actions[1..][i].Begin? && actions[1..][i].finalized == finalized {
      assert actions[i + 1].Begin? && actions[i + 1].finalized == finalized;
    } else {
      assert actions[0].Begin? && f.scan.None? ==> actions[0].finalized == finalized;
    }
  }

  /** Every entry of the cache was there before or was stored by the run, with its own log's data and block. */
  lemma {:induction false} EntriesWerePut(p: Params, f: Fetcher, actions: seq<Action>, k: nat)
    requires k in ActAll(p, f, actions).cache
    ensures var e := ActAll(p, f, actions).cache[k];
            (k in f.cache && e == f.cache[k]) || (e.index == k && PutBy(f, actions, e))
    decreases |actions|
  {
    if actions == [] {
    } else {
      var f', rest := Act(p, f, actions[0]), actions[1..];
      var e := ActAll(p, f, actions).cache[k];
      EntriesWerePut(p, f', rest, k);
      if !(k in f'.cache && e == f'.cache[k]) {
        var j :| 0 <= j < |rest|
          && rest[j] == Put(InboxLog(e.index, e.block, e.data)) && BegunWith(f', rest, j, e.finalized);
        BegunEarlier(p, f, actions, j, e.finalized);
        assert actions[j + 1] == rest[j];
      } else if !(k in f.cache && e == f.cache[k]) {
        assert actions[0] == Put(InboxLog(e.index, e.block, e.data)) && BegunWith(f, actions, 0, e.finalized);
      }
    }
  }

  /** Data handed out is what the index's Bridge event commits to, in a finalized block if asked for. */
  ghost predicate Vouched(p: Params, index: nat, data: Bytes, probe: Probe) {
    && probe.chain.Some?
    && index in probe.chain.value
    && p.keccak(data) == probe.chain.value[index].dataHash
    && (p.waitForFinality ==> probe.finalized.Some? && probe.chain.value[index].block <= probe.finalized.value)
  }

  lemma DelayedMessageIsVouched(p: Params, f: Fetcher, index: nat, during: seq<Action>, probe: Probe)
    requires KeysAreIndices(f)
    ensures KeysAreIndices(GetDelayed(p, f, index, during, probe).0)
    ensures var r := GetDelayed(p, f, index, during, probe).1;
            r.Data? ==>
              && index in f.cache && r.data == f.cache[index].data
              && Vouched(p, index, r.data, probe)
              && probe.chain.value[index].block == f.cache[index].block
  {
    ActionsKeepKeys(p, f, during);
  }

  // ---------------------------------------------------------------- scan windows

  /** A successful poll with nothing in between. */
  function PollActions(latest: nat, finalized: nat, events: Chain, logs: seq<InboxLog>): seq<Action> {
    [Begin(latest, finalized), Read(events)] + PutsThenCommit(logs)
  }

  function PutsThenCommit(logs: seq<InboxLog>): seq<Action> {
    if logs == [] then [Commit] else [Put(logs[0])] + PutsThenCommit(logs[1..])
  }

  /** Windows are no wider than the range, end at or before the latest block, and never wrap around. */
  lemma WindowIsPlain(cursor: nat, latest: nat, range: nat)
    requires latest < TWO_64
    ensures var w := Window(cursor, latest, range);
            && (w.None? <==> cursor > latest)
            && (w.Some? ==> w.value.0 == cursor && cursor <= w.value.1 <= latest && w.value.1 - cursor <= range)
            && (w.Some? ==> w.value.1 == latest || w.value.1 == cursor + range)
  {
  }

  /** The windows that a run of the poller's actions commits, in order. */
  function Committed(p: Params, f: Fetcher, actions: seq<Action>): seq<(nat, nat)>
    decreases |actions|
  {
    if actions == [] then []
    else
      var rest := Committed(p, Act(p, f, actions[0]), actions[1..]);
      if actions[0].Commit? && f.scan.Some? then [(f.scan.value.start, f.scan.value.end)] + rest else rest
  }

  /**
    The windows tile the blocks: the first starts at `from`, each next right after the one before, the
    last ends right before `to`, and none spans more than `range` beyond its start.
  */
  ghost predicate Tiling(tiles: seq<(nat, nat)>, from: nat, to: nat, range: nat) {
    && (tiles == [] ==> from == to)
    && (tiles != [] ==> tiles[0].0 == from && tiles[|tiles| - 1].1 + 1 == to)
    && (forall k :: 0 <= k < |tiles| ==> tiles[k].0 <= tiles[k].1 <= tiles[k].0 + range)
    && (forall k :: 0 < k < |tiles| ==> tiles[k].0 == tiles[k - 1].1 + 1)
  }

  lemma PrependTile(w: (nat, nat), tiles: seq<(nat, nat)>, to: nat, range: nat)
    requires w.0 <= w.1 <= w.0 + range && Tiling(tiles, w.1 + 1, to, range)
    ensures Tiling([w] + tiles, w.0, to, range)
  {
  }

  /** Every block between the ends lies in one of the windows. */
  lemma {:induction false} TilesCover(tiles: seq<(nat, nat)>, from: nat, to: nat, range: nat, block: nat) returns (k: nat)
    requires Tiling(tiles, from, to, range) && from <= block < to
    ensures k < |tiles| && tiles[k].0 <= block <= tiles[k].1
    decreases |tiles|
  {
    if block <= tiles[0].1 {
      k := 0;
    } else {
      var rest := tiles[1..];
      assert forall i :: 0 <= i < |rest| ==> rest[i] == tiles[i + 1];
      k := TilesCover(rest, tiles[0].1 + 1, to, range, block);
      k := k + 1;
    }
  }

  /** The poll in flight started at the cursor. */
  ghost predicate InFlight(p: Params, f: Fetcher) {
    f.scan.Some? ==>
      && f.scan.value.start == f.cursor
      && f.cursor <= f.scan.value.end <= f.cursor + p.maxBlocksPerScan
      && f.scan.value.end + 1 < TWO_64
  }

  /**
    Whatever the poller does without a rewind, polls that fail or stop half-way included: the windows it
    commits tile the blocks from its first cursor to its last.
  */
  lemma {:induction false} PollsTileTheChain(p: Params, f: Fetcher, actions: seq<Action>)
    requires InFlight(p, f)
    requires forall k :: 0 <= k < |actions| && actions[k].Begin? ==> actions[k].latest + 1 < TWO_64
    ensures Tiling(Committed(p, f, actions), f.cursor, ActAll(p, f, actions).cursor, p.maxBlocksPerScan)
    decreases |actions|
  {
    if actions == [] {
    } else {
      var f' := Act(p, f, actions[0]);
      if actions[0].Begin? {
        WindowIsPlain(f.cursor, actions[0].latest, p.maxBlocksPerScan);
      }
      PollsTileTheChain(p, f', actions[1..]);
      if actions[0].Commit? && f.scan.Some? {
        PrependTile((f.scan.value.start, f.scan.value.end), Committed(p, f', actions[1..]),
                    ActAll(p, f, actions).cursor, p.maxBlocksPerScan);
      }
    }
  }

  /**
    A new fetcher looks back exactly 5000 blocks from finality.  Whatever its poller does before the
    first rewind, a block from there on has been in a committed window or is still ahead.
  */
  lemma {:induction false} StartLooksBack(p: Params, finalized: nat, actions: seq<Action>, block: nat)
    requires forall k :: 0 <= k < |actions| && actions[k].Begin? ==> actions[k].latest + 1 < TWO_64
    ensures New(finalized).cache == map[] && New(finalized).scan.None?
    ensures New(finalized).cursor <= block <==> finalized <= block + START_BLOCK_LOOKBACK
    ensures finalized <= block + START_BLOCK_LOOKBACK ==>
              || ActAll(p, New(finalized), actions).cursor <= block
              || exists w :: w in Committed(p, New(finalized), actions) && w.0 <= block <= w.1
  {
    var f := New(finalized);
    PollsTileTheChain(p, f, actions);
    var tiles, to := Committed(p, f, actions), ActAll(p, f, actions).cursor;
    if f.cursor <= block < to {
      var k := TilesCover(tiles, f.cursor, to, p.maxBlocksPerScan, block);
      assert tiles[k] in tiles;
    }
  }

  /** What L1 answers to one poll. */
  datatype Answers = Answers(latest: nat, finalized: nat, events: Chain, logs: seq<InboxLog>)

  function Poll(a: Answers): seq<Action> {
    PollActions(a.latest, a.finalized, a.events, a.logs)
  }

  function Polls(answers: seq<Answers>): seq<Action> {
    if answers == [] then [] else Poll(answers[0]) + Polls(answers[1..])
  }

  /** Every log of the poll checks out. */
  ghost predicate PollFits(p: Params, f: Fetcher, a: Answers) {
    var w := Window(f.cursor, a.latest, p.maxBlocksPerScan);
    w.Some? ==>
      forall i :: 0 <= i < |a.logs| ==> Fits(p, Scan(f.cursor, w.value.1, a.finalized, Some(a.events)), a.logs[i])
  }

  ghost predicate AllFit(p: Params, f: Fetcher, answers: seq<Answers>)
    decreases |answers|
  {
    answers == [] || (PollFits(p, f, answers[0]) && AllFit(p, ActAll(p, f, Poll(answers[0])), answers[1..]))
  }

  lemma {:induction false} ActAllConcat(p: Params, f: Fetcher, a: seq<Action>, b: seq<Action>)
    ensures ActAll(p, f, a + b) == ActAll(p, ActAll(p, f, a), b)
    decreases |a|
  {
    if a == [] {
      assert a + b == b;
    } else {
      assert (a + b)[1..] == a[1..] + b;
      ActAllConcat(p, Act(p, f, a[0]), a[1..], b);
    }
  }

  lemma {:induction false} IdleUntilBegin(p: Params, f: Fetcher, actions: seq<Action>)
    requires f.scan.None? && forall i :: 0 <= i < |actions| ==> !actions[i].Begin?
    ensures ActAll(p, f, actions) == f
    decreases |actions|
  {
    if actions == [] {
    } else {
      IdleUntilBegin(p, f, actions[1..]);
    }
  }

  lemma {:induction false} PutsNeverBegin(logs: seq<InboxLog>)
    ensures forall i :: 0 <= i < |PutsThenCommit(logs)| ==> !PutsThenCommit(logs)[i].Begin?
  {
    if logs == [] {
    } else {
      PutsNeverBegin(logs[1..]);
    }
  }

  /** The first n logs fit, and the next one, if there is one, does not. */
  ghost predicate FitUpTo(p: Params, scan: Scan, logs: seq<InboxLog>, n: nat) {
    && n <= |logs|
    && (forall i :: 0 <= i < n ==> Fits(p, scan, logs[i]))
    && (n < |logs| ==> !Fits(p, scan, logs[n]))
  }

  /** From one cache to the next: the entry of index k comes from the last of the first n logs that has it. */
  ghost predicate StoredFrom(
      before: map<nat, Entry>, after: map<nat, Entry>, logs: seq<InboxLog>, n: nat, finalized: nat, k: nat)
    requires n <= |logs| && forall i :: 0 <= i < n ==> logs[i].InboxLog?
  {
    || (&& (forall i :: 0 <= i < n ==> logs[i].index != k)
        && (k in after <==> k in before) && (k in after ==> after[k] == before[k]))
    || exists i :: 0 <= i < n && logs[i].index == k && (forall m :: i < m < n ==> logs[m].index != k)
         && k in after && after[k] == Entry(logs[i].data, logs[i].block, k, finalized)
  }

  lemma StoredFromOneMore(
      before: map<nat, Entry>, after: map<nat, Entry>, logs: seq<InboxLog>, n: nat, finalized: nat, k: nat)
    requires 0 < n <= |logs| && forall i :: 0 <= i < n ==> logs[i].InboxLog?
    requires var first := logs[0];
             var rest := logs[1..];
             && (forall i :: 0 <= i < n - 1 ==> rest[i].InboxLog?)
             && StoredFrom(before[first.index := Entry(first.data, first.block, first.index, finalized)],
                           after, rest, n - 1, finalized, k)
    ensures StoredFrom(before, after, logs, n, finalized, k)
  {
    var rest := logs[1..];
    assert forall i :: 0 <= i < n - 1 ==> rest[i] == logs[i + 1];
    if i :| 0 <= i < n - 1 && rest[i].index == k && (forall m :: i < m < n - 1 ==> rest[m].index != k)
            && k in after && after[k] == Entry(rest[i].data, rest[i].block, k, finalized) {
      assert logs[i + 1].index == k;
      assert forall m :: i + 1 < m < n ==> logs[m] == rest[m - 1];
    } else {
      assert forall m :: 0 < m < n ==> logs[m] == rest[m - 1];
    }
  }

  lemma {:induction false} PutsStopAtBadLog(p: Params, f: Fetcher, logs: seq<InboxLog>, n: nat, k: nat)
    requires f.scan.Some? && FitUpTo(p, f.scan.value, logs, n)
    ensures var f' := ActAll(p, f, PutsThenCommit(logs));
            var scan := f.scan.value;
            && f'.scan.None?
            && f'.cursor == (if n == |logs| && f.cursor == scan.start then Add64(scan.end, 1) else f.cursor)
            && StoredFrom(f.cache, f'.cache, logs, n, scan.finalized, k)
    decreases |logs|
  {
    var actions := PutsThenCommit(logs);
    if logs == [] {
      assert ActAll(p, f, [Commit]) == Act(p, f, Commit);
    } else {
      var f1, rest := Act(p, f, actions[0]), logs[1..];
      assert actions[1..] == PutsThenCommit(rest);
      if n == 0 {
        PutsNeverBegin(rest);
        IdleUntilBegin(p, f1, PutsThenCommit(rest));
      } else {
        PutsStopAtBadLog(p, f1, rest, n - 1, k);
        StoredFromOneMore(f.cache, ActAll(p, f, actions).cache, logs, n, f.scan.value.finalized, k);
      }
    }
  }

  /**
    A whole poll with a window, n logs of which fit before the first that does not: those n are stored,
    the later of two with one index winning, nothing else changes in the cache, and the cursor moves
    past the window only if none was bad.
  */
  lemma PollExactly(p: Params, f: Fetcher, a: Answers, n: nat, k: nat)
    requires f.scan.None? && Window(f.cursor, a.latest, p.maxBlocksPerScan).Some?
    requires var end := Window(f.cursor, a.latest, p.maxBlocksPerScan).value.1;
             FitUpTo(p, Scan(f.cursor, end, a.finalized, Some(a.events)), a.logs, n)
    ensures var f' := ActAll(p, f, Poll(a));
            var end := Window(f.cursor, a.latest, p.maxBlocksPerScan).value.1;
            && f'.scan.None?
            && f'.cursor == (if n == |a.logs| then Add64(end, 1) else f.cursor)
            && StoredFrom(f.cache, f'.cache, a.logs, n, a.finalized, k)
  {
    var actions := Poll(a);
    var f1 := Act(p, f, Begin(a.latest, a.finalized));
    var f2 := Act(p, f1, Read(a.events));
    assert actions[1..][1..] == PutsThenCommit(a.logs);
    assert ActAll(p, f, actions) == ActAll(p, f1, actions[1..]) == ActAll(p, f2, PutsThenCommit(a.logs));
    PutsStopAtBadLog(p, f2, a.logs, n, k);
  }

  /** One poll whose logs fit moves the cursor past its window, and not at all when there is none. */
  lemma PollMoves(p: Params, f: Fetcher, a: Answers)
    requires f.scan.None? && PollFits(p, f, a)
    ensures var f' := ActAll(p, f, Poll(a));
            var w := Window(f.cursor, a.latest, p.maxBlocksPerScan);
            f'.scan.None? && f'.cursor == if w.None? then f.cursor else Add64(w.value.1, 1)
  {
    if Window(f.cursor, a.latest, p.maxBlocksPerScan).None? {
      PutsNeverBegin(a.logs);
      assert Poll(a)[1..] == [Read(a.events)] + PutsThenCommit(a.logs);
      IdleUntilBegin(p, f, Poll(a)[1..]);
    } else {
      PollExactly(p, f, a, |a.logs|, 0);
    }
  }

  /** One poll reaches the target or covers range + 1 blocks. */
  lemma PollGains(p: Params, f: Fetcher, a: Answers, target: nat)
    requires f.scan.None? && PollFits(p, f, a) && target <= a.latest && a.latest + 1 < TWO_64
    ensures var f' := ActAll(p, f, Poll(a));
            f'.scan.None? && (f'.cursor > target || f'.cursor == f.cursor + p.maxBlocksPerScan + 1)
  {
    PollMoves(p, f, a);
    WindowIsPlain(f.cursor, a.latest, p.maxBlocksPerScan);
  }

  /** Catching up takes a bounded number of polls: each covers range + 1 blocks or reaches the target. */
  lemma {:induction false} CatchUpIsBounded(p: Params, f: Fetcher, answers: seq<Answers>, target: nat)
    requires f.scan.None? && AllFit(p, f, answers)
    requires forall k :: 0 <= k < |answers| ==> target <= answers[k].latest && answers[k].latest + 1 < TWO_64
    requires f.cursor + |answers| * (p.maxBlocksPerScan + 1) > target
    ensures ActAll(p, f, Polls(answers)).cursor > target
    decreases |answers|
  {
    if answers == [] {
    } else {
      var f' := ActAll(p, f, Poll(answers[0]));
      PollGains(p, f, answers[0], target);
      ActAllConcat(p, f, Poll(answers[0]), Polls(answers[1..]));
      EnoughPollsLeft(f.cursor, f'.cursor, |answers|, p.maxBlocksPerScan, target);
      CatchUpIsBounded(p, f', answers[1..], target);
    }
  }

  lemma EnoughPollsLeft(cursor: nat, next: nat, polls: nat, range: nat, target: nat)
    requires polls > 0 && cursor + polls * (range + 1) > target
    requires next > target || next == cursor + range + 1
    ensures next + (polls - 1) * (range + 1) > target
  {
    assert polls * (range + 1) == (polls - 1) * (range + 1) + (range + 1);
  }

  // ---------------------------------------------------------------- pruning along the stream

  /** What the verifier passes to `Advance` after a message with this count: wraps around at 0. */
  function PruneIndex(delayedMessagesRead: nat): nat {
    Sub64(delayedMessagesRead, 1)
  }

  /**
    Along a stream of messages with these counts of delayed messages read: the count never falls, and
    a delayed message raises it by one, consuming the message with index one less than its count.
  */
  ghost predicate CountsDelayed(counts: seq<nat>, delayed: seq<bool>) {
    && |delayed| == |counts|
    && (forall i :: 0 <= i < |counts| ==> counts[i] < TWO_64)
    && (forall i :: 0 < i < |counts| ==>
          counts[i - 1] <= counts[i] && (delayed[i] ==> counts[i] == counts[i - 1] + 1))
  }

  lemma {:induction false} CountsClimb(counts: seq<nat>, delayed: seq<bool>, i: nat, j: nat)
    requires CountsDelayed(counts, delayed) && i <= j < |counts|
    ensures counts[i] <= counts[j]
    ensures i < j && delayed[j] ==> counts[i] < counts[j]
    decreases j
  {
    if i == j {
    } else {
      CountsClimb(counts, delayed, i, j - 1);
    }
  }

  /** Pruning after position i leaves every cached entry that a later delayed message needs. */
  ghost predicate Spares(f: Fetcher, counts: seq<nat>, delayed: seq<bool>, i: nat)
    requires |delayed| == |counts| && i < |counts|
  {
    forall j :: i < j < |counts| && delayed[j] && counts[j] > 0 && counts[j] - 1 in f.cache ==>
      counts[j] - 1 in Prune(f, PruneIndex(counts[i])).cache
  }

  /**
    Whatever is cached, pruning spares what later messages need exactly when the count at i is not 0
    or nothing delayed follows: at 0 the index wraps around and the whole cache goes.
  */
  lemma PruningSparesLaterMessagesIff(counts: seq<nat>, delayed: seq<bool>, i: nat)
    requires CountsDelayed(counts, delayed) && i < |counts|
    ensures (forall f :: Spares(f, counts, delayed, i)) <==>
            counts[i] != 0 || forall j :: i < j < |counts| ==> !delayed[j]
  {
    forall j | i < j < |counts| && delayed[j] ensures counts[i] < counts[j] {
      CountsClimb(counts, delayed, i, j);
    }
    if j :| i < j < |counts| && delayed[j] && counts[i] == 0 {
      var f := Fetcher(map[counts[j] - 1 := Entry([], 0, counts[j] - 1, 0)], 0, None);
      assert counts[j] - 1 in f.cache && counts[j] - 1 !in Prune(f, PruneIndex(0)).cache;
      assert !Spares(f, counts, delayed, i);
    }
  }
}
