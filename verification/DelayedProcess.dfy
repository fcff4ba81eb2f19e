/**
  The delayed-message fetcher's object, method by method, against the functions of
  `DelayedFetcher`.  The poller's local variables are the field `scan`, so that its locked steps
  can be interleaved with the verifier's calls.
*/
module DelayedProcess {
  import opened Common
  import Spec = DelayedFetcher

  class DelayedMessageFetcher {
    const params: Spec.Params
    var delayedMessages: map<nat, Spec.Entry>
    var parentBlockNumber: nat
    var scan: Option<Spec.Scan>

    ghost function View(): Spec.Fetcher
      reads this
    {
      Spec.Fetcher(delayedMessages, parentBlockNumber, scan)
    }

    ghost predicate Valid()
      reads this
    {
      Spec.KeysAreIndices(View())
    }

    constructor (keccak: Bytes -> nat, maxBlocksPerScan: nat, waitForFinality: bool, finalized: nat)
      ensures Valid() && View() == Spec.New(finalized)
      ensures params == Spec.Params(keccak, params.maxBlocksPerScan, waitForFinality)
      ensures params.maxBlocksPerScan == if maxBlocksPerScan == 0 then 10000 else maxBlocksPerScan
    {
      var range := maxBlocksPerScan;
      if range == 0 {
        range := Spec.DEFAULT_MAX_BLOCKS_PER_SCAN;
      }
      var startBlock := 0;
      if finalized > Spec.START_BLOCK_LOOKBACK {
        startBlock := finalized - Spec.START_BLOCK_LOOKBACK;
      }
      this.params := Spec.Params(keccak, range, waitForFinality);
      this.delayedMessages := map[];
      this.parentBlockNumber := startBlock;
      this.scan := None;
    }

    // -------------------------------------------------------------- the poller's goroutine

    method BeginPoll(latest: nat, finalized: nat)
      requires scan.None?
      modifies this`scan
      ensures View() == Spec.Act(params, old(View()), Spec.Begin(latest, finalized))
      ensures scan.Some? <==> parentBlockNumber <= latest
      ensures scan.Some? ==> scan.value == Spec.Scan(parentBlockNumber, scan.value.end, finalized, None)
    {
      var endBlock := latest;
      var startBlock := parentBlockNumber;
      if startBlock > endBlock {
        return;
      }
      if Spec.Sub64(endBlock, startBlock) >= params.maxBlocksPerScan {
        endBlock := Spec.Add64(startBlock, params.maxBlocksPerScan);
      }
      scan := Some(Spec.Scan(startBlock, endBlock, finalized, None));
    }

    /** One turn of `extractInboxData`; false is the error that ends the poll. */
    method StoreInboxLog(log: Spec.InboxLog) returns (ok: bool)
      requires Valid() && scan.Some?
      modifies this
      ensures Valid()
      ensures View() == Spec.Act(params, old(View()), Spec.Put(log)) && (ok <==> scan.Some?)
      ensures var current := old(scan.value);
              && (ok <==> && log.InboxLog? && current.bridge.Some? && log.index in current.bridge.value
                          && current.bridge.value[log.index].dataHash == params.keccak(log.data))
              && delayedMessages ==
                 if ok then old(delayedMessages)[log.index := Spec.Entry(log.data, log.block, log.index, current.finalized)]
                 else old(delayedMessages)
    {
      ok := false;
      var current := scan.value;
      scan := None;
      if log.Unparsable? || current.bridge.None? {
        return;
      }
      var dataHashes := current.bridge.value;
      if log.index !in dataHashes {
        return;
      }
      if params.keccak(log.data) != dataHashes[log.index].dataHash {
        return;
      }
      delayedMessages := delayedMessages[log.index := Spec.Entry(log.data, log.block, log.index, current.finalized)];
      scan := Some(current);
      ok := true;
    }

    method UpdateParentBlockNumber(previous: nat, target: nat)
      modifies this`parentBlockNumber
      ensures parentBlockNumber == if old(parentBlockNumber) == previous then target else old(parentBlockNumber)
    {
      if parentBlockNumber != previous {
        return;
      }
      parentBlockNumber := target;
    }

    method CommitPoll()
      requires Valid() && scan.Some?
      modifies this
      ensures Valid()
      ensures View() == Spec.Act(params, old(View()), Spec.Commit)
    {
      UpdateParentBlockNumber(scan.value.start, Spec.Add64(scan.value.end, 1));
      scan := None;
    }

    /** One locked action of the poller. */
    method DoAction(a: Spec.Action)
      requires Valid()
      modifies this
      ensures Valid()
      ensures View() == Spec.Act(params, old(View()), a)
    {
      if scan.None? {
        if a.Begin? {
          BeginPoll(a.latest, a.finalized);
        }
        return;
      }
      match a {
        case Begin(_, _) =>
        case Read(events) => scan := Some(scan.value.(bridge := Some(events)));
        case Put(log) => var _ := StoreInboxLog(log);
        case Commit => CommitPoll();
        case Abort => scan := None;
      }
    }

    method Interleave(actions: seq<Spec.Action>)
      requires Valid()
      modifies this
      ensures Valid()
      ensures View() == Spec.ActAll(params, old(View()), actions)
    {
      for i := 0 to |actions|
        invariant Valid()
        invariant Spec.ActAll(params, View(), actions[i..]) == Spec.ActAll(params, old(View()), actions)
      {
        assert actions[i..][1..] == actions[i + 1..];
        DoAction(actions[i]);
      }
    }

    /** A whole poll with nothing in between, in which L1 answered every query. */
    method Poll(latest: nat, finalized: nat, events: Spec.Chain, logs: seq<Spec.InboxLog>)
      requires Valid() && scan.None?
      modifies this
      ensures Valid() && scan.None?
      ensures View() == Spec.ActAll(params, old(View()), Spec.PollActions(latest, finalized, events, logs))
    {
      ghost var actions := Spec.PollActions(latest, finalized, events, logs);
      assert actions[1..][1..] == Spec.PutsThenCommit(logs);
      BeginPoll(latest, finalized);
      ghost var begun := View();
      assert Spec.ActAll(params, old(View()), actions) == Spec.ActAll(params, begun, actions[1..]);
      if scan.None? {
        Spec.PutsNeverBegin(logs);
        Spec.IdleUntilBegin(params, begun, actions[1..]);
        return;
      }
      scan := Some(scan.value.(bridge := Some(events)));
      ExtractInboxData(logs);
    }

    /** `extractInboxData`, and the move past the window when no log is refused. */
    method ExtractInboxData(logs: seq<Spec.InboxLog>)
      requires Valid() && scan.Some?
      modifies this
      ensures Valid() && scan.None?
      ensures View() == Spec.ActAll(params, old(View()), Spec.PutsThenCommit(logs))
    {
      for i := 0 to |logs|
        invariant Valid() && scan.Some?
        invariant Spec.ActAll(params, View(), Spec.PutsThenCommit(logs[i..])) ==
                  Spec.ActAll(params, old(View()), Spec.PutsThenCommit(logs))
      {
        ghost var rest := logs[i + 1..];
        assert logs[i..][1..] == rest;
        assert Spec.PutsThenCommit(logs[i..])[1..] == Spec.PutsThenCommit(rest);
        var ok := StoreInboxLog(logs[i]);
        if !ok {
          Spec.PutsNeverBegin(rest);
          Spec.IdleUntilBegin(params, View(), Spec.PutsThenCommit(rest));
          return;
        }
      }
      ghost var last := View();
      CommitPoll();
      assert Spec.ActAll(params, last, [Spec.Commit]) == Spec.Act(params, last, Spec.Commit);
    }

    // -------------------------------------------------------------- the verifier's goroutine

    method Rewind(msg: Spec.Entry)
      modifies this
      ensures Valid() && View() == Spec.Rewind(old(View()), msg)
    {
      delayedMessages := map[];
      parentBlockNumber := msg.finalized;
    }

    /** The poller goes on in between: `during` are its actions while L1 is being asked. */
    method GetDelayedMessage(index: nat, during: seq<Spec.Action>, probe: Spec.Probe) returns (reply: Spec.Reply)
      requires Valid()
      modifies this
      ensures Valid()
      ensures (View(), reply) == Spec.GetDelayed(params, old(View()), index, during, probe)
      ensures Spec.RepliesExactly(params, old(View()), index, probe, reply)
      ensures reply.Data? ==> Spec.Vouched(params, index, reply.data, probe)
    {
      ghost var before := View();
      Spec.GetDelayedExactly(params, before, index, during, probe);
      var msg: Option<Spec.Entry> := None;
      if index in delayedMessages {
        msg := Some(delayedMessages[index]);
      }
      Interleave(during);
      Spec.DelayedMessageIsVouched(params, before, index, during, probe);
      if msg.None? {
        return Spec.NotFound;
      }
      if probe.chain.None? {
        return Spec.RpcError;
      }
      if !Spec.OnChain(params, probe.chain.value, msg.value) {
        Rewind(msg.value);
        return Spec.NotFound;
      }
      if params.waitForFinality {
        if probe.finalized.None? {
          return Spec.RpcError;
        }
        if msg.value.block > probe.finalized.value {
          return Spec.NotFinalized;
        }
      }
      return Spec.Data(msg.value.data);
    }

    /** The indices to delete, after one 0 for every cached entry. */
    method IndicesUpTo(toMessageIndex: nat) returns (toDelete: seq<nat>)
      requires Valid()
      ensures forall i :: 0 <= i < |toDelete| ==> toDelete[i] <= toMessageIndex
      ensures forall k :: k in delayedMessages && k <= toMessageIndex ==> k in toDelete
    {
      toDelete := seq(|delayedMessages|, _ => 0);
      var todo := delayedMessages.Keys;
      while todo != {}
        invariant todo <= delayedMessages.Keys
        invariant forall i :: 0 <= i < |toDelete| ==> toDelete[i] <= toMessageIndex
        invariant forall k :: k in delayedMessages && k !in todo && k <= toMessageIndex ==> k in toDelete
        decreases |todo|
      {
        var key :| key in todo;
        todo := todo - {key};
        var msg := delayedMessages[key];
        if msg.index <= toMessageIndex {
          toDelete := toDelete + [msg.index];
        }
      }
    }

    method Delete(indices: seq<nat>)
      modifies this`delayedMessages
      ensures delayedMessages == map k | k in old(delayedMessages) && k !in indices :: old(delayedMessages)[k]
    {
      for i := 0 to |indices|
        invariant delayedMessages == map k | k in old(delayedMessages) && k !in indices[..i] :: old(delayedMessages)[k]
      {
        assert indices[..i + 1] == indices[..i] + [indices[i]];
        delayedMessages := delayedMessages - {indices[i]};
      }
      assert indices[..|indices|] == indices;
    }

    /**
      Removes exactly the entries at or below an index: the padding of the list deletes nothing above
      it, because every key is its entry's index.
    */
    method Advance(toMessageIndex: nat)
      requires Valid()
      modifies this`delayedMessages
      ensures Valid() && View() == Spec.Prune(old(View()), toMessageIndex)
    {
      if |delayedMessages| == 0 {
        assert delayedMessages == map[];
        return;
      }
      var toDelete := IndicesUpTo(toMessageIndex);
      Delete(toDelete);
      assert delayedMessages == Spec.Prune(old(View()), toMessageIndex).cache;
    }
  }
}
