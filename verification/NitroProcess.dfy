/**
  The Nitro verifier's object (verifier/nitro/nitro_verifier.go), method by method, against the tick
  function of `NitroVerifier`.  `Background` lets the feed reader and the poller run on where the code
  can be preempted.
*/
module NitroProcess {
  import opened Common
  import Spec = NitroVerifier
  import S = Store
  import F = Feed
  import D = DelayedFetcher
  import P = DelayedProcess

  /** The streamer: a cursor over what Espresso finalized, and payloads written into peeked messages. */
  class EspressoStreamer {
    const content: nat -> F.Msg
    const height: nat -> nat
    var cursor: nat
    var written: map<nat, Bytes>

    constructor (content: nat -> F.Msg, height: nat -> nat, start: nat)
      ensures this.content == content && this.height == height && cursor == start && written == map[]
    {
      this.content := content;
      this.height := height;
      this.cursor := start;
      this.written := map[];
    }

    method AdvanceTo(pos: nat, lowers: bool)
      modifies this`cursor
      ensures cursor == if pos >= old(cursor) || lowers then pos else old(cursor)
    {
      if pos >= cursor || lowers {
        cursor := pos;
      }
    }
  }

  class NitroEspressoBatchVerifier {
    const rlp: F.Msg -> Bytes
    const streamer: EspressoStreamer
    const feedClient: F.FeedClient
    const fetcher: P.DelayedMessageFetcher
    const store: S.EspressoStore
    ghost var up: bool
    ghost var log: seq<Spec.Evidence>
    ghost var heard: set<F.Item>

    ghost function Env(): Spec.Env
    {
      Spec.Env(streamer.content, streamer.height, fetcher.params)
    }

    ghost predicate Valid()
      reads this, fetcher, store, store.disk
    {
      up && store.Valid() && fetcher.Valid() && Injective(rlp)
    }

    ghost function View(): Spec.Nitro
      reads this, streamer, feedClient, fetcher, store, store.disk
      requires store.Valid()
    {
      Spec.Nitro(up, store.View(), streamer.cursor, streamer.written, feedClient.View(), fetcher.View(), log, heard)
    }

    constructor (
      rlp: F.Msg -> Bytes, content: nat -> F.Msg, height: nat -> nat, store: S.EspressoStore,
      keccak: Bytes -> nat, maxBlocksPerScan: nat, waitForFinality: bool, l1Finalized: nat)
      requires Injective(rlp) && store.Valid() && store.state == store.View().file
      ensures Valid() && this.rlp == rlp && this.store == store
      ensures fresh(streamer) && fresh(feedClient) && fresh(fetcher)
      ensures View() == Spec.Init(store.state, l1Finalized)
      ensures streamer.cursor == store.state.l2 + 1 && feedClient.nextSeqNum == store.state.l2
      ensures streamer.written == map[] && feedClient.messages == map[] && fetcher.delayedMessages == map[]
    {
      this.rlp := rlp;
      this.store := store;
      var s := new EspressoStreamer(content, height, store.state.l2 + 1);
      this.streamer := s;
      var f := new F.FeedClient(store.state.l2);
      this.feedClient := f;
      var d := new P.DelayedMessageFetcher(keccak, maxBlocksPerScan, waitForFinality, l1Finalized);
      this.fetcher := d;
      this.up := true;
      this.log := [Spec.Started(store.state.l2)];
      this.heard := {};
    }

    /** The feed reader and the poller take their turns. */
    method Background(bs: seq<Spec.Background>)
      requires Valid()
      modifies this, feedClient, fetcher
      ensures Valid()
      ensures View() == Spec.InBackground(Env(), old(View()), bs)
    {
      for i := 0 to |bs|
        invariant Valid()
        invariant Spec.InBackground(Env(), View(), bs[i..]) == Spec.InBackground(Env(), old(View()), bs)
      {
        assert bs[i..][1..] == bs[i + 1..];
        ghost var before := View();
        match bs[i] {
          case FeedReads(items) =>
            feedClient.Receive(items);
            heard := heard + set x | x in items;
          case PollerActs(a) =>
            fetcher.DoAction(a);
        }
        assert View() == Spec.OneInBackground(Env(), before, bs[i]);
      }
    }

    method EnsureMessagesMatch(espresso: F.Msg, feed: F.Msg) returns (ok: bool)
      requires Valid()
      ensures ok <==> espresso == feed
    {
      ok := rlp(espresso) == rlp(feed);
    }

    /** Writes the payload L1 vouches for into the peeked message, in place, before comparing. */
    method VerifyDelayedMessage(msg: F.Msg, feedMsg: F.Msg, during: seq<D.Action>, probe: D.Probe)
      returns (matched: Option<F.Msg>)
      requires Valid() && msg.l2msg == []
      modifies this, streamer`written, fetcher
      ensures Valid()
      ensures (View(), matched) == Spec.Verify(Env(), old(View()), msg, feedMsg, during, probe)
    {
      if msg.delayedRead != feedMsg.delayedRead {
        return None;
      }
      if msg.delayedRead == 0 {
        return None;
      }
      var index := msg.delayedRead - 1;
      var reply := fetcher.GetDelayedMessage(index, during, probe);
      if !reply.Data? {
        return None;
      }
      log := log + [Spec.Fetched(streamer.cursor, index, reply.data, probe)];
      streamer.written := streamer.written[streamer.cursor := reply.data];
      var filled := msg.(l2msg := reply.data);
      var ok := EnsureMessagesMatch(filled, feedMsg);
      if !ok {
        return None;
      }
      return Some(filled);
    }

    method VerifyMessage(msg: F.Msg, feedMsg: F.Msg, during: seq<D.Action>, probe: D.Probe)
      returns (matched: Option<F.Msg>)
      requires Valid()
      modifies this, streamer`written, fetcher
      ensures Valid()
      ensures (View(), matched) == Spec.Verify(Env(), old(View()), msg, feedMsg, during, probe)
    {
      if |msg.l2msg| == 0 {
        matched := VerifyDelayedMessage(msg, feedMsg, during, probe);
        return;
      }
      var ok := EnsureMessagesMatch(msg, feedMsg);
      if !ok {
        return None;
      }
      return Some(msg);
    }

    method Advance(msg: F.Msg, feedMsg: F.Msg)
      requires Valid()
      modifies this, streamer`cursor, feedClient, fetcher
      ensures Valid()
      ensures View() == Spec.Accept(old(View()), msg, feedMsg)
      ensures streamer.cursor == old(streamer.cursor) + 1 && feedClient.nextSeqNum == old(feedClient.nextSeqNum) + 1
      ensures 0 < msg.delayedRead < D.TWO_64 ==>
                forall i :: i in fetcher.delayedMessages <==> i in old(fetcher.delayedMessages) && i >= msg.delayedRead
    {
      log := log + [Spec.Matched(streamer.cursor, msg, feedMsg)];
      streamer.cursor := streamer.cursor + 1;
      feedClient.Advance();
      fetcher.Advance(D.Sub64(msg.delayedRead, 1));
    }

    /** The body of the drain loop for a message that may be there. */
    method TryNext(a: Spec.Attempt) returns (verified: bool)
      requires Valid() && a.Try?
      modifies this, streamer, feedClient, fetcher
      ensures Valid()
      ensures (View(), verified) == Spec.Turn(Env(), old(View()), a)
    {
      Background(a.before);
      if !a.available {
        return false;
      }
      var pos := streamer.cursor;
      var msg := streamer.content(pos);
      if a.reread && pos in streamer.written {
        msg := msg.(l2msg := streamer.written[pos]);
      }
      var feedMsg := feedClient.GetMessage(pos);
      if feedMsg.None? {
        return false;
      }
      var matched := VerifyMessage(msg, feedMsg.value, a.during, a.probe);
      if matched.None? {
        return false;
      }
      Advance(matched.value, feedMsg.value);
      return true;
    }

    /** One turn of the drain loop, with the rest of its script still to come. */
    method DrainOne(a: Spec.Attempt, ghost rest: seq<Spec.Attempt>, ghost last: Option<nat>) returns (verified: bool)
      requires Valid() && a.Try?
      modifies this, streamer, feedClient, fetcher
      ensures Valid() && (verified ==> streamer.cursor > 0)
      ensures Spec.Drain(Env(), old(View()), [a] + rest, last) ==
              if verified then Spec.Drain(Env(), View(), rest, Some(streamer.cursor - 1))
              else Spec.Drained(View(), last, false)
    {
      ghost var before := View();
      verified := TryNext(a);
      Spec.DrainUnfolds(Env(), before, a, rest, last);
    }

    method DrainAndVerifyMessages(script: seq<Spec.Attempt>) returns (last: Option<nat>, cancelled: bool)
      requires Valid()
      modifies this, streamer, feedClient, fetcher
      ensures Valid()
      ensures Spec.Drained(View(), last, cancelled) == Spec.Drain(Env(), old(View()), script, None)
    {
      last, cancelled := None, false;
      var i := 0;
      while i < |script|
        invariant 0 <= i <= |script| && Valid()
        invariant Spec.Drain(Env(), View(), script[i..], last) == Spec.Drain(Env(), old(View()), script, None)
      {
        if script[i].Cancelled? {
          last, cancelled := None, true;
          return;
        }
        assert [script[i]] + script[i + 1..] == script[i..];
        var verified := DrainOne(script[i], script[i + 1..], last);
        if !verified {
          return;
        }
        last := Some(streamer.cursor - 1);
        i := i + 1;
      }
    }

    method AdvanceTo(pos: nat, lowers: bool)
      requires Valid()
      modifies streamer`cursor, feedClient
      ensures Valid()
      ensures View() == Spec.AdvanceTo(old(View()), pos, lowers)
      ensures streamer.cursor == if lowers || pos >= old(streamer.cursor) then pos else old(streamer.cursor)
      ensures feedClient.nextSeqNum == pos
      ensures forall k :: k in feedClient.messages <==>
                k in old(feedClient.messages) && !(old(feedClient.nextSeqNum) <= k < pos)
    {
      streamer.AdvanceTo(pos, lowers);
      feedClient.AdvanceTo(pos);
    }

    method SyncEspressoStateWithNitroFinality(t: Spec.Tick) returns (v: S.Verdict)
      requires Valid()
      modifies this, streamer`cursor, feedClient, store, store.disk
      ensures store.Valid() && fetcher.Valid() && (up <==> !v.Crashed?)
      ensures (View(), v) == Spec.Sync(old(View()), t)
    {
      var finalized := 0;
      if t.snapshot.Some? {
        finalized := t.snapshot.value;
      }
      if finalized <= store.state.l2 {
        return S.NotGreater;
      }
      v := store.UpdateIfGreater(finalized, t.syncHeight, t.syncNow, t.syncIo);
      if v.WriteFailed? {
        return;
      }
      log := log + [Spec.Jumped(finalized)];
      if v.Crashed? {
        up := false;
        return;
      }
      AdvanceTo(finalized + 1, t.syncLowers);
    }

    method StoreVerified(last: Option<nat>, t: Spec.Tick) returns (outcome: Spec.Outcome)
      requires Valid()
      modifies this, streamer`cursor, feedClient, store, store.disk
      ensures store.Valid() && (up <==> !outcome.Crashed?)
      ensures (View(), outcome) == Spec.Settle(Env(), old(View()), last, t)
    {
      if last.None? {
        return Spec.NothingVerified;
      }
      var state := store.state;
      var v := store.UpdateIfGreater(last.value, streamer.height(last.value), t.now, t.io);
      match v {
        case Updated => return Spec.Advanced;
        case WriteFailed => return Spec.WriteFailed;
        case Crashed =>
          up := false;
          return Spec.Crashed;
        case NotGreater =>
          AdvanceTo(state.l2 + 1, t.lowers);
          return Spec.NotGreater;
      }
    }

    method VerifyAndAdvance(t: Spec.Tick) returns (outcome: Spec.Outcome)
      requires Valid()
      modifies this, streamer, feedClient, fetcher, store, store.disk
      ensures store.Valid() && (up <==> !outcome.Crashed?)
      ensures (View(), outcome) == Spec.VerifyAndAdvance(Env(), old(View()), t)
    {
      var last, cancelled := DrainAndVerifyMessages(t.script);
      if cancelled || t.cancelled {
        return Spec.TickCancelled;
      }
      Background(t.mid);
      var v := SyncEspressoStateWithNitroFinality(t);
      if v.WriteFailed? {
        return Spec.SyncFailed;
      }
      if v.Crashed? {
        return Spec.Crashed;
      }
      outcome := StoreVerified(last, t);
    }
  }
}
