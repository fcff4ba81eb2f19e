/**
  The OP verifier's object (verifier/op/op_verifier.go), method by method, against the tick
  function of `OpVerifier`.
*/
module OpProcess {
  import opened Common
  import opened OpBlocks
  import Spec = OpVerifier
  import S = Store

  datatype Peek = PeekFailed | NothingToPeek | Fork | Peeked(batch: Batch)

  class OPEspressoBatchVerifier {
    const codecs: Codecs
    const store: S.EspressoStore
    var tip: Hash
    var ethOrigin: nat
    ghost var up: bool
    ghost var log: seq<Spec.Evidence>

    ghost predicate Valid()
      reads this, store, store.disk
    {
      up && store.Valid() && Ideal(codecs)
    }

    ghost function View(): Spec.Op
      reads this, store, store.disk
      requires store.Valid()
    {
      Spec.Op(up, store.View(), tip, ethOrigin, log)
    }

    constructor (codecs: Codecs, store: S.EspressoStore)
      requires Ideal(codecs) && store.Valid() && store.state == store.View().file
      ensures Valid() && this.codecs == codecs && this.store == store
      ensures View() == Spec.Init(store.state)
      ensures tip == NO_HASH && ethOrigin == 0
    {
      this.codecs := codecs;
      this.store := store;
      this.tip := NO_HASH;
      this.ethOrigin := 0;
      this.up := true;
      this.log := [Spec.Started(store.state.l2)];
    }

    method PeekNextBatch(a: Spec.Attempt) returns (p: Peek)
      requires Valid()
      ensures p.Peeked? <==> a.Offer? && Spec.Chains(tip, a.batch.header)
      ensures p.Peeked? ==> p.batch == a.batch
      ensures p.Fork? <==> a.Offer? && !Spec.Chains(tip, a.batch.header)
    {
      match a {
        case StreamerError => return PeekFailed;
        case Cancelled => return NothingToPeek;
        case NoBatch => return NothingToPeek;
        case Offer(batch, _) =>
          if tip == NO_HASH {
            return Peeked(batch);
          }
          if batch.header.parent != tip {
            return Fork;
          }
          return Peeked(batch);
      }
    }

    method VerifyNextBatch(a: Spec.Attempt) returns (verified: Option<Batch>)
      requires Valid()
      ensures verified.Some? <==> Spec.Takes(codecs, tip, a)
      ensures verified.Some? ==> verified.value == a.batch
    {
      var peeked := PeekNextBatch(a);
      if !peeked.Peeked? || a.node.None? {
        return None;
      }
      var accepted := CompareWithNode(codecs, peeked.batch, a.node.value);
      if !accepted {
        return None;
      }
      return Some(peeked.batch);
    }

    method DrainAndVerifyBatches(script: seq<Spec.Attempt>) returns (last: Option<Batch>, cancelled: bool)
      requires Valid()
      modifies this
      ensures Valid()
      ensures Spec.Drained(View(), last, cancelled) == Spec.Drain(codecs, old(View()), script, None)
    {
      last, cancelled := None, false;
      var i := 0;
      while i < |script|
        invariant 0 <= i <= |script| && Valid()
        invariant Spec.Drain(codecs, View(), script[i..], last) == Spec.Drain(codecs, old(View()), script, None)
      {
        assert script[i..][1..] == script[i + 1..];
        if script[i].Cancelled? {
          last, cancelled := None, true;
          return;
        }
        var batch := VerifyNextBatch(script[i]);
        if batch.None? {
          return;
        }
        log := log + [Spec.Verified(batch.value, script[i].node.value)];
        tip := codecs.hash(batch.value.header);
        ethOrigin := batch.value.l1Origin;
        last := batch;
        i := i + 1;
      }
    }

    method SyncEspressoStateWithEthereumFinality(snap: Spec.Snapshot, pos: nat, now: nat, io: S.Io)
      returns (v: S.Verdict)
      requires Valid()
      modifies this, store, store.disk
      ensures store.Valid() && (up <==> !v.Crashed?)
      ensures (View(), v) == Spec.Sync(codecs, old(View()), snap, pos, now, io)
    {
      if snap.l2.number <= store.state.l2 {
        return S.NotGreater;
      }
      v := store.UpdateIfGreater(snap.l2.number, pos, now, io);
      if v.WriteFailed? {
        return;
      }
      log := log + [Spec.Jumped(snap.l2)];
      if v.Crashed? {
        up := false;
        return;
      }
      tip := codecs.hash(snap.l2);
      ethOrigin := snap.l1Origin;
    }

    method VerifyAndAdvance(t: Spec.Tick) returns (outcome: Spec.Outcome)
      requires Valid()
      modifies this, store, store.disk
      ensures store.Valid() && (up <==> !outcome.Crashed?)
      ensures (View(), outcome) == Spec.VerifyAndAdvance(codecs, old(View()), t)
      ensures outcome.Advanced? ==>
                && store.state.fallback == t.pos && store.state.updatedAt == t.now
                && store.disk.file == Some(store.state)
    {
      if t.snapshot.None? {
        return Spec.NoSnapshot;
      }
      var v := SyncEspressoStateWithEthereumFinality(t.snapshot.value, t.syncPos, t.syncNow, t.syncIo);
      if v.Crashed? {
        return Spec.Crashed;
      }
      if v.WriteFailed? {
        return Spec.SyncFailed;
      }
      if ethOrigin == 0 {
        ethOrigin := t.snapshot.value.l1Origin;
      }
      if !t.refreshed {
        return Spec.RefreshFailed;
      }
      var last, cancelled := DrainAndVerifyBatches(t.script);
      if cancelled || t.cancelled {
        return Spec.TickCancelled;
      }
      if last.None? {
        return Spec.NothingVerified;
      }
      v := store.UpdateIfGreater(last.value.header.number, t.pos, t.now, t.io);
      match v {
        case Updated => return Spec.Advanced;
        case NotGreater => return Spec.NotGreater;
        case WriteFailed => return Spec.WriteFailed;
        case Crashed =>
          up := false;
          return Spec.Crashed;
      }
    }
  }
}
