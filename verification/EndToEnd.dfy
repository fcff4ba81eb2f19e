/**
  What a client of the proxy sees: the codec, the interceptor, the store and a verifier's run together.
*/
module EndToEnd {
  import opened Common
  import S = Store
  import C = Codec
  import I = Interceptor
  import J = Json
  import Op = OpVerifier
  import OpB = OpBlocks
  import Nitro = NitroVerifier

  /** What a node of the params becomes: the tag becomes a string that reads as n, and nothing else changes. */
  predicate TagBecomes(was: Option<J.Json>, now: Option<J.Json>, tag: string, n: nat) {
    if was == Some(J.Str(tag)) then now.Some? && now.value.Str? && J.ReadsAs(now.value.s, n)
    else J.Becomes(was, now, tag, tag)
  }

  /**
    The object is forwarded with the same members; those other than "params" are as they were, and in
    the params, at every path, just the tag is replaced, by the number of this state.  With no number
    known nothing changes at all.
  */
  ghost predicate ForwardedWith(mem: S.State, ms: C.Members, tag: string, maxBatch: int) {
    var all := C.AsMap(ms);
    var r := C.PerformRequestIntercept(C.One(ms), tag, maxBatch, mem);
    if S.Known(mem) && C.ParamsTooDeep(all) then r == I.Err(I.TooDeep)
    else
      && r.Ok? && r.value.OneOut? && r.value.body.Keys == all.Keys
      && (!S.Known(mem) ==> r.value.body == all)
      && (forall k :: k in all && k != "params" ==> r.value.body[k] == all[k])
      && (S.Known(mem) && "params" in all ==>
            forall path :: TagBecomes(J.At(all["params"], path), J.At(r.value.body["params"], path), tag, mem.l2))
  }

  lemma WellFormedIsForwarded(mem: S.State, ms: C.Members, tag: string, maxBatch: int)
    requires C.WellFormed(ms)
    ensures ForwardedWith(mem, ms, tag, maxBatch)
  {
    C.SingleRequestIsTransparent(ms, tag, maxBatch, mem);
    var all := C.AsMap(ms);
    if S.Known(mem) && "params" in all && !C.ParamsTooDeep(all) {
      var params, hex := all["params"], J.Hex(mem.l2);
      J.HexReadsBack(mem.l2);
      forall path ensures TagBecomes(J.At(params, path), J.At(J.Subst(params, tag, hex), path), tag, mem.l2) {
        J.SubstReplacesTheTag(params, tag, hex, path);
      }
    }
  }

  /**
    At any point j of any run of the OP verifier a well-formed request is forwarded with the stored
    number; that number is at least the one at any earlier point i; and every number up to it, above the
    first start's, had by then been verified against the full node or lay at or below a jump to Ethereum finality.
  */
  lemma {:induction false} OpClientsSeeSettledNumbers(
      c: OpB.Codecs, headers: set<OpB.Header>, file: S.State, events: seq<Op.Event>, i: nat, j: nat,
      ms: C.Members, tag: string, maxBatch: int, n: nat)
    requires OpB.Ideal(c) && Op.WellNumbered(c, headers) && Op.Environment(c, headers, Op.Init(file), events, false)
    requires i <= j <= |events| && C.WellFormed(ms)
    ensures ForwardedWith(Op.Run(c, Op.Init(file), events[..j]).cell.mem, ms, tag, maxBatch)
    ensures Op.Run(c, Op.Init(file), events[..i]).cell.mem.l2 <= Op.Run(c, Op.Init(file), events[..j]).cell.mem.l2
    ensures var s := Op.Run(c, Op.Init(file), events[..j]);
            file.l2 < n <= s.cell.mem.l2 ==> Op.VerifiedAt(c, s, events[..j], n) || Op.FinalizedAt(s, events[..j], n)
  {
    var mem := Op.Run(c, Op.Init(file), events[..j]).cell.mem;
    WellFormedIsForwarded(mem, ms, tag, maxBatch);
    Op.StoredNumberNeverDecreases(c, file, events, i, j);
    Op.EnvironmentBefore(c, headers, Op.Init(file), events, j, false);
    if file.l2 < n <= mem.l2 {
      Op.EveryStoredNumberIsCovered(c, headers, file, events[..j], n);
    }
  }

  /** The same for the Nitro verifier, with nothing assumed of feed, poller, disk or L1. */
  lemma {:induction false} NitroClientsSeeSettledNumbers(
      env: Nitro.Env, file: S.State, l1Finalized: nat, events: seq<Nitro.Event>, i: nat, j: nat,
      ms: C.Members, tag: string, maxBatch: int, n: nat)
    requires i <= j <= |events| && C.WellFormed(ms)
    ensures ForwardedWith(Nitro.Run(env, Nitro.Init(file, l1Finalized), events[..j]).cell.mem, ms, tag, maxBatch)
    ensures Nitro.Run(env, Nitro.Init(file, l1Finalized), events[..i]).cell.mem.l2
         <= Nitro.Run(env, Nitro.Init(file, l1Finalized), events[..j]).cell.mem.l2
    ensures var s := Nitro.Run(env, Nitro.Init(file, l1Finalized), events[..j]);
            file.l2 < n <= s.cell.mem.l2 ==> Nitro.VerifiedAt(env, s, n) || Nitro.FinalizedAt(s, events[..j], n)
  {
    var s := Nitro.Run(env, Nitro.Init(file, l1Finalized), events[..j]);
    WellFormedIsForwarded(s.cell.mem, ms, tag, maxBatch);
    Nitro.StoredNumberNeverDecreases(env, file, l1Finalized, events, i, j);
    if file.l2 < n <= s.cell.mem.l2 {
      Nitro.EveryPositionIsVerifiedOrFinal(env, file, l1Finalized, events[..j], n);
    }
  }
}
