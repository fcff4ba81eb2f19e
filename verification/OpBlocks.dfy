/**
  Comparing the block Espresso finalized with the one the full node produced
  (verifier/op/utils.go, ensureBlocksMatch in verifier/op/op_verifier.go).
*/
module OpBlocks {
  import opened Common

  /** A 32-byte hash read as a number; 0 is the unset hash. */
  type Hash = nat

  const NO_HASH: Hash := 0
  const DEPOSIT_TYPE: nat := 0x7E

  datatype Tx = Tx(txType: nat, payload: Bytes) {
    predicate IsDeposit() { txType == DEPOSIT_TYPE }
  }

  datatype Header = Header(number: nat, parent: Hash, rest: Bytes)

  datatype Block = Block(header: Header, txs: seq<Tx>, uncles: seq<Header>, withdrawals: seq<Bytes>)

  datatype Batch = Batch(header: Header, l1InfoDeposit: Tx, opaqueTxs: seq<Bytes>, l1Origin: nat)

  /** Header hashing, block RLP and transaction decoding, as the libraries provide them. */
  datatype Codecs = Codecs(hash: Header -> Hash, rlp: Block -> Bytes, decodeTx: Bytes -> Option<Tx>)

  /** What is assumed of them: collision-free hashes that are never zero, and an injective RLP. */
  ghost predicate Ideal(c: Codecs) {
    && Injective(c.hash)
    && Injective(c.rlp)
    && forall h :: c.hash(h) != NO_HASH
  }

  // ---------------------------------------------------------------- the comparable transactions

  function NonDeposits(txs: seq<Tx>): seq<Tx> {
    if txs == [] then []
    else NonDeposits(txs[..|txs| - 1]) + (if txs[|txs| - 1].IsDeposit() then [] else [txs[|txs| - 1]])
  }

  lemma {:induction false} NonDepositsHaveNoDeposit(txs: seq<Tx>)
    ensures forall i :: 0 <= i < |NonDeposits(txs)| ==> !NonDeposits(txs)[i].IsDeposit()
  {
    if txs == [] {
    } else {
      NonDepositsHaveNoDeposit(txs[..|txs| - 1]);
    }
  }

  lemma {:induction false} NonDepositsLength(txs: seq<Tx>)
    ensures |NonDeposits(txs)| <= |txs|
    ensures |NonDeposits(txs)| == |txs| ==> NonDeposits(txs) == txs
  {
    if txs == [] {
    } else {
      var n := |txs| - 1;
      NonDepositsLength(txs[..n]);
      if !txs[n].IsDeposit() && |NonDeposits(txs[..n])| == n {
        assert NonDeposits(txs) == txs[..n] + [txs[n]] == txs;
      }
    }
  }

  /** Increasing positions: those, and only those, of the transactions after the first that are no deposits. */
  ghost predicate PicksNonDeposits(idx: seq<nat>, txs: seq<Tx>) {
    && (forall a, b :: 0 <= a < b < |idx| ==> idx[a] < idx[b])
    && (forall k :: 0 <= k < |idx| ==> 1 <= idx[k] < |txs| && !txs[idx[k]].IsDeposit())
    && (forall i :: 1 <= i < |txs| && !txs[i].IsDeposit() ==> i in idx)
  }

  /** `kept` are the transactions at these positions, in order. */
  predicate StandAt(kept: seq<Tx>, idx: seq<nat>, txs: seq<Tx>) {
    |kept| == |idx| && forall k :: 0 <= k < |idx| ==> idx[k] < |txs| && kept[k] == txs[idx[k]]
  }

  /** Positions for a block whose last transaction is no deposit end with it. */
  lemma PicksEndWithLast(idx: seq<nat>, txs: seq<Tx>)
    requires |txs| > 1 && !txs[|txs| - 1].IsDeposit() && PicksNonDeposits(idx, txs)
    ensures idx != [] && idx[|idx| - 1] == |txs| - 1
  {
    var k :| 0 <= k < |idx| && idx[k] == |txs| - 1;
    assert idx[k] <= idx[|idx| - 1] < |txs|;
  }

  lemma PicksBefore(idx: seq<nat>, rest: seq<nat>, txs: seq<Tx>)
    requires |txs| > 1 && PicksNonDeposits(idx, txs)
    requires if txs[|txs| - 1].IsDeposit() then rest == idx else idx == rest + [|txs| - 1]
    ensures PicksNonDeposits(rest, txs[..|txs| - 1])
  {
    var n := |txs| - 1;
    forall k | 0 <= k < |rest| ensures 1 <= rest[k] < n && !txs[rest[k]].IsDeposit() {
      assert rest[k] == idx[k] && (|rest| < |idx| ==> idx[k] < idx[|rest|]);
    }
    forall a, b | 0 <= a < b < |rest| ensures rest[a] < rest[b] {
      assert idx[a] < idx[b];
    }
  }

  lemma NonDepositsStep(txs: seq<Tx>)
    requires |txs| > 1
    ensures var n := |txs| - 1;
            NonDeposits(txs[1..]) == NonDeposits(txs[..n][1..]) + (if txs[n].IsDeposit() then [] else [txs[n]])
  {
    assert txs[1..][..|txs| - 2] == txs[..|txs| - 1][1..];
  }

  /** Whatever such positions are given, the non-deposits are what stands there. */
  lemma {:induction false} NonDepositsStandAt(idx: seq<nat>, txs: seq<Tx>)
    requires txs != [] && PicksNonDeposits(idx, txs)
    ensures StandAt(NonDeposits(txs[1..]), idx, txs)
    decreases |txs|
  {
    var n := |txs| - 1;
    if n == 0 {
      assert idx == [];
    } else {
      var rest := idx;
      if !txs[n].IsDeposit() {
        PicksEndWithLast(idx, txs);
        rest := idx[..|idx| - 1];
        assert idx == rest + [n];
      }
      PicksBefore(idx, rest, txs);
      NonDepositsStep(txs);
      NonDepositsStandAt(rest, txs[..n]);
    }
  }

  lemma {:induction false} NonDepositPositions(txs: seq<Tx>) returns (idx: seq<nat>)
    requires txs != []
    ensures PicksNonDeposits(idx, txs)
    decreases |txs|
  {
    var n := |txs| - 1;
    idx := [];
    if n > 0 {
      idx := NonDepositPositions(txs[..n]);
      assert forall i :: 1 <= i < n ==> txs[..n][i] == txs[i];
      if !txs[n].IsDeposit() {
        var more := idx + [n];
        assert more[|idx|] == n;
        assert forall k :: 0 <= k < |idx| ==> more[k] == idx[k];
        idx := more;
      }
    }
  }

  /** `kept` are the first transaction and every later one that is no deposit, in order. */
  ghost predicate DropsUserDeposits(txs: seq<Tx>, kept: seq<Tx>) {
    if txs == [] then kept == []
    else kept != [] && kept[0] == txs[0] && exists idx :: PicksNonDeposits(idx, txs) && StandAt(kept[1..], idx, txs)
  }

  lemma ComparableDropsUserDeposits(b: Block)
    ensures DropsUserDeposits(b.txs, Comparable(b).txs)
  {
    if b.txs != [] {
      var idx := NonDepositPositions(b.txs);
      NonDepositsStandAt(idx, b.txs);
      assert Comparable(b).txs[1..] == NonDeposits(b.txs[1..]);
    }
  }

  /** The block without user deposits: its first transaction and every later non-deposit one. */
  function Comparable(b: Block): Block {
    if b.txs == [] then b else b.(txs := [b.txs[0]] + NonDeposits(b.txs[1..]))
  }

  method FilterUserDeposits(b: Block) returns (r: Block)
    ensures r == Comparable(b)
    ensures r == b.(txs := r.txs) && DropsUserDeposits(b.txs, r.txs)
  {
    r := KeepNonDeposits(b);
    ComparableDropsUserDeposits(b);
  }

  method KeepNonDeposits(b: Block) returns (r: Block)
    ensures r == Comparable(b)
  {
    var txs := b.txs;
    if |txs| == 0 {
      return b;
    }
    var filtered := [txs[0]];
    for i := 1 to |txs|
      invariant filtered == [txs[0]] + NonDeposits(txs[1..i])
    {
      assert txs[1..i + 1][..i - 1] == txs[1..i];
      if txs[i].IsDeposit() {
        continue;
      }
      filtered := filtered + [txs[i]];
    }
    assert txs[1..|txs|] == txs[1..];
    if |filtered| == |txs| {
      NonDepositsLength(txs[1..]);
      assert [txs[0]] + txs[1..] == txs;
      return b;
    }
    return b.(txs := filtered);
  }

  // ---------------------------------------------------------------- the reconstructed block

  predicate Decodes(c: Codecs, opaques: seq<Bytes>, txs: seq<Tx>) {
    |opaques| == |txs| && forall i :: 0 <= i < |opaques| ==> c.decodeTx(opaques[i]) == Some(txs[i])
  }

  method EspressoBatchToBlock(c: Codecs, node: Block, batch: Batch) returns (r: Option<Block>)
    ensures r.Some? <==> exists txs :: Decodes(c, batch.opaqueTxs, txs)
    ensures r.Some? ==>
              && |r.value.txs| > 0
              && r.value == Block(batch.header, [batch.l1InfoDeposit] + r.value.txs[1..], node.uncles, node.withdrawals)
              && Decodes(c, batch.opaqueTxs, r.value.txs[1..])
  {
    var txs := [batch.l1InfoDeposit];
    for i := 0 to |batch.opaqueTxs|
      invariant |txs| == i + 1 && txs[0] == batch.l1InfoDeposit
      invariant forall j :: 0 <= j < i ==> c.decodeTx(batch.opaqueTxs[j]) == Some(txs[1..][j])
    {
      var tx := c.decodeTx(batch.opaqueTxs[i]);
      if tx.None? {
        return None;
      }
      txs := txs + [tx.value];
    }
    assert Decodes(c, batch.opaqueTxs, txs[1..]);
    return Some(Block(batch.header, txs, node.uncles, node.withdrawals));
  }

  predicate EnsureBlocksMatch(c: Codecs, espresso: Block, node: Block) {
    c.hash(espresso.header) == c.hash(node.header) && c.rlp(espresso) == c.rlp(node)
  }

  // ---------------------------------------------------------------- what acceptance means

  /**
    The two sides agree: equal headers, the node's first transaction is the batch's L1-info
    deposit, and its other non-deposit transactions are the batch's, decoded, in order.
  */
  predicate Agrees(c: Codecs, batch: Batch, node: Block) {
    && batch.header == node.header
    && node.txs != []
    && node.txs[0] == batch.l1InfoDeposit
    && Decodes(c, batch.opaqueTxs, NonDeposits(node.txs[1..]))
  }

  /** The same by position in the node's block. */
  ghost predicate AgreesByPosition(c: Codecs, batch: Batch, node: Block) {
    && batch.header == node.header
    && node.txs != [] && node.txs[0] == batch.l1InfoDeposit
    && exists idx :: PicksNonDeposits(idx, node.txs) && DecodesTo(c, batch.opaqueTxs, idx, node.txs)
  }

  predicate DecodesTo(c: Codecs, opaques: seq<Bytes>, idx: seq<nat>, txs: seq<Tx>) {
    |opaques| == |idx| && forall k :: 0 <= k < |idx| ==> idx[k] < |txs| && c.decodeTx(opaques[k]) == Some(txs[idx[k]])
  }

  lemma AgreesIffByPosition(c: Codecs, batch: Batch, node: Block)
    ensures Agrees(c, batch, node) <==> AgreesByPosition(c, batch, node)
  {
    if Agrees(c, batch, node) {
      var idx := NonDepositPositions(node.txs);
      NonDepositsStandAt(idx, node.txs);
      assert DecodesTo(c, batch.opaqueTxs, idx, node.txs);
    }
    if AgreesByPosition(c, batch, node) {
      var idx :| PicksNonDeposits(idx, node.txs) && DecodesTo(c, batch.opaqueTxs, idx, node.txs);
      NonDepositsStandAt(idx, node.txs);
    }
  }

  /** The comparison `VerifyNextBatch` makes accepts a batch exactly when the two sides agree. */
  method CompareWithNode(c: Codecs, batch: Batch, node: Block) returns (accepted: bool)
    requires Ideal(c)
    ensures accepted <==> Agrees(c, batch, node)
    ensures accepted <==> AgreesByPosition(c, batch, node)
  {
    AgreesIffByPosition(c, batch, node);
    var espresso := EspressoBatchToBlock(c, node, batch);
    if espresso.None? {
      return false;
    }
    var comparable := FilterUserDeposits(node);
    accepted := EnsureBlocksMatch(c, espresso.value, comparable);
    MatchIffAgrees(c, batch, node, espresso.value);
  }

  lemma MatchIffAgrees(c: Codecs, batch: Batch, node: Block, espresso: Block)
    requires Ideal(c)
    requires espresso.txs != []
    requires espresso == Block(batch.header, [batch.l1InfoDeposit] + espresso.txs[1..], node.uncles, node.withdrawals)
    requires Decodes(c, batch.opaqueTxs, espresso.txs[1..])
    ensures EnsureBlocksMatch(c, espresso, Comparable(node)) <==> Agrees(c, batch, node)
  {
    if EnsureBlocksMatch(c, espresso, Comparable(node)) {
      assert espresso == Comparable(node);
      assert Comparable(node).txs[1..] == NonDeposits(node.txs[1..]);
    }
    if Agrees(c, batch, node) {
      assert espresso.txs[1..] == NonDeposits(node.txs[1..]);
      assert espresso == Comparable(node);
    }
  }

  /** An accepted batch carries no deposit beside its L1-info one. */
  lemma AcceptedBatchCarriesNoDeposit(c: Codecs, batch: Batch, node: Block)
    requires Agrees(c, batch, node)
    ensures forall i :: 0 <= i < |batch.opaqueTxs| ==>
              c.decodeTx(batch.opaqueTxs[i]).Some? && !c.decodeTx(batch.opaqueTxs[i]).value.IsDeposit()
  {
    NonDepositsHaveNoDeposit(node.txs[1..]);
  }

  /**
    The batch is determined by the node's block up to how its transactions are encoded: two
    batches accepted against one block have the same header, deposit and decoded transactions.
  */
  lemma NodeBlockDeterminesBatch(c: Codecs, a: Batch, b: Batch, node: Block)
    requires Agrees(c, a, node) && Agrees(c, b, node)
    ensures a.header == b.header && a.l1InfoDeposit == b.l1InfoDeposit && |a.opaqueTxs| == |b.opaqueTxs|
    ensures forall i :: 0 <= i < |a.opaqueTxs| ==> c.decodeTx(a.opaqueTxs[i]) == c.decodeTx(b.opaqueTxs[i])
  {
  }
}
