/** Rebuilding the output set from an unordered set of blocks in two passes, against replaying
    the blocks' own deltas in a causal order. */
module LedgerRebuild {
  import opened Common
  import opened Outputs
  import opened BalanceCaches
  import opened UtxoDiff
  import opened UtxoSet

  /** What the submitter of an encrypted transaction says it spends and creates. */
  datatype Delta = Delta(spends: seq<OutputId>, creates: seq<Output>)

  /** `Encrypted` carries its submitter's delta, if any; `Milestone` the node rewards paid when it was
      applied, one place for each node and none where the share was zero. */
  datatype Payload =
    | Mint(outputs: seq<Output>)
    | TxUtxo(inputs: seq<OutputId>, outputs: seq<Output>)
    | MarketSettle(inputs: seq<OutputId>, outputs: seq<Output>)
    | BridgeLock(inputs: seq<OutputId>)
    | BridgeMint(outputs: seq<Output>)
    | Seize(inputs: seq<OutputId>, outputs: seq<Output>)
    | Reverse(inputs: seq<OutputId>, outputs: seq<Output>)
    | TokenBurn(inputs: seq<OutputId>, outputs: seq<Output>)
    | Reward(feeOutputs: seq<Output>, rewardOutputs: seq<Output>)
    | CustodialMint(outputs: seq<Output>)
    | Encrypted(delta: Option<Delta>)
    | Milestone(rewards: seq<Option<Output>>)
    | NoUtxo

  type Blocks = map<BlockId, Payload>

  /** Inputs collected by the first rebuild pass. */
  function ScannedInputs(p: Payload): seq<OutputId> {
    match p
    case TxUtxo(ins, _) => ins
    case MarketSettle(ins, _) => ins
    case BridgeLock(ins) => ins
    case Seize(ins, _) => ins
    case Reverse(ins, _) => ins
    case _ => []
  }

  /** Outputs collected by the second rebuild pass. */
  function ScannedOutputs(p: Payload): seq<Output> {
    match p
    case Mint(outs) => outs
    case TxUtxo(_, outs) => outs
    case MarketSettle(_, outs) => outs
    case BridgeMint(outs) => outs
    case Seize(_, outs) => outs
    case Reverse(_, outs) => outs
    case _ => []
  }

  /** Payload kinds that move outputs when a block is applied but that the rebuild does not scan. */
  predicate Skipped(p: Payload) {
    p.TokenBurn? || p.Reward? || p.CustodialMint? || p.Encrypted? || p.Milestone?
  }

  /** Spends of a block when it is applied. */
  function DeltaInputs(p: Payload): seq<OutputId> {
    match p
    case TxUtxo(ins, _) => ins
    case MarketSettle(ins, _) => ins
    case TokenBurn(ins, _) => ins
    case BridgeLock(ins) => ins
    case Seize(ins, _) => ins
    case Reverse(ins, _) => ins
    case Encrypted(Some(d)) => d.spends
    case _ => []
  }

  function AllOf(outs: seq<Output>): seq<Option<Output>> {
    seq(|outs|, i requires 0 <= i < |outs| => Some(outs[i]))
  }

  function Native(outs: seq<Output>): seq<Output> {
    seq(|outs|, i requires 0 <= i < |outs| => outs[i].(assetId := None))
  }

  /** Creates of a block when it is applied, by position; rewards are always native. */
  function DeltaOutputs(p: Payload): seq<Option<Output>> {
    match p
    case Mint(outs) => AllOf(outs)
    case CustodialMint(outs) => AllOf(outs)
    case TxUtxo(_, outs) => AllOf(outs)
    case MarketSettle(_, outs) => AllOf(outs)
    case TokenBurn(_, outs) => AllOf(outs)
    case Reward(fees, rewards) => AllOf(Native(fees + rewards))
    case BridgeMint(outs) => AllOf(outs)
    case Seize(_, outs) => AllOf(outs)
    case Reverse(_, outs) => AllOf(outs)
    case Encrypted(Some(d)) => AllOf(d.creates)
    case Milestone(rewards) => rewards
    case _ => []
  }

  /** Created outputs are stamped with the time `t` of application, whatever time they carry; only
      node rewards are added as they are. */
  function Dated(p: Payload, t: nat, o: Output): Output {
    if p.Milestone? then o else o.(createdAt := Some(t))
  }

  /** Outputs of one block, keyed by block id and position. */
  function CreatedBy(id: BlockId, p: Payload, t: nat): OutputMap {
    map i: nat | i < |DeltaOutputs(p)| && DeltaOutputs(p)[i].Some? :: OutputId(id, i) := Dated(p, t, DeltaOutputs(p)[i].value)
  }

  function ScannedAt(blocks: Blocks, op: OutputId): Option<Output> {
    if op.txid in blocks && op.index < |ScannedOutputs(blocks[op.txid])|
    then Some(ScannedOutputs(blocks[op.txid])[op.index]) else None
  }

  /** The output a block creates at `op`, before stamping. */
  function DeltaAt(blocks: Blocks, op: OutputId): Option<Output> {
    if op.txid in blocks && op.index < |DeltaOutputs(blocks[op.txid])|
    then DeltaOutputs(blocks[op.txid])[op.index] else None
  }

  function DatedAt(blocks: Blocks, now: BlockId -> nat, op: OutputId): Option<Output> {
    match DeltaAt(blocks, op)
    case None => None
    case Some(o) => if op.txid in blocks then Some(Dated(blocks[op.txid], now(op.txid), o)) else None
  }

  ghost predicate ScannedSpent(blocks: Blocks, op: OutputId) {
    exists id :: id in blocks && op in ScannedInputs(blocks[id])
  }

  ghost predicate DeltaSpent(blocks: Blocks, op: OutputId) {
    exists id :: id in blocks && op in DeltaInputs(blocks[id])
  }

  ghost function ScannedIds(blocks: Blocks): set<OutputId> {
    set id, i | id in blocks && 0 <= i < |ScannedOutputs(blocks[id])| :: OutputId(id, i)
  }

  /** The result the two passes are meant to reach: every scanned output that no scanned input
      names. */
  ghost function Rebuilt(blocks: Blocks): OutputMap {
    map op | op in ScannedIds(blocks) && !ScannedSpent(blocks, op) :: ScannedAt(blocks, op).GetOr(Output("", 0, None, None, None, None))
  }

  lemma {:induction false} RebuiltAt(blocks: Blocks, op: OutputId)
    ensures Lookup(Rebuilt(blocks), op) == if ScannedSpent(blocks, op) then None else ScannedAt(blocks, op)
  {}

  /** An input of a transfer, settlement, bridge lock, seizure or reversal among the blocks. */
  ghost predicate NamedAsInput(blocks: Blocks, op: OutputId) {
    exists id :: id in blocks && NamedBy(blocks[id], op)
  }

  predicate NamedBy(p: Payload, op: OutputId) {
    (p.TxUtxo? || p.MarketSettle? || p.BridgeLock? || p.Seize? || p.Reverse?) && op in p.inputs
  }

  /** `op` names an output of a mint, transfer, settlement, bridge mint, seizure or reversal. */
  predicate MadeBy(blocks: Blocks, op: OutputId) {
    op.txid in blocks && var p := blocks[op.txid];
    (p.Mint? || p.TxUtxo? || p.MarketSettle? || p.BridgeMint? || p.Seize? || p.Reverse?) && op.index < |p.outputs|
  }

  /** What a rebuild promises, kind by kind: a made output is there with its value exactly if no such
      input names it, and nothing else is there. */
  ghost predicate RebuiltByKind(blocks: Blocks, live: OutputMap) {
    && (forall op :: op in live <==> MadeBy(blocks, op) && !NamedAsInput(blocks, op))
    && (forall op :: op in live ==> live[op] == blocks[op.txid].outputs[op.index])
  }

  lemma {:induction false} KindsRebuilt(blocks: Blocks)
    ensures RebuiltByKind(blocks, Rebuilt(blocks))
  {
    forall op
      ensures op in Rebuilt(blocks) <==> MadeBy(blocks, op) && !NamedAsInput(blocks, op)
      ensures op in Rebuilt(blocks) ==> Rebuilt(blocks)[op] == blocks[op.txid].outputs[op.index]
    {
      RebuiltAt(blocks, op);
      InputNamed(blocks, op);
    }
  }

  lemma {:induction false} InputNamed(blocks: Blocks, op: OutputId)
    ensures ScannedSpent(blocks, op) <==> NamedAsInput(blocks, op)
  {
    forall id | id in blocks ensures op in ScannedInputs(blocks[id]) <==> NamedBy(blocks[id], op) {}
  }

  // ----- replay -----

  /** What applying a block spends and creates, kind by kind: rewards in the order fees, then block
      rewards, all native. */
  lemma {:induction false} AppliedKinds(p: Payload)
    ensures forall op :: op in DeltaInputs(p) <==>
              NamedBy(p, op) || (p.TokenBurn? && op in p.inputs) || (p.Encrypted? && p.delta.Some? && op in p.delta.value.spends)
    ensures p.Mint? || p.CustodialMint? || p.TxUtxo? || p.MarketSettle? || p.TokenBurn? || p.BridgeMint? || p.Seize? || p.Reverse? ==>
              |DeltaOutputs(p)| == |p.outputs| && forall i :: 0 <= i < |p.outputs| ==> DeltaOutputs(p)[i] == Some(p.outputs[i])
    ensures p.Reward? ==>
              && |DeltaOutputs(p)| == |p.feeOutputs| + |p.rewardOutputs|
              && (forall i :: 0 <= i < |p.feeOutputs| ==> DeltaOutputs(p)[i] == Some(p.feeOutputs[i].(assetId := None)))
              && forall i :: 0 <= i < |p.rewardOutputs| ==>
                   DeltaOutputs(p)[|p.feeOutputs| + i] == Some(p.rewardOutputs[i].(assetId := None))
    ensures p.Encrypted? && p.delta.Some? ==>
              |DeltaOutputs(p)| == |p.delta.value.creates|
              && forall i :: 0 <= i < |p.delta.value.creates| ==> DeltaOutputs(p)[i] == Some(p.delta.value.creates[i])
    ensures p.Milestone? ==> DeltaOutputs(p) == p.rewards
    ensures p.BridgeLock? || p.NoUtxo? || (p.Encrypted? && p.delta == None) ==> DeltaOutputs(p) == []
  {}

  /** Applying blocks one after the other, block `id` at time `now(id)`. */
  ghost function Replay(blocks: Blocks, now: BlockId -> nat, order: seq<BlockId>): OutputMap
    requires forall id :: id in order ==> id in blocks
  {
    if order == [] then map[]
    else
      var id := order[|order| - 1];
      (Replay(blocks, now, order[..|order| - 1]) - Elems(DeltaInputs(blocks[id]))) + CreatedBy(id, blocks[id], now(id))
  }

  /** Each block once, and every input live when its block is applied: created before, not
      spent before. */
  ghost predicate Causal(blocks: Blocks, now: BlockId -> nat, order: seq<BlockId>) {
    && (forall id :: id in order ==> id in blocks)
    && (forall i, j :: 0 <= i < j < |order| ==> order[i] != order[j])
    && (forall k :: 0 <= k < |order| ==> InputsLive(blocks, now, order, k))
  }

  ghost predicate InputsLive(blocks: Blocks, now: BlockId -> nat, order: seq<BlockId>, k: nat)
    requires k < |order| && forall id :: id in order ==> id in blocks
  {
    forall op :: op in DeltaInputs(blocks[order[k]]) ==> op in Replay(blocks, now, order[..k])
  }

  ghost predicate Covers(blocks: Blocks, order: seq<BlockId>) {
    forall id :: id in blocks ==> id in order
  }

  lemma {:induction false} CausalPrefix(blocks: Blocks, now: BlockId -> nat, order: seq<BlockId>, n: nat)
    requires Causal(blocks, now, order) && n <= |order|
    ensures Causal(blocks, now, order[..n])
  {
    forall k | 0 <= k < n ensures InputsLive(blocks, now, order[..n], k) {
      assert order[..n][..k] == order[..k];
      assert InputsLive(blocks, now, order, k);
    }
  }

  lemma {:induction false} CreatedByAt(blocks: Blocks, now: BlockId -> nat, id: BlockId, op: OutputId)
    requires id in blocks
    ensures Lookup(CreatedBy(id, blocks[id], now(id)), op) == if op.txid == id then DatedAt(blocks, now, op) else None
  {
    if op.txid == id && op.index < |DeltaOutputs(blocks[id])| {
      assert op == OutputId(id, op.index);
    }
  }

  /** What a causal replay leaves: the outputs created and not spent by the blocks replayed. */
  lemma {:induction false} ReplayAt(blocks: Blocks, now: BlockId -> nat, order: seq<BlockId>, op: OutputId)
    requires Causal(blocks, now, order)
    ensures Lookup(Replay(blocks, now, order), op) ==
              if exists id :: id in order && op in DeltaInputs(blocks[id]) then None
              else if op.txid in order then DatedAt(blocks, now, op) else None
  {
    if order != [] {
      var n := |order| - 1;
      var id, init := order[n], order[..n];
      assert order == init + [id];
      CausalPrefix(blocks, now, order, n);
      ReplayAt(blocks, now, init, op);
      assert id !in init;
      CreatedByAt(blocks, now, id, op);
      assert InputsLive(blocks, now, order, n);
      if op.txid == id && exists b :: b in init && op in DeltaInputs(blocks[b]) {
        var b :| b in init && op in DeltaInputs(blocks[b]);
        InputCreatedEarlier(blocks, now, init, b, op);
        assert false;
      }
    }
  }

  /** An input of a replayed block was created by a replayed block. */
  lemma {:induction false} InputCreatedEarlier(blocks: Blocks, now: BlockId -> nat, order: seq<BlockId>, b: BlockId, op: OutputId)
    requires Causal(blocks, now, order) && b in order && op in DeltaInputs(blocks[b])
    ensures op.txid in order && DeltaAt(blocks, op).Some?
  {
    var k :| 0 <= k < |order| && order[k] == b;
    assert InputsLive(blocks, now, order, k);
    CausalPrefix(blocks, now, order, k);
    ReplayAt(blocks, now, order[..k], op);
  }

  lemma {:induction false} NotSpentAgain(blocks: Blocks, now: BlockId -> nat, order: seq<BlockId>, i: nat, j: nat, op: OutputId)
    requires Causal(blocks, now, order) && i < j < |order| && op in DeltaInputs(blocks[order[i]])
    ensures op !in DeltaInputs(blocks[order[j]])
  {
    assert InputsLive(blocks, now, order, j);
    CausalPrefix(blocks, now, order, j);
    ReplayAt(blocks, now, order[..j], op);
    assert order[..j][i] in order[..j];
  }

  /** No output is spent by two blocks of a causal order. */
  lemma {:induction false} SpentOnce(blocks: Blocks, now: BlockId -> nat, order: seq<BlockId>, a: BlockId, b: BlockId, op: OutputId)
    requires Causal(blocks, now, order) && a in order && b in order
    requires op in DeltaInputs(blocks[a]) && op in DeltaInputs(blocks[b])
    ensures a == b
  {
    var i :| 0 <= i < |order| && order[i] == a;
    var j :| 0 <= j < |order| && order[j] == b;
    if i < j {
      NotSpentAgain(blocks, now, order, i, j, op);
    } else if j < i {
      NotSpentAgain(blocks, now, order, j, i, op);
    }
  }

  /** What the skipped kinds must not do: spend an output of a scanned kind, or leave an output
      of their own unspent. */
  ghost predicate SkippedLeaveNoTrace(blocks: Blocks) {
    && (forall op: OutputId :: op.txid in blocks && Skipped(blocks[op.txid]) && DeltaAt(blocks, op).Some? ==> DeltaSpent(blocks, op))
    && (forall id, op :: id in blocks && Skipped(blocks[id]) && op in DeltaInputs(blocks[id]) ==>
          op.txid in blocks && Skipped(blocks[op.txid]))
  }

  /** Outputs without their creation time. */
  function Undated(m: OutputMap): OutputMap { map op | op in m :: m[op].(createdAt := None) }

  function UndatedAt(o: Option<Output>): Option<Output> {
    match o
    case None => None
    case Some(x) => Some(x.(createdAt := None))
  }

  lemma {:induction false} UndatedLookup(m: OutputMap, op: OutputId)
    ensures Lookup(Undated(m), op) == UndatedAt(Lookup(m, op))
  {}

  /** What both sides leave at one outpoint, up to the creation time. */
  lemma {:induction false} BothSidesAt(blocks: Blocks, now: BlockId -> nat, order: seq<BlockId>, op: OutputId)
    requires Causal(blocks, now, order) && Covers(blocks, order)
    ensures Lookup(Undated(Rebuilt(blocks)), op) == if ScannedSpent(blocks, op) then None else UndatedAt(ScannedAt(blocks, op))
    ensures Lookup(Undated(Replay(blocks, now, order)), op) == if DeltaSpent(blocks, op) then None else UndatedAt(DeltaAt(blocks, op))
  {
    UndatedLookup(Rebuilt(blocks), op);
    UndatedLookup(Replay(blocks, now, order), op);
    ReplayAt(blocks, now, order, op);
    RebuiltAt(blocks, op);
  }

  /** Up to creation times, the rebuild agrees with a causal replay exactly when the kinds it skips
      leave no trace. */
  lemma {:induction false} RebuildMatchesReplayIff(blocks: Blocks, now: BlockId -> nat, order: seq<BlockId>)
    requires Causal(blocks, now, order) && Covers(blocks, order)
    ensures Undated(Rebuilt(blocks)) == Undated(Replay(blocks, now, order)) <==> SkippedLeaveNoTrace(blocks)
  {
    var a, b := Undated(Rebuilt(blocks)), Undated(Replay(blocks, now, order));
    if SkippedLeaveNoTrace(blocks) {
      forall op ensures Lookup(a, op) == Lookup(b, op) {
        BothSidesAt(blocks, now, order, op);
        NoTraceAgrees(blocks, op);
      }
      EqualLookups(a, b);
    }
    if a == b {
      forall op ensures Agreed(blocks, op) { BothSidesAt(blocks, now, order, op); }
      AgreementLeavesNoTrace(blocks, now, order);
    }
  }

  /** Every rebuilt output carries the time at which its block was applied. */
  ghost predicate TimesCarried(blocks: Blocks, now: BlockId -> nat) {
    forall op :: op in Rebuilt(blocks) ==> Rebuilt(blocks)[op].createdAt == Some(now(op.txid))
  }

  /** Creation times included, blocks must also carry the times that application stamps. */
  lemma {:induction false} RebuildEqualsReplayIff(blocks: Blocks, now: BlockId -> nat, order: seq<BlockId>)
    requires Causal(blocks, now, order) && Covers(blocks, order)
    ensures Rebuilt(blocks) == Replay(blocks, now, order) <==> SkippedLeaveNoTrace(blocks) && TimesCarried(blocks, now)
  {
    hide Rebuilt, Replay, Undated, InputsLive, SkippedLeaveNoTrace;
    RebuildMatchesReplayIff(blocks, now, order);
    RebuiltIsStamped(blocks, now, order);
    EqualWithDates(Rebuilt(blocks), Replay(blocks, now, order), now);
  }

  ghost predicate StampedWhere(b: OutputMap, a: OutputMap, now: BlockId -> nat) {
    forall op :: op in a && op in b ==> b[op].createdAt == Some(now(op.txid))
  }

  lemma {:induction false} ScannedIsStamped(blocks: Blocks, now: BlockId -> nat, op: OutputId)
    ensures ScannedAt(blocks, op).Some? && DatedAt(blocks, now, op).Some? ==>
              DatedAt(blocks, now, op).value.createdAt == Some(now(op.txid))
  {}

  lemma {:induction false} RebuiltIsStamped(blocks: Blocks, now: BlockId -> nat, order: seq<BlockId>)
    requires Causal(blocks, now, order) && Covers(blocks, order)
    ensures StampedWhere(Replay(blocks, now, order), Rebuilt(blocks), now)
  {
    hide InputsLive, ScannedAt, DatedAt, Rebuilt, Replay;
    var a, b := Rebuilt(blocks), Replay(blocks, now, order);
    forall op | op in a && op in b ensures b[op].createdAt == Some(now(op.txid)) {
      RebuiltAt(blocks, op);
      ReplayAt(blocks, now, order, op);
      ScannedIsStamped(blocks, now, op);
    }
  }

  lemma {:induction false} EqualWithDates(a: OutputMap, b: OutputMap, now: BlockId -> nat)
    requires StampedWhere(b, a, now)
    ensures a == b <==> Undated(a) == Undated(b) && forall op :: op in a ==> a[op].createdAt == Some(now(op.txid))
  {
    if Undated(a) == Undated(b) && forall op :: op in a ==> a[op].createdAt == Some(now(op.txid)) {
      forall op ensures Lookup(a, op) == Lookup(b, op) {
        UndatedLookup(a, op);
        UndatedLookup(b, op);
      }
      EqualLookups(a, b);
    }
  }

  ghost predicate Agreed(blocks: Blocks, op: OutputId) {
    (if ScannedSpent(blocks, op) then None else UndatedAt(ScannedAt(blocks, op)))
    == (if DeltaSpent(blocks, op) then None else UndatedAt(DeltaAt(blocks, op)))
  }

  lemma {:induction false} NoTraceAgrees(blocks: Blocks, op: OutputId)
    requires SkippedLeaveNoTrace(blocks)
    ensures Agreed(blocks, op)
  {
    if op.txid in blocks && !Skipped(blocks[op.txid]) && DeltaSpent(blocks, op) {
      var id :| id in blocks && op in DeltaInputs(blocks[id]);
      assert !Skipped(blocks[id]);
      assert op in ScannedInputs(blocks[id]);
    }
    if ScannedSpent(blocks, op) {
      var id :| id in blocks && op in ScannedInputs(blocks[id]);
      assert op in DeltaInputs(blocks[id]);
    }
  }

  lemma {:induction false} SkippedSpendsSkipped(blocks: Blocks, now: BlockId -> nat, order: seq<BlockId>, id: BlockId, op: OutputId)
    requires Causal(blocks, now, order) && Covers(blocks, order) && forall x :: Agreed(blocks, x)
    requires id in blocks && Skipped(blocks[id]) && op in DeltaInputs(blocks[id])
    ensures op.txid in blocks && Skipped(blocks[op.txid])
  {
    InputCreatedEarlier(blocks, now, order, id, op);
    assert DeltaSpent(blocks, op) && Agreed(blocks, op);
    if !Skipped(blocks[op.txid]) {
      assert ScannedAt(blocks, op).Some?;
      assert ScannedSpent(blocks, op);
      var b :| b in blocks && op in ScannedInputs(blocks[b]);
      SpentOnce(blocks, now, order, id, b, op);
    }
  }

  lemma {:induction false} AgreementLeavesNoTrace(blocks: Blocks, now: BlockId -> nat, order: seq<BlockId>)
    requires Causal(blocks, now, order) && Covers(blocks, order) && forall x :: Agreed(blocks, x)
    ensures SkippedLeaveNoTrace(blocks)
  {
    forall op: OutputId | op.txid in blocks && Skipped(blocks[op.txid]) && DeltaAt(blocks, op).Some? ensures DeltaSpent(blocks, op) {
      assert ScannedAt(blocks, op) == None && Agreed(blocks, op);
    }
    forall id, op | id in blocks && Skipped(blocks[id]) && op in DeltaInputs(blocks[id])
      ensures op.txid in blocks && Skipped(blocks[op.txid])
    {
      SkippedSpendsSkipped(blocks, now, order, id, op);
    }
  }

  /** Two causal orders of the same blocks leave the same outputs. */
  lemma {:induction false} ReplayOrderIrrelevant(blocks: Blocks, now: BlockId -> nat, o1: seq<BlockId>, o2: seq<BlockId>)
    requires Causal(blocks, now, o1) && Covers(blocks, o1) && Causal(blocks, now, o2) && Covers(blocks, o2)
    ensures Replay(blocks, now, o1) == Replay(blocks, now, o2)
  {
    forall op ensures Lookup(Replay(blocks, now, o1), op) == Lookup(Replay(blocks, now, o2), op) {
      ReplayAt(blocks, now, o1, op);
      ReplayAt(blocks, now, o2, op);
    }
    EqualLookups(Replay(blocks, now, o1), Replay(blocks, now, o2));
  }

  /** A skipped kind spends a minted output: after a rebuild the output is back. */
  lemma {:induction false} SkippedSpendReturns(o: Output, spender: Payload, now: BlockId -> nat)
    requires Skipped(spender) && DeltaInputs(spender) == [OutputId("aa", 0)]
    ensures var blocks: Blocks := map["aa" := Mint([o]), "bb" := spender];
            && Causal(blocks, now, ["aa", "bb"]) && Covers(blocks, ["aa", "bb"])
            && OutputId("aa", 0) !in Replay(blocks, now, ["aa", "bb"])
            && OutputId("aa", 0) in Rebuilt(blocks)
  {
    var blocks: Blocks := map["aa" := Mint([o]), "bb" := spender];
    var order, op := ["aa", "bb"], OutputId("aa", 0);
    assert Replay(blocks, now, ["aa"]) == CreatedBy("aa", Mint([o]), now("aa")) by {
      assert ["aa"][..0] == [];
      assert Replay(blocks, now, []) == map[];
    }
    assert op in Replay(blocks, now, ["aa"]);
    assert Causal(blocks, now, order) by {
      assert InputsLive(blocks, now, order, 0);
      assert order[..1] == ["aa"];
      assert InputsLive(blocks, now, order, 1);
    }
    assert op in DeltaInputs(blocks["bb"]);
    ReplayAt(blocks, now, order, op);
    RebuiltAt(blocks, op);
  }

  /** A burnt output comes back after a rebuild: a mint and a burn of it suffice. */
  lemma {:induction false} BurntOutputReturns(o: Output, now: BlockId -> nat)
    ensures var blocks: Blocks := map["aa" := Mint([o]), "bb" := TokenBurn([OutputId("aa", 0)], [])];
            && Causal(blocks, now, ["aa", "bb"]) && Covers(blocks, ["aa", "bb"])
            && OutputId("aa", 0) !in Replay(blocks, now, ["aa", "bb"])
            && OutputId("aa", 0) in Rebuilt(blocks)
  {
    SkippedSpendReturns(o, TokenBurn([OutputId("aa", 0)], []), now);
  }

  /** An encrypted transfer is undone by a rebuild: its input is back and its output is gone. */
  lemma {:induction false} EncryptedTransferUndone(o: Output, paid: Output, now: BlockId -> nat)
    ensures var transfer := Encrypted(Some(Delta([OutputId("aa", 0)], [paid])));
            var blocks: Blocks := map["aa" := Mint([o]), "bb" := transfer];
            && Causal(blocks, now, ["aa", "bb"]) && Covers(blocks, ["aa", "bb"])
            && OutputId("aa", 0) !in Replay(blocks, now, ["aa", "bb"]) && OutputId("aa", 0) in Rebuilt(blocks)
            && OutputId("bb", 0) in Replay(blocks, now, ["aa", "bb"]) && OutputId("bb", 0) !in Rebuilt(blocks)
  {
    var transfer := Encrypted(Some(Delta([OutputId("aa", 0)], [paid])));
    var blocks: Blocks := map["aa" := Mint([o]), "bb" := transfer];
    SkippedSpendReturns(o, transfer, now);
    ReplayAt(blocks, now, ["aa", "bb"], OutputId("bb", 0));
    assert OutputId("bb", 0) !in DeltaInputs(blocks["aa"]) && OutputId("bb", 0) !in DeltaInputs(transfer);
    RebuiltAt(blocks, OutputId("bb", 0));
  }

  // ----- the two passes -----

  method CollectSpent(blocks: Blocks) returns (spent: set<OutputId>)
    ensures forall op :: op in spent <==> ScannedSpent(blocks, op)
  {
    spent := {};
    var todo := blocks.Keys;
    while todo != {}
      invariant todo <= blocks.Keys
      invariant forall op :: op in spent <==> exists id :: id in blocks && id !in todo && op in ScannedInputs(blocks[id])
      decreases todo
    {
      var id :| id in todo;
      todo := todo - {id};
      spent := spent + (set op | op in ScannedInputs(blocks[id]));
    }
  }

  ghost predicate OutputsNonNegative(blocks: Blocks) {
    forall op :: ScannedAt(blocks, op).Some? ==> ScannedAt(blocks, op).value.amount >= 0
  }

  /** Live outputs after the blocks outside `todo`, and the first `n` outputs of `id`. */
  ghost predicate PassTwo(blocks: Blocks, todo: set<BlockId>, id: BlockId, n: nat, live: OutputMap) {
    forall op :: Lookup(live, op) ==
      if op.txid in todo || (op.txid == id && op.index >= n) then None else Lookup(Rebuilt(blocks), op)
  }

  lemma {:induction false} FitsBelow(m: OutputMap, whole: OutputMap, cap: nat)
    requires SubMap(m, whole)
    ensures Fits(whole, cap) ==> Fits(m, cap)
  {
    forall i | 0 <= i < SHARD_COUNT ensures |OnShard(m, i)| <= |OnShard(whole, i)| {
      OnShardSubset(m, whole, i);
    }
  }

  lemma {:induction false} PassTwoStep(blocks: Blocks, todo: set<BlockId>, id: BlockId, n: nat, live: OutputMap, cap: nat)
    requires id in blocks && id !in todo && n < |ScannedOutputs(blocks[id])|
    requires PassTwo(blocks, todo, id, n, live) && OutputsNonNegative(blocks)
    ensures var (op, o) := (OutputId(id, n), ScannedOutputs(blocks[id])[n]);
            if ScannedSpent(blocks, op) then PassTwo(blocks, todo, id, n + 1, live)
            else
              && op !in live && o.amount >= 0
              && PassTwo(blocks, todo, id, n + 1, live[op := o])
              && (Fits(Rebuilt(blocks), cap) ==> Fits(live[op := o], cap))
  {
    var (op, o) := (OutputId(id, n), ScannedOutputs(blocks[id])[n]);
    assert ScannedAt(blocks, op) == Some(o);
    RebuiltAt(blocks, op);
    assert Lookup(live, op) == None;
    forall x: OutputId | x.txid == id && x.index >= n && x != op ensures x.index >= n + 1 {}
    if !ScannedSpent(blocks, op) {
      var m := live[op := o];
      forall x ensures Lookup(m, x) == if x.txid in todo || (x.txid == id && x.index >= n + 1) then None else Lookup(Rebuilt(blocks), x) {
        assert x != op ==> Lookup(m, x) == Lookup(live, x);
      }
      assert SubMap(m, Rebuilt(blocks)) by {
        forall x | x in m ensures x in Rebuilt(blocks) && m[x] == Rebuilt(blocks)[x] {
          assert Lookup(m, x) == Some(m[x]);
        }
      }
      FitsBelow(m, Rebuilt(blocks), cap);
    }
  }

  method AddUnspent(utxos: ShardedUtxoSet, blocks: Blocks, spent: set<OutputId>, id: BlockId, ghost todo: set<BlockId>)
    requires utxos.Valid() && OutputsNonNegative(blocks)
    requires forall op :: op in spent <==> ScannedSpent(blocks, op)
    requires id in blocks && id !in todo && PassTwo(blocks, todo, id, 0, utxos.live)
    requires Fits(Rebuilt(blocks), utxos.capPerShard) ==> utxos.resident == utxos.live
    modifies utxos, utxos.shards
    ensures utxos.Valid()
    ensures PassTwo(blocks, todo, id, |ScannedOutputs(blocks[id])|, utxos.live)
    ensures Fits(Rebuilt(blocks), utxos.capPerShard) ==> utxos.resident == utxos.live
  {
    var outs := ScannedOutputs(blocks[id]);
    for i := 0 to |outs|
      invariant utxos.Valid() && PassTwo(blocks, todo, id, i, utxos.live)
      invariant Fits(Rebuilt(blocks), utxos.capPerShard) ==> utxos.resident == utxos.live
    {
      PassTwoStep(blocks, todo, id, i, utxos.live, utxos.capPerShard);
      if OutputId(id, i) !in spent {
        utxos.Add(OutputId(id, i), outs[i]);
      }
    }
  }

  lemma {:induction false} PassTwoDone(blocks: Blocks, todo: set<BlockId>, id: BlockId, live: OutputMap)
    requires id in blocks && PassTwo(blocks, todo, id, |ScannedOutputs(blocks[id])|, live)
    ensures forall op :: Lookup(live, op) == if op.txid in todo then None else Lookup(Rebuilt(blocks), op)
  {}

  method AddAllUnspent(utxos: ShardedUtxoSet, blocks: Blocks, spent: set<OutputId>)
    requires utxos.Valid() && utxos.live == map[] && OutputsNonNegative(blocks)
    requires forall op :: op in spent <==> ScannedSpent(blocks, op)
    modifies utxos, utxos.shards
    ensures utxos.Valid() && utxos.live == Rebuilt(blocks)
    ensures Fits(Rebuilt(blocks), utxos.capPerShard) ==> utxos.resident == utxos.live
  {
    var todo := blocks.Keys;
    assert utxos.resident == map[];
    forall op ensures Lookup(utxos.live, op) == if op.txid in todo then None else Lookup(Rebuilt(blocks), op) {
      RebuiltAt(blocks, op);
    }
    while todo != {}
      invariant todo <= blocks.Keys
      invariant utxos.Valid()
      invariant forall op :: Lookup(utxos.live, op) == if op.txid in todo then None else Lookup(Rebuilt(blocks), op)
      invariant Fits(Rebuilt(blocks), utxos.capPerShard) ==> utxos.resident == utxos.live
      decreases todo
    {
      var id :| id in todo;
      todo := todo - {id};
      AddUnspent(utxos, blocks, spent, id, todo);
      PassTwoDone(blocks, todo, id, utxos.live);
    }
    EqualLookups(utxos.live, Rebuilt(blocks));
  }

  /** Bootstraps an empty set from blocks in any iteration order, then rebuilds the indexes from
      the shards. The result is a valid set exactly when no shard had to evict. */
  method BootstrapUtxos(utxos: ShardedUtxoSet, blocks: Blocks)
    requires utxos.Valid() && utxos.live == map[] && OutputsNonNegative(blocks)
    modifies utxos, utxos.shards
    ensures utxos.live == Rebuilt(blocks) && RebuiltByKind(blocks, utxos.live)
    ensures Exact(utxos.CacheValues(), utxos.resident) && IndexExact(utxos.addressIndex, utxos.resident)
    ensures utxos.Valid() <==> Fits(Rebuilt(blocks), utxos.capPerShard)
    ensures utxos.Valid() <==> utxos.resident == utxos.live
  {
    hide RebuiltByKind, Rebuilt;
    KindsRebuilt(blocks);
    var spent := CollectSpent(blocks);
    AddAllUnspent(utxos, blocks, spent);
    ghost var part, whole := utxos.resident, utxos.live;
    utxos.RebuildIndexes();
    ExactForBothIff(utxos.CacheValues(), part, whole);
    if part == whole {
      forall i | 0 <= i < SHARD_COUNT && utxos.capPerShard > 0 ensures |OnShard(whole, i)| <= utxos.capPerShard {
        ShardSize(utxos.shards[..], utxos.capPerShard, part, i);
      }
    }
  }

  /** A total count within the configured maximum does not prevent eviction: two outputs in one
      shard, maximum two. */
  lemma {:induction false} TotalCountIsNoGuard()
    ensures var m: OutputMap := map[OutputId("aa01", 0) := Output("x", 1, None, None, None, None),
                                    OutputId("aa02", 0) := Output("x", 1, None, None, None, None)];
            |m| <= 2 && !Fits(m, Max((2 + SHARD_COUNT - 1) / SHARD_COUNT, 1))
  {
    var m: OutputMap := map[OutputId("aa01", 0) := Output("x", 1, None, None, None, None),
                            OutputId("aa02", 0) := Output("x", 1, None, None, None, None)];
    var a, b := OutputId("aa01", 0), OutputId("aa02", 0);
    assert a.txid[3] != b.txid[3];
    assert ShardIndex(a) == 170 && ShardIndex(b) == 170;
    assert OnShard(m, 170).Keys == {a, b};
    assert |OnShard(m, 170)| == |OnShard(m, 170).Keys|;
  }
}
