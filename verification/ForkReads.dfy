/**
 The read protocol of a fork snapshot (crates/anvil/src/config.rs), as a relation: which requests are
 made, in which epoch each is served, what the replies are, and what is made of them. An identity is
 read before and after the block data, and a snapshot is accepted only if both agree.
 */
module ForkReads {
  import opened Common
  import opened ForkEndpoint

  /** A request served in an epoch. */
  datatype Read<+T> = Read(epoch: nat, reply: Rpc<T>)

  /** The epoch after an optional request. */
  function After<T>(lo: nat, read: Option<Read<T>>): nat {
    if read.Some? then read.value.epoch else lo
  }

  // ----- reading an identity -----

  /** The requests of one identity reading; those not made are absent. */
  datatype IdentityReads = IdentityReads(
    chain: Option<Read<nat>>, info: Option<Read<NodeInfo>>, meta: Option<Read<Metadata>>)
  {
    function InfoEpoch(lo: nat): nat {
      After(After(lo, chain), info)
    }

    function End(lo: nat): nat {
      After(InfoEpoch(lo), meta)
    }
  }

  /** The chain id to go by: the configured one, or the reply. */
  function ChainId(c: Config, asked: IdentityReads): Option<nat> {
    if c.forkChainId.Some? then c.forkChainId
    else if asked.chain.Some? && asked.chain.value.reply.Reply? then Some(asked.chain.value.reply.value)
    else None
  }

  /** Which requests are made depends on the replies so far. */
  ghost predicate Shaped(c: Config, probe: Probe, asked: IdentityReads) {
    && (asked.chain.Some? <==> c.forkChainId.None?)
    && (asked.info.Some? <==> !probe.skip && ChainId(c, asked).Some?)
    && (asked.meta.Some? <==> asked.info.Some? && Judge(probe, asked.info.value.reply).1.Ok?
                              && Judge(probe, asked.info.value.reply).1.value.Some?)
  }

  /** Epochs only move on, and a reply is what its epoch reports. */
  ghost predicate Honest(h: History, lo: nat, asked: IdentityReads) {
    && lo <= After(lo, asked.chain) <= asked.InfoEpoch(lo) <= asked.End(lo)
    && (asked.chain.Some? && asked.chain.value.reply.Reply? ==>
          asked.chain.value.reply.value == h(asked.chain.value.epoch).chainId)
    && (asked.info.Some? && asked.info.value.reply.Reply? ==>
          asked.info.value.reply.value == h(asked.info.value.epoch).nodeInfo)
    && (asked.meta.Some? && asked.meta.value.reply.Reply? ==>
          asked.meta.value.reply.value == h(asked.meta.value.epoch).metadata)
  }

  ghost predicate IdentityRun(c: Config, h: History, probe: Probe, lo: nat, asked: IdentityReads, hi: nat) {
    Shaped(c, probe, asked) && Honest(h, lo, asked) && hi == asked.End(lo)
  }

  function Supported(c: Config, r: Result<Identity, Failure>): Result<Identity, Failure> {
    if r.Ok? && !c.supported(r.value.sourceChainId) then Err(UnsupportedNetwork) else r
  }

  function FromMetadata(c: Config, chainId: nat, info: NodeInfo, meta: Rpc<Metadata>): Result<Identity, Failure> {
    match meta
    case Reply(m) => Identified(c, info, m)
    case RpcError => Err(MetadataFailed)
    case _ => IdentityFrom(c, info, chainId, chainId, None, None)
  }

  /** What an identity reading gives. */
  function Outcome(c: Config, probe: Probe, asked: IdentityReads): (Probe, Result<Identity, Failure>) {
    var chainId := ChainId(c, asked);
    if chainId.None? then (probe, Err(TransportFailed))
    else if asked.info.None? then (probe, Supported(c, Anonymous(c, chainId.value)))
    else
      var (probe', info) := Judge(probe, asked.info.value.reply);
      if info.Err? then (probe', Err(info.error))
      else if info.value.None? then (probe', Supported(c, Anonymous(c, chainId.value)))
      else if asked.meta.None? then (probe', Err(MetadataFailed))
      else (probe', Supported(c, FromMetadata(c, chainId.value, info.value.value, asked.meta.value.reply)))
  }

  /** With an instance id, an identity is that of two epochs: the one of its node info, and the last
      one, of its metadata. */
  lemma IdentityEpochs(c: Config, h: History, probe: Probe, lo: nat, asked: IdentityReads, hi: nat)
    requires IdentityRun(c, h, probe, lo, asked, hi)
    requires Outcome(c, probe, asked).1.Ok? && Outcome(c, probe, asked).1.value.instanceId.Some?
    ensures lo <= asked.InfoEpoch(lo) <= hi
    ensures Outcome(c, probe, asked).1 == Identified(c, h(asked.InfoEpoch(lo)).nodeInfo, h(hi).metadata)
  {
  }

  // ----- deriving the block -----

  datatype DeriveReads = DeriveReads(
    head: Option<Read<nat>>,
    walk: seq<Read<Option<Block>>>,
    transaction: Option<Read<Option<Location>>>,
    source: Option<Read<Option<SourceBlock>>>)

  const NO_READS := DeriveReads(None, [], None, None)

  const U64_RANGE: nat := 0x1_0000_0000_0000_0000

  /** `n` steps back from the head, stopping at genesis. */
  function Back(head: nat, n: nat): nat {
    if head < n then 0 else head - n
  }

  /** A block that is there, with its hash. */
  predicate Present(reply: Rpc<Option<Block>>) {
    reply.Reply? && reply.value.Some? && reply.value.value.hash != 0
  }

  predicate PassedOver(reply: Rpc<Option<Block>>) {
    reply.Reply? && !Present(reply)
  }

  /** At most two blocks are asked for, the second only when the first is passed over. */
  ghost predicate WalkShaped(walk: seq<Read<Option<Block>>>) {
    && 1 <= |walk| <= 2
    && (|walk| == 2 ==> PassedOver(walk[0].reply))
    && (PassedOver(walk[|walk| - 1].reply) ==> |walk| == 2)
  }

  ghost predicate WalkHonest(h: History, lo: nat, head: nat, walk: seq<Read<Option<Block>>>) {
    && (forall k | 0 <= k < |walk| :: lo <= walk[k].epoch && BlockHonest(h, Back(head, k), walk[k]))
    && (forall j, k | 0 <= j < k < |walk| :: walk[j].epoch <= walk[k].epoch)
  }

  ghost predicate BlockHonest(h: History, n: nat, read: Read<Option<Block>>) {
    read.reply.Reply? && read.reply.value.Some? ==> read.reply.value.value == h(read.epoch).blocks(n)
  }

  lemma WalkSnoc(h: History, lo: nat, head: nat, walk: seq<Read<Option<Block>>>, read: Read<Option<Block>>)
    requires WalkHonest(h, lo, head, walk) && BlockHonest(h, Back(head, |walk|), read)
    requires (if walk == [] then lo else walk[|walk| - 1].epoch) <= read.epoch
    ensures WalkHonest(h, lo, head, walk + [read])
  {
    if walk != [] {
      assert forall j | 0 <= j < |walk| :: walk[j].epoch <= walk[|walk| - 1].epoch;
    }
  }

  /** Where the walk back from the head stops. */
  function Walked(head: nat, walk: seq<Read<Option<Block>>>): Option<nat>
    requires walk != []
  {
    var last := walk[|walk| - 1].reply;
    if !last.Reply? then None
    else if Present(last) then Some(Back(head, |walk| - 1))
    else Some(Back(head, |walk|))
  }

  /** The reported location of a mined transaction. */
  function Mined(d: DeriveReads): Option<Location> {
    if d.transaction.Some? && d.transaction.value.reply.Reply? && d.transaction.value.reply.value.Some?
       && d.transaction.value.reply.value.value.blockNumber.Some?
       && d.transaction.value.reply.value.value.blockHash.Some?
    then d.transaction.value.reply.value
    else None
  }

  function HeadReply(d: DeriveReads): Option<nat> {
    if d.head.Some? && d.head.value.reply.Reply? then Some(d.head.value.reply.value) else None
  }

  ghost predicate DeriveShaped(c: Config, d: DeriveReads) {
    match c.forkChoice
    case Latest =>
      && d.head.Some? && d.transaction.None? && d.source.None?
      && (if HeadReply(d).Some? then WalkShaped(d.walk) else d.walk == [])
    case Number(n) =>
      && d.walk == [] && d.transaction.None? && d.source.None? && (d.head.Some? <==> n < 0)
    case Transaction(tx) =>
      && d.head.None? && d.walk == [] && d.transaction.Some? && (d.source.Some? <==> Mined(d).Some?)
  }

  function DeriveEnd(lo: nat, d: DeriveReads): nat {
    if d.walk != [] then d.walk[|d.walk| - 1].epoch
    else After(After(After(lo, d.head), d.transaction), d.source)
  }

  ghost predicate DeriveHonest(h: History, lo: nat, d: DeriveReads) {
    && lo <= After(lo, d.head)
    && (d.head.None? && d.walk == [] ==> lo <= After(lo, d.transaction) <= After(After(lo, d.transaction), d.source))
    && (HeadReply(d).Some? ==> WalkHonest(h, d.head.value.epoch, HeadReply(d).value, d.walk))
    && (Mined(d).Some? && d.source.Some? && d.source.value.reply.Reply? && d.source.value.reply.value.Some? ==>
          d.source.value.reply.value.value == h(d.source.value.epoch).sourceBlocks(Mined(d).value.blockHash.value))
  }

  /** The requests that look for the latest block. */
  function LookingBack(head: Read<nat>, walk: seq<Read<Option<Block>>>): DeriveReads {
    DeriveReads(Some(head), walk, None, None)
  }

  ghost predicate DeriveRun(c: Config, h: History, lo: nat, d: DeriveReads, hi: nat) {
    DeriveShaped(c, d) && DeriveHonest(h, lo, d) && hi == DeriveEnd(lo, d)
  }

  /** The block number to fork from, and what to replay on top of it. */
  function Derived(c: Config, d: DeriveReads): Result<(nat, Option<Replay>), Failure> {
    match c.forkChoice
    case Latest =>
      if HeadReply(d).None? || d.walk == [] then Err(TransportFailed)
      else
        var number := Walked(HeadReply(d).value, d.walk);
        if number.None? then Err(TransportFailed) else Ok((number.value, None))
    case Number(n) =>
      if n >= 0 then Ok((n % U64_RANGE, None))
      else if HeadReply(d).None? then Err(TransportFailed)
      // a sum below zero wraps as an unsigned 64-bit number
      else Ok(((n + HeadReply(d).value) % U64_RANGE, None))
    case Transaction(tx) =>
      if d.transaction.None? || !d.transaction.value.reply.Reply? then Err(TransportFailed)
      else if Mined(d).None? then Err(NotMined)
      else if d.source.None? || !d.source.value.reply.Reply? then Err(TransportFailed)
      else if d.source.value.reply.value.None? then Err(ForkBlockMissing)
      else
        var replay := ValidateReplay(tx, Mined(d).value, d.source.value.reply.value.value);
        if replay.Err? then Err(replay.error)
        else Ok((Back(Mined(d).value.blockNumber.value, 1), Some(replay.value)))
  }

  // ----- one attempt -----

  datatype Snapshot = Snapshot(
    identity: Identity, stateIsMutable: bool, blockNumber: nat, replay: Option<Replay>, block: Option<Block>,
    gasPrice: nat)

  const INITIAL_GAS_PRICE: nat := 1_875_000_000

  /** The requests of one attempt; a failure leaves out the ones after it. */
  datatype Attempt = Attempt(
    before: IdentityReads,
    derive: Option<DeriveReads>,
    block: Option<Read<Option<Block>>>,
    gas: Option<Read<nat>>,
    after: Option<IdentityReads>)

  datatype Verdict = Accepted(snapshot: Snapshot) | Failed(failure: Failure) | Disagreed

  /** What the snapshot is for: whether the gas price is given. */
  function GasPrice(gasOverride: Option<nat>, gas: Option<Read<nat>>): nat {
    if gasOverride.Some? then gasOverride.value
    else if gas.Some? && gas.value.reply.Reply? then gas.value.reply.value
    else INITIAL_GAS_PRICE
  }

  /** What an attempt comes to, and the probe it leaves. */
  function Decided(c: Config, gasOverride: Option<nat>, probe: Probe, a: Attempt): (Probe, Verdict) {
    var (probe1, before) := Outcome(c, probe, a.before);
    if before.Err? then (probe1, Failed(before.error))
    else if a.derive.None? then (probe1, Failed(TransportFailed))
    else
      var derived := Derived(c, a.derive.value);
      if derived.Err? then (probe1, Failed(derived.error))
      else if a.block.None? || !a.block.value.reply.Reply? || a.after.None? then (probe1, Failed(TransportFailed))
      else
        var (probe2, after) := Outcome(c, probe1, a.after.value);
        if after.Err? then (probe2, Failed(after.error))
        else if before.value != after.value then (probe2, Disagreed)
        else
          (probe2, Accepted(Snapshot(
             before.value, probe2.identified || probe2.inconclusive, derived.value.0, derived.value.1,
             a.block.value.reply.value, GasPrice(gasOverride, a.gas))))
  }

  ghost predicate AttemptShaped(c: Config, gasOverride: Option<nat>, probe: Probe, a: Attempt) {
    var (probe1, before) := Outcome(c, probe, a.before);
    && Shaped(c, probe, a.before)
    && (a.derive.Some? <==> before.Ok?)
    && (a.derive.Some? ==> DeriveShaped(c, a.derive.value))
    && (a.block.Some? <==> a.derive.Some? && Derived(c, a.derive.value).Ok?)
    && (a.after.Some? <==> a.block.Some? && a.block.value.reply.Reply?)
    && (a.gas.Some? <==> a.after.Some? && gasOverride.None?)
    && (a.after.Some? ==> Shaped(c, probe1, a.after.value))
  }

  function DerivedAt(lo: nat, a: Attempt): nat {
    var end := a.before.End(lo);
    if a.derive.Some? then DeriveEnd(end, a.derive.value) else end
  }

  /** The epoch before the second identity reading. */
  function DataEnd(lo: nat, a: Attempt): nat {
    After(After(DerivedAt(lo, a), a.block), a.gas)
  }

  function AttemptEnd(lo: nat, a: Attempt): nat {
    if a.after.Some? then a.after.value.End(DataEnd(lo, a)) else DataEnd(lo, a)
  }

  ghost predicate AttemptHonest(c: Config, h: History, lo: nat, a: Attempt) {
    && Honest(h, lo, a.before)
    && (a.derive.Some? ==> DeriveHonest(h, a.before.End(lo), a.derive.value))
    && DerivedAt(lo, a) <= After(DerivedAt(lo, a), a.block) <= DataEnd(lo, a)
    && (a.block.Some? && a.derive.Some? && Derived(c, a.derive.value).Ok? ==>
          BlockHonest(h, Derived(c, a.derive.value).value.0, a.block.value))
    && (a.gas.Some? && a.gas.value.reply.Reply? ==> h(a.gas.value.epoch).gasPrices(a.gas.value.reply.value))
    && (a.after.Some? ==> Honest(h, DataEnd(lo, a), a.after.value))
  }

  ghost predicate AttemptRun(
    c: Config, h: History, gasOverride: Option<nat>, probe: Probe, lo: nat, a: Attempt, hi: nat)
  {
    AttemptShaped(c, gasOverride, probe, a) && AttemptHonest(c, h, lo, a) && hi == AttemptEnd(lo, a)
  }

  lemma DeriveMovesOn(c: Config, h: History, lo: nat, d: DeriveReads)
    requires DeriveShaped(c, d) && DeriveHonest(h, lo, d)
    ensures lo <= DeriveEnd(lo, d)
  {
  }

  /** The epochs of an accepted attempt, in the order of its requests. */
  lemma AttemptEpochs(
    c: Config, h: History, gasOverride: Option<nat>, probe: Probe, lo: nat, a: Attempt, hi: nat)
    requires AttemptRun(c, h, gasOverride, probe, lo, a, hi) && Decided(c, gasOverride, probe, a).1.Accepted?
    ensures lo <= a.before.End(lo) <= DerivedAt(lo, a) <= a.block.value.epoch <= DataEnd(lo, a)
    ensures a.after.Some? && DataEnd(lo, a) <= a.after.value.InfoEpoch(DataEnd(lo, a)) <= hi
  {
    DeriveMovesOn(c, h, a.before.End(lo), a.derive.value);
  }

  // ----- attempts built up request by request -----

  /** A first reading that identified the endpoint. */
  ghost predicate Started(
    c: Config, h: History, probe: Probe, lo: nat, asked: IdentityReads, hi: nat, probe1: Probe, before: Identity)
  {
    IdentityRun(c, h, probe, lo, asked, hi) && Outcome(c, probe, asked) == (probe1, Ok(before))
  }

  lemma DerivationFailed(
    c: Config, h: History, gasOverride: Option<nat>, probe: Probe, lo: nat, asked: IdentityReads, mid: nat,
    probe1: Probe, before: Identity, d: DeriveReads, hi: nat)
    requires Started(c, h, probe, lo, asked, mid, probe1, before) && DeriveRun(c, h, mid, d, hi) && Derived(c, d).Err?
    ensures var a := Attempt(asked, Some(d), None, None, None);
      && AttemptRun(c, h, gasOverride, probe, lo, a, hi)
      && Decided(c, gasOverride, probe, a) == (probe1, Failed(Derived(c, d).error))
  {
  }

  lemma BlockFailed(
    c: Config, h: History, gasOverride: Option<nat>, probe: Probe, lo: nat, asked: IdentityReads, mid: nat,
    probe1: Probe, before: Identity, d: DeriveReads, derived: nat, block: Read<Option<Block>>)
    requires Started(c, h, probe, lo, asked, mid, probe1, before)
    requires DeriveRun(c, h, mid, d, derived) && Derived(c, d).Ok?
    requires derived <= block.epoch && !block.reply.Reply?
    ensures var a := Attempt(asked, Some(d), Some(block), None, None);
      && AttemptRun(c, h, gasOverride, probe, lo, a, block.epoch)
      && Decided(c, gasOverride, probe, a) == (probe1, Failed(TransportFailed))
  {
  }

  /** What two readings with block data in between come to. */
  function Compared(
    before: Identity, after: Result<Identity, Failure>, probe: Probe, number: nat, replay: Option<Replay>,
    block: Option<Block>, gasPrice: nat): Verdict
  {
    if after.Err? then Failed(after.error)
    else if before != after.value then Disagreed
    else Accepted(Snapshot(before, probe.identified || probe.inconclusive, number, replay, block, gasPrice))
  }

  lemma Completed(
    c: Config, h: History, gasOverride: Option<nat>, probe: Probe, lo: nat, asked: IdentityReads, mid: nat,
    probe1: Probe, before: Identity, d: DeriveReads, derived: nat, block: Read<Option<Block>>,
    gas: Option<Read<nat>>, again: IdentityReads, hi: nat)
    requires Started(c, h, probe, lo, asked, mid, probe1, before)
    requires DeriveRun(c, h, mid, d, derived) && Derived(c, d).Ok?
    requires derived <= block.epoch <= After(block.epoch, gas) && block.reply.Reply?
    requires BlockHonest(h, Derived(c, d).value.0, block)
    requires gas.Some? <==> gasOverride.None?
    requires gas.Some? && gas.value.reply.Reply? ==> h(gas.value.epoch).gasPrices(gas.value.reply.value)
    requires IdentityRun(c, h, probe1, After(block.epoch, gas), again, hi)
    ensures var a := Attempt(asked, Some(d), Some(block), gas, Some(again));
      && AttemptRun(c, h, gasOverride, probe, lo, a, hi)
      && Decided(c, gasOverride, probe, a) ==
           (Outcome(c, probe1, again).0,
            Compared(before, Outcome(c, probe1, again).1, Outcome(c, probe1, again).0, Derived(c, d).value.0,
                     Derived(c, d).value.1, block.reply.value, GasPrice(gasOverride, gas)))
  {
  }

  // ----- the whole run -----

  /** Up to three attempts, with the probe and the epoch before and after each. */
  datatype Run = Run(attempts: seq<Attempt>, probes: seq<Probe>, epochs: seq<nat>)

  /** One verdict per attempt, and a probe and an epoch before and after each. */
  predicate Aligned(run: Run) {
    |run.probes| == |run.epochs| == |run.attempts| + 1
  }

  function VerdictAt(c: Config, gasOverride: Option<nat>, run: Run, k: nat): Verdict
    requires Aligned(run) && k < |run.attempts|
  {
    Decided(c, gasOverride, run.probes[k], run.attempts[k]).1
  }

  /** Attempt `k` leads from its probe and epoch to the next. */
  ghost predicate Leads(c: Config, h: History, gasOverride: Option<nat>, run: Run, k: nat)
    requires Aligned(run) && k < |run.attempts|
  {
    && AttemptRun(c, h, gasOverride, run.probes[k], run.epochs[k], run.attempts[k], run.epochs[k + 1])
    && Decided(c, gasOverride, run.probes[k], run.attempts[k]).0 == run.probes[k + 1]
  }

  /** Attempts that follow one another, all but the last in disagreement. */
  ghost predicate Attempted(c: Config, h: History, gasOverride: Option<nat>, run: Run) {
    && Aligned(run)
    && (forall k | 0 <= k < |run.attempts| :: Leads(c, h, gasOverride, run, k))
    && EarlierDisagreed(c, gasOverride, run)
  }

  ghost predicate EarlierDisagreed(c: Config, gasOverride: Option<nat>, run: Run)
    requires Aligned(run)
  {
    forall k | 0 <= k < |run.attempts| - 1 :: VerdictAt(c, gasOverride, run, k) == Disagreed
  }

  ghost predicate AllDisagreed(c: Config, gasOverride: Option<nat>, run: Run)
    requires Aligned(run)
  {
    forall k | 0 <= k < |run.attempts| :: VerdictAt(c, gasOverride, run, k) == Disagreed
  }

  lemma DisagreedThroughout(c: Config, gasOverride: Option<nat>, run: Run)
    requires Aligned(run) && EarlierDisagreed(c, gasOverride, run) && run.attempts != []
    requires VerdictAt(c, gasOverride, run, |run.attempts| - 1) == Disagreed
    ensures AllDisagreed(c, gasOverride, run)
  {
  }

  /** The verdict of the last attempt decides; disagreement decides only the third time. */
  ghost predicate Concluded(c: Config, gasOverride: Option<nat>, run: Run, r: Result<Snapshot, Failure>)
    requires Aligned(run)
  {
    && 1 <= |run.attempts| <= 3
    && match VerdictAt(c, gasOverride, run, |run.attempts| - 1)
       case Accepted(s) => r == Ok(s)
       case Failed(f) => r == Err(f)
       case Disagreed => |run.attempts| == 3 && r == Err(EndpointChanged)
  }

  /** A run of the protocol from one epoch to another, with its result. */
  ghost predicate StableRun(
    c: Config, h: History, gasOverride: Option<nat>, knownAnvil: bool, lo: nat, run: Run, hi: nat,
    r: Result<Snapshot, Failure>)
  {
    && Attempted(c, h, gasOverride, run)
    && Concluded(c, gasOverride, run, r)
    && run.probes[0] == Probe(knownAnvil, c.skipNodeInfo, false)
    && run.epochs[0] == lo && run.epochs[|run.attempts|] == hi
  }
}
