/**
 What the fields of an accepted fork snapshot hold, in terms of what the endpoint reported
 (crates/anvil/src/config.rs): which chain it executes and which it was forked from, the fork block, the
 hardfork, the gas price, and whether its state may still change.
 */
module ForkContents {
  import opened Common
  import opened ForkEndpoint
  import opened ForkReads
  import opened ForkProperties

  // ----- the identity -----

  /** The profile for what node info says of the network: its name goes by the chain that is executed, and
      without a name the chain it was forked from counts. */
  ghost predicate Placed(c: Config, x: Identity, info: NodeInfo) {
    && x.profile.Some?
    && c.profileFor(if info.network.None? then x.sourceChainId else x.executionChainId, Some(info.network))
         == Ok(x.profile)
    && x.network == Some(c.networkOf(x.profile.value))
    && x.hardfork.Some? && x.hardfork == c.hardforkOf(x.network.value, info.hardFork)
  }

  /** The identity of an Anvil, by its node info and metadata: it executes its own chain, and its source is the
      chain it was told, or the one it was forked from, or else its own. */
  ghost predicate IdentityOf(c: Config, x: Identity, info: NodeInfo, meta: Metadata) {
    && x.executionChainId == meta.chainId
    && x.sourceChainId == (match (c.forkChainId, meta.forked)
                           case (Some(told), _) => told
                           case (None, Some(forked)) => forked.chainId
                           case (None, None) => meta.chainId)
    && x.instanceId == Some(meta.instanceId)
    && (meta.forked.Some? ==>
          && x.sourceForkBlockNumber == Some(meta.forked.value.blockNumber)
          && x.sourceForkBlockHash == Some(meta.forked.value.blockHash))
    && (meta.forked.None? ==> x.sourceForkBlockNumber.None? && x.sourceForkBlockHash.None?)
    && Placed(c, x, info)
  }

  /** Node info and metadata give an identity exactly when all of it can be made out. */
  lemma IdentifiedIff(c: Config, x: Identity, info: NodeInfo, meta: Metadata)
    ensures Identified(c, info, meta) == Ok(x) <==> IdentityOf(c, x, info, meta)
  {
  }

  /** An identity that was read without an instance id, when the endpoint reported `chainId`: that chain, or the
      one told, is both executed and forked from, and there is no fork block. Unless the endpoint is
      known for an Anvil by its node info, there is no hardfork either, and the profile is the chain's. */
  ghost predicate IdlessIdentityOf(c: Config, x: Identity, chainId: nat, info: Option<NodeInfo>) {
    && x.executionChainId == x.sourceChainId == (match c.forkChainId case Some(told) => told case None => chainId)
    && x.instanceId.None? && x.sourceForkBlockNumber.None? && x.sourceForkBlockHash.None?
    && match info
       case Some(i) => Placed(c, x, i)
       case None =>
         && x.hardfork.None? && c.profileFor(x.sourceChainId, None) == Ok(x.profile)
         && x.network == (match x.profile case Some(p) => Some(c.networkOf(p)) case None => None)
  }

  /** A reading gives an identity without an instance id only from the chain id and, if any, the node info it
      was answered with. */
  lemma IdlessReadingIs(c: Config, h: History, probe: Probe, lo: nat, asked: IdentityReads, hi: nat)
    requires IdentityRun(c, h, probe, lo, asked, hi)
    requires Outcome(c, probe, asked).1.Ok? && Outcome(c, probe, asked).1.value.instanceId.None?
    ensures var i, j := After(lo, asked.chain), asked.InfoEpoch(lo);
      && lo <= i <= j <= hi
      && IdlessIdentityOf(
           c, Outcome(c, probe, asked).1.value, h(i).chainId, if SawNodeInfo(asked) then Some(h(j).nodeInfo) else None)
  {
  }

  lemma ReadingIsSupported(c: Config, probe: Probe, asked: IdentityReads)
    ensures Outcome(c, probe, asked).1.Ok? ==> c.supported(Outcome(c, probe, asked).1.value.sourceChainId)
  {
  }

  /** Some epoch reported the identity. */
  ghost predicate ReportedBy(c: Config, h: History, lo: nat, hi: nat, x: Identity) {
    exists at | lo <= at <= hi :: IdentityOf(c, x, h(at).nodeInfo, h(at).metadata)
  }

  /** The chain id of some epoch and the node info of a later one, if it was given, make the identity. */
  ghost predicate PiecedTogether(c: Config, h: History, lo: nat, hi: nat, x: Identity) {
    exists i, j | lo <= i <= j <= hi ::
      IdlessIdentityOf(c, x, h(i).chainId, None) || IdlessIdentityOf(c, x, h(i).chainId, Some(h(j).nodeInfo))
  }

  /** What an accepted identity holds. Its source chain is one that is supported. */
  ghost predicate Attested(c: Config, h: History, lo: nat, hi: nat, x: Identity) {
    && c.supported(x.sourceChainId)
    && if x.instanceId.Some? then ReportedBy(c, h, lo, hi, x) else PiecedTogether(c, h, lo, hi, x)
  }

  lemma SnapshotIdentity(
    c: Config, h: History, gasOverride: Option<nat>, knownAnvil: bool, lo: nat, run: Run, hi: nat,
    r: Result<Snapshot, Failure>)
    requires UniqueInstances(h) && StableRun(c, h, gasOverride, knownAnvil, lo, run, hi, r)
    ensures r.Ok? ==> Attested(c, h, lo, hi, r.value.identity)
  {
    if r.Ok? {
      SnapshotSupported(c, h, gasOverride, knownAnvil, lo, run, hi, r);
      if r.value.identity.instanceId.Some? {
        var at := SnapshotIsAtomic(c, h, gasOverride, knownAnvil, lo, run, hi, r);
        IdentifiedIff(c, r.value.identity, h(at).nodeInfo, h(at).metadata);
      } else {
        SnapshotPieced(c, h, gasOverride, knownAnvil, lo, run, hi, r);
      }
    }
  }

  lemma SnapshotSupported(
    c: Config, h: History, gasOverride: Option<nat>, knownAnvil: bool, lo: nat, run: Run, hi: nat,
    r: Result<Snapshot, Failure>)
    requires StableRun(c, h, gasOverride, knownAnvil, lo, run, hi, r)
    ensures r.Ok? ==> c.supported(r.value.identity.sourceChainId)
  {
    var last := |run.attempts| - 1;
    ReadingIsSupported(c, run.probes[last], run.attempts[last].before);
  }

  lemma SnapshotPieced(
    c: Config, h: History, gasOverride: Option<nat>, knownAnvil: bool, lo: nat, run: Run, hi: nat,
    r: Result<Snapshot, Failure>)
    requires StableRun(c, h, gasOverride, knownAnvil, lo, run, hi, r)
    ensures r.Ok? && r.value.identity.instanceId.None? ==> PiecedTogether(c, h, lo, hi, r.value.identity)
  {
    if r.Ok? && r.value.identity.instanceId.None? {
      var last := |run.attempts| - 1;
      assert Leads(c, h, gasOverride, run, last);
      IdlessAttempt(c, h, gasOverride, run.probes[last], run.epochs[last], run.attempts[last], hi);
      EpochsRise(c, h, gasOverride, run, last);
    }
  }

  lemma IdlessAttempt(c: Config, h: History, gasOverride: Option<nat>, probe: Probe, lo: nat, a: Attempt, hi: nat)
    requires AttemptRun(c, h, gasOverride, probe, lo, a, hi) && Decided(c, gasOverride, probe, a).1.Accepted?
    requires Decided(c, gasOverride, probe, a).1.snapshot.identity.instanceId.None?
    ensures PiecedTogether(c, h, lo, hi, Decided(c, gasOverride, probe, a).1.snapshot.identity)
  {
    AttemptEpochs(c, h, gasOverride, probe, lo, a, hi);
    IdlessReadingIs(c, h, probe, lo, a.before, a.before.End(lo));
    var i, j := After(lo, a.before.chain), a.before.InfoEpoch(lo);
    assert lo <= i <= j <= hi;
  }

  // ----- the gas price -----

  /** The price is the one given; or the one the accepted attempt was answered with, in that epoch; and the
      initial price only if asking for one failed. */
  ghost predicate Priced(h: History, gasOverride: Option<nat>, run: Run, s: Snapshot) {
    && run.attempts != []
    && var gas := run.attempts[|run.attempts| - 1].gas;
       match (gasOverride, gas)
       case (Some(given), _) => s.gasPrice == given
       case (None, Some(Read(epoch, Reply(price)))) => s.gasPrice == price && h(epoch).gasPrices(price)
       case (None, Some(_)) => s.gasPrice == 1_875_000_000
       case (None, None) => false
  }

  lemma SnapshotPrice(
    c: Config, h: History, gasOverride: Option<nat>, knownAnvil: bool, lo: nat, run: Run, hi: nat,
    r: Result<Snapshot, Failure>)
    requires StableRun(c, h, gasOverride, knownAnvil, lo, run, hi, r)
    ensures r.Ok? ==> Priced(h, gasOverride, run, r.value)
  {
    if r.Ok? {
      assert Leads(c, h, gasOverride, run, |run.attempts| - 1);
    }
  }

  // ----- whether the state may change -----

  /** Some reading before `m` was answered by `anvil_nodeInfo`, or not clearly told that there is none. */
  ghost predicate SuspectedBefore(run: Run, m: nat) {
    exists j | 0 <= j < m :: HasReading(run, j) && Suspicious(ReadingAt(run, j))
  }

  predicate Suspicious(asked: IdentityReads) {
    asked.info.Some? && asked.info.value.reply != MethodNotFound
  }

  lemma ProbeSuspects(c: Config, probe: Probe, asked: IdentityReads)
    requires Shaped(c, probe, asked) && Outcome(c, probe, asked).1.Ok?
    ensures var probe' := Outcome(c, probe, asked).0;
      probe'.identified || probe'.inconclusive <==> probe.identified || probe.inconclusive || Suspicious(asked)
  {
  }

  lemma {:induction false} ProbeSuspectsBefore(c: Config, h: History, gasOverride: Option<nat>, run: Run, m: nat)
    requires Attempted(c, h, gasOverride, run) && HasReading(run, m) && !run.probes[0].inconclusive
    ensures var probe := ProbeAt(c, run, m);
      probe.identified || probe.inconclusive <==> run.probes[0].identified || SuspectedBefore(run, m)
    decreases m
  {
    if m > 0 {
      NextReading(c, h, gasOverride, run, m - 1);
      ReadingShaped(c, h, gasOverride, run, m - 1);
      ReadingSucceeded(c, h, gasOverride, run, m - 1);
      ProbeSuspectsBefore(c, h, gasOverride, run, m - 1);
      ProbeSuspects(c, ProbeAt(c, run, m - 1), ReadingAt(run, m - 1));
    }
  }

  lemma ReadingSucceeded(c: Config, h: History, gasOverride: Option<nat>, run: Run, m: nat)
    requires Attempted(c, h, gasOverride, run) && HasReading(run, m) && HasReading(run, m + 1)
    ensures Outcome(c, ProbeAt(c, run, m), ReadingAt(run, m)).1.Ok?
  {
    var k := m / 2;
    AttemptAt(c, h, gasOverride, run, k);
    if m % 2 == 1 {
      assert (m + 1) / 2 == k + 1;
      assert VerdictAt(c, gasOverride, run, k) == Disagreed;
    } else {
      assert (m + 1) / 2 == k && (m + 1) % 2 == 1;
    }
  }

  /** The state is taken for mutable exactly when the endpoint was known to be Anvil, or some reading of the
      run was not clearly told that it is not. */
  lemma MutableIff(
    c: Config, h: History, gasOverride: Option<nat>, knownAnvil: bool, lo: nat, run: Run, hi: nat,
    r: Result<Snapshot, Failure>)
    requires StableRun(c, h, gasOverride, knownAnvil, lo, run, hi, r)
    ensures r.Ok? ==> (r.value.stateIsMutable <==> knownAnvil || SuspectedBefore(run, 2 * |run.attempts|))
  {
    if r.Ok? {
      var last := |run.attempts| - 1;
      var m := 2 * last + 1;
      AttemptAt(c, h, gasOverride, run, last);
      assert HasReading(run, m) && m / 2 == last && m % 2 == 1;
      ProbeSuspectsBefore(c, h, gasOverride, run, m);
      ReadingShaped(c, h, gasOverride, run, m);
      ProbeSuspects(c, ProbeAt(c, run, m), ReadingAt(run, m));
    }
  }

  // ----- what failures mean -----

  predicate Failed<T>(read: Option<Read<T>>) {
    read.Some? && !read.value.reply.Reply?
  }

  /** Why a reading fails: the chain id was not to be had; an endpoint known to be Anvil denied that or had an
      error; the metadata request had an error; or the source chain is not supported. */
  lemma ReadingFailsIff(c: Config, probe: Probe, asked: IdentityReads)
    requires Shaped(c, probe, asked)
    ensures var r := Outcome(c, probe, asked).1;
      && (r == Err(TransportFailed) <==> Failed(asked.chain))
      && (r == Err(ProbeFailed) <==>
            && !Failed(asked.chain) && asked.info.Some? && probe.identified
            && (asked.info.value.reply == MethodNotFound || asked.info.value.reply == RpcError))
      && (r == Err(MetadataFailed) <==> asked.meta.Some? && asked.meta.value.reply == RpcError)
      && (r == Err(UnsupportedNetwork) <==>
            var x := Outcome(c.(supported := _ => true), probe, asked).1; x.Ok? && !c.supported(x.value.sourceChainId))
  {
  }

  /** Why no block can be derived: a request failed; the transaction is not mined; its block is not there; or
      the transaction is not in it where it should be, once. */
  lemma DerivationFailsIff(c: Config, d: DeriveReads)
    requires DeriveShaped(c, d)
    ensures var r := Derived(c, d);
      && (r == Err(TransportFailed) <==>
            || Failed(d.head) || Failed(d.transaction) || Failed(d.source)
            || (d.walk != [] && !d.walk[|d.walk| - 1].reply.Reply?))
      && (r == Err(NotMined) <==>
            && d.transaction.Some? && d.transaction.value.reply.Reply?
            && match d.transaction.value.reply.value
               case None => true
               case Some(location) => location.blockNumber.None? || location.blockHash.None?)
      && (r == Err(ForkBlockMissing) <==> d.source.Some? && d.source.value.reply == Reply(None))
      && (r == Err(InvalidReplay) <==>
            && d.source.Some? && d.source.value.reply.Reply? && d.source.value.reply.value.Some?
            && forall i :: !Replays(c.forkChoice, Mined(d).value, d.source.value.reply.value.value, i))
      && (r.Ok? || r.error in {TransportFailed, NotMined, ForkBlockMissing, InvalidReplay})
  {
    if d.source.Some? && d.source.value.reply.Reply? && d.source.value.reply.value.Some? {
      var location, block := Mined(d).value, d.source.value.reply.value.value;
      forall i: nat
        ensures Replays(c.forkChoice, location, block, i) <==>
          ValidateReplay(c.forkChoice.hash, location, block) == Ok(Replay(block, i))
      {
        ReplayIff(c.forkChoice.hash, location, block, i);
      }
      InvalidUnless(c.forkChoice.hash, location, block);
    }
  }

  /** The transaction stands in the block at `i` and nowhere else, as its location says, and the block has a
      parent. */
  ghost predicate Replays(choice: ForkChoice, location: Location, block: SourceBlock, i: nat) {
    && choice.Transaction?
    && location.blockHash == Some(block.hash) && location.blockNumber == Some(block.number) && block.number > 0
    && OccursOnlyAt(block, choice.hash, i)
    && (location.index.Some? ==> location.index.value == i)
  }

  lemma InvalidUnless(tx: Hash, location: Location, block: SourceBlock)
    requires location.blockHash.Some? && location.blockNumber.Some?
    ensures var r := ValidateReplay(tx, location, block);
      r == Err(InvalidReplay) || (r.Ok? && r.value == Replay(block, r.value.targetIndex))
  {
  }

  /** A run fails for what its last attempt failed for: a reading, the derivation or the block request; or
      because the endpoint changed. */
  ghost predicate FailedFor(c: Config, run: Run, failure: Failure)
    requires Aligned(run)
  {
    failure == EndpointChanged ||
    (run.attempts != [] &&
     var last := |run.attempts| - 1;
     var probe, a := run.probes[last], run.attempts[last];
     || Outcome(c, probe, a.before).1 == Err(failure)
     || (a.derive.Some? && Derived(c, a.derive.value) == Err(failure))
     || (Failed(a.block) && failure == TransportFailed)
     || (a.after.Some? && Outcome(c, Outcome(c, probe, a.before).0, a.after.value).1 == Err(failure)))
  }

  lemma RunFailsFor(
    c: Config, h: History, gasOverride: Option<nat>, knownAnvil: bool, lo: nat, run: Run, hi: nat,
    r: Result<Snapshot, Failure>)
    requires StableRun(c, h, gasOverride, knownAnvil, lo, run, hi, r)
    ensures r.Err? ==> FailedFor(c, run, r.error)
  {
    if r.Err? {
      AttemptAt(c, h, gasOverride, run, |run.attempts| - 1);
    }
  }
}
