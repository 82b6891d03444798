/**
 What the read protocol of a fork snapshot guarantees over every run: an accepted snapshot with an
 instance id is that of one epoch, its block is the chosen one, the probe stays strict, and an endpoint
 that is not reset is accepted.
 */
module ForkProperties {
  import opened Common
  import opened ForkEndpoint
  import opened ForkReads

  // ----- snapshots with an instance id -----

  /** Everything in the snapshot was reported by one single epoch. */
  ghost predicate FromEpoch(c: Config, s: Snapshot, gasOverride: Option<nat>, e: Epoch) {
    && Identified(c, e.nodeInfo, e.metadata) == Ok(s.identity)
    && (s.block.Some? ==> s.block.value == e.blocks(s.blockNumber))
    && (s.replay.Some? ==> s.replay.value.sourceBlock == e.sourceBlocks(s.replay.value.sourceBlock.hash))
    && (if gasOverride.Some? then s.gasPrice == gasOverride.value
        else e.gasPrices(s.gasPrice) || s.gasPrice == INITIAL_GAS_PRICE)
  }

  /** The heart of the protocol: when the instance id read before and after some reads is the same,
      every epoch in between is the same one. */
  lemma SameInstanceSameEpoch(history: History, before: nat, between: nat, after: nat)
    requires UniqueInstances(history) && before <= between <= after
    requires history(before).metadata.instanceId == history(after).metadata.instanceId
    ensures before == between == after
  {
  }

  /** An identity that read the same before and after is, as a whole, the identity of the epoch of
      its second metadata read: the node info of the first reading may be older, but equals the
      second's, which is not. */
  lemma AgreeingIdentity(
    c: Config, history: History, before: Identity, after: Identity,
    info1: nat, meta1: nat, info2: nat, meta2: nat)
    requires UniqueInstances(history) && info1 <= meta1 <= info2 <= meta2
    requires Identified(c, history(info1).nodeInfo, history(meta1).metadata) == Ok(before)
    requires Identified(c, history(info2).nodeInfo, history(meta2).metadata) == Ok(after)
    requires before == after
    ensures meta1 == info2 == meta2
    ensures Identified(c, history(meta1).nodeInfo, history(meta1).metadata) == Ok(before)
  {
    assert before.instanceId == Some(history(meta1).metadata.instanceId);
    assert after.instanceId == Some(history(meta2).metadata.instanceId);
    SameInstanceSameEpoch(history, meta1, info2, meta2);
  }

  /** An identity tells apart what it is read from: endpoints with equal identities report the same
      chain, instance and fork block, and the same source chain unless it is overridden. */
  lemma EqualIdentityEqualContext(
    c1: Config, c2: Config, info1: NodeInfo, meta1: Metadata, info2: NodeInfo, meta2: Metadata)
    requires Identified(c1, info1, meta1).Ok? && Identified(c1, info1, meta1) == Identified(c2, info2, meta2)
    ensures meta1.chainId == meta2.chainId && meta1.instanceId == meta2.instanceId
    ensures meta1.forked.Some? <==> meta2.forked.Some?
    ensures meta1.forked.Some? ==>
      meta1.forked.value.(chainId := 0) == meta2.forked.value.(chainId := 0)
    ensures c1.forkChainId.None? && c2.forkChainId.None? ==> meta1 == meta2
  {
  }

  lemma DerivedReplay(c: Config, h: History, lo: nat, d: DeriveReads)
    requires DeriveShaped(c, d) && DeriveHonest(h, lo, d) && Derived(c, d).Ok? && Derived(c, d).value.1.Some?
    ensures var block := Derived(c, d).value.1.value.sourceBlock;
      d.source.Some? && lo <= d.source.value.epoch == DeriveEnd(lo, d)
      && block == h(d.source.value.epoch).sourceBlocks(block.hash)
  {
    var tx := c.forkChoice.hash;
    ReplayIff(tx, Mined(d).value, d.source.value.reply.value.value, Derived(c, d).value.1.value.targetIndex);
  }

  /** Snapshot atomicity, over every run of an attempt: an accepted snapshot that carries an instance id
      has its whole identity, its block, its replay and its gas price from one single epoch, even
      though the first node-info read may have happened before a reset. */
  lemma AcceptedIsAtomic(
    c: Config, h: History, gasOverride: Option<nat>, probe: Probe, lo: nat, a: Attempt, hi: nat) returns (at: nat)
    requires UniqueInstances(h) && AttemptRun(c, h, gasOverride, probe, lo, a, hi)
    requires Decided(c, gasOverride, probe, a).1.Accepted?
    requires Decided(c, gasOverride, probe, a).1.snapshot.identity.instanceId.Some?
    ensures lo <= at <= hi && FromEpoch(c, Decided(c, gasOverride, probe, a).1.snapshot, gasOverride, h(at))
  {
    AttemptEpochs(c, h, gasOverride, probe, lo, a, hi);
    at := a.before.End(lo);
    var probe1, data := Outcome(c, probe, a.before).0, DataEnd(lo, a);
    IdentityEpochs(c, h, probe, lo, a.before, at);
    IdentityEpochs(c, h, probe1, data, a.after.value, hi);
    var x := Outcome(c, probe, a.before).1.value;
    AgreeingIdentity(c, h, x, x, a.before.InfoEpoch(lo), at, a.after.value.InfoEpoch(data), hi);
    if Derived(c, a.derive.value).value.1.Some? {
      DerivedReplay(c, h, at, a.derive.value);
    }
  }

  /** The same for a whole run. */
  lemma SnapshotIsAtomic(
    c: Config, h: History, gasOverride: Option<nat>, knownAnvil: bool, lo: nat, run: Run, hi: nat,
    r: Result<Snapshot, Failure>) returns (at: nat)
    requires UniqueInstances(h) && StableRun(c, h, gasOverride, knownAnvil, lo, run, hi, r)
    ensures r.Ok? && r.value.identity.instanceId.Some? ==>
      lo <= at <= hi && FromEpoch(c, r.value, gasOverride, h(at))
  {
    at := lo;
    if r.Ok? && r.value.identity.instanceId.Some? {
      var last := |run.attempts| - 1;
      assert Leads(c, h, gasOverride, run, last);
      at := AcceptedIsAtomic(
        c, h, gasOverride, run.probes[last], run.epochs[last], run.attempts[last], run.epochs[last + 1]);
      EpochsRise(c, h, gasOverride, run, last);
    }
  }

  /** Two snapshots of one endpoint with equal identities are of the same epoch, however they were configured
      and whenever they were taken: where they hold the same block number, they hold the same block. */
  lemma EqualSnapshotsOneEpoch(
    h: History,
    c1: Config, gas1: Option<nat>, known1: bool, lo1: nat, run1: Run, hi1: nat, r1: Result<Snapshot, Failure>,
    c2: Config, gas2: Option<nat>, known2: bool, lo2: nat, run2: Run, hi2: nat, r2: Result<Snapshot, Failure>)
    returns (at: nat)
    requires UniqueInstances(h)
    requires StableRun(c1, h, gas1, known1, lo1, run1, hi1, r1) && StableRun(c2, h, gas2, known2, lo2, run2, hi2, r2)
    ensures r1.Ok? && r2.Ok? && r1.value.identity == r2.value.identity && r1.value.identity.instanceId.Some? ==>
      && lo1 <= at <= hi1 && lo2 <= at <= hi2
      && FromEpoch(c1, r1.value, gas1, h(at)) && FromEpoch(c2, r2.value, gas2, h(at))
      && (r1.value.block.Some? && r2.value.block.Some? && r1.value.blockNumber == r2.value.blockNumber ==>
            r1.value.block == r2.value.block)
  {
    at := SnapshotIsAtomic(c1, h, gas1, known1, lo1, run1, hi1, r1);
    var at2 := SnapshotIsAtomic(c2, h, gas2, known2, lo2, run2, hi2, r2);
    if r1.Ok? && r2.Ok? && r1.value.identity == r2.value.identity && r1.value.identity.instanceId.Some? {
      var e1, e2 := h(at), h(at2);
      EqualIdentityEqualContext(c1, c2, e1.nodeInfo, e1.metadata, e2.nodeInfo, e2.metadata);
      assert at == at2;
    }
  }

  lemma {:induction false} EpochsRise(c: Config, h: History, gasOverride: Option<nat>, run: Run, k: nat)
    requires Attempted(c, h, gasOverride, run) && k <= |run.attempts|
    ensures run.epochs[0] <= run.epochs[k]
  {
    if k > 0 {
      EpochsRise(c, h, gasOverride, run, k - 1);
      assert Leads(c, h, gasOverride, run, k - 1);
      AttemptMovesOn(c, h, gasOverride, run.probes[k - 1], run.epochs[k - 1], run.attempts[k - 1], run.epochs[k]);
    }
  }

  lemma AttemptMovesOn(c: Config, h: History, gasOverride: Option<nat>, probe: Probe, lo: nat, a: Attempt, hi: nat)
    requires AttemptRun(c, h, gasOverride, probe, lo, a, hi)
    ensures lo <= hi
  {
    if a.derive.Some? {
      DeriveMovesOn(c, h, a.before.End(lo), a.derive.value);
    }
  }

  // ----- what is chosen -----

  /** The number `k` steps back from the head, or genesis if there are not so many. */
  predicate StepsBack(head: nat, k: nat, number: nat) {
    number + k == head || (head < k && number == 0)
  }

  /** The endpoint said that it has no such block, or gave one without a hash. */
  predicate SaidMissing(h: History, read: Read<Option<Block>>, number: nat) {
    || read.reply == Reply(None)
    || (read.reply == Reply(Some(h(read.epoch).blocks(number))) && h(read.epoch).blocks(number).hash == 0)
  }

  /** The latest block is the first one found on the way back from the head, which passes over at most two
      blocks, both asked for. */
  ghost predicate LatestFound(
    h: History, head: nat, walk: seq<Read<Option<Block>>>, passed: nat, number: nat)
  {
    && passed <= 2 && passed <= |walk| && StepsBack(head, passed, number)
    && (forall k, n | 0 <= k < passed && StepsBack(head, k, n) :: SaidMissing(h, walk[k], n))
    && (passed < 2 ==>
          && passed < |walk| && walk[passed].reply == Reply(Some(h(walk[passed].epoch).blocks(number)))
          && walk[passed].reply.value.value.hash != 0)
  }

  /** What a fork choice stands for, given what the endpoint replied. Forking at a transaction starts from
      the parent of its block. */
  ghost predicate Chosen(choice: ForkChoice, h: History, d: DeriveReads, number: nat, replay: Option<Replay>) {
    match choice
    case Latest =>
      replay.None? && HeadReply(d).Some? && exists passed :: LatestFound(h, HeadReply(d).value, d.walk, passed, number)
    case Number(n) =>
      replay.None? && if n >= 0 then number == n % U64_RANGE
                      else HeadReply(d).Some? && number == (n + HeadReply(d).value) % U64_RANGE
    case Transaction(tx) =>
      && replay.Some? && Mined(d).Some?
      && Mined(d).value.blockHash == Some(replay.value.sourceBlock.hash)
      && Mined(d).value.blockNumber == Some(replay.value.sourceBlock.number)
      && replay.value.sourceBlock.number == number + 1
      && OccursOnlyAt(replay.value.sourceBlock, tx, replay.value.targetIndex)
  }

  lemma PassedIsMissing(h: History, head: nat, k: nat, n: nat, read: Read<Option<Block>>)
    requires StepsBack(head, k, n) && BlockHonest(h, Back(head, k), read) && PassedOver(read.reply)
    ensures SaidMissing(h, read, n)
  {
    assert n == Back(head, k);
    if read.reply.value.Some? {
      assert read.reply == Reply(Some(read.reply.value.value));
    }
  }

  lemma DerivedIsChosen(c: Config, h: History, lo: nat, d: DeriveReads, hi: nat)
    requires DeriveRun(c, h, lo, d, hi) && Derived(c, d).Ok?
    ensures Chosen(c.forkChoice, h, d, Derived(c, d).value.0, Derived(c, d).value.1)
  {
    var (number, replay) := Derived(c, d).value;
    match c.forkChoice {
      case Latest =>
        var m := |d.walk| - 1;
        var passed := if Present(d.walk[m].reply) then m else m + 1;
        forall k, n | 0 <= k < passed && StepsBack(HeadReply(d).value, k, n) ensures SaidMissing(h, d.walk[k], n) {
          PassedIsMissing(h, HeadReply(d).value, k, n, d.walk[k]);
        }
        assert LatestFound(h, HeadReply(d).value, d.walk, passed, number);
      case Number(n) =>
      case Transaction(tx) =>
        ReplayIff(tx, Mined(d).value, d.source.value.reply.value.value, replay.value.targetIndex);
    }
  }

  /** The block and the replay of a snapshot are the chosen ones, by the replies of the attempt that was
      accepted. */
  ghost predicate SnapshotChosen(c: Config, h: History, run: Run, s: Snapshot) {
    && run.attempts != []
    && var a := run.attempts[|run.attempts| - 1];
       a.derive.Some? && Chosen(c.forkChoice, h, a.derive.value, s.blockNumber, s.replay)
  }

  lemma SnapshotIsChosen(
    c: Config, h: History, gasOverride: Option<nat>, knownAnvil: bool, lo: nat, run: Run, hi: nat,
    r: Result<Snapshot, Failure>)
    requires StableRun(c, h, gasOverride, knownAnvil, lo, run, hi, r)
    ensures r.Ok? ==> SnapshotChosen(c, h, run, r.value)
  {
    if r.Ok? {
      var last := |run.attempts| - 1;
      var a, start := run.attempts[last], run.epochs[last];
      assert Leads(c, h, gasOverride, run, last);
      DerivedIsChosen(c, h, a.before.End(start), a.derive.value, DerivedAt(start, a));
    }
  }

  // ----- the probe stays strict -----

  /** The reading was answered by `anvil_nodeInfo`. */
  predicate SawNodeInfo(asked: IdentityReads) {
    asked.info.Some? && asked.info.value.reply.Reply?
  }

  /** A reading that takes the endpoint for something other than Anvil, though asking it timed out. */
  predicate AnonymousOnlyByTimeout(c: Config, probe: Probe, asked: IdentityReads) {
    var r := Outcome(c, probe, asked).1;
    r.Ok? && !r.value.IsAuthoritative() ==> asked.info.Some? && asked.info.value.reply == TimedOut
  }

  lemma StrictReading(c: Config, probe: Probe, asked: IdentityReads)
    requires Shaped(c, probe, asked)
    ensures Outcome(c, probe, asked).0.identified <==> probe.identified || SawNodeInfo(asked)
    ensures Outcome(c, probe, asked).0.skip == probe.skip && (SawNodeInfo(asked) ==> !probe.skip)
    ensures probe.identified && !probe.skip ==> AnonymousOnlyByTimeout(c, probe, asked)
  {
  }

  lemma AttemptAt(c: Config, h: History, gasOverride: Option<nat>, run: Run, k: nat)
    requires Attempted(c, h, gasOverride, run) && k < |run.attempts|
    ensures AttemptShaped(c, gasOverride, run.probes[k], run.attempts[k])
    ensures Decided(c, gasOverride, run.probes[k], run.attempts[k]).0 == run.probes[k + 1]
  {
    assert Leads(c, h, gasOverride, run, k);
  }

  // The readings of a run in the order they are made: two per attempt, of which the last attempt may lack
  // the second.

  predicate HasReading(run: Run, m: nat) {
    m / 2 < |run.attempts| && (m % 2 == 1 ==> run.attempts[m / 2].after.Some?)
  }

  function ReadingAt(run: Run, m: nat): IdentityReads
    requires HasReading(run, m)
  {
    if m % 2 == 0 then run.attempts[m / 2].before else run.attempts[m / 2].after.value
  }

  /** The probe before the reading. */
  function ProbeAt(c: Config, run: Run, m: nat): Probe
    requires Aligned(run) && HasReading(run, m)
  {
    if m % 2 == 0 then run.probes[m / 2] else Outcome(c, run.probes[m / 2], run.attempts[m / 2].before).0
  }

  lemma ReadingShaped(c: Config, h: History, gasOverride: Option<nat>, run: Run, m: nat)
    requires Attempted(c, h, gasOverride, run) && HasReading(run, m)
    ensures Shaped(c, ProbeAt(c, run, m), ReadingAt(run, m))
  {
    AttemptAt(c, h, gasOverride, run, m / 2);
  }

  /** Each reading hands its probe to the next. */
  lemma NextReading(c: Config, h: History, gasOverride: Option<nat>, run: Run, m: nat)
    requires Attempted(c, h, gasOverride, run) && HasReading(run, m + 1)
    ensures HasReading(run, m)
    ensures ProbeAt(c, run, m + 1) == Outcome(c, ProbeAt(c, run, m), ReadingAt(run, m)).0
  {
    if m % 2 == 1 {
      var k := m / 2;
      assert (m + 1) / 2 == k + 1;
      assert VerdictAt(c, gasOverride, run, k) == Disagreed;
      AttemptAt(c, h, gasOverride, run, k);
    } else {
      assert (m + 1) / 2 == m / 2;
    }
  }

  /** The probe before reading `m` has identified the endpoint if it knew it from the start, or an earlier
      reading saw its node info. */
  lemma {:induction false} ProbeKnows(c: Config, h: History, gasOverride: Option<nat>, run: Run, j: nat, m: nat)
    requires Attempted(c, h, gasOverride, run) && HasReading(run, m)
    requires KnownBefore(run, j, m)
    ensures ProbeAt(c, run, m).identified && !ProbeAt(c, run, m).skip
    decreases m
  {
    if m > 0 {
      NextReading(c, h, gasOverride, run, m - 1);
      ReadingShaped(c, h, gasOverride, run, m - 1);
      if KnownBefore(run, j, m - 1) {
        ProbeKnows(c, h, gasOverride, run, j, m - 1);
      }
      StrictReading(c, ProbeAt(c, run, m - 1), ReadingAt(run, m - 1));
    }
  }

  /** The endpoint was known to be Anvil from the start and may be asked, or reading `j`, one before `m`, saw
      its node info. */
  predicate KnownBefore(run: Run, j: nat, m: nat)
    requires run.probes != []
  {
    || (run.probes[0].identified && !run.probes[0].skip)
    || (j < m && HasReading(run, j) && SawNodeInfo(ReadingAt(run, j)))
  }

  /** Once a run has seen Anvil's node info, in either reading of any attempt or before it started, no later
      reading takes the endpoint for anything else, unless the request for it timed out. */
  lemma OnceIdentifiedStrict(c: Config, h: History, gasOverride: Option<nat>, run: Run, j: nat, m: nat)
    requires Attempted(c, h, gasOverride, run) && HasReading(run, m)
    requires KnownBefore(run, j, m)
    ensures AnonymousOnlyByTimeout(c, ProbeAt(c, run, m), ReadingAt(run, m))
  {
    ProbeKnows(c, h, gasOverride, run, j, m);
    ReadingShaped(c, h, gasOverride, run, m);
    StrictReading(c, ProbeAt(c, run, m), ReadingAt(run, m));
  }

  /** An endpoint known to be Anvil is marked mutable. */
  lemma AnvilIsMutable(c: Config, gasOverride: Option<nat>, probe: Probe, a: Attempt)
    requires AttemptShaped(c, gasOverride, probe, a) && Decided(c, gasOverride, probe, a).1.Accepted?
    ensures var s := Decided(c, gasOverride, probe, a).1.snapshot;
      s.identity.IsAuthoritative() ==> s.stateIsMutable
  {
  }

  /** Only disagreement tells that the endpoint changed, and only the third one, which is the last. */
  lemma ChangedOnlyAfterThree(c: Config, gasOverride: Option<nat>, run: Run, r: Result<Snapshot, Failure>)
    requires Aligned(run) && EarlierDisagreed(c, gasOverride, run) && Concluded(c, gasOverride, run, r)
    ensures r == Err(EndpointChanged) ==> |run.attempts| == 3 && AllDisagreed(c, gasOverride, run)
    ensures AllDisagreed(c, gasOverride, run) ==> r == Err(EndpointChanged)
    ensures |run.attempts| <= 3
  {
    var last := |run.attempts| - 1;
    NotChangedAt(c, gasOverride, run, last);
    if VerdictAt(c, gasOverride, run, last) == Disagreed {
      DisagreedThroughout(c, gasOverride, run);
    }
  }

  lemma NotChangedAt(c: Config, gasOverride: Option<nat>, run: Run, k: nat)
    requires Aligned(run) && k < |run.attempts|
    ensures VerdictAt(c, gasOverride, run, k) != Failed(EndpointChanged)
  {
    NeverChangedAtOnce(c, gasOverride, run.probes[k], run.attempts[k]);
  }

  lemma NeverChangedAtOnce(c: Config, gasOverride: Option<nat>, probe: Probe, a: Attempt)
    ensures Decided(c, gasOverride, probe, a).1 != Failed(EndpointChanged)
  {
    OutcomeNotChanged(c, probe, a.before);
    if a.after.Some? {
      OutcomeNotChanged(c, Outcome(c, probe, a.before).0, a.after.value);
    }
  }

  lemma OutcomeNotChanged(c: Config, probe: Probe, asked: IdentityReads)
    ensures Outcome(c, probe, asked).1 != Err(EndpointChanged)
  {
  }

  // ----- an endpoint that is not reset -----

  predicate Answered<T>(read: Option<Read<T>>) {
    read.Some? ==> read.value.reply.Reply?
  }

  predicate IdentityAnswered(asked: IdentityReads) {
    Answered(asked.chain) && Answered(asked.info) && Answered(asked.meta)
  }

  /** No request of the attempt failed. */
  ghost predicate AllAnswered(a: Attempt) {
    && IdentityAnswered(a.before)
    && (a.derive.Some? ==>
          && Answered(a.derive.value.head) && Answered(a.derive.value.transaction) && Answered(a.derive.value.source)
          && forall k | 0 <= k < |a.derive.value.walk| :: a.derive.value.walk[k].reply.Reply?)
    && Answered(a.block)
    && (a.after.Some? ==> IdentityAnswered(a.after.value))
  }

  /** What an endpoint that answers every request is identified as in an epoch. */
  function IdentityAt(c: Config, e: Epoch): Result<Identity, Failure> {
    if c.skipNodeInfo then
      Supported(c, Anonymous(c, if c.forkChainId.Some? then c.forkChainId.value else e.chainId))
    else Supported(c, Identified(c, e.nodeInfo, e.metadata))
  }

  lemma QuietReading(c: Config, h: History, probe: Probe, lo: nat, asked: IdentityReads)
    requires IdentityRun(c, h, probe, lo, asked, lo) && probe.skip == c.skipNodeInfo && IdentityAnswered(asked)
    ensures Outcome(c, probe, asked).1 == IdentityAt(c, h(lo)) && Outcome(c, probe, asked).0.skip == probe.skip
  {
  }

  /** An attempt at an endpoint that answers and is not reset meanwhile never ends in disagreement: it is
      accepted exactly when the endpoint can be identified and the block derived. */
  lemma QuietIsAccepted(c: Config, h: History, gasOverride: Option<nat>, probe: Probe, lo: nat, a: Attempt)
    requires AttemptRun(c, h, gasOverride, probe, lo, a, lo) && AllAnswered(a) && probe.skip == c.skipNodeInfo
    ensures var (_, verdict) := Decided(c, gasOverride, probe, a);
      && verdict != Disagreed
      && (verdict.Accepted? <==> IdentityAt(c, h(lo)).Ok? && a.derive.Some? && Derived(c, a.derive.value).Ok?)
      && (verdict.Accepted? ==> Ok(verdict.snapshot.identity) == IdentityAt(c, h(lo)))
    ensures a.derive.Some? && !c.forkChoice.Transaction? ==> Derived(c, a.derive.value).Ok?
  {
    if a.derive.Some? {
      DeriveMovesOn(c, h, a.before.End(lo), a.derive.value);
    }
    QuietReading(c, h, probe, lo, a.before);
    if a.after.Some? {
      QuietReading(c, h, Outcome(c, probe, a.before).0, lo, a.after.value);
    }
  }

  /** So a run against such an endpoint, one that can be identified, accepts at its first attempt when
      forking at a block. */
  lemma QuietRunAccepts(
    c: Config, h: History, gasOverride: Option<nat>, knownAnvil: bool, lo: nat, run: Run, hi: nat,
    r: Result<Snapshot, Failure>)
    requires StableRun(c, h, gasOverride, knownAnvil, lo, run, hi, r)
    ensures
      && hi == lo && (forall k | 0 <= k < |run.attempts| :: AllAnswered(run.attempts[k]))
      && IdentityAt(c, h(lo)).Ok? && !c.forkChoice.Transaction? ==>
      r.Ok? && |run.attempts| == 1 && Ok(r.value.identity) == IdentityAt(c, h(lo))
  {
    if && hi == lo && (forall k | 0 <= k < |run.attempts| :: AllAnswered(run.attempts[k]))
       && IdentityAt(c, h(lo)).Ok? && !c.forkChoice.Transaction?
    {
      EpochsRise(c, h, gasOverride, run, 1);
      RestMovesOn(c, h, gasOverride, run, 1);
      assert Leads(c, h, gasOverride, run, 0);
      QuietIsAccepted(c, h, gasOverride, run.probes[0], lo, run.attempts[0]);
      assert VerdictAt(c, gasOverride, run, 0) != Disagreed;
    }
  }

  lemma {:induction false} RestMovesOn(c: Config, h: History, gasOverride: Option<nat>, run: Run, k: nat)
    requires Attempted(c, h, gasOverride, run) && k <= |run.attempts|
    ensures run.epochs[k] <= run.epochs[|run.attempts|]
    decreases |run.attempts| - k
  {
    if k < |run.attempts| {
      assert Leads(c, h, gasOverride, run, k);
      AttemptMovesOn(c, h, gasOverride, run.probes[k], run.epochs[k], run.attempts[k], run.epochs[k + 1]);
      RestMovesOn(c, h, gasOverride, run, k + 1);
    }
  }
}
