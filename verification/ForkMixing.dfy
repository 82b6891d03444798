/**
 When a fork snapshot without an instance id may mix the epochs of its endpoint
 (crates/anvil/src/config.rs): exactly when the same identity can be read before and after an epoch
 whose block no epoch with that identity has. Some endpoint makes that happen exactly when the
 configuration reads some identity in one epoch that it cannot read in another.
 */
module ForkMixing {
  import opened Common
  import opened ForkEndpoint
  import opened ForkReads
  import opened ForkProperties

  /** The chain id to go by when the endpoint reports `chainId`. */
  function GoingBy(c: Config, chainId: nat): nat {
    if c.forkChainId.Some? then c.forkChainId.value else chainId
  }

  /** The identity of an Anvil whose metadata is missing. */
  function Unidentified(c: Config, chainId: nat, info: NodeInfo): Result<Identity, Failure> {
    Supported(c, IdentityFrom(c, info, GoingBy(c, chainId), GoingBy(c, chainId), None, None))
  }

  /** The identity `x` can be read without an instance id from an endpoint that reports this chain id and node
      info: as that of an unknown endpoint, or as that of an Anvil whose metadata is missing. */
  ghost predicate CanRead(c: Config, chainId: nat, info: NodeInfo, x: Identity) {
    || Supported(c, Anonymous(c, GoingBy(c, chainId))) == Ok(x)
    || (!c.skipNodeInfo && Unidentified(c, chainId, info) == Ok(x))
  }

  /** The same, with the chain id read in epoch `i` and the node info in epoch `j`. */
  ghost predicate Readable(c: Config, h: History, i: nat, j: nat, x: Identity) {
    CanRead(c, h(i).chainId, h(j).nodeInfo, x)
  }

  /** The block number `n` can be chosen between two epochs. */
  ghost predicate Choosable(c: Config, h: History, lo: nat, hi: nat, n: nat) {
    match c.forkChoice
    case Latest => true
    case Number(m) => if m >= 0 then n == m % U64_RANGE else n < U64_RANGE
    case Transaction(tx) => exists e, hash, i :: Replayable(h, lo, hi, n, tx, e, hash, i)
  }

  ghost predicate Replayable(h: History, lo: nat, hi: nat, n: nat, tx: Hash, e: nat, hash: Hash, i: nat) {
    var block := h(e).sourceBlocks(hash);
    lo <= e <= hi && block.hash == hash && block.number == n + 1 && OccursOnlyAt(block, tx, i)
  }

  /** Some single epoch has the identity and the block. */
  ghost predicate Consistent(c: Config, h: History, x: Identity, n: nat, block: Block) {
    exists e: nat :: Readable(c, h, e, e, x) && h(e).blocks(n) == block
  }

  /** The identity of the snapshot and its block come from no single epoch. */
  ghost predicate Mixed(c: Config, h: History, s: Snapshot) {
    s.identity.instanceId.None? && s.block.Some? && !Consistent(c, h, s.identity, s.blockNumber, s.block.value)
  }

  /** Some run ends in the snapshot. */
  ghost predicate MayAccept(c: Config, h: History, gasOverride: Option<nat>, knownAnvil: bool, s: Snapshot) {
    exists lo, run, hi :: StableRun(c, h, gasOverride, knownAnvil, lo, run, hi, Ok(s))
  }

  /** The identity can be read before and after an epoch whose block no epoch with that identity has. */
  ghost predicate Window(
    c: Config, h: History, x: Identity, n: nat, i1: nat, i2: nat, j: nat, k1: nat, k2: nat)
  {
    && i1 <= i2 <= j <= k1 <= k2
    && Readable(c, h, i1, i2, x) && Readable(c, h, k1, k2, x)
    && Choosable(c, h, i2, j, n)
    && !Consistent(c, h, x, n, h(j).blocks(n))
  }

  // ----- mixed snapshots have a window -----

  lemma IdlessReading(c: Config, h: History, probe: Probe, lo: nat, asked: IdentityReads, hi: nat)
    requires IdentityRun(c, h, probe, lo, asked, hi) && probe.skip == c.skipNodeInfo
    requires Outcome(c, probe, asked).1.Ok? && Outcome(c, probe, asked).1.value.instanceId.None?
    ensures lo <= After(lo, asked.chain) <= asked.InfoEpoch(lo) <= hi
    ensures Readable(c, h, After(lo, asked.chain), asked.InfoEpoch(lo), Outcome(c, probe, asked).1.value)
    ensures Outcome(c, probe, asked).0.skip == probe.skip
  {
    assert ChainId(c, asked) == Some(GoingBy(c, h(After(lo, asked.chain)).chainId));
  }

  lemma DerivedIsChoosable(c: Config, h: History, lo: nat, d: DeriveReads)
    requires DeriveShaped(c, d) && DeriveHonest(h, lo, d) && Derived(c, d).Ok?
    ensures Choosable(c, h, lo, DeriveEnd(lo, d), Derived(c, d).value.0)
  {
    if c.forkChoice.Transaction? {
      var (n, replay) := Derived(c, d).value;
      DerivedReplay(c, h, lo, d);
      var block := d.source.value.reply.value.value;
      ReplayIff(c.forkChoice.hash, Mined(d).value, block, replay.value.targetIndex);
      assert Replayable(
          h, lo, DeriveEnd(lo, d), n, c.forkChoice.hash, d.source.value.epoch, block.hash, replay.value.targetIndex);
    }
  }

  lemma ChoosableLater(c: Config, h: History, lo: nat, hi: nat, lo': nat, hi': nat, n: nat)
    requires Choosable(c, h, lo, hi, n) && lo' <= lo && hi <= hi'
    ensures Choosable(c, h, lo', hi', n)
  {
    if c.forkChoice.Transaction? {
      var tx := c.forkChoice.hash;
      var e, hash, i :| Replayable(h, lo, hi, n, tx, e, hash, i);
      assert Replayable(h, lo', hi', n, tx, e, hash, i);
    }
  }

  lemma AttemptWindow(c: Config, h: History, gasOverride: Option<nat>, probe: Probe, lo: nat, a: Attempt, hi: nat)
    requires AttemptRun(c, h, gasOverride, probe, lo, a, hi) && probe.skip == c.skipNodeInfo
    requires Decided(c, gasOverride, probe, a).1.Accepted? && Mixed(c, h, Decided(c, gasOverride, probe, a).1.snapshot)
    ensures var s := Decided(c, gasOverride, probe, a).1.snapshot;
      exists i1, i2, j, k1, k2 :: Window(c, h, s.identity, s.blockNumber, i1, i2, j, k1, k2)
  {
    AttemptEpochs(c, h, gasOverride, probe, lo, a, hi);
    var s, data, probe1 := Decided(c, gasOverride, probe, a).1.snapshot, DataEnd(lo, a), Outcome(c, probe, a.before).0;
    IdlessReading(c, h, probe, lo, a.before, a.before.End(lo));
    IdlessReading(c, h, probe1, data, a.after.value, hi);
    DerivedIsChoosable(c, h, a.before.End(lo), a.derive.value);
    var i2, j := a.before.InfoEpoch(lo), a.block.value.epoch;
    ChoosableLater(c, h, a.before.End(lo), DerivedAt(lo, a), i2, j, s.blockNumber);
    assert Window(
        c, h, s.identity, s.blockNumber, After(lo, a.before.chain), i2, j,
        After(data, a.after.value.chain), a.after.value.InfoEpoch(data));
  }

  lemma RunWindow(
    c: Config, h: History, gasOverride: Option<nat>, knownAnvil: bool, lo: nat, run: Run, hi: nat,
    r: Result<Snapshot, Failure>)
    requires StableRun(c, h, gasOverride, knownAnvil, lo, run, hi, r)
    ensures r.Ok? && Mixed(c, h, r.value) ==>
      exists i1, i2, j, k1, k2 :: Window(c, h, r.value.identity, r.value.blockNumber, i1, i2, j, k1, k2)
  {
    if r.Ok? && Mixed(c, h, r.value) {
      var last := |run.attempts| - 1;
      SkipStays(c, h, gasOverride, run, last);
      assert Leads(c, h, gasOverride, run, last);
      AttemptWindow(
        c, h, gasOverride, run.probes[last], run.epochs[last], run.attempts[last], run.epochs[last + 1]);
    }
  }

  lemma SkipStays(c: Config, h: History, gasOverride: Option<nat>, run: Run, k: nat)
    requires Attempted(c, h, gasOverride, run) && k <= |run.attempts|
    ensures run.probes[k].skip == run.probes[0].skip
  {
    forall i | 0 < i < |run.probes| ensures run.probes[i].skip == run.probes[i - 1].skip {
      SkipNext(c, h, gasOverride, run, i - 1);
    }
    SkipThroughout(run.probes, k);
  }

  lemma {:induction false} SkipThroughout(probes: seq<Probe>, k: nat)
    requires k < |probes| && forall i | 0 < i < |probes| :: probes[i].skip == probes[i - 1].skip
    ensures probes[k].skip == probes[0].skip
  {
    if k > 0 {
      SkipThroughout(probes, k - 1);
    }
  }

  lemma SkipNext(c: Config, h: History, gasOverride: Option<nat>, run: Run, k: nat)
    requires Attempted(c, h, gasOverride, run) && k < |run.attempts|
    ensures run.probes[k + 1].skip == run.probes[k].skip
  {
    AttemptAt(c, h, gasOverride, run, k);
    DecidedKeepsSkip(c, gasOverride, run.probes[k], run.attempts[k]);
  }

  lemma DecidedKeepsSkip(c: Config, gasOverride: Option<nat>, probe: Probe, a: Attempt)
    ensures Decided(c, gasOverride, probe, a).0.skip == probe.skip
  {
    OutcomeKeepsSkip(c, probe, a.before);
    if a.after.Some? {
      OutcomeKeepsSkip(c, Outcome(c, probe, a.before).0, a.after.value);
    }
  }

  lemma OutcomeKeepsSkip(c: Config, probe: Probe, asked: IdentityReads)
    ensures Outcome(c, probe, asked).0.skip == probe.skip
  {
  }

  // ----- a window lets a mixed snapshot through -----

  /** Requests that read `x` from two epochs without an instance id: node info or metadata time out. */
  function Asking(c: Config, h: History, i: nat, j: nat, x: Identity): IdentityReads {
    var chain := if c.forkChainId.Some? then None else Some(Read(i, Reply(h(i).chainId)));
    if c.skipNodeInfo then IdentityReads(chain, None, None)
    else if Supported(c, Anonymous(c, GoingBy(c, h(i).chainId))) == Ok(x) then
      IdentityReads(chain, Some(Read(j, TimedOut)), None)
    else IdentityReads(chain, Some(Read(j, Reply(h(j).nodeInfo))), Some(Read(j, TimedOut)))
  }

  lemma AskingReads(c: Config, h: History, probe: Probe, lo: nat, i: nat, j: nat, x: Identity)
    requires lo <= i <= j && Readable(c, h, i, j, x) && probe.skip == c.skipNodeInfo
    ensures var asked := Asking(c, h, i, j, x);
      && Shaped(c, probe, asked) && Honest(h, lo, asked) && asked.End(lo) <= j
      && Outcome(c, probe, asked).1 == Ok(x) && Outcome(c, probe, asked).0.skip == probe.skip
  {
  }

  /** Requests that derive the block number `n`. */
  ghost function Deriving(c: Config, h: History, lo: nat, hi: nat, n: nat): (d: DeriveReads)
    requires lo <= hi && Choosable(c, h, lo, hi, n)
  {
    match c.forkChoice
    case Latest =>
      DeriveReads(Some(Read(lo, Reply(n + 2))), [Read(lo, Reply(None)), Read(lo, Reply(None))], None, None)
    case Number(m) =>
      if m >= 0 then NO_READS else DeriveReads(Some(Read(lo, Reply(n - m))), [], None, None)
    case Transaction(tx) =>
      var e, hash, i :| Replayable(h, lo, hi, n, tx, e, hash, i);
      DeriveReads(
        None, [], Some(Read(lo, Reply(Some(Location(Some(n + 1), Some(hash), None))))),
        Some(Read(e, Reply(Some(h(e).sourceBlocks(hash))))))
  }

  lemma DerivingDerives(c: Config, h: History, start: nat, lo: nat, hi: nat, n: nat)
    requires start <= lo <= hi && Choosable(c, h, lo, hi, n)
    ensures var d := Deriving(c, h, lo, hi, n);
      && DeriveShaped(c, d) && DeriveHonest(h, start, d) && start <= DeriveEnd(start, d) <= hi
      && Derived(c, d).Ok? && Derived(c, d).value.0 == n
  {
    var d := Deriving(c, h, lo, hi, n);
    match c.forkChoice {
      case Latest =>
      case Number(m) =>
      case Transaction(tx) =>
        var e, hash := d.source.value.epoch, Mined(d).value.blockHash.value;
        var i :| Replayable(h, lo, hi, n, tx, e, hash, i);
        ReplayIff(tx, Mined(d).value, h(e).sourceBlocks(hash), i);
    }
  }

  ghost function Mixing(
    c: Config, h: History, gasOverride: Option<nat>, x: Identity, n: nat, i1: nat, i2: nat, j: nat, k1: nat, k2: nat)
    : Attempt
    requires Window(c, h, x, n, i1, i2, j, k1, k2)
  {
    Attempt(
      Asking(c, h, i1, i2, x), Some(Deriving(c, h, i2, j, n)), Some(Read(j, Reply(Some(h(j).blocks(n))))),
      if gasOverride.Some? then None else Some(Read(j, TimedOut)), Some(Asking(c, h, k1, k2, x)))
  }

  lemma MixingRuns(
    c: Config, h: History, gasOverride: Option<nat>, probe: Probe, x: Identity, n: nat,
    i1: nat, i2: nat, j: nat, k1: nat, k2: nat)
    requires Window(c, h, x, n, i1, i2, j, k1, k2) && probe.skip == c.skipNodeInfo
    ensures var a := Mixing(c, h, gasOverride, x, n, i1, i2, j, k1, k2);
      && AttemptRun(c, h, gasOverride, probe, i1, a, AttemptEnd(i1, a))
      && Decided(c, gasOverride, probe, a).1.Accepted?
      && var s := Decided(c, gasOverride, probe, a).1.snapshot;
         s.identity == x && s.blockNumber == n && s.block == Some(h(j).blocks(n))
  {
    var a := Mixing(c, h, gasOverride, x, n, i1, i2, j, k1, k2);
    AskingReads(c, h, probe, i1, i1, i2, x);
    var probe1 := Outcome(c, probe, a.before).0;
    DerivingDerives(c, h, a.before.End(i1), i2, j, n);
    AskingReads(c, h, probe1, DataEnd(i1, a), k1, k2, x);
  }

  lemma OneAttemptRun(
    c: Config, h: History, gasOverride: Option<nat>, knownAnvil: bool, lo: nat, a: Attempt, s: Snapshot)
    requires var probe := Probe(knownAnvil, c.skipNodeInfo, false);
      AttemptRun(c, h, gasOverride, probe, lo, a, AttemptEnd(lo, a))
      && Decided(c, gasOverride, probe, a).1 == Accepted(s)
    ensures MayAccept(c, h, gasOverride, knownAnvil, s)
  {
    var probe, hi := Probe(knownAnvil, c.skipNodeInfo, false), AttemptEnd(lo, a);
    var run := Run([a], [probe, Decided(c, gasOverride, probe, a).0], [lo, hi]);
    assert Leads(c, h, gasOverride, run, 0);
    assert StableRun(c, h, gasOverride, knownAnvil, lo, run, hi, Ok(s));
  }

  // ----- the exact condition -----

  lemma WindowMixes(
    c: Config, h: History, gasOverride: Option<nat>, knownAnvil: bool, x: Identity, n: nat,
    i1: nat, i2: nat, j: nat, k1: nat, k2: nat) returns (s: Snapshot)
    requires x.instanceId.None? && Window(c, h, x, n, i1, i2, j, k1, k2)
    ensures MayAccept(c, h, gasOverride, knownAnvil, s) && Mixed(c, h, s)
    ensures s.identity == x && s.blockNumber == n && s.block == Some(h(j).blocks(n))
  {
    var probe := Probe(knownAnvil, c.skipNodeInfo, false);
    MixingRuns(c, h, gasOverride, probe, x, n, i1, i2, j, k1, k2);
    var a := Mixing(c, h, gasOverride, x, n, i1, i2, j, k1, k2);
    s := Decided(c, gasOverride, probe, a).1.snapshot;
    OneAttemptRun(c, h, gasOverride, knownAnvil, i1, a, s);
  }

  /** For every configuration, history, identity without an instance id and block number: some run accepts a
      snapshot of that identity whose block no epoch with that identity has, if and only if the identity
      can be read before and after such an epoch. */
  lemma MixingIff(c: Config, h: History, gasOverride: Option<nat>, knownAnvil: bool, x: Identity, n: nat)
    requires x.instanceId.None?
    ensures
      (exists s ::
         MayAccept(c, h, gasOverride, knownAnvil, s) && s.identity == x && s.blockNumber == n && Mixed(c, h, s))
      <==> (exists i1, i2, j, k1, k2 :: Window(c, h, x, n, i1, i2, j, k1, k2))
  {
    if s :| MayAccept(c, h, gasOverride, knownAnvil, s) && s.identity == x && s.blockNumber == n && Mixed(c, h, s) {
      var lo, run, hi :| StableRun(c, h, gasOverride, knownAnvil, lo, run, hi, Ok(s));
      RunWindow(c, h, gasOverride, knownAnvil, lo, run, hi, Ok(s));
    }
    if i1, i2, j, k1, k2 :| Window(c, h, x, n, i1, i2, j, k1, k2) {
      var s := WindowMixes(c, h, gasOverride, knownAnvil, x, n, i1, i2, j, k1, k2);
    }
  }

  // ----- which configurations may mix -----

  /** The configuration can read some identity in one epoch that it cannot read in another. */
  ghost predicate TellsApart(c: Config) {
    exists x, chain1: nat, info1, chain2: nat, info2 :: TellsApartBy(c, x, chain1, info1, chain2, info2)
  }

  ghost predicate TellsApartBy(
    c: Config, x: Identity, chain1: nat, info1: NodeInfo, chain2: nat, info2: NodeInfo)
  {
    x.instanceId.None? && CanRead(c, chain1, info1, x) && !CanRead(c, chain2, info2, x)
  }

  /** Some endpoint, though it never reuses an instance id, can make a run accept a mixed snapshot. */
  ghost predicate MayMix(c: Config, gasOverride: Option<nat>, knownAnvil: bool) {
    exists h, s :: UniqueInstances(h) && MayAccept(c, h, gasOverride, knownAnvil, s) && Mixed(c, h, s)
  }

  /** An endpoint that is reset back and forth between two contexts, with its own blocks after each reset. */
  function BackAndForth(chain1: nat, info1: NodeInfo, chain2: nat, info2: NodeInfo, tx: Hash): History {
    (e: nat) =>
      Epoch(if e % 2 == 0 then chain1 else chain2, if e % 2 == 0 then info1 else info2, Metadata(0, e, None),
            (m: nat) => Block(m, e), (hash: Hash) => SourceBlock(1, hash, Some([tx])), _ => true)
  }

  lemma SomethingChoosable(c: Config, chain1: nat, info1: NodeInfo, chain2: nat, info2: NodeInfo)
    returns (tx: Hash, n: nat)
    ensures Choosable(c, BackAndForth(chain1, info1, chain2, info2, tx), 0, 1, n)
  {
    tx, n := 0, 0;
    match c.forkChoice {
      case Latest =>
      case Number(m) => n := if m >= 0 then m % U64_RANGE else 0;
      case Transaction(hash) =>
        tx := hash;
        assert Replayable(BackAndForth(chain1, info1, chain2, info2, tx), 0, 1, 0, tx, 0, 0, 0);
    }
  }

  lemma MixedTellsApart(c: Config, h: History, gasOverride: Option<nat>, knownAnvil: bool, s: Snapshot)
    requires MayAccept(c, h, gasOverride, knownAnvil, s) && Mixed(c, h, s)
    ensures TellsApart(c)
  {
    MixingIff(c, h, gasOverride, knownAnvil, s.identity, s.blockNumber);
    var i1, i2, j, k1, k2 :| Window(c, h, s.identity, s.blockNumber, i1, i2, j, k1, k2);
    assert !Readable(c, h, j, j, s.identity);
    assert TellsApartBy(c, s.identity, h(i1).chainId, h(i2).nodeInfo, h(j).chainId, h(j).nodeInfo);
  }

  lemma ApartMixes(
    c: Config, gasOverride: Option<nat>, knownAnvil: bool, x: Identity, chain1: nat, info1: NodeInfo, chain2: nat,
    info2: NodeInfo)
    requires TellsApartBy(c, x, chain1, info1, chain2, info2)
    ensures MayMix(c, gasOverride, knownAnvil)
  {
    var tx, n := SomethingChoosable(c, chain1, info1, chain2, info2);
    var h := BackAndForth(chain1, info1, chain2, info2, tx);
    forall e: nat | h(e).blocks(n) == h(1).blocks(n) ensures !Readable(c, h, e, e, x) {
      assert e == 1;
    }
    var s := WindowMixes(c, h, gasOverride, knownAnvil, x, n, 0, 0, 1, 2, 2);
    assert UniqueInstances(h);
  }

  /** For every configuration: some endpoint lets a mixed snapshot through if and only if the configuration
      can read an identity in one epoch that it cannot read in another. */
  lemma MayMixIff(c: Config, gasOverride: Option<nat>, knownAnvil: bool)
    ensures MayMix(c, gasOverride, knownAnvil) <==> TellsApart(c)
  {
    if h, s :| UniqueInstances(h) && MayAccept(c, h, gasOverride, knownAnvil, s) && Mixed(c, h, s) {
      MixedTellsApart(c, h, gasOverride, knownAnvil, s);
    }
    if x, chain1: nat, info1, chain2: nat, info2 :| TellsApartBy(c, x, chain1, info1, chain2, info2) {
      ApartMixes(c, gasOverride, knownAnvil, x, chain1, info1, chain2, info2);
    }
  }

  lemma ReadsChain(c: Config, chainId: nat, info: NodeInfo, x: Identity)
    requires c.forkChainId.None? && CanRead(c, chainId, info, x)
    ensures x.executionChainId == chainId
  {
  }

  /** By configuration: with the chain id overridden and no node info asked for, never. With the chain id
      overridden, when two node infos identify the endpoint differently. Otherwise as soon as any
      endpoint can be identified at all. */
  lemma TellsApartIff(c: Config)
    ensures c.forkChainId.None? ==>
      (TellsApart(c) <==> exists chainId: nat, info, x :: CanRead(c, chainId, info, x) && x.instanceId.None?)
    ensures c.forkChainId.Some? ==>
      (TellsApart(c) <==> !c.skipNodeInfo && exists info1, info2 ::
         Unidentified(c, 0, info1).Ok? && Unidentified(c, 0, info1) != Unidentified(c, 0, info2))
  {
    if x, chain1: nat, info1, chain2: nat, info2 :| TellsApartBy(c, x, chain1, info1, chain2, info2) {
      assert CanRead(c, chain1, info1, x);
      if c.forkChainId.Some? {
        assert Unidentified(c, 0, info1) == Unidentified(c, chain1, info1) == Ok(x);
        assert Unidentified(c, 0, info2) == Unidentified(c, chain2, info2);
      }
    }
    if c.forkChainId.None? {
      if chainId: nat, info, x :| CanRead(c, chainId, info, x) && x.instanceId.None? {
        if CanRead(c, chainId + 1, info, x) {
          ReadsChain(c, chainId, info, x);
          ReadsChain(c, chainId + 1, info, x);
        }
        assert TellsApartBy(c, x, chainId, info, chainId + 1, info);
      }
    } else if !c.skipNodeInfo {
      if info1, info2 :| Unidentified(c, 0, info1).Ok? && Unidentified(c, 0, info1) != Unidentified(c, 0, info2) {
        assert TellsApartBy(c, Unidentified(c, 0, info1).value, 0, info1, 0, info2);
      }
    }
  }

  /** A configuration that overrides the chain id and asks for no node info reads the same identity in
      every epoch, and so never mixes epochs in this sense. */
  lemma NothingToTellApart(c: Config, h: History, gasOverride: Option<nat>, knownAnvil: bool, s: Snapshot)
    requires c.forkChainId.Some? && c.skipNodeInfo && MayAccept(c, h, gasOverride, knownAnvil, s)
    requires s.identity.instanceId.None?
    ensures !Mixed(c, h, s)
  {
    MixingIff(c, h, gasOverride, knownAnvil, s.identity, s.blockNumber);
    if Mixed(c, h, s) {
      var i1, i2, j, k1, k2 :| Window(c, h, s.identity, s.blockNumber, i1, i2, j, k1, k2);
      assert Readable(c, h, j, j, s.identity);
    }
  }

  /** The two requests of a reading may fall into different epochs, and so a snapshot may be accepted whose
      identity no single epoch has at all. */
  lemma ReadingsMayStraddle(gasOverride: Option<nat>, knownAnvil: bool, n: nat)
    returns (c: Config, h: History, s: Snapshot)
    ensures UniqueInstances(h) && MayAccept(c, h, gasOverride, knownAnvil, s) && Mixed(c, h, s)
    ensures forall e: nat :: !Readable(c, h, e, e, s.identity)
  {
    c := Config(None, false, Latest, (_, _) => Ok(Some(0)), _ => 0, (_, name: string) => Some(|name|), _ => true);
    h := (e: nat) =>
      Epoch(e % 2, NodeInfo(None, if e % 2 == 0 then "" else "1"), Metadata(e % 2, e, None),
            (m: nat) => Block(m, e), (hash: nat) => SourceBlock(0, hash, None), _ => true);
    var x := Identity(0, 0, Some(0), Some(0), Some(1), None, None, None);
    assert |"1"| == 1;
    assert Readable(c, h, 0, 1, x) && Readable(c, h, 2, 3, x);
    forall e: nat ensures !Readable(c, h, e, e, x) {
      assert e % 2 == 0 || e % 2 == 1;
    }
    s := WindowMixes(c, h, gasOverride, knownAnvil, x, n, 0, 1, 1, 2, 3);
  }

  /** An endpoint that is reset to another chain and back. */
  function ThereAndBack(chainId: nat): History {
    (e: nat) =>
      Epoch(if e == 1 then chainId + 1 else chainId, NodeInfo(None, ""), Metadata(chainId, e, None),
            (m: nat) => Block(m, e), (hash: nat) => SourceBlock(0, hash, None), _ => true)
  }

  /** As seen by any configuration that forks the latest block and can place the chain: a snapshot of the
      one chain with a block of the other is accepted. */
  lemma NoInstanceIdNoGuarantee(c: Config, gasOverride: Option<nat>, knownAnvil: bool, chainId: nat, n: nat)
    returns (s: Snapshot)
    requires c.forkChainId.None? && c.forkChoice.Latest? && Supported(c, Anonymous(c, chainId)).Ok?
    ensures UniqueInstances(ThereAndBack(chainId)) && ThereAndBack(chainId)(1).chainId != chainId
    ensures MayAccept(c, ThereAndBack(chainId), gasOverride, knownAnvil, s) && Mixed(c, ThereAndBack(chainId), s)
    ensures s.identity.sourceChainId == chainId && s.block == Some(ThereAndBack(chainId)(1).blocks(n))
  {
    var h, x := ThereAndBack(chainId), Supported(c, Anonymous(c, chainId)).value;
    forall e: nat | Readable(c, h, e, e, x) ensures h(e).blocks(n) != h(1).blocks(n) {
      ReadsChain(c, h(e).chainId, h(e).nodeInfo, x);
    }
    assert !Consistent(c, h, x, n, h(1).blocks(n));
    s := WindowMixes(c, h, gasOverride, knownAnvil, x, n, 0, 0, 1, 2, 2);
  }
}
