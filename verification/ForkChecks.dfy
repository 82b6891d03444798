/**
 The checks of a fork endpoint against a context already in use (crates/anvil/src/config.rs): whether
 another endpoint serves the same context, and whether it may replace the active one. Like a snapshot, a
 check reads the identity, then a block, then the identity again, and is repeated when the two disagree.
 */
module ForkChecks {
  import opened Common
  import opened ForkEndpoint
  import opened ForkReads
  import opened ForkProperties
  import opened ForkSnapshot

  // ----- one check -----

  /** The requests of one check; a failure leaves out the ones after it. */
  datatype Check = Check(before: IdentityReads, block: Option<Read<Option<Block>>>, after: Option<IdentityReads>)

  datatype Comparison = Stopped(failure: Failure) | Changed | Agreed(identity: Identity, block: Option<Block>)

  /** The first reading says that the endpoint is the node `own` itself. */
  predicate IsOwn(own: Option<Hash>, before: Result<Identity, Failure>) {
    own.Some? && before.Ok? && before.value.instanceId == own
  }

  /** What a check comes to, and the probe it leaves. */
  function Compare(c: Config, own: Option<Hash>, probe: Probe, a: Check): (Probe, Comparison) {
    var (probe1, before) := Outcome(c, probe, a.before);
    if before.Err? then (probe1, Stopped(before.error))
    else if IsOwn(own, before) then (probe1, Stopped(OwnEndpoint))
    else if a.block.None? || !a.block.value.reply.Reply? || a.after.None? then (probe1, Stopped(TransportFailed))
    else
      var (probe2, after) := Outcome(c, probe1, a.after.value);
      if after.Err? then (probe2, Stopped(after.error))
      else if before.value != after.value then (probe2, Changed)
      else (probe2, Agreed(before.value, a.block.value.reply.value))
  }

  function DataAt(lo: nat, a: Check): nat {
    After(a.before.End(lo), a.block)
  }

  function CheckEnd(lo: nat, a: Check): nat {
    if a.after.Some? then a.after.value.End(DataAt(lo, a)) else DataAt(lo, a)
  }

  ghost predicate CheckShaped(c: Config, own: Option<Hash>, probe: Probe, a: Check) {
    var (probe1, before) := Outcome(c, probe, a.before);
    && Shaped(c, probe, a.before)
    && (a.block.Some? <==> before.Ok? && !IsOwn(own, before))
    && (a.after.Some? <==> a.block.Some? && a.block.value.reply.Reply?)
    && (a.after.Some? ==> Shaped(c, probe1, a.after.value))
  }

  ghost predicate CheckHonest(h: History, n: nat, lo: nat, a: Check) {
    && Honest(h, lo, a.before)
    && a.before.End(lo) <= DataAt(lo, a)
    && (a.block.Some? ==> BlockHonest(h, n, a.block.value))
    && (a.after.Some? ==> Honest(h, DataAt(lo, a), a.after.value))
  }

  /** A check that asks for block `n`, from epoch `lo` on. */
  ghost predicate CheckRun(c: Config, own: Option<Hash>, h: History, n: nat, probe: Probe, lo: nat, a: Check) {
    CheckShaped(c, own, probe, a) && CheckHonest(h, n, lo, a)
  }

  // ----- up to three checks -----

  function ProbeAfter(c: Config, own: Option<Hash>, probe: Probe, checks: seq<Check>): Probe {
    if checks == [] then probe
    else
      var m := |checks| - 1;
      Compare(c, own, ProbeAfter(c, own, probe, checks[..m]), checks[m]).0
  }

  function EpochAfter(lo: nat, checks: seq<Check>): nat {
    if checks == [] then lo
    else
      var m := |checks| - 1;
      CheckEnd(EpochAfter(lo, checks[..m]), checks[m])
  }

  /** Check `k` is made with the probe and from the epoch that the ones before it left. */
  ghost predicate Follows(
    c: Config, own: Option<Hash>, h: History, n: nat, probe: Probe, lo: nat, checks: seq<Check>, k: nat)
    requires k < |checks|
  {
    CheckRun(c, own, h, n, ProbeAfter(c, own, probe, checks[..k]), EpochAfter(lo, checks[..k]), checks[k])
  }

  function ComparisonAt(c: Config, own: Option<Hash>, probe: Probe, checks: seq<Check>, k: nat): Comparison
    requires k < |checks|
  {
    Compare(c, own, ProbeAfter(c, own, probe, checks[..k]), checks[k]).1
  }

  /** Checks that all found the endpoint changed. */
  ghost predicate AllChanged(
    c: Config, own: Option<Hash>, h: History, n: nat, probe: Probe, lo: nat, checks: seq<Check>)
  {
    forall k | 0 <= k < |checks| ::
      Follows(c, own, h, n, probe, lo, checks, k) && ComparisonAt(c, own, probe, checks, k) == Changed
  }

  /** A run of checks with the comparison it ends in: the first that does not find the endpoint changed, or
      the third. */
  ghost predicate Confirmed(
    c: Config, own: Option<Hash>, h: History, n: nat, probe: Probe, lo: nat, checks: seq<Check>, hi: nat,
    last: Comparison)
  {
    && 1 <= |checks| <= 3
    && var m := |checks| - 1;
       && AllChanged(c, own, h, n, probe, lo, checks[..m])
       && Follows(c, own, h, n, probe, lo, checks, m)
       && last == ComparisonAt(c, own, probe, checks, m)
       && hi == EpochAfter(lo, checks)
       && (last == Changed ==> |checks| == 3)
  }

  lemma ChangedAgain(
    c: Config, own: Option<Hash>, h: History, n: nat, probe: Probe, lo: nat, checks: seq<Check>, a: Check)
    requires AllChanged(c, own, h, n, probe, lo, checks)
    requires CheckRun(c, own, h, n, ProbeAfter(c, own, probe, checks), EpochAfter(lo, checks), a)
    ensures var checks' := checks + [a];
      && checks'[..|checks|] == checks && Follows(c, own, h, n, probe, lo, checks', |checks|)
      && (ComparisonAt(c, own, probe, checks', |checks|) == Changed ==> AllChanged(c, own, h, n, probe, lo, checks'))
  {
    var checks' := checks + [a];
    assert checks'[..|checks|] == checks;
    forall k | 0 <= k < |checks|
      ensures Follows(c, own, h, n, probe, lo, checks', k) && ComparisonAt(c, own, probe, checks', k) == Changed
    {
      assert checks'[..k] == checks[..k];
      assert Follows(c, own, h, n, probe, lo, checks, k) && ComparisonAt(c, own, probe, checks, k) == Changed;
    }
  }

  // ----- what a run of checks shows -----

  /** The endpoint is found changed only by three checks in a row, and there are never more. */
  lemma ChangedAfterThree(
    c: Config, own: Option<Hash>, h: History, n: nat, probe: Probe, lo: nat, checks: seq<Check>, hi: nat,
    last: Comparison)
    requires Confirmed(c, own, h, n, probe, lo, checks, hi, last)
    ensures 1 <= |checks| <= 3
    ensures last == Changed <==> forall k | 0 <= k < |checks| :: ComparisonAt(c, own, probe, checks, k) == Changed
    ensures last == Changed ==> |checks| == 3
  {
    var front := checks[..|checks| - 1];
    forall k | 0 <= k < |front| ensures ComparisonAt(c, own, probe, checks, k) == Changed {
      assert front[..k] == checks[..k];
      assert ComparisonAt(c, own, probe, front, k) == Changed;
    }
  }

  /** An endpoint that cannot be identified, or is the node itself, is asked nothing more. */
  lemma StopsEarly(c: Config, own: Option<Hash>, h: History, n: nat, probe: Probe, lo: nat, a: Check)
    requires CheckRun(c, own, h, n, probe, lo, a)
    ensures var x := Outcome(c, probe, a.before).1;
      x.Err? || (own.Some? && x.value.instanceId == own) ==>
        a.block.None? && a.after.None? && Compare(c, own, probe, a).1.Stopped? && CheckEnd(lo, a) == a.before.End(lo)
  {
  }

  lemma CheckMovesOn(c: Config, own: Option<Hash>, h: History, n: nat, probe: Probe, lo: nat, a: Check)
    requires CheckRun(c, own, h, n, probe, lo, a)
    ensures lo <= a.before.End(lo) <= DataAt(lo, a) <= CheckEnd(lo, a)
  {
  }

  lemma {:induction false} EpochsMoveOn(
    c: Config, own: Option<Hash>, h: History, n: nat, probe: Probe, lo: nat, checks: seq<Check>, k: nat)
    requires forall i | 0 <= i < |checks| :: Follows(c, own, h, n, probe, lo, checks, i)
    requires k <= |checks|
    ensures lo <= EpochAfter(lo, checks[..k]) <= EpochAfter(lo, checks)
    decreases |checks|
  {
    if checks != [] {
      var m := |checks| - 1;
      var front := checks[..m];
      forall i | 0 <= i < m ensures Follows(c, own, h, n, probe, lo, front, i) {
        assert front[..i] == checks[..i];
        assert Follows(c, own, h, n, probe, lo, checks, i);
      }
      assert Follows(c, own, h, n, probe, lo, checks, m);
      CheckMovesOn(c, own, h, n, ProbeAfter(c, own, probe, front), EpochAfter(lo, front), checks[m]);
      if k <= m {
        EpochsMoveOn(c, own, h, n, probe, lo, front, k);
        assert front[..k] == checks[..k];
      } else {
        EpochsMoveOn(c, own, h, n, probe, lo, front, m);
        assert front[..m] == front && checks[..k] == checks;
      }
    }
  }

  lemma ConfirmedFollows(
    c: Config, own: Option<Hash>, h: History, n: nat, probe: Probe, lo: nat, checks: seq<Check>, hi: nat,
    last: Comparison)
    requires Confirmed(c, own, h, n, probe, lo, checks, hi, last)
    ensures forall k | 0 <= k < |checks| :: Follows(c, own, h, n, probe, lo, checks, k)
  {
    var front := checks[..|checks| - 1];
    forall k | 0 <= k < |front| ensures Follows(c, own, h, n, probe, lo, checks, k) {
      assert front[..k] == checks[..k];
      assert Follows(c, own, h, n, probe, lo, front, k);
    }
  }

  /** One check in which both readings agree on an identity with an instance id saw one single epoch. */
  lemma AgreedCheck(c: Config, own: Option<Hash>, h: History, n: nat, probe: Probe, lo: nat, a: Check)
    requires UniqueInstances(h) && CheckRun(c, own, h, n, probe, lo, a)
    requires Compare(c, own, probe, a).1.Agreed? && Compare(c, own, probe, a).1.identity.instanceId.Some?
    ensures lo <= CheckEnd(lo, a)
    ensures var Agreed(x, block) := Compare(c, own, probe, a).1;
      && Identified(c, h(CheckEnd(lo, a)).nodeInfo, h(CheckEnd(lo, a)).metadata) == Ok(x)
      && (block.Some? ==> block.value == h(CheckEnd(lo, a)).blocks(n))
  {
    CheckMovesOn(c, own, h, n, probe, lo, a);
    var mid, data, hi := a.before.End(lo), DataAt(lo, a), CheckEnd(lo, a);
    var probe1, x := Outcome(c, probe, a.before).0, Outcome(c, probe, a.before).1.value;
    IdentityEpochs(c, h, probe, lo, a.before, mid);
    IdentityEpochs(c, h, probe1, data, a.after.value, hi);
    AgreeingIdentity(c, h, x, x, a.before.InfoEpoch(lo), mid, a.after.value.InfoEpoch(data), hi);
  }

  /** Over every interleaving of resets with the requests: checks that end in agreement on an identity with an
      instance id end in an epoch that has, as a whole, that identity and the block. */
  lemma AgreementIsAtomic(
    c: Config, own: Option<Hash>, h: History, n: nat, probe: Probe, lo: nat, checks: seq<Check>, hi: nat,
    last: Comparison)
    requires UniqueInstances(h) && Confirmed(c, own, h, n, probe, lo, checks, hi, last)
    ensures lo <= hi
    ensures last.Agreed? && last.identity.instanceId.Some? ==>
      && Identified(c, h(hi).nodeInfo, h(hi).metadata) == Ok(last.identity)
      && (last.block.Some? ==> last.block.value == h(hi).blocks(n))
  {
    ConfirmedFollows(c, own, h, n, probe, lo, checks, hi, last);
    EpochsMoveOn(c, own, h, n, probe, lo, checks, 0);
    if last.Agreed? && last.identity.instanceId.Some? {
      var front := checks[..|checks| - 1];
      AgreedCheck(
        c, own, h, n, ProbeAfter(c, own, probe, front), EpochAfter(lo, front), checks[|checks| - 1]);
    }
  }

  /** No request of the check failed. */
  predicate CheckAnswered(a: Check) {
    IdentityAnswered(a.before) && Answered(a.block) && (a.after.Some? ==> IdentityAnswered(a.after.value))
  }

  /** What one check makes of an endpoint that answers and is not reset, given whether it holds the block. */
  function QuietComparison(c: Config, own: Option<Hash>, e: Epoch, block: Option<Block>): Comparison {
    var x := IdentityAt(c, e);
    if x.Err? then Stopped(x.error)
    else if IsOwn(own, x) then Stopped(OwnEndpoint)
    else Agreed(x.value, block)
  }

  lemma QuietCheck(c: Config, own: Option<Hash>, h: History, n: nat, probe: Probe, lo: nat, a: Check)
    requires CheckRun(c, own, h, n, probe, lo, a) && CheckEnd(lo, a) == lo && CheckAnswered(a)
    requires probe.skip == c.skipNodeInfo
    ensures Compare(c, own, probe, a).1 == QuietComparison(c, own, h(lo), None) ||
      Compare(c, own, probe, a).1 == QuietComparison(c, own, h(lo), Some(h(lo).blocks(n)))
  {
    CheckMovesOn(c, own, h, n, probe, lo, a);
    QuietReading(c, h, probe, lo, a.before);
    if a.after.Some? {
      QuietReading(c, h, Outcome(c, probe, a.before).0, lo, a.after.value);
    }
  }

  /** An endpoint that answers and is not reset is never found changed: one check decides, by the identity of
      the epoch and, if the endpoint holds the block, the epoch's block. */
  lemma QuietDecides(
    c: Config, own: Option<Hash>, h: History, n: nat, probe: Probe, lo: nat, checks: seq<Check>, hi: nat,
    last: Comparison)
    requires Confirmed(c, own, h, n, probe, lo, checks, hi, last) && probe.skip == c.skipNodeInfo
    ensures hi == lo && (forall a | a in checks :: CheckAnswered(a)) ==>
      && |checks| == 1
      && (last == QuietComparison(c, own, h(lo), None) || last == QuietComparison(c, own, h(lo), Some(h(lo).blocks(n))))
  {
    if hi == lo && forall a | a in checks :: CheckAnswered(a) {
      ConfirmedFollows(c, own, h, n, probe, lo, checks, hi, last);
      EpochsMoveOn(c, own, h, n, probe, lo, checks, 1);
      var first := checks[..1];
      assert checks[..0] == [] && first[..0] == [] && first == [checks[0]];
      assert Follows(c, own, h, n, probe, lo, checks, 0);
      assert checks[0] in checks;
      assert EpochAfter(lo, first) == CheckEnd(lo, checks[0]);
      CheckMovesOn(c, own, h, n, probe, lo, checks[0]);
      QuietCheck(c, own, h, n, probe, lo, checks[0]);
      assert ComparisonAt(c, own, probe, checks, 0) != Changed;
      FirstDecides(c, own, h, n, probe, lo, checks, hi, last);
    }
  }

  lemma FirstDecides(
    c: Config, own: Option<Hash>, h: History, n: nat, probe: Probe, lo: nat, checks: seq<Check>, hi: nat,
    last: Comparison)
    requires Confirmed(c, own, h, n, probe, lo, checks, hi, last)
    requires ComparisonAt(c, own, probe, checks, 0) != Changed
    ensures |checks| == 1 && last == ComparisonAt(c, own, probe, checks, 0)
  {
    var front := checks[..|checks| - 1];
    if front != [] {
      assert front[..0] == checks[..0];
      var first := ComparisonAt(c, own, probe, front, 0);
    }
  }

  // ----- the two checks -----

  /** The same chains, network, profile, hardfork and fork block; the instance may be another. */
  predicate SameContext(x: Identity, y: Identity) {
    && x.executionChainId == y.executionChainId && x.sourceChainId == y.sourceChainId
    && x.network == y.network && x.profile == y.profile && x.hardfork == y.hardfork
    && x.sourceForkBlockNumber == y.sourceForkBlockNumber && x.sourceForkBlockHash == y.sourceForkBlockHash
  }

  function ContextVerdict(expected: Identity, blockHash: Hash, last: Comparison): Result<bool, Failure> {
    match last
    case Stopped(failure) => Err(failure)
    case Changed => Ok(false)
    case Agreed(x, block) =>
      if x.sourceChainId != expected.sourceChainId then Err(ChainIdMismatch)
      else Ok(x == expected && block.Some? && block.value.hash == blockHash)
  }

  function ReplacementVerdict(expected: Identity, blockHash: Hash, last: Comparison): Result<Identity, Failure> {
    match last
    case Stopped(failure) => Err(failure)
    case Changed => Err(EndpointChanged)
    case Agreed(x, block) =>
      if !x.ContextEq(expected) then Err(IncompatibleContext)
      else if block.None? || block.value.hash != blockHash then Err(ForkBlockMissing)
      else Ok(x)
  }

  /** One check: identity, unless it is the node's own the block, then the identity again. */
  method CheckOnce(c: Config, endpoint: Endpoint, own: Option<Hash>, probe: Probe, blockNumber: nat)
    returns (probe': Probe, comparison: Comparison, ghost a: Check)
    modifies endpoint
    ensures CheckRun(c, own, endpoint.history, blockNumber, probe, old(endpoint.epoch), a)
    ensures endpoint.epoch == CheckEnd(old(endpoint.epoch), a)
    ensures (probe', comparison) == Compare(c, own, probe, a)
  {
    var before, after;
    ghost var asked, again;
    probe', before, asked := ResolveIdentity(c, endpoint, probe);
    a := Check(asked, None, None);
    if before.Err? {
      return probe', Stopped(before.error), a;
    }
    if own.Some? && before.value.instanceId == own {
      return probe', Stopped(OwnEndpoint), a;
    }
    var block := endpoint.ReadBlock(blockNumber);
    a := a.(block := Some(Read(endpoint.epoch, block)));
    if !block.Reply? {
      return probe', Stopped(TransportFailed), a;
    }
    probe', after, again := ResolveIdentity(c, endpoint, probe');
    a := a.(after := Some(again));
    comparison :=
      if after.Err? then Stopped(after.error)
      else if before != after then Changed
      else Agreed(before.value, block.value);
  }

  /** Checks until one does not find the endpoint changed, at most three times. */
  method Confirm(c: Config, endpoint: Endpoint, own: Option<Hash>, start: Probe, blockNumber: nat)
    returns (last: Comparison, ghost checks: seq<Check>)
    modifies endpoint
    ensures Confirmed(
              c, own, endpoint.history, blockNumber, start, old(endpoint.epoch), checks, endpoint.epoch, last)
  {
    var probe := start;
    last, checks := Changed, [];
    for attempt := 0 to 3
      invariant |checks| == attempt
      invariant AllChanged(c, own, endpoint.history, blockNumber, start, old(endpoint.epoch), checks)
      invariant probe == ProbeAfter(c, own, start, checks) && endpoint.epoch == EpochAfter(old(endpoint.epoch), checks)
      invariant attempt == 3 ==>
        Confirmed(c, own, endpoint.history, blockNumber, start, old(endpoint.epoch), checks, endpoint.epoch, Changed)
    {
      ghost var a;
      probe, last, a := CheckOnce(c, endpoint, own, probe, blockNumber);
      ChangedAgain(c, own, endpoint.history, blockNumber, start, old(endpoint.epoch), checks, a);
      checks := checks + [a];
      if last != Changed {
        return;
      }
    }
    last := Changed;
  }

  /** Confirms an endpoint against an expected identity and block. The answer is that of a run of checks, and
      a positive answer for an identity with an instance id means that one single epoch had that identity
      and that block. */
  method ForkContextMatches(
    c: Config, endpoint: Endpoint, expected: Identity, blockNumber: nat, blockHash: Hash)
    returns (r: Result<bool, Failure>, ghost checks: seq<Check>, ghost last: Comparison)
    requires UniqueInstances(endpoint.history)
    modifies endpoint
    ensures Confirmed(
              c, None, endpoint.history, blockNumber, Probe(expected.IsAuthoritative(), c.skipNodeInfo, false),
              old(endpoint.epoch), checks, endpoint.epoch, last)
    ensures r == ContextVerdict(expected, blockHash, last)
    ensures r == Ok(true) <==>
      last.Agreed? && last.identity == expected && last.block.Some? && last.block.value.hash == blockHash
    ensures last == Changed ==> r == Ok(false) && |checks| == 3
    ensures var e := endpoint.history(endpoint.epoch);
      r == Ok(true) && expected.instanceId.Some? ==>
        Identified(c, e.nodeInfo, e.metadata) == Ok(expected) && e.blocks(blockNumber).hash == blockHash
  {
    var probe := Probe(expected.IsAuthoritative(), c.skipNodeInfo, false);
    ghost var lo := endpoint.epoch;
    var found;
    found, checks := Confirm(c, endpoint, None, probe, blockNumber);
    last := found;
    AgreementIsAtomic(c, None, endpoint.history, blockNumber, probe, lo, checks, endpoint.epoch, last);
    match found {
      case Stopped(failure) =>
        r := Err(failure);
      case Changed =>
        r := Ok(false);
      case Agreed(x, block) =>
        if x.sourceChainId != expected.sourceChainId {
          r := Err(ChainIdMismatch);
        } else {
          r := Ok(x == expected && block.Some? && block.value.hash == blockHash);
        }
    }
  }

  /** Accepts a replacement endpoint only in the expected context, holding the active fork block, and
      never the node itself; all of it from one single epoch when the endpoint has an instance id. */
  method ReplacementForkProvider(
    c: Config, endpoint: Endpoint, expected: Identity, blockNumber: nat, blockHash: Hash, servingInstance: Hash)
    returns (r: Result<Identity, Failure>, ghost checks: seq<Check>, ghost last: Comparison)
    requires UniqueInstances(endpoint.history)
    modifies endpoint
    ensures Confirmed(
              c, Some(servingInstance), endpoint.history, blockNumber, Probe(false, c.skipNodeInfo, false),
              old(endpoint.epoch), checks, endpoint.epoch, last)
    ensures r == ReplacementVerdict(expected, blockHash, last)
    ensures r.Ok? <==>
      && last.Agreed? && SameContext(last.identity, expected)
      && last.block.Some? && last.block.value.hash == blockHash
    ensures r.Ok? ==> r.value == last.identity
    ensures last == Changed ==> r == Err(EndpointChanged) && |checks| == 3
    ensures r.Ok? ==> SameContext(r.value, expected) && r.value.instanceId != Some(servingInstance)
    ensures var e := endpoint.history(endpoint.epoch);
      r.Ok? && r.value.instanceId.Some? ==>
        Identified(c, e.nodeInfo, e.metadata) == r && e.blocks(blockNumber).hash == blockHash
  {
    var probe := Probe(false, c.skipNodeInfo, false);
    ghost var lo := endpoint.epoch;
    var found;
    found, checks := Confirm(c, endpoint, Some(servingInstance), probe, blockNumber);
    last := found;
    AgreementIsAtomic(
      c, Some(servingInstance), endpoint.history, blockNumber, probe, lo, checks, endpoint.epoch, last);
    match found {
      case Stopped(failure) =>
        r := Err(failure);
      case Changed =>
        r := Err(EndpointChanged);
      case Agreed(x, block) =>
        if !x.ContextEq(expected) {
          r := Err(IncompatibleContext);
        } else if block.None? || block.value.hash != blockHash {
          r := Err(ForkBlockMissing);
        } else {
          r := Ok(x);
        }
    }
  }

  /** So an endpoint that answers and is not reset matches the context exactly when it has the expected identity
      and holds the block. */
  lemma QuietContextMatchesIff(
    c: Config, expected: Identity, h: History, n: nat, blockHash: Hash, lo: nat, checks: seq<Check>, hi: nat,
    last: Comparison)
    requires Confirmed(
               c, None, h, n, Probe(expected.IsAuthoritative(), c.skipNodeInfo, false), lo, checks, hi, last)
    ensures hi == lo && (forall a | a in checks :: CheckAnswered(a)) && IdentityAt(c, h(lo)).Ok? ==>
      && last.Agreed?
      && (ContextVerdict(expected, blockHash, last) == Ok(true) <==>
            IdentityAt(c, h(lo)) == Ok(expected) && last.block.Some? && h(lo).blocks(n).hash == blockHash)
      && (ContextVerdict(expected, blockHash, last).Err? <==>
            IdentityAt(c, h(lo)).value.sourceChainId != expected.sourceChainId)
  {
    QuietDecides(
      c, None, h, n, Probe(expected.IsAuthoritative(), c.skipNodeInfo, false), lo, checks, hi, last);
  }

  /** And it may replace the active endpoint exactly when it is not the node itself, has the expected context
      and holds the block. */
  lemma QuietReplacesIff(
    c: Config, expected: Identity, h: History, n: nat, blockHash: Hash, own: Hash, lo: nat, checks: seq<Check>,
    hi: nat, last: Comparison)
    requires Confirmed(c, Some(own), h, n, Probe(false, c.skipNodeInfo, false), lo, checks, hi, last)
    ensures hi == lo && (forall a | a in checks :: CheckAnswered(a)) && IdentityAt(c, h(lo)).Ok? ==>
      var x := IdentityAt(c, h(lo)).value;
      && (ReplacementVerdict(expected, blockHash, last).Ok? <==>
            && x.instanceId != Some(own) && SameContext(x, expected)
            && last.Agreed? && last.block.Some? && h(lo).blocks(n).hash == blockHash)
      && (ReplacementVerdict(expected, blockHash, last) == Err(OwnEndpoint) <==> x.instanceId == Some(own))
      && (ReplacementVerdict(expected, blockHash, last) == Err(IncompatibleContext) <==>
            x.instanceId != Some(own) && !SameContext(x, expected))
      && (ReplacementVerdict(expected, blockHash, last) == Err(ForkBlockMissing) <==>
            && x.instanceId != Some(own) && SameContext(x, expected)
            && !(last.Agreed? && last.block.Some? && h(lo).blocks(n).hash == blockHash))
  {
    QuietDecides(c, Some(own), h, n, Probe(false, c.skipNodeInfo, false), lo, checks, hi, last);
  }
}
