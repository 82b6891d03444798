/**
 The stable fork snapshot (crates/anvil/src/config.rs): a retry loop that reads an identity, then block
 data, then the identity again. The endpoint may be reset between any two requests.
 */
module ForkSnapshot {
  import opened Common
  import opened ForkEndpoint
  import opened ForkReads
  import opened ForkProperties
  import opened ForkContents

  /** Resolves the endpoint's identity. Node info and metadata may come from different epochs. */
  method ResolveIdentity(c: Config, endpoint: Endpoint, probe: Probe)
    returns (probe': Probe, r: Result<Identity, Failure>, ghost asked: IdentityReads)
    modifies endpoint
    ensures IdentityRun(c, endpoint.history, probe, old(endpoint.epoch), asked, endpoint.epoch)
    ensures (probe', r) == Outcome(c, probe, asked)
  {
    asked := IdentityReads(None, None, None);
    probe' := probe;
    var chainId: nat;
    if c.forkChainId.Some? {
      chainId := c.forkChainId.value;
    } else {
      var reply := endpoint.ReadChainId();
      asked := asked.(chain := Some(Read(endpoint.epoch, reply)));
      if !reply.Reply? {
        r := Err(TransportFailed);
        return;
      }
      chainId := reply.value;
    }
    var info: Option<NodeInfo> := None;
    if !probe.skip {
      var reply := endpoint.ReadNodeInfo();
      asked := asked.(info := Some(Read(endpoint.epoch, reply)));
      var judged := Judge(probe, reply);
      probe' := judged.0;
      if judged.1.Err? {
        r := Err(judged.1.error);
        return;
      }
      info := judged.1.value;
    }
    if info.None? {
      r := Anonymous(c, chainId);
    } else {
      var reply := endpoint.ReadMetadata();
      asked := asked.(meta := Some(Read(endpoint.epoch, reply)));
      match reply {
        case Reply(meta) =>
          r := Identified(c, info.value, meta);
        case RpcError =>
          r := Err(MetadataFailed);
        case MethodNotFound =>
          r := IdentityFrom(c, info.value, chainId, chainId, None, None);
        case TimedOut =>
          r := IdentityFrom(c, info.value, chainId, chainId, None, None);
      }
    }
    if r.Ok? && !c.supported(r.value.sourceChainId) {
      r := Err(UnsupportedNetwork);
    }
  }

  /** Walks back at most two blocks from the reported head to one that is there: a block is passed over
      only when it is missing or has no hash. */
  method FindLatestForkBlock(endpoint: Endpoint)
    returns (r: Option<nat>, ghost head: Read<nat>, ghost walk: seq<Read<Option<Block>>>)
    modifies endpoint
    ensures old(endpoint.epoch) <= head.epoch
    ensures endpoint.epoch == if walk == [] then head.epoch else walk[|walk| - 1].epoch
    ensures !head.reply.Reply? ==> r == None && walk == []
    ensures head.reply.Reply? ==>
      && WalkShaped(walk) && WalkHonest(endpoint.history, head.epoch, head.reply.value, walk)
      && r == Walked(head.reply.value, walk)
  {
    var reported := endpoint.ReadBlockNumber();
    head, walk := Read(endpoint.epoch, reported), [];
    if !reported.Reply? {
      return None, head, walk;
    }
    var num := reported.value;
    for i := 0 to 2
      invariant |walk| == i && num == Back(reported.value, i)
      invariant WalkHonest(endpoint.history, head.epoch, reported.value, walk)
      invariant i > 0 ==> PassedOver(walk[0].reply) && PassedOver(walk[i - 1].reply)
      invariant endpoint.epoch == if i == 0 then head.epoch else walk[i - 1].epoch
    {
      var block := endpoint.ReadBlock(num);
      WalkSnoc(endpoint.history, head.epoch, reported.value, walk, Read(endpoint.epoch, block));
      walk := walk + [Read(endpoint.epoch, block)];
      if !block.Reply? {
        return None, head, walk;
      }
      if block.value.Some? && block.value.value.hash != 0 {
        return Some(num), head, walk;
      }
      num := if num == 0 then 0 else num - 1;
    }
    r := Some(num);
  }

  method DeriveBlockAndReplay(c: Config, endpoint: Endpoint)
    returns (r: Result<(nat, Option<Replay>), Failure>, ghost d: DeriveReads)
    modifies endpoint
    ensures DeriveRun(c, endpoint.history, old(endpoint.epoch), d, endpoint.epoch)
    ensures r == Derived(c, d)
  {
    d := NO_READS;
    match c.forkChoice {
      case Latest =>
        var number;
        ghost var head, walk;
        number, head, walk := FindLatestForkBlock(endpoint);
        d := LookingBack(head, walk);
        r := if number.Some? then Ok((number.value, None)) else Err(TransportFailed);
      case Number(n) =>
        if n >= 0 {
          r := Ok((n % U64_RANGE, None));
        } else {
          var latest := endpoint.ReadBlockNumber();
          d := d.(head := Some(Read(endpoint.epoch, latest)));
          // a sum below zero wraps as an unsigned 64-bit number
          r := if latest.Reply? then Ok(((n + latest.value) % U64_RANGE, None)) else Err(TransportFailed);
        }
      case Transaction(tx) =>
        var location := endpoint.ReadTransaction(tx);
        d := d.(transaction := Some(Read(endpoint.epoch, location)));
        if !location.Reply? {
          r := Err(TransportFailed);
          return;
        }
        if location.value.None? || location.value.value.blockNumber.None? || location.value.value.blockHash.None? {
          r := Err(NotMined);
          return;
        }
        var block := endpoint.ReadSourceBlock(location.value.value.blockHash.value);
        d := d.(source := Some(Read(endpoint.epoch, block)));
        if !block.Reply? {
          r := Err(TransportFailed);
          return;
        }
        if block.value.None? {
          r := Err(ForkBlockMissing);
          return;
        }
        var replay := ValidateReplay(tx, location.value.value, block.value.value);
        r := if replay.Err? then Err(replay.error)
             else Ok((Back(location.value.value.blockNumber.value, 1), Some(replay.value)));
    }
  }

  method ReadGasPrice(endpoint: Endpoint, gasOverride: Option<nat>) returns (price: nat, ghost gas: Option<Read<nat>>)
    modifies endpoint
    ensures gas.Some? <==> gasOverride.None?
    ensures old(endpoint.epoch) <= endpoint.epoch == After(old(endpoint.epoch), gas)
    ensures gas.Some? && gas.value.reply.Reply? ==> endpoint.history(gas.value.epoch).gasPrices(gas.value.reply.value)
    ensures price == GasPrice(gasOverride, gas)
  {
    if gasOverride.Some? {
      price, gas := gasOverride.value, None;
    } else {
      var reply := endpoint.ReadGasPrice();
      gas := Some(Read(endpoint.epoch, reply));
      price := if reply.Reply? then reply.value else INITIAL_GAS_PRICE;
    }
  }

  /** The part of an attempt after its first identity reading: block data, then the identity again. */
  method Finish(c: Config, endpoint: Endpoint, ghost probe: Probe, probe1: Probe, gasOverride: Option<nat>,
                before: Identity, ghost asked: IdentityReads, ghost lo: nat)
    returns (probe': Probe, verdict: Verdict, ghost a: Attempt)
    requires Started(c, endpoint.history, probe, lo, asked, endpoint.epoch, probe1, before)
    modifies endpoint
    ensures AttemptRun(c, endpoint.history, gasOverride, probe, lo, a, endpoint.epoch)
    ensures (probe', verdict) == Decided(c, gasOverride, probe, a)
  {
    probe' := probe1;
    ghost var h, mid := endpoint.history, endpoint.epoch;
    ghost var d, gas, again;
    var derived, after;
    derived, d := DeriveBlockAndReplay(c, endpoint);
    ghost var end := endpoint.epoch;
    if derived.Err? {
      DerivationFailed(c, h, gasOverride, probe, lo, asked, mid, probe1, before, d, end);
      return probe1, Failed(derived.error), Attempt(asked, Some(d), None, None, None);
    }
    var (number, replay) := derived.value;
    var block := endpoint.ReadBlock(number);
    ghost var blockRead := Read(endpoint.epoch, block);
    if !block.Reply? {
      BlockFailed(c, h, gasOverride, probe, lo, asked, mid, probe1, before, d, end, blockRead);
      return probe1, Failed(TransportFailed), Attempt(asked, Some(d), Some(blockRead), None, None);
    }
    var gasPrice;
    gasPrice, gas := ReadGasPrice(endpoint, gasOverride);
    probe', after, again := ResolveIdentity(c, endpoint, probe1);
    a := Attempt(asked, Some(d), Some(blockRead), gas, Some(again));
    Completed(
      c, h, gasOverride, probe, lo, asked, mid, probe1, before, d, end, blockRead, gas, again, endpoint.epoch);
    if after.Err? {
      verdict := Failed(after.error);
    } else if before == after.value {
      verdict := Accepted(Snapshot(
        before, probe'.identified || probe'.inconclusive, number, replay, block.value, gasPrice));
    } else {
      verdict := Disagreed;
    }
  }

  /** One attempt: identity, block data, identity again. */
  method Try(c: Config, endpoint: Endpoint, probe: Probe, gasOverride: Option<nat>)
    returns (probe': Probe, verdict: Verdict, ghost a: Attempt)
    modifies endpoint
    ensures AttemptRun(c, endpoint.history, gasOverride, probe, old(endpoint.epoch), a, endpoint.epoch)
    ensures (probe', verdict) == Decided(c, gasOverride, probe, a)
  {
    var before;
    ghost var asked, lo;
    lo := endpoint.epoch;
    probe', before, asked := ResolveIdentity(c, endpoint, probe);
    if before.Err? {
      verdict := Failed(before.error);
      a := Attempt(asked, None, None, None, None);
    } else {
      probe', verdict, a := Finish(c, endpoint, probe, probe', gasOverride, before.value, asked, lo);
    }
  }

  /** At most three attempts. */
  method Retry(c: Config, endpoint: Endpoint, knownAnvil: bool, gasOverride: Option<nat>)
    returns (r: Result<Snapshot, Failure>, ghost run: Run)
    modifies endpoint
    ensures StableRun(c, endpoint.history, gasOverride, knownAnvil, old(endpoint.epoch), run, endpoint.epoch, r)
  {
    var probe := Probe(knownAnvil, c.skipNodeInfo, false);
    run := Run([], [probe], [endpoint.epoch]);
    for attempt := 0 to 3
      invariant |run.attempts| == attempt && Attempted(c, endpoint.history, gasOverride, run)
      invariant AllDisagreed(c, gasOverride, run)
      invariant run.probes[0] == Probe(knownAnvil, c.skipNodeInfo, false) && run.probes[attempt] == probe
      invariant run.epochs[0] == old(endpoint.epoch) && run.epochs[attempt] == endpoint.epoch
    {
      var verdict;
      ghost var a;
      probe, verdict, a := Try(c, endpoint, probe, gasOverride);
      AttemptedSnoc(c, endpoint.history, gasOverride, run, a, probe, endpoint.epoch);
      run := Run(run.attempts + [a], run.probes + [probe], run.epochs + [endpoint.epoch]);
      if verdict.Failed? {
        return Err(verdict.failure), run;
      }
      if verdict.Accepted? {
        return Ok(verdict.snapshot), run;
      }
    }
    r := Err(EndpointChanged);
  }

  /** Takes a snapshot, over every interleaving of endpoint resets with the requests. The run it makes is
      one of the protocol. An accepted snapshot that carries an instance id has its whole identity, its
      block, its replay and its gas price from one single epoch, even though the first node-info read may
      have happened before a reset; its block is the chosen one and its fields hold what was reported; it
      is marked mutable exactly when the endpoint may be Anvil; and the endpoint is given up as changed
      only after three disagreeing attempts. */
  method StableForkSnapshot(c: Config, endpoint: Endpoint, knownAnvil: bool, gasOverride: Option<nat>)
    returns (r: Result<Snapshot, Failure>, ghost run: Run, ghost at: nat)
    requires UniqueInstances(endpoint.history)
    modifies endpoint
    ensures StableRun(c, endpoint.history, gasOverride, knownAnvil, old(endpoint.epoch), run, endpoint.epoch, r)
    ensures r.Ok? && r.value.identity.instanceId.Some? ==>
      && old(endpoint.epoch) <= at <= endpoint.epoch
      && FromEpoch(c, r.value, gasOverride, endpoint.history(at))
    ensures r.Ok? ==> SnapshotChosen(c, endpoint.history, run, r.value)
    ensures r.Ok? ==> Attested(c, endpoint.history, old(endpoint.epoch), endpoint.epoch, r.value.identity)
    ensures r.Ok? ==> Priced(endpoint.history, gasOverride, run, r.value)
    ensures r.Ok? ==> (r.value.stateIsMutable <==> knownAnvil || SuspectedBefore(run, 2 * |run.attempts|))
    ensures r.Ok? && r.value.identity.IsAuthoritative() ==> r.value.stateIsMutable
    ensures r.Err? ==> FailedFor(c, run, r.error)
    ensures r == Err(EndpointChanged) ==> |run.attempts| == 3 && AllDisagreed(c, gasOverride, run)
  {
    ghost var lo := endpoint.epoch;
    r, run := Retry(c, endpoint, knownAnvil, gasOverride);
    ghost var h, hi := endpoint.history, endpoint.epoch;
    RunIsMutable(c, h, gasOverride, knownAnvil, lo, run, hi, r);
    at := SnapshotIsAtomic(c, h, gasOverride, knownAnvil, lo, run, hi, r);
    SnapshotIsChosen(c, h, gasOverride, knownAnvil, lo, run, hi, r);
    SnapshotIdentity(c, h, gasOverride, knownAnvil, lo, run, hi, r);
    SnapshotPrice(c, h, gasOverride, knownAnvil, lo, run, hi, r);
    MutableIff(c, h, gasOverride, knownAnvil, lo, run, hi, r);
    RunFailsFor(c, h, gasOverride, knownAnvil, lo, run, hi, r);
    ChangedOnlyAfterThree(c, gasOverride, run, r);
  }

  lemma RunIsMutable(
    c: Config, h: History, gasOverride: Option<nat>, knownAnvil: bool, lo: nat, run: Run, hi: nat,
    r: Result<Snapshot, Failure>)
    requires StableRun(c, h, gasOverride, knownAnvil, lo, run, hi, r)
    ensures r.Ok? && r.value.identity.IsAuthoritative() ==> r.value.stateIsMutable
  {
    if r.Ok? {
      var last := |run.attempts| - 1;
      AttemptAt(c, h, gasOverride, run, last);
      AnvilIsMutable(c, gasOverride, run.probes[last], run.attempts[last]);
    }
  }

  lemma AttemptedSnoc(
    c: Config, h: History, gasOverride: Option<nat>, run: Run, a: Attempt, probe: Probe, hi: nat)
    requires Attempted(c, h, gasOverride, run) && AllDisagreed(c, gasOverride, run)
    requires var n := |run.attempts|;
      AttemptRun(c, h, gasOverride, run.probes[n], run.epochs[n], a, hi)
      && Decided(c, gasOverride, run.probes[n], a).0 == probe
    ensures Attempted(c, h, gasOverride, Run(run.attempts + [a], run.probes + [probe], run.epochs + [hi]))
    ensures Decided(c, gasOverride, run.probes[|run.attempts|], a).1 == Disagreed ==>
      AllDisagreed(c, gasOverride, Run(run.attempts + [a], run.probes + [probe], run.epochs + [hi]))
  {
    var run' := Run(run.attempts + [a], run.probes + [probe], run.epochs + [hi]);
    forall k | 0 <= k < |run'.attempts| ensures Leads(c, h, gasOverride, run', k) {
      if k < |run.attempts| {
        assert Leads(c, h, gasOverride, run, k);
      }
    }
    forall k | 0 <= k < |run.attempts| ensures VerdictAt(c, gasOverride, run', k) == Disagreed {
      assert VerdictAt(c, gasOverride, run, k) == Disagreed;
    }
  }
}
