/**
 A fork endpoint and what Anvil takes its replies for (crates/anvil/src/config.rs).

 The endpoint moves through epochs, one per reset. It never reuses an instance id, and only a reset
 replaces blocks. Which network profile and hardfork the reported names stand for is decided
 elsewhere, and enters as functions of the configuration.
 */
module ForkEndpoint {
  import opened Common

  type Hash = nat

  datatype NodeInfo = NodeInfo(network: Option<string>, hardFork: string)
  datatype ForkedNetwork = ForkedNetwork(chainId: nat, blockNumber: nat, blockHash: Hash)
  datatype Metadata = Metadata(chainId: nat, instanceId: Hash, forked: Option<ForkedNetwork>)
  datatype Block = Block(number: nat, hash: Hash)
  /** A block with its transactions, unless the endpoint left them out. */
  datatype SourceBlock = SourceBlock(number: nat, hash: Hash, transactions: Option<seq<Hash>>)
  /** Where a transaction was mined. */
  datatype Location = Location(blockNumber: Option<nat>, blockHash: Option<Hash>, index: Option<nat>)

  /** Everything an endpoint may report between two resets. The gas price follows the chain. */
  datatype Epoch = Epoch(
    chainId: nat, nodeInfo: NodeInfo, metadata: Metadata, blocks: nat -> Block, sourceBlocks: Hash -> SourceBlock,
    gasPrices: nat -> bool)

  type History = nat -> Epoch

  /** Instance ids are never reused. */
  ghost predicate UniqueInstances(history: History) {
    forall i: nat, j: nat ::
      history(i).metadata.instanceId == history(j).metadata.instanceId ==> i == j
  }

  datatype Rpc<+T> = Reply(value: T) | MethodNotFound | RpcError | TimedOut

  type Network = nat
  type Profile = nat
  type Hardfork = nat

  datatype Identity = Identity(
    executionChainId: nat,
    sourceChainId: nat,
    network: Option<Network>,
    profile: Option<Profile>,
    hardfork: Option<Hardfork>,
    instanceId: Option<Hash>,
    sourceForkBlockNumber: Option<nat>,
    sourceForkBlockHash: Option<Hash>)
  {
    predicate ContextEq(other: Identity) {
      this.(instanceId := None) == other.(instanceId := None)
    }

    predicate IsAuthoritative() {
      hardfork.Some?
    }
  }

  datatype Failure =
    | TransportFailed
    | ProbeFailed
    | MetadataFailed
    | ProfileFailed(reason: string)
    | NoProfile
    | UnsupportedHardfork
    | UnsupportedNetwork
    | EndpointChanged
    | OwnEndpoint
    | IncompatibleContext
    | ForkBlockMissing
    | ChainIdMismatch
    | NotMined
    | InvalidReplay

  /** A negative block choice counts back from the latest block. */
  datatype ForkChoice = Latest | Number(n: int) | Transaction(hash: Hash)

  datatype Config = Config(
    forkChainId: Option<nat>,
    skipNodeInfo: bool,
    forkChoice: ForkChoice,
    profileFor: (nat, Option<Option<string>>) -> Result<Option<Profile>, string>,
    networkOf: Profile -> Network,
    hardforkOf: (Network, string) -> Option<Hardfork>,
    supported: nat -> bool)

  // ----- identities from replies -----

  /** The identity of an Anvil endpoint that reported both its node info and its metadata. */
  function IdentityFrom(
    c: Config, info: NodeInfo, executionChainId: nat, sourceChainId: nat,
    instanceId: Option<Hash>, forked: Option<ForkedNetwork>): Result<Identity, Failure>
  {
    var chainId := if info.network.Some? then executionChainId else sourceChainId;
    var profile := c.profileFor(chainId, Some(info.network));
    if profile.Err? then Err(ProfileFailed(profile.error))
    else if profile.value.None? then Err(NoProfile)
    else
      var network := c.networkOf(profile.value.value);
      var hardfork := c.hardforkOf(network, info.hardFork);
      if hardfork.None? then Err(UnsupportedHardfork)
      else
        Ok(Identity(
             executionChainId, sourceChainId, Some(network), profile.value, hardfork, instanceId,
             if forked.Some? then Some(forked.value.blockNumber) else None,
             if forked.Some? then Some(forked.value.blockHash) else None))
  }

  /** What an epoch's node info and metadata identify the endpoint as. */
  function Identified(c: Config, info: NodeInfo, meta: Metadata): Result<Identity, Failure> {
    var source :=
      if c.forkChainId.Some? then c.forkChainId.value
      else if meta.forked.Some? then meta.forked.value.chainId
      else meta.chainId;
    IdentityFrom(c, info, meta.chainId, source, Some(meta.instanceId), meta.forked)
  }

  function Anonymous(c: Config, chainId: nat): Result<Identity, Failure> {
    var profile := c.profileFor(chainId, None);
    if profile.Err? then Err(ProfileFailed(profile.error))
    else
      Ok(Identity(
           chainId, chainId, if profile.value.Some? then Some(c.networkOf(profile.value.value)) else None,
           profile.value, None, None, None, None))
  }

  /** Best-effort detection that becomes strict once the endpoint is known to be Anvil. */
  datatype Probe = Probe(identified: bool, skip: bool, inconclusive: bool)

  /** What the probe makes of a reply to `anvil_nodeInfo`. */
  function Judge(p: Probe, reply: Rpc<NodeInfo>): (Probe, Result<Option<NodeInfo>, Failure>) {
    match reply
    case TimedOut => (p.(inconclusive := true), Ok(None))
    case Reply(info) => (p.(identified := true), Ok(Some(info)))
    case MethodNotFound => if p.identified then (p, Err(ProbeFailed)) else (p, Ok(None))
    case RpcError =>
      if p.identified then (p, Err(ProbeFailed)) else (p.(inconclusive := true), Ok(None))
  }

  // ----- replaying up to a transaction -----

  datatype Replay = Replay(sourceBlock: SourceBlock, targetIndex: nat)

  function FirstIndex(hashes: seq<Hash>, tx: Hash): (i: nat)
    ensures i <= |hashes| && (i < |hashes| ==> hashes[i] == tx)
    ensures forall k :: 0 <= k < i ==> hashes[k] != tx
  {
    if hashes == [] || hashes[0] == tx then 0 else 1 + FirstIndex(hashes[1..], tx)
  }

  /** Checks a fork transaction against the block it claims to be in. */
  function ValidateReplay(tx: Hash, location: Location, block: SourceBlock): Result<Replay, Failure> {
    if location.blockHash.None? || location.blockNumber.None? then Err(NotMined)
    else if block.hash != location.blockHash.value || block.number != location.blockNumber.value then Err(InvalidReplay)
    else if block.number == 0 || block.transactions.None? then Err(InvalidReplay)
    else
      var hashes := block.transactions.value;
      var i := FirstIndex(hashes, tx);
      if i == |hashes| || tx in hashes[i + 1..] then Err(InvalidReplay)
      else if location.index.Some? && location.index.value != i then Err(InvalidReplay)
      else Ok(Replay(block, i))
  }

  /** The transaction stands at `i` in the block and nowhere else. */
  ghost predicate OccursOnlyAt(block: SourceBlock, tx: Hash, i: nat) {
    block.transactions.Some? && i < |block.transactions.value| &&
    forall k :: 0 <= k < |block.transactions.value| ==> (block.transactions.value[k] == tx <==> k == i)
  }

  /** A replay is accepted exactly when the transaction's location is the fetched block, that block has
      a parent, and the transaction occurs in it once, where it is reported to be if that is reported. */
  lemma ReplayIff(tx: Hash, location: Location, block: SourceBlock, i: nat)
    ensures ValidateReplay(tx, location, block) == Ok(Replay(block, i)) <==>
      && location.blockHash == Some(block.hash) && location.blockNumber == Some(block.number) && block.number > 0
      && OccursOnlyAt(block, tx, i)
      && (location.index.Some? ==> location.index.value == i)
  {
    if block.transactions.Some? {
      OccursOnlyIff(block.transactions.value, tx, i);
    }
  }

  lemma OccursOnlyIff(hashes: seq<Hash>, tx: Hash, i: nat)
    ensures (i < |hashes| && forall k :: 0 <= k < |hashes| ==> (hashes[k] == tx <==> k == i)) <==>
      i == FirstIndex(hashes, tx) && i < |hashes| && tx !in hashes[i + 1..]
  {
    var first := FirstIndex(hashes, tx);
    if i < |hashes| && i == first && tx !in hashes[i + 1..] {
      forall k | i < k < |hashes| ensures hashes[k] != tx {
        assert hashes[i + 1..][k - i - 1] == hashes[k];
      }
    }
    if i < |hashes| && forall k :: 0 <= k < |hashes| ==> (hashes[k] == tx <==> k == i) {
      assert hashes[i] == tx;
      assert first <= i < |hashes| && hashes[first] == tx;
    }
  }

  // ----- the endpoint -----

  class Endpoint {
    const history: History
    var epoch: nat

    constructor (history: History)
      ensures this.history == history && epoch == 0
    {
      this.history := history;
      epoch := 0;
    }

    /** Any number of resets may happen before a request is served. */
    method Drift()
      modifies this
      ensures old(epoch) <= epoch
    {
      var resets: nat :| 0 <= resets;
      epoch := epoch + resets;
    }

    method ReadChainId() returns (r: Rpc<nat>)
      modifies this
      ensures old(epoch) <= epoch
      ensures r.Reply? ==> r.value == history(epoch).chainId
    {
      Drift();
      r := *;
      if r.Reply? {
        r := Reply(history(epoch).chainId);
      }
    }

    method ReadNodeInfo() returns (r: Rpc<NodeInfo>)
      modifies this
      ensures old(epoch) <= epoch
      ensures r.Reply? ==> r.value == history(epoch).nodeInfo
    {
      Drift();
      r := *;
      if r.Reply? {
        r := Reply(history(epoch).nodeInfo);
      }
    }

    method ReadMetadata() returns (r: Rpc<Metadata>)
      modifies this
      ensures old(epoch) <= epoch
      ensures r.Reply? ==> r.value == history(epoch).metadata
    {
      Drift();
      r := *;
      if r.Reply? {
        r := Reply(history(epoch).metadata);
      }
    }

    /** The chain grows, so any height may be reported. */
    method ReadBlockNumber() returns (r: Rpc<nat>)
      modifies this
      ensures old(epoch) <= epoch
    {
      Drift();
      r := *;
    }

    /** A block may not exist yet; if it does, it is the epoch's block at that height. */
    method ReadBlock(n: nat) returns (r: Rpc<Option<Block>>)
      modifies this
      ensures old(epoch) <= epoch
      ensures r.Reply? && r.value.Some? ==> r.value.value == history(epoch).blocks(n)
    {
      Drift();
      r := *;
      if r.Reply? && r.value.Some? {
        r := Reply(Some(history(epoch).blocks(n)));
      }
    }

    /** A transaction may be unknown, pending or mined. */
    method ReadTransaction(tx: Hash) returns (r: Rpc<Option<Location>>)
      modifies this
      ensures old(epoch) <= epoch
    {
      Drift();
      r := *;
    }

    method ReadSourceBlock(hash: Hash) returns (r: Rpc<Option<SourceBlock>>)
      modifies this
      ensures old(epoch) <= epoch
      ensures r.Reply? && r.value.Some? ==> r.value.value == history(epoch).sourceBlocks(hash)
    {
      Drift();
      r := *;
      if r.Reply? && r.value.Some? {
        r := Reply(Some(history(epoch).sourceBlocks(hash)));
      }
    }

    method ReadGasPrice() returns (r: Rpc<nat>)
      modifies this
      ensures old(epoch) <= epoch
      ensures r.Reply? ==> history(epoch).gasPrices(r.value)
    {
      Drift();
      r := *;
      if r.Reply? && !history(epoch).gasPrices(r.value) {
        r := RpcError;
      }
    }
  }
}
