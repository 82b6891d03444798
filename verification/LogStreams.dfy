/**
 Log delivery (crates/anvil/src/pubsub.rs, crates/anvil/src/filter.rs): the logs of a block that
 match a filter, the push subscription that queues them, and the polled filter that batches them.

 Filter criteria are functions of the values they are asked about. The hash of a block is part of
 its value.
 */
module BlockLogs {
  import opened Common

  type Hash = nat
  type Address = nat

  datatype RawLog = RawLog(address: Address, topics: seq<Hash>, data: seq<byte>)

  datatype Block = Block(hash: Hash, number: nat, timestamp: nat, transactions: seq<Hash>)

  datatype RpcLog = RpcLog(
    inner: RawLog,
    blockHash: Option<Hash>,
    blockNumber: Option<nat>,
    transactionHash: Option<Hash>,
    transactionIndex: Option<nat>,
    logIndex: Option<nat>,
    removed: bool,
    blockTimestamp: Option<nat>)

  datatype Criteria = Criteria(
    blockRange: nat -> bool, blockHash: Hash -> bool, address: Address -> bool, topics: seq<Hash> -> bool)

  type Filter = Option<Criteria>

  const U32_RANGE: nat := 0x1_0000_0000

  // ----- what a filter keeps -----

  function OrZero(x: Option<nat>): nat {
    if x.Some? then x.value else 0
  }

  predicate Accepts(filter: Filter, log: RpcLog) {
    filter.None? ||
    (&& filter.value.blockRange(OrZero(log.blockNumber))
     && filter.value.blockHash(OrZero(log.blockHash))
     && filter.value.address(log.inner.address)
     && filter.value.topics(log.inner.topics))
  }

  /** The accepted logs, in order. Removed logs are filtered with this as they are. */
  function Keep(filter: Filter, logs: seq<RpcLog>): seq<RpcLog> {
    if logs == [] then []
    else
      var last := logs[|logs| - 1];
      Keep(filter, logs[..|logs| - 1]) + if Accepts(filter, last) then [last] else []
  }

  ghost predicate Increasing(ix: seq<nat>) {
    forall i, j :: 0 <= i < j < |ix| ==> ix[i] < ix[j]
  }

  ghost predicate AllBelow(ix: seq<nat>, n: nat) {
    forall i :: 0 <= i < |ix| ==> ix[i] < n
  }

  /** `ix` picks the logs out of `logs` that make up `kept`. */
  ghost predicate Picks(kept: seq<RpcLog>, logs: seq<RpcLog>, ix: seq<nat>) {
    && |ix| == |kept|
    && Increasing(ix)
    && AllBelow(ix, |logs|)
    && forall j :: 0 <= j < |ix| ==> kept[j] == logs[ix[j]]
  }

  /** `ix` holds exactly the accepted positions. */
  ghost predicate Covers(filter: Filter, logs: seq<RpcLog>, ix: seq<nat>) {
    forall p :: 0 <= p < |logs| ==> (p in ix <==> Accepts(filter, logs[p]))
  }

  lemma PicksSnoc(kept: seq<RpcLog>, logs: seq<RpcLog>, ix: seq<nat>, x: RpcLog)
    requires Picks(kept, logs, ix)
    ensures Picks(kept, logs + [x], ix)
    ensures Picks(kept + [x], logs + [x], ix + [|logs|])
  {
  }

  lemma CoversSnoc(filter: Filter, logs: seq<RpcLog>, ix: seq<nat>, x: RpcLog)
    requires Covers(filter, logs, ix) && AllBelow(ix, |logs|)
    ensures Covers(filter, logs + [x], if Accepts(filter, x) then ix + [|logs|] else ix)
  {
    assert |logs| !in ix;
  }

  /** `Keep` is the ordered sub-sequence at exactly the accepted positions. */
  lemma {:induction false} KeepIsSubsequence(filter: Filter, logs: seq<RpcLog>) returns (ix: seq<nat>)
    ensures Picks(Keep(filter, logs), logs, ix)
    ensures Covers(filter, logs, ix)
  {
    if logs == [] {
      ix := [];
    } else {
      var n := |logs| - 1;
      var rest, last := logs[..n], logs[n];
      ix := KeepIsSubsequence(filter, rest);
      assert rest + [last] == logs;
      PicksSnoc(Keep(filter, rest), rest, ix, last);
      CoversSnoc(filter, rest, ix, last);
      ix := if Accepts(filter, last) then ix + [n] else ix;
    }
  }

  // ----- the logs of a block -----

  type Receipts = seq<seq<RawLog>>

  function Tag(i: nat, logs: seq<RawLog>): (r: seq<(nat, RawLog)>)
    ensures |r| == |logs|
    ensures forall k :: 0 <= k < |logs| ==> r[k] == (i, logs[k])
  {
    seq(|logs|, k requires 0 <= k < |logs| => (i, logs[k]))
  }

  /** Every log of a block with the index of its receipt, in order. */
  function Flatten(receipts: Receipts): seq<(nat, RawLog)> {
    if receipts == [] then []
    else
      var n := |receipts| - 1;
      Flatten(receipts[..n]) + Tag(n, receipts[n])
  }

  /** How many logs come before receipt `i`. */
  function Offset(receipts: Receipts, i: nat): nat
    requires i <= |receipts|
  {
    if i == 0 then 0 else Offset(receipts, i - 1) + |receipts[i - 1]|
  }

  lemma {:induction false} OffsetOfPrefix(receipts: Receipts, n: nat, i: nat)
    requires i <= n <= |receipts|
    ensures Offset(receipts[..n], i) == Offset(receipts, i)
  {
    if i > 0 {
      OffsetOfPrefix(receipts, n, i - 1);
    }
  }

  lemma {:induction false} FlattenLength(receipts: Receipts)
    ensures |Flatten(receipts)| == Offset(receipts, |receipts|)
  {
    if receipts != [] {
      var n := |receipts| - 1;
      FlattenLength(receipts[..n]);
      OffsetOfPrefix(receipts, n, n);
    }
  }

  /** Flat position `Offset(i) + k` holds log `k` of receipt `i`. */
  lemma {:induction false} FlattenAt(receipts: Receipts, i: nat, k: nat)
    requires i < |receipts| && k < |receipts[i]|
    ensures Offset(receipts, i) + k < |Flatten(receipts)|
    ensures Flatten(receipts)[Offset(receipts, i) + k] == (i, receipts[i][k])
  {
    var n := |receipts| - 1;
    FlattenLength(receipts[..n]);
    OffsetOfPrefix(receipts, n, n);
    if i < n {
      FlattenAt(receipts[..n], i, k);
      OffsetOfPrefix(receipts, n, i);
    }
  }

  lemma {:induction false} FlattenReceipt(receipts: Receipts, p: nat)
    requires p < |Flatten(receipts)|
    ensures Flatten(receipts)[p].0 < |receipts|
  {
    if receipts != [] {
      var n := |receipts| - 1;
      if p < |Flatten(receipts[..n])| {
        FlattenReceipt(receipts[..n], p);
      }
    }
  }

  /** The log index is a 32-bit counter. */
  function Describe(block: Block, receipt: nat, log: RawLog, position: nat): RpcLog {
    RpcLog(
      log, Some(block.hash), Some(block.number),
      if receipt < |block.transactions| then Some(block.transactions[receipt]) else None,
      Some(receipt), Some(position % U32_RANGE), false, Some(block.timestamp))
  }

  /** All logs of a block with their metadata, the log index being the position. */
  function Described(block: Block, flat: seq<(nat, RawLog)>): (r: seq<RpcLog>)
    ensures |r| == |flat|
    ensures forall p :: 0 <= p < |flat| ==> r[p] == Describe(block, flat[p].0, flat[p].1, p)
  {
    seq(|flat|, p requires 0 <= p < |flat| => Describe(block, flat[p].0, flat[p].1, p))
  }

  /** The accepted logs of a block, with their metadata. */
  function Matching(filter: Filter, block: Block, flat: seq<(nat, RawLog)>): seq<RpcLog> {
    Keep(filter, Described(block, flat))
  }

  lemma MatchingSnoc(filter: Filter, block: Block, flat: seq<(nat, RawLog)>, e: (nat, RawLog))
    ensures var log := Describe(block, e.0, e.1, |flat|);
      Matching(filter, block, flat + [e]) ==
      Matching(filter, block, flat) + if Accepts(filter, log) then [log] else []
  {
    var logs := Described(block, flat + [e]);
    assert logs[..|flat|] == Described(block, flat);
  }

  lemma TagSnoc(before: seq<(nat, RawLog)>, i: nat, logs: seq<RawLog>, k: nat)
    requires k < |logs|
    ensures before + Tag(i, logs[..k + 1]) == before + Tag(i, logs[..k]) + [(i, logs[k])]
  {
  }

  lemma Increment(position: nat)
    ensures (position % U32_RANGE + 1) % U32_RANGE == (position + 1) % U32_RANGE
  {
  }

  /** Appends the matching logs of one receipt. */
  method FilterReceipt(
    block: Block, i: nat, receipt: seq<RawLog>, filter: Filter, logs: seq<RpcLog>, logIndex: nat,
    ghost before: seq<(nat, RawLog)>)
    returns (logs': seq<RpcLog>, logIndex': nat)
    requires i < |block.transactions|
    requires logs == Matching(filter, block, before) && logIndex == |before| % U32_RANGE
    ensures logs' == Matching(filter, block, before + Tag(i, receipt))
    ensures logIndex' == |before + Tag(i, receipt)| % U32_RANGE
  {
    var transactionHash := block.transactions[i];
    logs', logIndex' := logs, logIndex;
    assert before + Tag(i, receipt[..0]) == before;
    for k := 0 to |receipt|
      invariant logs' == Matching(filter, block, before + Tag(i, receipt[..k]))
      invariant logIndex' == (|before| + k) % U32_RANGE
    {
      var log := receipt[k];
      TagSnoc(before, i, receipt, k);
      MatchingSnoc(filter, block, before + Tag(i, receipt[..k]), (i, log));
      if AddLog(block, log, filter) {
        logs' := logs' + [RpcLog(
          log, Some(block.hash), Some(block.number), Some(transactionHash), Some(i), Some(logIndex'),
          false, Some(block.timestamp))];
      }
      Increment(|before| + k);
      logIndex' := (logIndex' + 1) % U32_RANGE;
    }
    assert receipt[..|receipt|] == receipt;
  }

  /** The logs of a block that match the filter. There is a transaction for each receipt. */
  method FilterLogs(block: Block, receipts: Receipts, filter: Filter) returns (logs: seq<RpcLog>)
    requires |receipts| <= |block.transactions|
    ensures logs == Matching(filter, block, Flatten(receipts))
  {
    logs := [];
    var logIndex := 0;
    for i := 0 to |receipts|
      invariant logs == Matching(filter, block, Flatten(receipts[..i]))
      invariant logIndex == |Flatten(receipts[..i])| % U32_RANGE
    {
      assert receipts[..i + 1][..i] == receipts[..i];
      logs, logIndex := FilterReceipt(block, i, receipts[i], filter, logs, logIndex, Flatten(receipts[..i]));
    }
    assert receipts[..|receipts|] == receipts;
  }

  predicate AddLog(block: Block, log: RawLog, filter: Filter) {
    if filter.Some? then
      && filter.value.blockRange(block.number)
      && filter.value.blockHash(block.hash)
      && filter.value.address(log.address)
      && filter.value.topics(log.topics)
    else true
  }

  /** `log` is what stands at position `p` of the flattened receipts. */
  ghost predicate IsLogAt(log: RpcLog, block: Block, receipts: Receipts, p: nat) {
    var flat := Flatten(receipts);
    && p < |flat|
    && flat[p].0 < |receipts| && flat[p].0 < |block.transactions|
    && log.inner == flat[p].1
    && log.logIndex == Some(p % U32_RANGE)
    && log.transactionIndex == Some(flat[p].0)
    && log.transactionHash == Some(block.transactions[flat[p].0])
    && log.blockHash == Some(block.hash) && log.blockNumber == Some(block.number)
    && log.blockTimestamp == Some(block.timestamp)
    && !log.removed
  }

  /** `ix` holds exactly the positions of the logs that match. */
  ghost predicate Matches(ix: seq<nat>, filter: Filter, block: Block, receipts: Receipts) {
    forall i, k :: 0 <= i < |receipts| && 0 <= k < |receipts[i]| ==>
      (Offset(receipts, i) + k in ix <==> AddLog(block, receipts[i][k], filter))
  }

  /** Each returned log carries as log index its position in the flattened receipts and as
      transaction index its receipt, and the result is exactly the matching logs in order. */
  lemma BlockLogIndices(filter: Filter, block: Block, receipts: Receipts) returns (ix: seq<nat>)
    requires |receipts| <= |block.transactions|
    ensures Increasing(ix) && Matches(ix, filter, block, receipts)
    ensures |ix| == |Matching(filter, block, Flatten(receipts))|
    ensures forall j :: 0 <= j < |ix| ==>
      IsLogAt(Matching(filter, block, Flatten(receipts))[j], block, receipts, ix[j])
  {
    var flat := Flatten(receipts);
    var logs := Described(block, flat);
    ix := KeepIsSubsequence(filter, logs);
    forall j | 0 <= j < |ix| ensures IsLogAt(Matching(filter, block, flat)[j], block, receipts, ix[j]) {
      FlattenReceipt(receipts, ix[j]);
    }
    forall i, k | 0 <= i < |receipts| && 0 <= k < |receipts[i]|
      ensures Offset(receipts, i) + k in ix <==> AddLog(block, receipts[i][k], filter)
    {
      FlattenAt(receipts, i, k);
      assert logs[Offset(receipts, i) + k] == Describe(block, i, receipts[i][k], Offset(receipts, i) + k);
    }
  }
}

module LogStreams {
  import opened Common
  import opened BlockLogs

  /** A new block is announced by its hash and its header, which holds its number. */
  datatype Notification = NewBlock(hash: Hash, number: nat) | RemovedLogs(logs: seq<RpcLog>)

  /** A notification together with what the storage answered when it was handled. */
  datatype Handled = Handled(notification: Notification, stored: Option<Stored>)
  datatype Stored = Stored(block: Block, receipts: Receipts)

  /** The logs one handled notification stands for. */
  function LogsOf(filter: Filter, h: Handled): seq<RpcLog> {
    match h.notification
    case NewBlock(_, _) =>
      if h.stored.Some? then Matching(filter, h.stored.value.block, Flatten(h.stored.value.receipts))
      else []
    case RemovedLogs(logs) => Keep(filter, logs)
  }

  /** The logs of a sequence of handled notifications, concatenated in order. */
  function Delivery(filter: Filter, handled: seq<Handled>): seq<RpcLog> {
    if handled == [] then []
    else Delivery(filter, handled[..|handled| - 1]) + LogsOf(filter, handled[|handled| - 1])
  }

  lemma DeliverySnoc(filter: Filter, handled: seq<Handled>, h: Handled)
    ensures Delivery(filter, handled + [h]) == Delivery(filter, handled) + LogsOf(filter, h)
  {
    assert (handled + [h])[..|handled|] == handled;
  }

  ghost function Notifications(handled: seq<Handled>): (r: seq<Notification>)
    ensures |r| == |handled|
  {
    seq(|handled|, i requires 0 <= i < |handled| => handled[i].notification)
  }

  lemma NotificationsSnoc(handled: seq<Handled>, h: Handled)
    ensures Notifications(handled + [h]) == Notifications(handled) + [h.notification]
  {
  }

  /** What the storage may answer about an announced block: that it is gone, or the block of that hash and
      number, with a transaction for each of its receipts. */
  predicate MayAnswer(hash: Hash, number: nat, stored: Option<Stored>) {
    stored.Some? ==>
      && stored.value.block.hash == hash && stored.value.block.number == number
      && |stored.value.receipts| <= |stored.value.block.transactions|
  }

  predicate Answered(h: Handled) {
    h.notification.NewBlock? ==> MayAnswer(h.notification.hash, h.notification.number, h.stored)
  }

  /** The node's block storage. Blocks come and go. */
  method Lookup(hash: Hash, number: nat) returns (stored: Option<Stored>)
    ensures MayAnswer(hash, number, stored)
  {
    stored := *;
    if !MayAnswer(hash, number, stored) {
      stored := None;
    }
  }

  /** What a stream makes of one notification. */
  method Handle(filter: Filter, notification: Notification) returns (logs: seq<RpcLog>, ghost h: Handled)
    ensures h.notification == notification && Answered(h) && logs == LogsOf(filter, h)
  {
    match notification {
      case NewBlock(hash, number) =>
        var stored := Lookup(hash, number);
        h := Handled(notification, stored);
        logs := [];
        if stored.Some? {
          logs := FilterLogs(stored.value.block, stored.value.receipts, filter);
        }
      case RemovedLogs(removed) =>
        h := Handled(notification, None);
        logs := Keep(filter, removed);
    }
  }

  function Batch(arrivals: seq<seq<Notification>>, k: nat): seq<Notification> {
    if k < |arrivals| then arrivals[k] else []
  }

  /** The receiving end of the chain notifications. */
  class Receiver {
    var pending: seq<Notification>
    var closed: bool
    ghost var received: seq<Notification>
    ghost var handled: seq<Handled>

    constructor ()
      ensures Valid() && pending == [] && received == [] && handled == [] && !closed
    {
      pending, closed, received, handled := [], false, [], [];
    }

    /** Every notification that arrived was handled, in order, or is still pending. */
    ghost predicate Valid()
      reads this
    {
      && received == Notifications(handled) + pending
      && forall h | h in handled :: Answered(h)
    }

    /** The notifications of one batch; past the last batch nothing arrives. */
    method ArriveBatch(arrivals: seq<seq<Notification>>, k: nat)
      requires Valid()
      modifies this
      ensures Valid() && received == old(received) + Batch(arrivals, k) && pending == old(pending) + Batch(arrivals, k)
      ensures handled == old(handled) && closed == old(closed)
    {
      pending := pending + Batch(arrivals, k);
      received := received + Batch(arrivals, k);
    }

    method Close()
      requires Valid()
      modifies this
      ensures Valid() && closed
      ensures received == old(received) && handled == old(handled) && pending == old(pending)
    {
      closed := true;
    }

    /** Takes the next notification and handles it. */
    method Next(filter: Filter) returns (logs: seq<RpcLog>)
      requires Valid() && pending != []
      modifies this
      ensures Valid() && received == old(received) && closed == old(closed)
      ensures pending == old(pending)[1..]
      ensures |handled| == |old(handled)| + 1 && old(handled) <= handled
      ensures Delivery(filter, handled) == Delivery(filter, old(handled)) + logs
    {
      var n := pending[0];
      ghost var h;
      logs, h := Handle(filter, n);
      NotificationsSnoc(handled, h);
      DeliverySnoc(filter, handled, h);
      assert pending == [n] + pending[1..];
      Associate(Notifications(handled), [n], pending[1..]);
      pending := pending[1..];
      handled := handled + [h];
    }
  }

  datatype Poll = Pending | Closed | Response(log: RpcLog)

  class LogsSubscription {
    const filter: Filter
    const blocks: Receiver
    var queued: seq<RpcLog>
    ghost var emitted: seq<RpcLog>

    constructor (filter: Filter, blocks: Receiver)
      requires blocks.Valid() && blocks.handled == []
      ensures Valid() && emitted == [] && this.filter == filter && this.blocks == blocks
    {
      this.filter, this.blocks, queued, emitted := filter, blocks, [], [];
    }

    /** What was emitted, and then what is queued, is what the handled notifications stand for. */
    ghost predicate Valid()
      reads this, blocks
    {
      && blocks.Valid()
      && emitted + queued == Delivery(filter, blocks.handled)
    }

    /** Subscription delivery, while `arrivals` come in, one batch before each time the receiver is asked.
        The emitted responses grow by one log at a time and stay the in-order concatenation of each
        notification's filtered logs; `Pending` is returned only when the receiver was itself pending, and
        everything that arrived has then been emitted. */
    method Poll(arrivals: seq<seq<Notification>>) returns (r: Poll)
      requires Valid()
      modifies this, blocks
      ensures Valid()
      ensures old(blocks.received) <= blocks.received && blocks.closed == old(blocks.closed)
      ensures emitted == match r case Response(log) => old(emitted) + [log] case _ => old(emitted)
      ensures !r.Response? ==>
        && blocks.pending == [] && queued == []
        && Notifications(blocks.handled) == blocks.received
        && emitted == Delivery(filter, blocks.handled)
        && (r.Closed? <==> blocks.closed)
    {
      var asked := 0;
      while true
        invariant Valid() && emitted == old(emitted)
        invariant old(blocks.received) <= blocks.received && blocks.closed == old(blocks.closed)
        decreases if asked < |arrivals| then |arrivals| - asked else 0, |blocks.pending|, |queued|
      {
        if queued != [] {
          var log := queued[0];
          assert queued == [log] + queued[1..];
          Associate(emitted, [log], queued[1..]);
          queued := queued[1..];
          emitted := emitted + [log];
          return Response(log);
        }
        blocks.ArriveBatch(arrivals, asked);
        asked := asked + 1;
        if blocks.pending == [] {
          assert Notifications(blocks.handled) + [] == Notifications(blocks.handled);
          assert emitted + [] == emitted;
          return if blocks.closed then Closed else Pending;
        }
        var logs := blocks.Next(filter);
        if logs == [] {
          continue;
        }
        Associate(emitted, queued, logs);
        queued := queued + logs;
        // the queue is never empty here: the branch that returns `Pending` next is never taken
        assert queued != [];
      }
    }
  }

  class LogsFilter {
    const filter: Filter
    const blocks: Receiver
    var historic: Option<seq<RpcLog>>
    ghost const initial: seq<RpcLog>
    ghost var returned: seq<RpcLog>

    constructor (filter: Filter, blocks: Receiver, historic: Option<seq<RpcLog>>)
      requires blocks.Valid() && blocks.handled == []
      ensures Valid() && returned == [] && this.filter == filter && this.blocks == blocks
      ensures initial == if historic.Some? then historic.value else []
    {
      this.filter, this.blocks, this.historic := filter, blocks, historic;
      initial := if historic.Some? then historic.value else [];
      returned := [];
    }

    /** Everything returned so far is the historic logs, once, and then what the handled
        notifications stand for. */
    ghost predicate Valid()
      reads this, blocks
    {
      && blocks.Valid()
      && (historic.Some? ==> historic.value == initial && returned == [] && blocks.handled == [])
      && (historic.None? ==> returned == initial + Delivery(filter, blocks.handled))
    }

    /** Returns all logs since the last poll, `arrivals` coming in meanwhile, and leaves nothing pending. */
    method Poll(arrivals: seq<seq<Notification>>) returns (logs: seq<RpcLog>)
      requires Valid()
      modifies this, blocks
      ensures Valid() && historic.None?
      ensures old(blocks.received) <= blocks.received
      ensures blocks.pending == [] && Notifications(blocks.handled) == blocks.received
      ensures returned == old(returned) + logs
      ensures returned == initial + Delivery(filter, blocks.handled)
    {
      logs := if historic.Some? then historic.value else [];
      historic := None;
      assert old(returned) + logs == initial + Delivery(filter, blocks.handled);
      blocks.ArriveBatch(arrivals, 0);
      var asked := 1;
      while blocks.pending != []
        invariant blocks.Valid() && historic.None? && returned == old(returned)
        invariant old(blocks.received) <= blocks.received
        invariant old(returned) + logs == initial + Delivery(filter, blocks.handled)
        decreases if asked < |arrivals| then |arrivals| - asked else 0, |blocks.pending|
      {
        ghost var so := Delivery(filter, blocks.handled);
        var more := blocks.Next(filter);
        Associate(initial, so, more);
        Associate(old(returned), logs, more);
        logs := logs + more;
        blocks.ArriveBatch(arrivals, asked);
        asked := asked + 1;
      }
      assert Notifications(blocks.handled) + [] == Notifications(blocks.handled);
      returned := returned + logs;
    }
  }

  // ----- two streams -----

  /** The storage gave both streams the same answers about the same new blocks. */
  ghost predicate SameAnswers(a: seq<Handled>, b: seq<Handled>) {
    |a| == |b| && forall i | 0 <= i < |a| :: a[i].notification.NewBlock? ==> a[i].stored == b[i].stored
  }

  lemma {:induction false} SameLogsSameDelivery(filter: Filter, a: seq<Handled>, b: seq<Handled>)
    requires |a| == |b| && forall i | 0 <= i < |a| :: LogsOf(filter, a[i]) == LogsOf(filter, b[i])
    ensures Delivery(filter, a) == Delivery(filter, b)
  {
    if a != [] {
      SameLogsSameDelivery(filter, a[..|a| - 1], b[..|b| - 1]);
    }
  }

  lemma NotificationAt(a: seq<Handled>, b: seq<Handled>, i: nat)
    requires Notifications(a) == Notifications(b) && i < |a|
    ensures i < |b| && a[i].notification == b[i].notification
  {
    assert Notifications(a)[i] == Notifications(b)[i];
  }

  /** A possible handling of the notifications. */
  ghost predicate Handles(handled: seq<Handled>, notifications: seq<Notification>) {
    Notifications(handled) == notifications && forall h | h in handled :: Answered(h)
  }

  /** The notifications alone decide what is delivered. */
  ghost predicate Decides(filter: Filter, notifications: seq<Notification>) {
    forall a, b :: Handles(a, notifications) && Handles(b, notifications) ==> Delivery(filter, a) == Delivery(filter, b)
  }

  /** A drained subscription and a polled filter that got the same notifications, and the same answers from
      the storage where the notifications alone do not decide, deliver the same logs, the filter after its
      historic prefix. */
  lemma SameStream(s: LogsSubscription, f: LogsFilter)
    requires s.Valid() && f.Valid() && s.filter == f.filter
    requires s.blocks.received == f.blocks.received && s.blocks.pending == [] && f.blocks.pending == []
    requires SameAnswers(s.blocks.handled, f.blocks.handled) || Decides(s.filter, s.blocks.received)
    requires s.queued == [] && f.historic.None?
    ensures f.returned == f.initial + s.emitted
  {
    var a, b := s.blocks.handled, f.blocks.handled;
    assert Notifications(a) + [] == Notifications(a) && Notifications(b) + [] == Notifications(b);
    assert s.emitted + [] == s.emitted;
    if SameAnswers(a, b) {
      forall i | 0 <= i < |a| ensures LogsOf(s.filter, a[i]) == LogsOf(s.filter, b[i]) {
        NotificationAt(a, b, i);
      }
      SameLogsSameDelivery(s.filter, a, b);
    } else {
      assert Handles(a, s.blocks.received) && Handles(b, s.blocks.received);
    }
  }

  /** The filter accepts no log of a block of this hash and number. */
  ghost predicate AcceptsNone(filter: Filter, hash: Hash, number: nat) {
    forall block: Block, log | block.hash == hash && block.number == number :: !AddLog(block, log, filter)
  }

  lemma {:induction false} KeepsNothing(filter: Filter, block: Block, flat: seq<(nat, RawLog)>)
    requires AcceptsNone(filter, block.hash, block.number)
    ensures Matching(filter, block, flat) == []
  {
    if flat != [] {
      var front, last := flat[..|flat| - 1], flat[|flat| - 1];
      KeepsNothing(filter, block, front);
      MatchingSnoc(filter, block, front, last);
      assert front + [last] == flat;
      assert !AddLog(block, last.1, filter);
    }
  }

  /** Changing what one notification stands for changes the length of the delivery by as much. */
  lemma {:induction false} DeliveryChange(filter: Filter, handled: seq<Handled>, i: nat, h: Handled)
    requires i < |handled|
    ensures |Delivery(filter, handled[i := h])| + |LogsOf(filter, handled[i])| ==
      |Delivery(filter, handled)| + |LogsOf(filter, h)|
    decreases |handled|
  {
    var n := |handled| - 1;
    if i < n {
      DeliveryChange(filter, handled[..n], i, h);
      assert handled[i := h][..n] == handled[..n][i := h];
    } else {
      assert handled[i := h][..n] == handled[..n];
    }
  }

  /** A handling in which no block was stored any more. */
  function Unstored(notifications: seq<Notification>): (handled: seq<Handled>)
    ensures |handled| == |notifications|
    ensures forall i | 0 <= i < |handled| :: handled[i] == Handled(notifications[i], None)
  {
    seq(|notifications|, i requires 0 <= i < |notifications| => Handled(notifications[i], None))
  }

  /** Two streams with the same notifications may deliver different logs: for each log of a new block that
      the filter accepts, when one finds the block stored and the other does not. */
  lemma StorageDecides(filter: Filter, notifications: seq<Notification>, i: nat, block: Block, log: RawLog)
    returns (a: seq<Handled>, b: seq<Handled>)
    requires i < |notifications| && notifications[i] == NewBlock(block.hash, block.number)
    requires AddLog(block, log, filter)
    ensures Handles(a, notifications) && Handles(b, notifications)
    ensures Delivery(filter, a) != Delivery(filter, b)
  {
    a := Unstored(notifications);
    assert Notifications(a) == notifications;
    var stored := Stored(block.(transactions := [0]), [[log]]);
    var h := Handled(notifications[i], Some(stored));
    b := a[i := h];
    assert Notifications(b) == notifications;
    OneLog(filter, stored.block, log);
    DeliveryChange(filter, a, i, h);
  }

  lemma OneLog(filter: Filter, block: Block, log: RawLog)
    requires AddLog(block, log, filter)
    ensures |Matching(filter, block, Flatten([[log]]))| == 1
  {
    var receipts := [[log]];
    assert receipts[..0] == [];
    assert Flatten(receipts) == [] + [(0, log)];
    MatchingSnoc(filter, block, [], (0, log));
    assert Described(block, []) == [];
  }

  /** The filter accepts no log of any announced block. */
  ghost predicate AcceptsNoneOf(filter: Filter, notifications: seq<Notification>) {
    forall n | n in notifications && n.NewBlock? :: AcceptsNone(filter, n.hash, n.number)
  }

  /** The notifications alone decide what is delivered exactly when the filter accepts no log of a block of
      the hash and number of any new block among them. */
  lemma DecidesIff(filter: Filter, notifications: seq<Notification>)
    ensures Decides(filter, notifications) <==> AcceptsNoneOf(filter, notifications)
  {
    if AcceptsNoneOf(filter, notifications) {
      forall a, b | Handles(a, notifications) && Handles(b, notifications)
        ensures Delivery(filter, a) == Delivery(filter, b)
      {
        forall i | 0 <= i < |a| ensures LogsOf(filter, a[i]) == LogsOf(filter, b[i]) {
          NotificationAt(a, b, i);
          assert notifications[i] == Notifications(a)[i];
          NoneDelivered(filter, notifications, a[i]);
          NoneDelivered(filter, notifications, b[i]);
        }
        SameLogsSameDelivery(filter, a, b);
      }
    } else {
      var n :| n in notifications && n.NewBlock? && !AcceptsNone(filter, n.hash, n.number);
      var i :| 0 <= i < |notifications| && notifications[i] == n;
      var block: Block, log :| block.hash == n.hash && block.number == n.number && AddLog(block, log, filter);
      var a, b := StorageDecides(filter, notifications, i, block, log);
    }
  }

  lemma NoneDelivered(filter: Filter, notifications: seq<Notification>, h: Handled)
    requires AcceptsNoneOf(filter, notifications) && h.notification in notifications && Answered(h)
    ensures h.notification.NewBlock? ==> LogsOf(filter, h) == []
  {
    if h.notification.NewBlock? && h.stored.Some? {
      KeepsNothing(filter, h.stored.value.block, Flatten(h.stored.value.receipts));
    }
  }

  /** Each notification's logs stand in one piece in the delivery, in the order of arrival. */
  lemma {:induction false} DeliveryOrder(filter: Filter, handled: seq<Handled>, i: nat)
    requires i < |handled|
    ensures Delivery(filter, handled[..i]) + LogsOf(filter, handled[i]) <= Delivery(filter, handled)
    decreases |handled|
  {
    var n := |handled| - 1;
    if i < n {
      DeliveryOrder(filter, handled[..n], i);
      assert handled[..n][..i] == handled[..i];
    } else {
      assert handled[..n] + [handled[n]] == handled;
    }
  }
}
