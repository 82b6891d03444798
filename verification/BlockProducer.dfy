/**
 Anvil's block producer and the service that drives it (crates/anvil/src/service.rs): at most one
 mining task is in flight, work is selected from the miner only while the producer is idle, and a
 task's outcome arrives between any two polls. Requests to pause, to resume or to switch the mining mode
 reach the miner (crates/anvil/src/eth/miner.rs) at any time and decide whether a task still mines.

 The pool, the miner's choice of transactions and the mining itself are the environment: each poll is
 told what happens meanwhile and what the join handle and the mining mode answer. Ghost state records
 the history; its moments are counted in requests made so far.
 */
module BlockProduction {
  import opened Common

  type TxHash = nat

  datatype Work = Work(transactions: seq<TxHash>, generation: nat, pauseEpoch: nat)

  /** What a mining task sees once it holds the mining lock: the ready transactions, and what mining any of
      them comes to. */
  datatype Observation = Observation(
    pauseEpoch: nat, ready: seq<TxHash>, mined: seq<TxHash> -> Result<nat, string>)

  datatype Production = Mined(blockNumber: nat) | Failed(generation: nat) | Skipped

  predicate IsStale(work: Work, seen: Observation) {
    seen.pauseEpoch != work.pauseEpoch
  }

  /** As many ready transactions as were selected. */
  function Taken(work: Work, seen: Observation): seq<TxHash> {
    if |seen.ready| <= |work.transactions| then seen.ready else seen.ready[..|work.transactions|]
  }

  /** The mining task: skip a stale or emptied candidate, otherwise mine what is ready now. */
  function RunTask(work: Work, seen: Observation): (Result<Option<nat>, string>, nat) {
    if IsStale(work, seen) then (Ok(None), work.generation)
    else if |work.transactions| > 0 && Taken(work, seen) == [] then (Ok(None), work.generation)
    else match seen.mined(Taken(work, seen))
      case Ok(n) => (Ok(Some(n)), work.generation)
      case Err(e) => (Err(e), work.generation)
  }

  /** What a finished task means for the service. */
  function ProductionOf(work: Work, seen: Observation): Production {
    match RunTask(work, seen)
    case (Ok(Some(n)), _) => Mined(n)
    case (Ok(None), _) => Skipped
    case (Err(_), generation) => Failed(generation)
  }

  /** What polling the join handle gives. A task that does not hold the mining lock yet cannot have
      finished. */
  datatype HandleAnswer = StillRunning | Finished | TaskPanicked

  /** What the miner may be asked. */
  datatype Request = Pause(paused: bool) | SwitchMode

  /** What happens elsewhere while the service is polled: a request, or the mining task takes the lock and
      finds transactions that are ready and a result of mining them. */
  datatype Event = Ask(request: Request) | Lock(ready: seq<TxHash>, mined: seq<TxHash> -> Result<nat, string>)

  datatype ProducerPoll = Ready(production: Production) | Pending | Panicked

  // ----- pausing -----

  /** The pause epoch is odd while automatic production is paused, and moves on every change. */
  predicate IsPaused(epoch: nat) {
    epoch % 2 == 1
  }

  /** Whether a request changes the pause state. */
  predicate Toggles(epoch: nat, request: Request) {
    request.Pause? && request.paused != IsPaused(epoch)
  }

  /** The epoch after a series of requests. */
  function EpochAfter(epoch: nat, requests: seq<Request>): nat {
    if requests == [] then epoch
    else
      var before := EpochAfter(epoch, requests[..|requests| - 1]);
      if Toggles(before, requests[|requests| - 1]) then before + 1 else before
  }

  /** Mining is running at first, and then as the last request about it says. */
  predicate Paused(requests: seq<Request>) {
    if requests == [] then false
    else
      var n := |requests| - 1;
      if requests[n].Pause? then requests[n].paused else Paused(requests[..n])
  }

  /** The parity of the epoch tells whether mining is paused. */
  lemma {:induction false} PausedIffOdd(requests: seq<Request>)
    ensures IsPaused(EpochAfter(0, requests)) <==> Paused(requests)
  {
    if requests != [] {
      PausedIffOdd(requests[..|requests| - 1]);
    }
  }

  lemma {:induction false} EpochAppend(epoch: nat, a: seq<Request>, b: seq<Request>)
    ensures EpochAfter(epoch, a + b) == EpochAfter(EpochAfter(epoch, a), b)
  {
    if b == [] {
      assert a + b == a;
    } else {
      var n := |b| - 1;
      EpochAppend(epoch, a, b[..n]);
      assert (a + b)[..|a| + n] == a + b[..n];
    }
  }

  lemma {:induction false} EpochNeverDecreases(epoch: nat, requests: seq<Request>)
    ensures EpochAfter(epoch, requests) >= epoch
  {
    if requests != [] {
      EpochNeverDecreases(epoch, requests[..|requests| - 1]);
    }
  }

  /** A candidate is stale exactly when some request since its selection changed the pause state,
      even if a later one changed it back. */
  lemma {:induction false} StaleIffPauseChanged(epoch: nat, requests: seq<Request>)
    ensures EpochAfter(epoch, requests) == epoch <==>
      forall k | 0 <= k < |requests| :: requests[k].Pause? ==> requests[k].paused == IsPaused(epoch)
  {
    if requests != [] {
      var n := |requests| - 1;
      EpochNeverDecreases(epoch, requests[..n]);
      StaleIffPauseChanged(epoch, requests[..n]);
      assert forall k | 0 <= k < n :: requests[..n][k] == requests[k];
    }
  }

  /** Request `k` changed the pause state or the mode. */
  predicate Changes(requests: seq<Request>, k: nat)
    requires k < |requests|
  {
    requests[k].SwitchMode? || Paused(requests[..k + 1]) != Paused(requests[..k])
  }

  function GenerationAfter(requests: seq<Request>): nat {
    if requests == [] then 0
    else
      var n := |requests| - 1;
      GenerationAfter(requests[..n]) + if Changes(requests, n) then 1 else 0
  }

  /** Nothing changed between two moments. */
  ghost predicate Unchanged(requests: seq<Request>, from: nat, to: nat)
    requires to <= |requests|
  {
    forall k | from <= k < to :: !Changes(requests, k)
  }

  /** The generation moves on exactly the requests that change something. */
  lemma {:induction false} GenerationStaysIff(requests: seq<Request>, from: nat, to: nat)
    requires from <= to <= |requests|
    ensures GenerationAfter(requests[..from]) <= GenerationAfter(requests[..to])
    ensures GenerationAfter(requests[..from]) == GenerationAfter(requests[..to]) <==> Unchanged(requests, from, to)
  {
    if from < to {
      GenerationStaysIff(requests, from, to - 1);
      assert requests[..to][..to - 1] == requests[..to - 1];
      assert Changes(requests[..to], to - 1) <==> Changes(requests, to - 1);
    }
  }

  class Miner {
    var pauseEpoch: nat
    var generation: nat
    /** Every request so far. */
    ghost var requests: seq<Request>

    ghost predicate Valid()
      reads this
    {
      pauseEpoch == EpochAfter(0, requests) && generation == GenerationAfter(requests)
    }

    constructor ()
      ensures Valid() && requests == []
    {
      pauseEpoch, generation, requests := 0, 0, [];
    }

    method SetPaused(paused: bool)
      requires Valid()
      modifies this
      ensures Valid() && requests == old(requests) + [Pause(paused)]
    {
      assert (requests + [Pause(paused)])[..|requests|] == requests;
      PausedIffOdd(requests);
      if paused != IsPaused(pauseEpoch) {
        generation := generation + 1;
        pauseEpoch := pauseEpoch + 1;
      }
      requests := requests + [Pause(paused)];
    }

    method SetMiningMode()
      requires Valid()
      modifies this
      ensures Valid() && requests == old(requests) + [SwitchMode]
    {
      assert (requests + [SwitchMode])[..|requests|] == requests;
      generation := generation + 1;
      requests := requests + [SwitchMode];
    }

    /** Selects what the mining mode has ready, and nothing while paused. */
    method Poll(ready: Option<seq<TxHash>>) returns (work: Option<Work>)
      requires Valid()
      ensures work.Some? ==> ready.Some? && work.value.transactions == ready.value
      ensures work.Some? ==> Selected(Selection(work.value, |requests|), requests)
      ensures work.None? ==> ready.None? || Paused(requests)
    {
      PausedIffOdd(requests);
      if IsPaused(pauseEpoch) {
        return None;
      }
      assert requests[..|requests|] == requests;
      work := if ready.Some? then Some(Work(ready.value, generation, pauseEpoch)) else None;
    }

    /** A failed candidate is still current, and its mode starts over, only if its generation is that of now;
        otherwise what it selected is merely retried. */
    method HandleFailedCandidate(candidate: nat) returns (current: bool)
      requires Valid()
      ensures forall at | 0 <= at <= |requests| && candidate == GenerationAfter(requests[..at]) ::
        current <==> Unchanged(requests, at, |requests|)
    {
      current := generation == candidate;
      forall at | 0 <= at <= |requests| && candidate == GenerationAfter(requests[..at])
        ensures current <==> Unchanged(requests, at, |requests|)
      {
        GenerationStaysIff(requests, at, |requests|);
        assert requests[..|requests|] == requests;
      }
    }
  }

  // ----- the history -----

  /** Work with the moment of its selection. */
  datatype Selection = Selection(work: Work, at: nat)

  /** Settled work with what its task saw, the moment it took the mining lock and that of its settling. */
  datatype Settled = Settled(selection: Selection, seen: Observation, lockedAt: nat, settledAt: nat)

  function Produced(s: Settled): Production {
    ProductionOf(s.selection.work, s.seen)
  }

  /** The work was selected at its moment, while mining was running. */
  ghost predicate Selected(s: Selection, requests: seq<Request>) {
    && s.at <= |requests|
    && s.work.pauseEpoch == EpochAfter(0, requests[..s.at])
    && s.work.generation == GenerationAfter(requests[..s.at])
    && !Paused(requests[..s.at])
  }

  /** The mining task took the lock after its work was selected, and saw the pause epoch of that moment. */
  ghost predicate Witnessed(s: Settled, requests: seq<Request>) {
    && s.selection.at <= s.lockedAt <= s.settledAt <= |requests|
    && s.seen.pauseEpoch == EpochAfter(0, requests[..s.lockedAt])
  }

  ghost predicate AllSelected(accepted: seq<Selection>, requests: seq<Request>) {
    forall i | 0 <= i < |accepted| :: Selected(accepted[i], requests)
  }

  ghost predicate AllWitnessed(settled: seq<Settled>, requests: seq<Request>) {
    forall i | 0 <= i < |settled| :: Witnessed(settled[i], requests)
  }

  lemma StillWitnessed(s: Settled, requests: seq<Request>, request: Request)
    requires Witnessed(s, requests)
    ensures Witnessed(s, requests + [request])
  {
    assert (requests + [request])[..s.lockedAt] == requests[..s.lockedAt];
  }

  /** One more request changes nothing of what happened before it. */
  lemma LaterRequest(accepted: seq<Selection>, settled: seq<Settled>, requests: seq<Request>, request: Request)
    requires AllSelected(accepted, requests) && AllWitnessed(settled, requests)
    ensures AllSelected(accepted, requests + [request]) && AllWitnessed(settled, requests + [request])
  {
    forall i | 0 <= i < |accepted| ensures Selected(accepted[i], requests + [request]) {
      assert Selected(accepted[i], requests);
      assert (requests + [request])[..accepted[i].at] == requests[..accepted[i].at];
    }
    forall i | 0 <= i < |settled| ensures Witnessed(settled[i], requests + [request]) {
      StillWitnessed(settled[i], requests, request);
    }
  }

  /** The requests among the events. */
  ghost function Requests(events: seq<Event>): seq<Request> {
    if events == [] then []
    else
      var last := events[|events| - 1];
      Requests(events[..|events| - 1]) + if last.Ask? then [last.request] else []
  }

  // ----- the producer -----

  class BlockProducer {
    const miner: Miner
    var idleBackend: bool
    var blockMining: Option<Work>
    /** What the mining task in flight saw when it took the mining lock, if it has. */
    var observed: Option<Observation>
    var queued: seq<Work>
    /** Every work item ever queued, and every one settled, in order; and when the mining task took the
        lock. */
    ghost var accepted: seq<Selection>
    ghost var settled: seq<Settled>
    ghost var lockedAt: nat

    /** The work not settled yet: what is being mined or, else, what is queued. */
    function Current(): Option<Work>
      reads this
    {
      if blockMining.Some? then blockMining else if queued != [] then Some(queued[0]) else None
    }

    /** Exactly one of idle backend and in-flight task, and nothing queues behind a task. */
    predicate Exclusive()
      reads this
    {
      && (idleBackend <==> blockMining.None?)
      && (blockMining.Some? ==> queued == [])
      && |queued| <= 1
    }

    /** Every work item accepted so far is settled, in flight or queued, in order, once. */
    ghost predicate Conserved()
      reads this
    {
      && |accepted| == |settled| + (if Current().Some? then 1 else 0)
      && (forall i | 0 <= i < |settled| :: settled[i].selection == accepted[i])
      && (Current().Some? ==> accepted[|settled|].work == Current().value)
    }

    /** The mining task in flight, if it holds the lock, saw what there was. */
    ghost predicate LockWitnessed()
      reads this, miner
    {
      observed.Some? ==>
        && blockMining.Some? && |accepted| > |settled|
        && Witnessed(Settled(accepted[|settled|], observed.value, lockedAt, |miner.requests|), miner.requests)
    }

    ghost predicate Valid()
      reads this, miner
    {
      && miner.Valid() && Exclusive() && Conserved() && LockWitnessed()
      && AllSelected(accepted, miner.requests) && AllWitnessed(settled, miner.requests)
    }

    constructor (miner: Miner)
      requires miner.Valid()
      ensures Valid() && IsIdle() && accepted == [] && settled == [] && this.miner == miner
    {
      this.miner := miner;
      idleBackend, blockMining, observed, queued := true, None, None, [];
      accepted, settled, lockedAt := [], [], 0;
    }

    predicate IsIdle()
      reads this
    {
      idleBackend && blockMining.None? && queued == []
    }

    method Enqueue(work: Work)
      requires Valid() && IsIdle() && Selected(Selection(work, |miner.requests|), miner.requests)
      modifies this
      ensures Valid() && queued == [work] && blockMining == old(blockMining)
      ensures accepted == old(accepted) + [Selection(work, |miner.requests|)] && settled == old(settled)
    {
      queued := queued + [work];
      accepted := accepted + [Selection(work, |miner.requests|)];
    }

    /** One thing that happens elsewhere. A task that takes the lock reads the pause epoch of that moment. */
    method Happen(event: Event)
      requires Valid()
      modifies this`observed, this`lockedAt, miner
      ensures Valid() && Current() == old(Current())
      ensures miner.requests == old(miner.requests) + if event.Ask? then [event.request] else []
      ensures observed == if event.Lock? && blockMining.Some? && old(observed).None?
                          then Some(Observation(miner.pauseEpoch, event.ready, event.mined)) else old(observed)
    {
      match event {
        case Ask(request) =>
          LaterRequest(accepted, settled, miner.requests, request);
          if observed.Some? {
            StillWitnessed(
              Settled(accepted[|settled|], observed.value, lockedAt, |miner.requests|), miner.requests, request);
          }
          match request {
            case Pause(paused) => miner.SetPaused(paused);
            case SwitchMode => miner.SetMiningMode();
          }
        case Lock(ready, mined) =>
          if blockMining.Some? && observed.None? {
            observed := Some(Observation(miner.pauseEpoch, ready, mined));
            lockedAt := |miner.requests|;
            assert miner.requests[..lockedAt] == miner.requests;
            assert Selected(accepted[|settled|], miner.requests);
          }
      }
    }

    method HappenAll(events: seq<Event>)
      requires Valid()
      modifies this`observed, this`lockedAt, miner
      ensures Valid() && Current() == old(Current()) && (old(observed).Some? ==> observed == old(observed))
      ensures miner.requests == old(miner.requests) + Requests(events)
    {
      for i := 0 to |events|
        invariant Valid() && Current() == old(Current()) && (old(observed).Some? ==> observed == old(observed))
        invariant miner.requests == old(miner.requests) + Requests(events[..i])
      {
        Happen(events[i]);
        assert events[..i + 1][..i] == events[..i];
      }
      assert events[..|events|] == events;
    }

    /** Starts a task for queued work, if none is in flight. */
    method Start()
      requires Valid()
      modifies this`idleBackend, this`blockMining, this`queued
      ensures Valid() && queued == [] && Current() == old(Current())
    {
      if queued != [] {
        if idleBackend {
          idleBackend := false;
          blockMining := Some(queued[0]);
          queued := queued[1..];
        }
      }
    }

    /** Asks the mining task in flight, if there is one. */
    method PollHandle(answer: HandleAnswer) returns (r: ProducerPoll)
      requires Valid() && queued == []
      modifies this
      ensures accepted == old(accepted)
      ensures !r.Panicked? ==> Valid() && queued == []
      ensures r.Ready? ==>
        && IsIdle() && answer.Finished?
        && Settles(old(Current()), old(settled), settled, |miner.requests|, r.production)
      ensures !r.Ready? ==> settled == old(settled)
      ensures r.Pending? ==> Current() == old(Current())
      ensures r.Panicked? ==> answer.TaskPanicked?
    {
      if blockMining.None? {
        return Pending;
      }
      var work := blockMining.value;
      blockMining := None;
      if answer.TaskPanicked? {
        return Panicked;
      }
      if answer.StillRunning? || observed.None? {
        blockMining := Some(work);
        return Pending;
      }
      var (result, generation) := RunTask(work, observed.value);
      settled := settled + [Settled(accepted[|settled|], observed.value, lockedAt, |miner.requests|)];
      observed := None;
      idleBackend := true;
      match result {
        case Ok(block) =>
          r := Ready(if block.Some? then Mined(block.value) else Skipped);
        case Err(_) =>
          // the queue is empty already
          queued := [];
          r := Ready(Failed(generation));
      }
    }

    /** One poll, with what happens between the start of a task and the poll of its handle. A ready production
        settles exactly the oldest unsettled work item with what its own task saw and returned, and leaves
        the producer idle: clearing the queue on failure drops nothing, for there is nothing in it. */
    method PollNext(events: seq<Event>, answer: HandleAnswer) returns (r: ProducerPoll)
      requires Valid()
      modifies this, miner
      ensures accepted == old(accepted) && miner.requests == old(miner.requests) + Requests(events)
      ensures !r.Panicked? ==> Valid() && queued == []
      ensures r.Ready? ==>
        && IsIdle() && answer.Finished?
        && Settles(old(Current()), old(settled), settled, |miner.requests|, r.production)
      ensures !r.Ready? ==> settled == old(settled)
      ensures r.Pending? ==> Current() == old(Current())
      ensures r.Panicked? ==> answer.TaskPanicked?
    {
      Start();
      HappenAll(events);
      r := PollHandle(answer);
    }
  }

  /** The unsettled work is settled next, with the production of what its task saw. */
  ghost predicate Settles(
    current: Option<Work>, before: seq<Settled>, after: seq<Settled>, now: nat, production: Production)
  {
    && current.Some?
    && |after| == |before| + 1 && before <= after
    && after[|before|].selection.work == current.value && after[|before|].settledAt == now
    && production == Produced(after[|before|])
  }

  // ----- what becomes of candidates -----

  /** Mining was running all the time from the selection of the work to the moment its task took the
      mining lock. */
  ghost predicate Undisturbed(s: Settled, requests: seq<Request>)
    requires s.lockedAt <= |requests|
  {
    forall t | s.selection.at <= t <= s.lockedAt :: !Paused(requests[..t])
  }

  /** There is something to mine: mining was never paused in between and, unless an empty block was selected,
      some transaction is still ready. */
  ghost predicate Mineable(s: Settled, requests: seq<Request>)
    requires s.lockedAt <= |requests|
  {
    Undisturbed(s, requests) && (s.selection.work.transactions == [] || s.seen.ready != [])
  }

  /** The first ready transactions, as many as were selected or all there are. */
  ghost predicate FirstReady(s: Settled, transactions: seq<TxHash>) {
    && transactions <= s.seen.ready && |transactions| <= |s.selection.work.transactions|
    && (transactions == s.seen.ready || |transactions| == |s.selection.work.transactions|)
  }

  ghost predicate MiningGives(s: Settled, result: Result<nat, string>) {
    exists transactions :: FirstReady(s, transactions) && s.seen.mined(transactions) == result
  }

  /** A candidate is skipped exactly when there is nothing to mine. Otherwise the first ready transactions
      are mined, and it is mined or has failed as that came out, under its own generation. */
  ghost predicate Decided(s: Settled, production: Production, requests: seq<Request>)
    requires s.lockedAt <= |requests|
  {
    match production
    case Skipped => !Mineable(s, requests)
    case Mined(n) => Mineable(s, requests) && MiningGives(s, Ok(n))
    case Failed(generation) =>
      && Mineable(s, requests) && generation == s.selection.work.generation
      && exists e :: MiningGives(s, Err(e))
  }

  lemma OutcomeIff(s: Settled, requests: seq<Request>, production: Production)
    requires Selected(s.selection, requests) && Witnessed(s, requests)
    ensures Produced(s) == production <==> Decided(s, production, requests)
  {
    var t := Taken(s.selection.work, s.seen);
    assert FirstReady(s, t);
    forall t' | FirstReady(s, t') ensures t' == t {
    }
    if Undisturbed(s, requests) {
      StableWhileRunning(requests, s.selection.at, s.lockedAt);
    } else {
      DisturbedIsStale(s, requests);
    }
    match s.seen.mined(t) {
      case Ok(n) => assert MiningGives(s, Ok(n));
      case Err(e) => assert MiningGives(s, Err(e));
    }
  }

  lemma DisturbedIsStale(s: Settled, requests: seq<Request>)
    requires Selected(s.selection, requests) && Witnessed(s, requests) && !Undisturbed(s, requests)
    ensures s.seen.pauseEpoch != s.selection.work.pauseEpoch
  {
    var from, to := s.selection.at, s.lockedAt;
    var epoch, between := s.selection.work.pauseEpoch, requests[from..to];
    assert requests[..from] + between == requests[..to];
    EpochAppend(0, requests[..from], between);
    StaleIffPauseChanged(epoch, between);
    var t :| from <= t <= to && Paused(requests[..t]);
    PausedIffOdd(requests[..from]);
    PausedIffOdd(requests[..t]);
    assert requests[..from] + between[..t - from] == requests[..t];
    EpochAppend(0, requests[..from], between[..t - from]);
    StaleIffPauseChanged(epoch, between[..t - from]);
  }

  lemma {:induction false} StableWhileRunning(requests: seq<Request>, from: nat, to: nat)
    requires from <= to <= |requests|
    requires forall t | from <= t <= to :: !Paused(requests[..t])
    ensures EpochAfter(0, requests[..to]) == EpochAfter(0, requests[..from])
  {
    if from < to {
      StableWhileRunning(requests, from, to - 1);
      assert requests[..to][..to - 1] == requests[..to - 1];
      assert !Paused(requests[..to]) && !Paused(requests[..to - 1]);
      PausedIffOdd(requests[..to]);
      PausedIffOdd(requests[..to - 1]);
    }
  }

  /** Every settled candidate came out as it should. */
  ghost predicate AllDecided(settled: seq<Settled>, requests: seq<Request>) {
    forall i | 0 <= i < |settled| ::
      settled[i].lockedAt <= |requests| && Decided(settled[i], Produced(settled[i]), requests)
  }

  lemma OutcomesRight(accepted: seq<Selection>, settled: seq<Settled>, requests: seq<Request>)
    requires |settled| <= |accepted| && forall i | 0 <= i < |settled| :: settled[i].selection == accepted[i]
    requires AllSelected(accepted, requests) && AllWitnessed(settled, requests)
    ensures AllDecided(settled, requests)
  {
    forall i | 0 <= i < |settled|
      ensures settled[i].lockedAt <= |requests| && Decided(settled[i], Produced(settled[i]), requests)
    {
      assert Selected(accepted[i], requests) && Witnessed(settled[i], requests);
      OutcomeIff(settled[i], requests, Produced(settled[i]));
    }
  }

  // ----- which failures are reported -----

  /** A failed candidate as handed to the miner, and whether it was still current. */
  datatype Report = Report(generation: nat, current: bool)

  ghost predicate Erred(s: Settled, requests: seq<Request>)
    requires s.lockedAt <= |requests|
  {
    Mineable(s, requests) && exists e :: MiningGives(s, Err(e))
  }

  /** The report a settled candidate calls for, if any: when there was something to mine and mining it erred;
      current if nothing changed since its selection. */
  ghost function ReportOf(s: Settled, requests: seq<Request>): seq<Report>
    requires s.lockedAt <= |requests| && s.settledAt <= |requests|
  {
    if Erred(s, requests)
    then [Report(s.selection.work.generation, Unchanged(requests, s.selection.at, s.settledAt))]
    else []
  }

  ghost function ReportsOf(settled: seq<Settled>, requests: seq<Request>): seq<Report>
    requires AllWitnessed(settled, requests)
  {
    if settled == [] then []
    else
      var n := |settled| - 1;
      ReportsOf(settled[..n], requests) + ReportOf(settled[n], requests)
  }

  lemma ReportStays(s: Settled, requests: seq<Request>, more: seq<Request>)
    requires s.selection.at <= s.lockedAt <= s.settledAt <= |requests|
    ensures ReportOf(s, requests + more) == ReportOf(s, requests)
  {
    forall t | 0 <= t <= |requests| ensures (requests + more)[..t] == requests[..t] {
    }
    assert Undisturbed(s, requests + more) <==> Undisturbed(s, requests);
    assert forall k | 0 <= k < |requests| :: Changes(requests + more, k) <==> Changes(requests, k);
  }

  lemma {:induction false} ReportsStay(settled: seq<Settled>, requests: seq<Request>, more: seq<Request>)
    requires AllWitnessed(settled, requests) && AllWitnessed(settled, requests + more)
    ensures ReportsOf(settled, requests + more) == ReportsOf(settled, requests)
  {
    if settled != [] {
      var n := |settled| - 1;
      ReportsStay(settled[..n], requests, more);
      assert Witnessed(settled[n], requests);
      ReportStays(settled[n], requests, more);
    }
  }

  lemma ReportsSnoc(settled: seq<Settled>, s: Settled, requests: seq<Request>)
    requires AllWitnessed(settled, requests) && Witnessed(s, requests)
    ensures AllWitnessed(settled + [s], requests)
    ensures ReportsOf(settled + [s], requests) == ReportsOf(settled, requests) + ReportOf(s, requests)
  {
    assert (settled + [s])[..|settled|] == settled;
  }

  /** A failure is what calls for a report. */
  lemma FailedIffErred(s: Settled, requests: seq<Request>)
    requires Selected(s.selection, requests) && Witnessed(s, requests)
    ensures Produced(s).Failed? <==> Erred(s, requests)
    ensures Produced(s).Failed? ==> Produced(s).generation == s.selection.work.generation
  {
    OutcomeIff(s, requests, Produced(s));
    OutcomeIff(s, requests, Failed(s.selection.work.generation));
  }

  // ----- the service -----

  function Batch(events: seq<seq<Event>>, k: nat): seq<Event> {
    if k < |events| then events[k] else []
  }

  class NodeService {
    const miner: Miner
    const producer: BlockProducer
    /** The failed candidates handed to `Miner::handle_failed_candidate`. */
    var reported: seq<Report>
    var dead: bool

    /** What holds at any moment of a poll: the reports so far are exactly those called for, in order. */
    ghost predicate Running()
      reads this, producer, miner
    {
      && !dead && producer.miner == miner && producer.Valid()
      && reported == ReportsOf(producer.settled, miner.requests)
    }

    /** Between polls, moreover, nothing is queued. */
    ghost predicate Valid()
      reads this, producer, miner
    {
      !dead ==> Running() && producer.queued == []
    }

    constructor ()
      ensures Valid() && !dead && fresh(producer) && fresh(miner)
      ensures producer.accepted == [] && producer.settled == [] && miner.requests == []
    {
      var m := new Miner();
      miner := m;
      producer := new BlockProducer(m);
      reported := [];
      dead := false;
    }

    static lemma ReportsStayAfter(
      before: seq<Settled>, after: seq<Settled>, asked: seq<Request>, requests: seq<Request>)
      requires before <= after && asked <= requests
      requires AllWitnessed(before, asked) && AllWitnessed(after, requests)
      ensures AllWitnessed(before, requests) && ReportsOf(before, requests) == ReportsOf(before, asked)
    {
      forall i | 0 <= i < |before| ensures Witnessed(before[i], requests) {
        assert after[i] == before[i];
      }
      assert asked + requests[|asked|..] == requests;
      ReportsStay(before, asked, requests[|asked|..]);
    }

    /** One poll of the producer; a failure is reported to the miner. */
    method PollProducer(events: seq<Event>, answer: HandleAnswer) returns (r: ProducerPoll)
      requires Running()
      modifies this, producer, miner
      ensures producer.accepted == old(producer.accepted) && old(miner.requests) <= miner.requests
      ensures r.Ready? ==> Running() && producer.IsIdle() && old(producer.Current()).Some?
      ensures r.Pending? ==> Running() && producer.queued == []
      ensures r.Panicked? <==> dead
      ensures old(producer.settled) <= producer.settled
      ensures |producer.settled| == |old(producer.settled)| + if r.Ready? then 1 else 0
    {
      ghost var before, asked := producer.settled, miner.requests;
      r := producer.PollNext(events, answer);
      if r.Ready? {
        ReportsStayAfter(before, producer.settled, asked, miner.requests);
        HandOver(before, r.production);
      } else if r.Pending? {
        ReportsStayAfter(before, producer.settled, asked, miner.requests);
      } else {
        dead := true;
      }
    }

    /** Reports a production that failed. */
    method HandOver(ghost before: seq<Settled>, production: Production)
      requires !dead && producer.miner == miner && producer.Valid() && AllWitnessed(before, miner.requests)
      requires reported == ReportsOf(before, miner.requests)
      requires |producer.settled| == |before| + 1 && before <= producer.settled
      requires production == Produced(producer.settled[|before|])
      requires producer.settled[|before|].settledAt == |miner.requests|
      modifies this`reported
      ensures Running()
    {
      ghost var s := producer.settled[|before|];
      assert producer.settled == before + [s];
      assert Selected(producer.accepted[|before|], miner.requests) && Witnessed(s, miner.requests);
      ReportsSnoc(before, s, miner.requests);
      FailedIffErred(s, miner.requests);
      if production.Failed? {
        var current := miner.HandleFailedCandidate(production.generation);
        reported := reported + [Report(production.generation, current)];
      }
    }

    /** Advances block production until it is pending or a candidate failed, using up one handle answer
        and one batch of events per poll, from `h` on: all polls but a last one that is pending settle a
        candidate. */
    method Advance(handles: seq<HandleAnswer>, events: seq<seq<Event>>, h: nat)
      returns (h': nat, last: ProducerPoll)
      requires Running()
      modifies this, producer, miner
      ensures producer.accepted == old(producer.accepted)
      ensures old(producer.settled) <= producer.settled && old(miner.requests) <= miner.requests
      ensures !dead ==> Running() && producer.queued == []
      ensures last.Pending? || last.Panicked? || (last.Ready? && last.production.Failed?)
      ensures last.Panicked? <==> dead
      ensures h < h'
      ensures |producer.settled| - |old(producer.settled)| == h' - h - if last.Ready? then 0 else 1
    {
      h' := h;
      while true
        invariant h <= h' && Running()
        invariant producer.accepted == old(producer.accepted)
        invariant old(producer.settled) <= producer.settled && old(miner.requests) <= miner.requests
        invariant |producer.settled| - |old(producer.settled)| == h' - h
        decreases if producer.Current().Some? then 1 else 0
      {
        last := PollProducer(Batch(events, h'), if h' < |handles| then handles[h'] else StillRunning);
        h' := h' + 1;
        if !last.Ready? || last.production.Failed? {
          return;
        }
      }
    }

    /** One poll of the service, against what its environment does along the way: `handles` to successive
        polls of the join handle, `selections` to successive polls of the mining mode, `events` and
        `lateEvents` before the one and the other; past the end of any, nothing happens. Works are
        selected in order, each settled at most once and as it should be, and the miner hears of exactly
        the candidates that could be mined and whose mining erred. */
    method Poll(handles: seq<HandleAnswer>, selections: seq<Option<seq<TxHash>>>, events: seq<seq<Event>>,
                lateEvents: seq<seq<Event>>)
      returns (taken: nat)
      requires Valid() && !dead
      modifies this, producer, miner
      ensures Valid()
      ensures Took(old(producer.accepted), producer.accepted, selections, taken)
      ensures old(producer.settled) <= producer.settled && old(miner.requests) <= miner.requests
      // Work is left with the miner only because a task is in flight, mining is paused or there was none.
      ensures !dead && producer.IsIdle() ==>
        taken == |selections| || selections[taken].None? || Paused(miner.requests)
      ensures !dead ==> AllDecided(producer.settled, miner.requests)
      ensures !dead ==> reported == ReportsOf(producer.settled, miner.requests)
    {
      var h := 0;
      taken := 0;
      while true
        invariant Running()
        invariant Took(old(producer.accepted), producer.accepted, selections, taken)
        invariant old(producer.settled) <= producer.settled && old(miner.requests) <= miner.requests
        decreases |selections| - taken
      {
        ghost var before := producer.accepted;
        var ready := if taken < |selections| then selections[taken] else None;
        var selected;
        h, selected := Round(handles, events, h, Batch(lateEvents, taken), ready);
        if !selected {
          return;
        }
        TookOneMore(old(producer.accepted), before, producer.accepted, selections, taken);
        taken := taken + 1;
      }
    }

    /** Advances block production, then selects. With a task in flight, what is ready is left with the miner. */
    method Round(handles: seq<HandleAnswer>, events: seq<seq<Event>>, h: nat, late: seq<Event>,
                 ready: Option<seq<TxHash>>) returns (h': nat, selected: bool)
      requires Running()
      modifies this, producer, miner
      ensures old(producer.settled) <= producer.settled && old(miner.requests) <= miner.requests
      ensures !dead ==> Running() && AllDecided(producer.settled, miner.requests)
      ensures selected ==>
        && !dead
        && |producer.accepted| == |old(producer.accepted)| + 1
        && old(producer.accepted) <= producer.accepted
        && ready == Some(producer.accepted[|old(producer.accepted)|].work.transactions)
      ensures !selected ==> producer.accepted == old(producer.accepted) && (!dead ==> producer.queued == [])
      ensures !selected && !dead && producer.IsIdle() ==> ready.None? || Paused(miner.requests)
    {
      var last;
      h', last := Advance(handles, events, h);
      selected := false;
      if dead {
        return;
      }
      if producer.IsIdle() {
        selected := Feed(late, ready);
      }
      OutcomesRight(producer.accepted, producer.settled, miner.requests);
    }

    method Feed(events: seq<Event>, ready: Option<seq<TxHash>>) returns (selected: bool)
      requires Running() && producer.IsIdle()
      modifies producer, miner
      ensures Running() && producer.settled == old(producer.settled) && old(miner.requests) <= miner.requests
      ensures selected ==>
        && |producer.accepted| == |old(producer.accepted)| + 1
        && old(producer.accepted) <= producer.accepted
        && ready == Some(producer.accepted[|old(producer.accepted)|].work.transactions)
      ensures !selected ==> producer.accepted == old(producer.accepted) && producer.IsIdle()
      ensures !selected ==> ready.None? || Paused(miner.requests)
    {
      ghost var asked := miner.requests;
      producer.HappenAll(events);
      ReportsStayAfter(producer.settled, producer.settled, asked, miner.requests);
      selected := Select(ready);
    }

    /** Hands the miner's work to an idle producer, if there is any. */
    method Select(ready: Option<seq<TxHash>>) returns (selected: bool)
      requires Running() && producer.IsIdle()
      modifies producer
      ensures Running() && producer.settled == old(producer.settled)
      ensures selected ==>
        && |producer.accepted| == |old(producer.accepted)| + 1
        && old(producer.accepted) <= producer.accepted
        && ready == Some(producer.accepted[|old(producer.accepted)|].work.transactions)
      ensures !selected ==> producer.accepted == old(producer.accepted) && producer.IsIdle()
      ensures !selected ==> ready.None? || Paused(miner.requests)
    {
      var work := miner.Poll(ready);
      selected := work.Some?;
      if selected {
        producer.Enqueue(work.value);
      }
    }
  }

  /** The first `taken` selections were accepted, in order, and nothing else. */
  ghost predicate Took(
    before: seq<Selection>, after: seq<Selection>, selections: seq<Option<seq<TxHash>>>, taken: nat)
  {
    && taken <= |selections| && |after| == |before| + taken && before <= after
    && forall i | 0 <= i < taken :: selections[i] == Some(after[|before| + i].work.transactions)
  }

  lemma TookOneMore(
    before: seq<Selection>, mid: seq<Selection>, after: seq<Selection>, selections: seq<Option<seq<TxHash>>>,
    taken: nat)
    requires Took(before, mid, selections, taken) && taken < |selections|
    requires |after| == |mid| + 1 && mid <= after && selections[taken] == Some(after[|mid|].work.transactions)
    ensures Took(before, after, selections, taken + 1)
  {
    assert forall i | 0 <= i < |mid| :: after[i] == mid[i];
  }
}
