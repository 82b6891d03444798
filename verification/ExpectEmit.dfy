/**
 The `expectEmit` tracker (crates/cheatcodes/src/expected_emit.rs): a queue of expectations that
 emitted logs fill, count, match and rotate, with the verdicts taken when a call and the root
 call end.

 Entries are values owned by the queue, so the count maps nested in them are replaced rather than
 aliased; the queue itself is the field the tracker's methods reassign.
 */
module ExpectEmit {
  import opened Common

  type Word = nat
  type Address = nat
  /** The EVM's LOG0 to LOG4 give a log at most four topics. */
  type Topics = t: seq<Word> | |t| <= 4 witness []
  /** One flag per topic, and the data flag last. */
  type Checks = c: seq<bool> | |c| == 5 witness [true, true, true, true, true]

  datatype RawLog = RawLog(topics: Topics, data: seq<byte>)
  datatype Log = Log(address: Address, data: RawLog)

  datatype EmitMismatch =
    | LogMismatch(actualLog: RawLog)
    | EmitterMismatch(expected: Address, actual: Address)

  datatype ExpectedEmit = ExpectedEmit(
    depth: nat,
    log: Option<RawLog>,
    checks: Checks,
    address: Option<Address>,
    anonymous: bool,
    found: bool,
    count: nat,
    mismatch: Option<EmitMismatch>)

  /** Compares the number of topics, the checked topics, and the data when its flag is set. */
  predicate ChecksTopicsAndData(checks: Checks, expected: RawLog, log: RawLog) {
    && |log.topics| == |expected.topics|
    && (forall i | 0 <= i < |log.topics| :: checks[i] ==> log.topics[i] == expected.topics[i])
    && (checks[4] ==> expected.data == log.data)
  }

  /** What the checks let through of a log: each topic that is checked, and the data if it is. */
  function Shown(checks: Checks, log: RawLog): (seq<Option<Word>>, Option<seq<byte>>) {
    (seq(|log.topics|, i requires 0 <= i < |log.topics| => if checks[i] then Some(log.topics[i]) else None),
     if checks[4] then Some(log.data) else None)
  }

  /** A log is the expected one exactly when they are equal in all that the checks let through. */
  lemma EqualWhereChecked(checks: Checks, expected: RawLog, log: RawLog)
    ensures ChecksTopicsAndData(checks, expected, log) <==> Shown(checks, expected) == Shown(checks, log)
  {
    var a, b := Shown(checks, expected).0, Shown(checks, log).0;
    if Shown(checks, expected) == Shown(checks, log) {
      assert |a| == |b|;
      forall i | 0 <= i < |log.topics| ensures checks[i] ==> log.topics[i] == expected.topics[i] {
        assert a[i] == b[i];
      }
    }
    if ChecksTopicsAndData(checks, expected, log) {
      assert a == b;
    }
  }

  /** How often each distinct log was emitted by one address. */
  datatype LogCountMap = LogCountMap(checks: Checks, expectedLog: RawLog, counts: map<RawLog, nat>) {

    predicate SatisfiesChecks(log: RawLog) {
      ChecksTopicsAndData(checks, expectedLog, log)
    }

    /** A log already in the map is counted without checking it again. */
    function Insert(log: RawLog): (LogCountMap, bool) {
      if log in counts then (this.(counts := counts[log := counts[log] + 1]), true)
      else if !SatisfiesChecks(log) then (this, false)
      else (this.(counts := counts[log := 1]), true)
    }

    ghost function CountUnchecked(): nat {
      Sum(counts)
    }

    ghost function Count(log: RawLog): nat {
      if SatisfiesChecks(log) then CountUnchecked() else 0
    }

    method ComputeCountUnchecked() returns (total: nat)
      ensures total == CountUnchecked()
    {
      total := 0;
      var rest := counts;
      while rest != map[]
        invariant total + Sum(rest) == Sum(counts)
        decreases |rest|
      {
        var log :| log in rest;
        SumRemove(rest, log);
        total := total + rest[log];
        rest := rest - {log};
      }
    }

    method ComputeCount(log: RawLog) returns (total: nat)
      ensures total == Count(log)
    {
      if !SatisfiesChecks(log) {
        return 0;
      }
      total := ComputeCountUnchecked();
    }
  }

  datatype Entry = Entry(emit: ExpectedEmit, counts: map<Address, LogCountMap>)
  type Queue = seq<Entry>

  datatype Failure = EmittedZeroTimes | UseExpectEmitAnonymous

  // ----- one log -----

  predicate AllFound(q: Queue) {
    forall i | 0 <= i < |q| :: q[i].emit.found
  }

  predicate ShouldFill(q: Queue) {
    exists i | 0 <= i < |q| :: q[i].emit.log.None?
  }

  predicate OnlyZeroCountsLeft(q: Queue) {
    forall i | 0 <= i < |q| :: q[i].emit.found || q[i].emit.count == 0
  }

  /** The log is the one `e` expects, from an emitter it accepts. */
  predicate Matches(e: ExpectedEmit, log: Log) {
    && e.log.Some?
    && ChecksTopicsAndData(e.checks, e.log.value, log.data)
    && (e.address.None? || e.address.value == log.address)
  }

  predicate Forbids(e: ExpectedEmit, log: Log) {
    e.count == 0 && !e.found && Matches(e, log)
  }

  predicate Forbidden(q: Queue, log: Log) {
    exists i | 0 <= i < |q| :: Forbids(q[i].emit, log)
  }

  /** The position of the first matched entry, or the length. */
  function FirstFound(q: Queue): (r: nat)
    ensures r <= |q|
    ensures forall i :: 0 <= i < r ==> !q[i].emit.found
    ensures r < |q| ==> q[r].emit.found
  {
    if q == [] || q[0].emit.found then 0 else 1 + FirstFound(q[1..])
  }

  predicate Pending(e: ExpectedEmit) {
    !e.found && e.count > 0
  }

  /** The position of the first entry that still waits for a log, or the length. */
  function FirstPending(q: Queue): (r: nat)
    ensures r <= |q|
    ensures forall i :: 0 <= i < r ==> !Pending(q[i].emit)
    ensures r < |q| ==> Pending(q[r].emit)
  {
    if q == [] || Pending(q[0].emit) then 0 else 1 + FirstPending(q[1..])
  }

  /** The entry to fill or check: the last one before the matched ones while anything is left to
      fill, otherwise the first one still waiting. */
  function IndexToFillOrCheck(q: Queue): (r: nat)
    ensures q != [] ==> r < |q|
  {
    if ShouldFill(q) then
      (if FirstFound(q) == 0 then 0 else FirstFound(q) - 1)
    else
      (if FirstPending(q) < |q| then FirstPending(q) else 0)
  }

  /** Counts the log for its emitter; a vacant emitter only gets a counter for a matching log. */
  function CountLog(e: Entry, log: Log): Entry
    requires e.emit.log.Some?
  {
    if log.address in e.counts then
      e.(counts := e.counts[log.address := e.counts[log.address].Insert(log.data).0])
    else
      var counter := LogCountMap(e.emit.checks, e.emit.log.value, map[]);
      if counter.SatisfiesChecks(log.data) then
        e.(counts := e.counts[log.address := counter.Insert(log.data).0])
      else
        e
  }

  /** Whether `found` is a possible verdict for the counted entry `e`. For an expectation of any
      emitter the counter consulted is the first matching one in hash order, so any of the
      matching counters may decide. */
  ghost predicate MayDecide(e: Entry, log: Log, found: bool) {
    if !Matches(e.emit, log) then
      !found
    else if e.emit.address.Some? then
      found ==
        (log.address in e.counts && e.counts[log.address].Count(log.data) >= e.emit.count)
    else
      || (exists a | a in e.counts ::
            && e.counts[a].SatisfiesChecks(log.data)
            && found == (e.counts[a].Count(log.data) >= e.emit.count))
      || (!found && forall a | a in e.counts :: !e.counts[a].SatisfiesChecks(log.data))
  }

  function MismatchAfter(e: ExpectedEmit, log: Log): Option<EmitMismatch>
    requires e.log.Some?
  {
    if !ChecksTopicsAndData(e.checks, e.log.value, log.data) then
      Some(LogMismatch(log.data))
    else if e.address.Some? && e.address.value != log.address then
      Some(EmitterMismatch(e.address.value, log.address))
    else
      e.mismatch
  }

  function Examined(e: Entry, log: Log, found: bool): Entry
    requires e.emit.log.Some?
  {
    CountLog(e, log).(emit := e.emit.(found := found, mismatch := MismatchAfter(e.emit, log)))
  }

  function Without(q: Queue, i: nat): (r: Queue)
    requires i < |q|
    ensures |r| == |q| - 1
    ensures forall k | 0 <= k < |r| :: r[k] == if k < i then q[k] else q[k + 1]
  {
    q[..i] + q[i + 1..]
  }

  /** A matched entry goes to the back, an unmatched one to the front. */
  function Requeued(q: Queue, i: nat, log: Log, found: bool): Queue
    requires i < |q| && q[i].emit.log.Some?
  {
    if found then Without(q, i) + [Examined(q[i], log, found)]
    else [Examined(q[i], log, found)] + Without(q, i)
  }

  function Filled(e: Entry, log: Log): Entry {
    e.(emit := e.emit.(log := Some(log.data)))
  }

  /** What observing `log` may do to the queue `q`. */
  ghost predicate Step(q: Queue, log: Log, q': Queue, reason: Option<Failure>) {
    if AllFound(q) then
      q' == q && reason == None
    else if Forbidden(q, log) then
      q' == q && reason == Some(EmittedZeroTimes)
    else if !ShouldFill(q) && OnlyZeroCountsLeft(q) then
      q' == q && reason == None
    else
      var i := IndexToFillOrCheck(q);
      if q[i].emit.log.None? then
        if q[i].emit.anonymous || log.data.topics != [] then
          q' == q[i := Filled(q[i], log)] && reason == None
        else
          q' == Without(q, i) && reason == Some(UseExpectEmitAnonymous)
      else
        reason == None
        && exists found: bool ::
             MayDecide(CountLog(q[i], log), log, found) && q' == Requeued(q, i, log, found)
  }

  /** The log is neither ignored nor forbidden. */
  predicate Considered(q: Queue, log: Log) {
    !AllFound(q) && !Forbidden(q, log) && (ShouldFill(q) || !OnlyZeroCountsLeft(q))
  }

  lemma StepFills(q: Queue, log: Log)
    requires Considered(q, log) && q[IndexToFillOrCheck(q)].emit.log.None?
    ensures var i := IndexToFillOrCheck(q);
      if q[i].emit.anonymous || log.data.topics != [] then Step(q, log, q[i := Filled(q[i], log)], None)
      else Step(q, log, Without(q, i), Some(UseExpectEmitAnonymous))
  {
  }

  lemma StepChecks(q: Queue, log: Log, found: bool)
    requires Considered(q, log)
    requires var e := q[IndexToFillOrCheck(q)]; e.emit.log.Some? && MayDecide(CountLog(e, log), log, found)
    ensures Step(q, log, Requeued(q, IndexToFillOrCheck(q), log, found), None)
  {
  }

  // ----- call end and root end -----

  datatype UnmetEmit =
    | Unmatched(emit: ExpectedEmit)
    | WrongCount(expected: nat, actual: nat)
    | CallFailed

  /** The number of counted logs per emitter that `e` compares with its expected count. */
  ghost function CountsPerEmitter(e: Entry): map<Address, nat> {
    map a | a in e.counts ::
      if e.emit.log.Some? then e.counts[a].Count(e.emit.log.value) else e.counts[a].CountUnchecked()
  }

  ghost function FinalCount(e: Entry): nat {
    match e.emit.address
    case Some(emitter) => if emitter in e.counts then CountsPerEmitter(e)[emitter] else 0
    case None => Sum(CountsPerEmitter(e))
  }

  /** The entries whose count is off, with the count seen. */
  ghost function Miscounts(q: Queue): seq<(ExpectedEmit, nat)> {
    if q == [] then []
    else if FinalCount(q[0]) != q[0].emit.count then [(q[0].emit, FinalCount(q[0]))] + Miscounts(q[1..])
    else Miscounts(q[1..])
  }

  predicate DepthTracked(q: Queue, depth: nat) {
    exists i | 0 <= i < |q| :: q[i].emit.depth == depth
  }

  ghost function CallEndVerdict(q: Queue, succeeded: bool): Option<UnmetEmit> {
    if FirstPending(q) < |q| then Some(Unmatched(q[FirstPending(q)].emit))
    else if Miscounts(q) != [] then
      Some(if succeeded then WrongCount(Miscounts(q)[0].0.count, Miscounts(q)[0].1) else CallFailed)
    else None
  }

  /** The verdict of a call end and the queue it leaves. */
  ghost function CallEnd(q: Queue, depth: nat, isStatic: bool, succeeded: bool): (Option<UnmetEmit>, Queue) {
    if !DepthTracked(q, depth) || isStatic then (None, q)
    else if CallEndVerdict(q, succeeded).Some? then (CallEndVerdict(q, succeeded), q)
    else (None, [])
  }

  datatype RootFailure = NotEmitted | Reverted

  /** The entries that remain once zero-count expectations count as met. */
  function Leftover(q: Queue): Queue {
    if q == [] then []
    else if Pending(q[0].emit) then [q[0]] + Leftover(q[1..])
    else Leftover(q[1..])
  }

  lemma {:induction false} LeftoverAppend(a: Queue, b: Queue)
    ensures Leftover(a + b) == Leftover(a) + Leftover(b)
  {
    if a == [] {
      assert a + b == b;
    } else {
      LeftoverAppend(a[1..], b);
      assert (a + b)[1..] == a[1..] + b;
      Associate([a[0]], Leftover(a[1..]), Leftover(b));
    }
  }

  lemma {:induction false} MiscountsAppend(a: Queue, b: Queue)
    ensures Miscounts(a + b) == Miscounts(a) + Miscounts(b)
  {
    if a == [] {
      assert a + b == b;
    } else {
      MiscountsAppend(a[1..], b);
      assert (a + b)[1..] == a[1..] + b;
      Associate([(a[0].emit, FinalCount(a[0]))], Miscounts(a[1..]), Miscounts(b));
    }
  }

  method ComputeFinalCount(e: Entry) returns (count: nat)
    ensures count == FinalCount(e)
  {
    match e.emit.address {
      case Some(emitter) =>
        if emitter in e.counts {
          count := CountForEmitter(e, emitter);
        } else {
          count := 0;
        }
      case None =>
        count := 0;
        ghost var rest := CountsPerEmitter(e);
        var emitters := e.counts.Keys;
        while emitters != {}
          invariant emitters == rest.Keys && emitters <= e.counts.Keys
          invariant forall a | a in rest :: rest[a] == CountsPerEmitter(e)[a]
          invariant count + Sum(rest) == Sum(CountsPerEmitter(e))
          decreases |emitters|
        {
          var a :| a in emitters;
          var c := CountForEmitter(e, a);
          SumRemove(rest, a);
          count := count + c;
          rest := rest - {a};
          emitters := emitters - {a};
        }
        assert rest == map[];
    }
  }

  method CountForEmitter(e: Entry, a: Address) returns (count: nat)
    requires a in e.counts
    ensures count == CountsPerEmitter(e)[a]
  {
    if e.emit.log.Some? {
      count := e.counts[a].ComputeCount(e.emit.log.value);
    } else {
      count := e.counts[a].ComputeCountUnchecked();
    }
  }

  /** The position at which `expectEmit` inserts a new expectation: before the matched ones. */
  function Declared(q: Queue, emit: ExpectedEmit): Queue {
    q[..FirstFound(q)] + [Entry(emit, map[])] + q[FirstFound(q)..]
  }

  /** A prefilled expectation goes to the very back. */
  function Prefilled(q: Queue, emit: ExpectedEmit): Queue {
    q + [Entry(emit, map[])]
  }

  class Tracker {
    var queue: Queue

    constructor ()
      ensures queue == []
    {
      queue := [];
    }

    /** `expectEmit`: a new expectation has no template yet. */
    method Expect(depth: nat, checks: Checks, address: Option<Address>, anonymous: bool, count: nat)
      modifies this
      ensures queue ==
        Declared(old(queue), ExpectedEmit(depth, None, checks, address, anonymous, false, count, None))
    {
      var emit := ExpectedEmit(depth, None, checks, address, anonymous, false, count, None);
      var pos := FirstFound(queue);
      if pos < |queue| {
        queue := queue[..pos] + [Entry(emit, map[])] + queue[pos..];
      } else {
        queue := queue + [Entry(emit, map[])];
      }
    }

    /** The expectation of a logo-URI update comes with its template. */
    method ExpectLogoUriUpdated(depth: nat, token: Address, template: RawLog)
      modifies this
      ensures queue ==
        Prefilled(
          old(queue),
          ExpectedEmit(
            depth, Some(template), [true, true, false, false, true], Some(token), false, false, 1, None))
    {
      var emit := ExpectedEmit(
        depth, Some(template), [true, true, false, false, true], Some(token), false, false, 1, None);
      queue := queue + [Entry(emit, map[])];
    }

    method ObserveLog(log: Log) returns (reason: Option<Failure>)
      modifies this
      ensures Step(old(queue), log, queue, reason)
    {
      if AllFound(queue) {
        return None;
      }
      var violated := ViolatesZeroCount(log);
      if violated {
        return Some(EmittedZeroTimes);
      }
      var i := IndexToFillOrCheck(queue);
      if !ShouldFill(queue) && OnlyZeroCountsLeft(queue) {
        return None;
      }
      reason := FillOrCheck(i, log);
    }

    method ViolatesZeroCount(log: Log) returns (violated: bool)
      ensures violated == Forbidden(queue, log)
    {
      for k := 0 to |queue|
        invariant forall j | 0 <= j < k :: !Forbids(queue[j].emit, log)
      {
        var emit := queue[k].emit;
        if emit.count == 0 && !emit.found && Matches(emit, log) {
          assert Forbids(queue[k].emit, log);
          return true;
        }
      }
      violated := false;
    }

    /** Takes the entry out, fills it or counts the log for it, and puts it back where it belongs. */
    method FillOrCheck(i: nat, log: Log) returns (reason: Option<Failure>)
      requires Considered(queue, log) && i == IndexToFillOrCheck(queue)
      modifies this
      ensures Step(old(queue), log, queue, reason)
    {
      var entry := queue[i];
      queue := queue[..i] + queue[i + 1..];
      if entry.emit.log.None? {
        StepFills(old(queue), log);
        if entry.emit.anonymous || log.data.topics != [] {
          queue := queue[..i] + [Filled(entry, log)] + queue[i..];
          assert queue == old(queue)[i := Filled(entry, log)];
          return None;
        }
        return Some(UseExpectEmitAnonymous);
      }
      var counted := CountLog(entry, log);
      var found := Decide(counted, log);
      StepChecks(old(queue), log, found);
      entry := counted.(emit := entry.emit.(found := found, mismatch := MismatchAfter(entry.emit, log)));
      if found {
        queue := queue + [entry];
      } else {
        queue := [entry] + queue;
      }
      assert queue == Requeued(old(queue), i, log, found);
      reason := None;
    }

    method CheckCallEmits(depth: nat, isStatic: bool, succeeded: bool) returns (unmet: Option<UnmetEmit>)
      modifies this
      ensures (unmet, queue) == CallEnd(old(queue), depth, isStatic, succeeded)
    {
      var shouldCheck := DepthTracked(queue, depth) && !isStatic;
      if !shouldCheck {
        return None;
      }
      var miscounts: seq<(ExpectedEmit, nat)> := [];
      for k := 0 to |queue|
        invariant queue == old(queue)
        invariant miscounts == Miscounts(queue[..k])
      {
        var count := ComputeFinalCount(queue[k]);
        MiscountsAppend(queue[..k], [queue[k]]);
        assert queue[..k] + [queue[k]] == queue[..k + 1];
        if count != queue[k].emit.count {
          miscounts := miscounts + [(queue[k].emit, count)];
        }
      }
      assert queue[..|queue|] == queue;
      var pending := FirstPending(queue);
      if pending < |queue| {
        return Some(Unmatched(queue[pending].emit));
      }
      if miscounts != [] {
        return Some(if succeeded then WrongCount(miscounts[0].0.count, miscounts[0].1) else CallFailed);
      }
      queue := [];
      unmet := None;
    }

    method FirstUnmetRootEmit(succeeded: bool) returns (failure: Option<RootFailure>)
      modifies this
      ensures queue == Leftover(old(queue))
      ensures failure ==
        if Leftover(old(queue)) == [] then None else if succeeded then Some(NotEmitted) else Some(Reverted)
    {
      var marked: Queue := [];
      for k := 0 to |queue|
        invariant queue == old(queue)
        invariant |marked| == k
        invariant forall j | 0 <= j < k ::
          marked[j] == if Forgiven(queue[j].emit) then queue[j].(emit := queue[j].emit.(found := true)) else queue[j]
      {
        var e := queue[k];
        if Forgiven(e.emit) {
          e := e.(emit := e.emit.(found := true));
        }
        marked := marked + [e];
      }
      var kept: Queue := [];
      for k := 0 to |marked|
        invariant queue == old(queue)
        invariant kept == Leftover(queue[..k])
      {
        LeftoverAppend(queue[..k], [queue[k]]);
        assert queue[..k] + [queue[k]] == queue[..k + 1];
        if !marked[k].emit.found {
          kept := kept + [marked[k]];
        }
      }
      assert queue[..|queue|] == queue;
      queue := kept;
      failure := if kept == [] then None else if succeeded then Some(NotEmitted) else Some(Reverted);
    }
  }

  /** An unmatched zero-count expectation is met at the root end. */
  predicate Forgiven(e: ExpectedEmit) {
    e.count == 0 && !e.found
  }

  method Decide(e: Entry, log: Log) returns (found: bool)
    ensures MayDecide(e, log, found)
  {
    if !Matches(e.emit, log) {
      return false;
    }
    match e.emit.address {
      case Some(emitter) =>
        if emitter in e.counts {
          var c := e.counts[emitter].ComputeCount(log.data);
          found := c >= e.emit.count;
        } else {
          found := false;
        }
      case None =>
        if a :| a in e.counts && e.counts[a].SatisfiesChecks(log.data) {
          var c := e.counts[a].ComputeCount(log.data);
          found := c >= e.emit.count;
        } else {
          found := false;
        }
    }
  }
}
