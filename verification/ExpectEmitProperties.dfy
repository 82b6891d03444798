/**
 What the `expectEmit` tracker keeps over whole runs: the shape of the queue, the declarations, exact
 counts, zero-count expectations, the order in which expectations wait, and the verdicts.
 */
module ExpectEmitProperties {
  import opened Common
  import opened ExpectEmit

  // ----- the invariant of one entry -----

  /** Matching logs counted for the expectation's own emitter. */
  ghost function Seen(e: Entry): nat {
    if e.emit.address.Some? && e.emit.address.value in e.counts
    then e.counts[e.emit.address.value].CountUnchecked()
    else 0
  }

  /** Every counter carries the entry's checks and template, has counted something, and has only
      counted logs that satisfy the checks. */
  ghost predicate CounterOk(emit: ExpectedEmit, counter: LogCountMap) {
    && emit.log.Some?
    && counter.checks == emit.checks
    && counter.expectedLog == emit.log.value
    && counter.CountUnchecked() >= 1
    && forall l | l in counter.counts :: counter.SatisfiesChecks(l)
  }

  ghost predicate CountersOk(e: Entry) {
    forall a | a in e.counts :: CounterOk(e.emit, e.counts[a])
  }

  /** How `found` relates to the counters, by kind of expectation. */
  ghost predicate VerdictOk(e: Entry) {
    if e.emit.count == 0 then
      // A zero-count expectation is never matched and never counts its own log.
      && !e.emit.found
      && (e.emit.address.None? ==> e.counts == map[])
      && (e.emit.address.Some? ==> e.emit.address.value !in e.counts)
    else if e.emit.address.Some? then
      // Matched exactly when the expected number of logs came from the emitter, never more.
      && Seen(e) <= e.emit.count
      && (e.emit.found <==> Seen(e) == e.emit.count)
    else if e.emit.count == 1 then
      && (e.emit.found <==> e.counts != map[])
      && (e.emit.found ==> Sum(CountsPerEmitter(e)) == 1)
    else
      // Whatever the hash order, one single emitter supplied enough logs, and one that was alone in
      // sending them could not have been missed.
      && (e.emit.found ==> exists a | a in e.counts :: e.counts[a].CountUnchecked() >= e.emit.count)
      && (!e.emit.found ==> forall a | a in e.counts && OnlySender(e, a) ::
            e.counts[a].CountUnchecked() < e.emit.count)
  }

  /** Every log counted came from `a`. */
  ghost predicate OnlySender(e: Entry, a: Address) {
    forall b | b in e.counts :: b == a
  }

  ghost predicate EntryOk(e: Entry) {
    && (e.emit.log.None? ==> e.counts == map[] && !e.emit.found)
    && CountersOk(e)
    && VerdictOk(e)
  }

  /** Found entries form a suffix. */
  ghost predicate FoundSuffix(q: Queue) {
    forall i | FirstFound(q) <= i < |q| :: q[i].emit.found
  }

  /** Whatever stands behind a found entry has its template. */
  ghost predicate FilledBehindFound(q: Queue) {
    forall i, j | 0 <= i < j < |q| :: q[i].emit.found ==> q[j].emit.log.Some?
  }

  ghost predicate Invariant(q: Queue) {
    && FilledBehindFound(q)
    && forall i | 0 <= i < |q| :: EntryOk(q[i])
  }

  ghost predicate Fresh(e: Entry) {
    !e.emit.found && e.counts == map[]
  }

  ghost predicate FreshQueue(q: Queue) {
    forall i | 0 <= i < |q| :: Fresh(q[i])
  }

  lemma FreshQueueInvariant(q: Queue)
    requires FreshQueue(q)
    ensures Invariant(q)
  {
  }

  // ----- counting one log -----

  /** A counter grows by one on a log that satisfies its checks and is unchanged otherwise. */
  lemma InsertCounts(emit: ExpectedEmit, counter: LogCountMap, log: RawLog)
    requires CounterOk(emit, counter)
    ensures CounterOk(emit, counter.Insert(log).0)
    ensures counter.Insert(log).0.CountUnchecked() ==
            counter.CountUnchecked() + (if counter.SatisfiesChecks(log) then 1 else 0)
  {
    if log in counter.counts {
      SumUpdate(counter.counts, log, counter.counts[log] + 1);
    } else if counter.SatisfiesChecks(log) {
      SumInsert(counter.counts, log, 1);
    }
  }

  lemma FirstInsertCounts(emit: ExpectedEmit, log: RawLog)
    requires emit.log.Some? && ChecksTopicsAndData(emit.checks, emit.log.value, log)
    ensures var counter := LogCountMap(emit.checks, emit.log.value, map[]).Insert(log).0;
            CounterOk(emit, counter) && counter.CountUnchecked() == 1
  {
    var empty: map<RawLog, nat> := map[];
    SumInsert(empty, log, 1);
  }

  /** Counting touches only the log's emitter, and counts exactly the logs that pass the checks. */
  lemma CountLogCounts(e: Entry, log: Log)
    requires CountersOk(e) && e.emit.log.Some?
    ensures CountLog(e, log).emit == e.emit
    ensures CountersOk(CountLog(e, log))
    ensures forall a | a in e.counts && a != log.address ::
      a in CountLog(e, log).counts && CountLog(e, log).counts[a] == e.counts[a]
    ensures forall a | a in CountLog(e, log).counts && a != log.address :: a in e.counts
    ensures ChecksTopicsAndData(e.emit.checks, e.emit.log.value, log.data) ==>
      && log.address in CountLog(e, log).counts
      && CountLog(e, log).counts[log.address].CountUnchecked() ==
           (if log.address in e.counts then e.counts[log.address].CountUnchecked() else 0) + 1
    ensures !ChecksTopicsAndData(e.emit.checks, e.emit.log.value, log.data) ==>
      CountLog(e, log).counts == e.counts
  {
    if log.address in e.counts {
      InsertCounts(e.emit, e.counts[log.address], log.data);
      if !ChecksTopicsAndData(e.emit.checks, e.emit.log.value, log.data) {
        assert e.counts[log.address := e.counts[log.address]] == e.counts;
      }
    } else if ChecksTopicsAndData(e.emit.checks, e.emit.log.value, log.data) {
      FirstInsertCounts(e.emit, log.data);
    }
  }

  /** Examining a pending entry keeps its invariant, for every way the hash order may fall. */
  lemma ExaminedOk(e: Entry, log: Log, found: bool)
    requires EntryOk(e) && e.emit.log.Some? && !e.emit.found && !Forbids(e.emit, log)
    requires MayDecide(CountLog(e, log), log, found)
    ensures EntryOk(Examined(e, log, found))
  {
    CountLogCounts(e, log);
    var counted := CountLog(e, log);
    var e' := Examined(e, log, found);
    assert e'.counts == counted.counts;
    assert CountersOk(e');
    if e.emit.address.None? && e.emit.count == 1 {
      if Matches(e.emit, log) {
        assert counted.counts.Keys == {log.address};
        OneEmitter(e', log.address);
      }
    }
    if e.emit.address.None? && e.emit.count > 1 && !found {
      forall a | a in e'.counts && OnlySender(e', a) ensures e'.counts[a].CountUnchecked() < e.emit.count {
        LoneSenderShort(e, log, a);
      }
    }
  }

  /** A lone sender that was not found enough is short of the count. */
  lemma LoneSenderShort(e: Entry, log: Log, a: Address)
    requires EntryOk(e) && e.emit.log.Some? && !e.emit.found && e.emit.address.None? && e.emit.count > 1
    requires MayDecide(CountLog(e, log), log, false)
    requires a in CountLog(e, log).counts && forall b | b in CountLog(e, log).counts :: b == a
    ensures CountLog(e, log).counts[a].CountUnchecked() < e.emit.count
  {
    CountLogCounts(e, log);
    if !Matches(e.emit, log) {
      assert OnlySender(e, a);
    } else {
      assert log.address == a;
      assert CountLog(e, log).counts[a].SatisfiesChecks(log.data);
    }
  }

  /** With a single counted emitter, the total is that emitter's count. */
  lemma OneEmitter(e: Entry, a: Address)
    requires CountersOk(e) && e.emit.log.Some? && e.counts.Keys == {a}
    ensures Sum(CountsPerEmitter(e)) == e.counts[a].CountUnchecked()
  {
    var per := CountsPerEmitter(e);
    assert e.counts[a].SatisfiesChecks(e.emit.log.value);
    SumRemove(per, a);
    assert per - {a} == map[];
  }

  /** The exact effect of one log on an emitter-bound expectation: its count grows by one on a
      match, and it is found exactly when the expected count is reached. */
  lemma BoundProgress(e: Entry, log: Log, found: bool)
    requires EntryOk(e) && e.emit.log.Some? && Pending(e.emit) && e.emit.address.Some?
    requires MayDecide(CountLog(e, log), log, found)
    ensures Seen(Examined(e, log, found)) == Seen(e) + (if Matches(e.emit, log) then 1 else 0)
    ensures found <==> Matches(e.emit, log) && Seen(e) + 1 == e.emit.count
  {
    CountLogCounts(e, log);
  }

  /** An expectation of one log from any emitter is found exactly on the first match. */
  lemma AnyEmitterOnce(e: Entry, log: Log, found: bool)
    requires EntryOk(e) && e.emit.log.Some? && !e.emit.found && e.emit.address.None? && e.emit.count == 1
    requires MayDecide(CountLog(e, log), log, found)
    ensures found <==> Matches(e.emit, log)
  {
    CountLogCounts(e, log);
  }

  // ----- one step -----

  /** In an invariant queue with something left, the entry picked exists and is unmatched. */
  lemma PickedIsUnfound(q: Queue)
    requires Invariant(q) && !AllFound(q)
    requires ShouldFill(q) || !OnlyZeroCountsLeft(q)
    ensures var i := IndexToFillOrCheck(q); i < |q| && !q[i].emit.found && (FoundSuffix(q) ==> i < FirstFound(q))
    ensures !ShouldFill(q) ==> IndexToFillOrCheck(q) == FirstPending(q) && Pending(q[FirstPending(q)].emit)
    ensures ShouldFill(q) ==> IndexToFillOrCheck(q) == FirstFound(q) - 1
  {
    if ShouldFill(q) {
      UnfilledBeforeFound(q);
    }
  }

  lemma UnfilledBeforeFound(q: Queue)
    requires Invariant(q) && ShouldFill(q)
    ensures FirstFound(q) > 0
  {
    var u :| 0 <= u < |q| && q[u].emit.log.None?;
    assert EntryOk(q[u]);
    assert q[0].emit.found ==> u > 0;
  }

  /** Observing the log changes nothing. */
  predicate Idle(q: Queue, log: Log) {
    AllFound(q) || Forbidden(q, log) || (!ShouldFill(q) && OnlyZeroCountsLeft(q))
  }

  /** Every log leaves the invariant in place, counts exact and zero-count expectations unmatched,
      and found entries stay a suffix if they are one. */
  lemma StepKeepsInvariant(q: Queue, log: Log, q': Queue, reason: Option<Failure>)
    requires Invariant(q) && Step(q, log, q', reason)
    ensures Invariant(q')
    ensures FoundSuffix(q) ==> FoundSuffix(q')
  {
    if !Idle(q, log) {
      PickedIsUnfound(q);
      var i := IndexToFillOrCheck(q);
      if q[i].emit.log.Some? {
        var found: bool :| MayDecide(CountLog(q[i], log), log, found) && q' == Requeued(q, i, log, found);
        ExaminedOk(q[i], log, found);
        RequeuedKeepsInvariant(q, i, log, found);
        if FoundSuffix(q) {
          RequeuedShape(q, i, log, found);
        }
      } else {
        FillKeepsInvariant(q, i, log);
        if FoundSuffix(q) {
          FilledShape(q, i, log);
          WithoutShape(q, i);
        }
      }
    }
  }

  lemma WithoutKeepsInvariant(q: Queue, i: nat)
    requires Invariant(q) && i < |q|
    ensures Invariant(Without(q, i))
  {
    var rest := Without(q, i);
    forall j, k | 0 <= j < k < |rest| ensures rest[j].emit.found ==> rest[k].emit.log.Some? {
      assert rest[j] == q[if j < i then j else j + 1];
      assert rest[k] == q[if k < i then k else k + 1];
    }
  }

  lemma AppendKeepsInvariant(q: Queue, e: Entry)
    requires Invariant(q) && EntryOk(e) && e.emit.log.Some?
    ensures Invariant(q + [e])
  {
  }

  lemma PrependKeepsInvariant(q: Queue, e: Entry)
    requires Invariant(q) && EntryOk(e) && !e.emit.found
    ensures Invariant([e] + q)
  {
    var q' := [e] + q;
    forall j, k | 0 <= j < k < |q'| ensures q'[j].emit.found ==> q'[k].emit.log.Some? {
      assert j > 0 ==> q'[j] == q[j - 1] && q'[k] == q[k - 1];
    }
  }

  lemma RequeuedKeepsInvariant(q: Queue, i: nat, log: Log, found: bool)
    requires Invariant(q) && i < |q| && q[i].emit.log.Some?
    requires EntryOk(Examined(q[i], log, found))
    ensures Invariant(Requeued(q, i, log, found))
  {
    WithoutKeepsInvariant(q, i);
    if found {
      AppendKeepsInvariant(Without(q, i), Examined(q[i], log, found));
    } else {
      PrependKeepsInvariant(Without(q, i), Examined(q[i], log, found));
    }
  }

  /** A requeued entry keeps the matched suffix, extended at its back if it is now matched. */
  lemma RequeuedShape(q: Queue, i: nat, log: Log, found: bool)
    requires FoundSuffix(q) && i < FirstFound(q) && q[i].emit.log.Some?
    ensures FoundSuffix(Requeued(q, i, log, found))
  {
    WithoutShape(q, i);
    if found {
      AppendFoundShape(Without(q, i), Examined(q[i], log, found));
    } else {
      PrependUnfoundShape(Without(q, i), Examined(q[i], log, found));
    }
  }

  lemma AppendFoundShape(q: Queue, e: Entry)
    requires FoundSuffix(q) && e.emit.found
    ensures FoundSuffix(q + [e])
  {
    FirstFoundIs(q + [e], FirstFound(q));
  }

  lemma PrependUnfoundShape(q: Queue, e: Entry)
    requires FoundSuffix(q) && !e.emit.found
    ensures FoundSuffix([e] + q)
  {
    FirstFoundIs([e] + q, FirstFound(q) + 1);
  }

  lemma WithoutShape(q: Queue, i: nat)
    requires FoundSuffix(q) && i < FirstFound(q)
    ensures var rest := Without(q, i);
      && FirstFound(rest) == FirstFound(q) - 1
      && FoundSuffix(rest)
      && rest[FirstFound(q) - 1..] == q[FirstFound(q)..]
  {
    FirstFoundIs(Without(q, i), FirstFound(q) - 1);
  }

  lemma FilledShape(q: Queue, i: nat, log: Log)
    requires FoundSuffix(q) && i < FirstFound(q)
    ensures FirstFound(q[i := Filled(q[i], log)]) == FirstFound(q)
    ensures FoundSuffix(q[i := Filled(q[i], log)])
  {
    FirstFoundIs(q[i := Filled(q[i], log)], FirstFound(q));
  }

  lemma FilledOk(e: Entry, log: Log)
    requires EntryOk(e) && e.emit.log.None?
    ensures EntryOk(Filled(e, log))
  {
  }

  lemma FillKeepsInvariant(q: Queue, i: nat, log: Log)
    requires Invariant(q) && i < |q| && q[i].emit.log.None?
    ensures Invariant(q[i := Filled(q[i], log)]) && Invariant(Without(q, i))
  {
    WithoutKeepsInvariant(q, i);
    FilledOk(q[i], log);
  }

  // ----- found entries are never examined again -----

  /** The found entries, in order. */
  function FoundOf(q: Queue): Queue {
    if q == [] then []
    else (if q[0].emit.found then [q[0]] else []) + FoundOf(q[1..])
  }

  lemma {:induction false} FoundOfAppend(a: Queue, b: Queue)
    ensures FoundOf(a + b) == FoundOf(a) + FoundOf(b)
  {
    if a == [] {
      assert a + b == b;
    } else {
      FoundOfAppend(a[1..], b);
      assert (a + b)[1..] == a[1..] + b;
      Associate(if a[0].emit.found then [a[0]] else [], FoundOf(a[1..]), FoundOf(b));
    }
  }

  lemma FoundOfOne(e: Entry)
    ensures FoundOf([e]) == if e.emit.found then [e] else []
  {
    assert [e][1..] == [];
  }

  /** Taking an unmatched entry out, or changing it into another unmatched one, leaves the found
      entries as they were. */
  lemma FoundOfAround(q: Queue, i: nat, e: Entry)
    requires i < |q| && !q[i].emit.found && !e.emit.found
    ensures FoundOf(Without(q, i)) == FoundOf(q) == FoundOf(q[i := e])
  {
    var a, b := q[..i], q[i + 1..];
    assert q == a + ([q[i]] + b) && q[i := e] == a + ([e] + b);
    FoundOfAppend(a, b);
    FoundOfAppend(a, [q[i]] + b);
    FoundOfAppend([q[i]], b);
    FoundOfAppend(a, [e] + b);
    FoundOfAppend([e], b);
    FoundOfOne(q[i]);
    FoundOfOne(e);
  }

  /** Found entries are never examined again: they stay as they were, counters included, in order,
      and a newly found one comes last. */
  lemma FoundEntriesFrozen(q: Queue, log: Log, q': Queue, reason: Option<Failure>)
    requires Invariant(q) && Step(q, log, q', reason)
    ensures FoundOf(q) <= FoundOf(q')
  {
    if !Idle(q, log) {
      PickedIsUnfound(q);
      var i := IndexToFillOrCheck(q);
      FoundOfAround(q, i, Filled(q[i], log));
      if q[i].emit.log.Some? {
        var found: bool :| MayDecide(CountLog(q[i], log), log, found) && q' == Requeued(q, i, log, found);
        var e := Examined(q[i], log, found);
        FoundOfOne(e);
        if found {
          FoundOfAppend(Without(q, i), [e]);
        } else {
          FoundOfAppend([e], Without(q, i));
        }
      }
    }
  }

  lemma FirstFoundIs(q: Queue, k: nat)
    requires k <= |q|
    requires forall i | 0 <= i < k :: !q[i].emit.found
    requires k < |q| ==> q[k].emit.found
    ensures FirstFound(q) == k
  {
  }

  // ----- declarations are conserved -----

  /** What the test declared: everything but the progress of matching. */
  datatype Declaration = Declaration(
    depth: nat, log: Option<RawLog>, checks: Checks, address: Option<Address>, anonymous: bool, count: nat)

  function DeclarationOf(e: ExpectedEmit): Declaration {
    Declaration(e.depth, e.log, e.checks, e.address, e.anonymous, e.count)
  }

  function Declarations(q: Queue): seq<Declaration> {
    seq(|q|, i requires 0 <= i < |q| => DeclarationOf(q[i].emit))
  }

  /** Taking one entry out and putting another in, wherever it goes back. */
  lemma DeclarationsAt(q: Queue, i: nat, e: Entry, q': Queue)
    requires i < |q|
    requires q' == q[i := e] || q' == Without(q, i) + [e] || q' == [e] + Without(q, i)
    ensures multiset(Declarations(q')) ==
      multiset(Declarations(q)) - multiset{DeclarationOf(q[i].emit)} + multiset{DeclarationOf(e.emit)}
  {
    DeclarationsWithout(q, i);
    var k := if q' == q[i := e] then i else if q' == Without(q, i) + [e] then |q| - 1 else 0;
    assert q'[k] == e && |q'| == |q|;
    DeclarationsWithout(q', k);
    assert Without(q', k) == Without(q, i);
    assert DeclarationOf(e.emit) in multiset(Declarations(q'));
  }

  lemma DeclarationsWithout(q: Queue, i: nat)
    requires i < |q|
    ensures multiset(Declarations(Without(q, i))) ==
      multiset(Declarations(q)) - multiset{DeclarationOf(q[i].emit)}
    ensures DeclarationOf(q[i].emit) in Declarations(q)
  {
    var all := Declarations(q);
    assert all == all[..i] + [all[i]] + all[i + 1..];
    assert Declarations(Without(q, i)) == all[..i] + all[i + 1..];
  }

  /** The log meets an expectation that still lacks its template. */
  predicate MeetsUnfilled(q: Queue, log: Log) {
    !Idle(q, log) && q[IndexToFillOrCheck(q)].emit.log.None?
  }

  /** A log never loses, duplicates or alters an expectation: every declaration stays as it was, but
      for the one at the index to fill, which gets its template, or is dropped, alone, when an
      anonymous log may not fill it. The reason tells which. */
  lemma StepConservesDeclarations(q: Queue, log: Log, q': Queue, reason: Option<Failure>)
    requires Invariant(q) && Step(q, log, q', reason)
    ensures reason == Some(UseExpectEmitAnonymous) <==>
      MeetsUnfilled(q, log) && !q[IndexToFillOrCheck(q)].emit.anonymous && log.data.topics == []
    ensures reason == Some(EmittedZeroTimes) <==> !AllFound(q) && Forbidden(q, log)
    ensures !MeetsUnfilled(q, log) ==> multiset(Declarations(q')) == multiset(Declarations(q))
    ensures MeetsUnfilled(q, log) ==>
      var d := DeclarationOf(q[IndexToFillOrCheck(q)].emit);
      && d in Declarations(q)
      && multiset(Declarations(q')) ==
           multiset(Declarations(q)) - multiset{d} +
           if reason == None then multiset{d.(log := Some(log.data))} else multiset{}
  {
    if !Idle(q, log) {
      PickedIsUnfound(q);
      var i := IndexToFillOrCheck(q);
      DeclarationsWithout(q, i);
      if q[i].emit.log.None? {
        if reason == None {
          DeclarationsAt(q, i, Filled(q[i], log), q');
        }
      } else {
        var found: bool :| MayDecide(CountLog(q[i], log), log, found) && q' == Requeued(q, i, log, found);
        DeclarationsAt(q, i, Examined(q[i], log, found), q');
      }
    }
  }

  // ----- whole runs -----

  datatype Event =
    | Expect(emit: ExpectedEmit)
    | Prefill(emit: ExpectedEmit)
    | Emit(log: Log)
    | EndCall(depth: nat, isStatic: bool, succeeded: bool)
    | EndRoot

  /** Expectations enter unmatched, through `expectEmit` without a template or pushed back with
      one. */
  ghost predicate Transition(q: Queue, event: Event, q': Queue) {
    match event
    case Expect(emit) => emit.log.None? && !emit.found && q' == Declared(q, emit)
    case Prefill(emit) => emit.log.Some? && !emit.found && q' == Prefilled(q, emit)
    case Emit(log) => exists reason :: Step(q, log, q', reason)
    case EndCall(depth, isStatic, succeeded) => q' == CallEnd(q, depth, isStatic, succeeded).1
    case EndRoot => q' == Leftover(q)
  }

  ghost predicate Reaches(q: Queue, events: seq<Event>, q': Queue)
    decreases |events|
  {
    if events == [] then q' == q
    else exists mid :: Transition(q, events[0], mid) && Reaches(mid, events[1..], q')
  }

  lemma DeclaredBehind(q: Queue, emit: ExpectedEmit)
    requires FilledBehindFound(q) && !emit.found
    ensures FilledBehindFound(Declared(q, emit))
  {
    var d, f := Declared(q, emit), FirstFound(q);
    DeclaredAt(q, emit);
    forall j, k | 0 <= j < k < |d| ensures d[j].emit.found ==> d[k].emit.log.Some? {
      assert j > f ==> d[j] == q[j - 1] && d[k] == q[k - 1];
    }
  }

  lemma DeclaredKeepsInvariant(q: Queue, emit: ExpectedEmit)
    requires Invariant(q) && emit.log.None? && !emit.found
    ensures Invariant(Declared(q, emit))
  {
    DeclaredBehind(q, emit);
    DeclaredAt(q, emit);
    assert EntryOk(Entry(emit, map[]));
  }

  lemma PrefilledKeepsInvariant(q: Queue, emit: ExpectedEmit)
    requires Invariant(q) && emit.log.Some? && !emit.found
    ensures Invariant(Prefilled(q, emit))
  {
    AppendKeepsInvariant(q, Entry(emit, map[]));
  }

  lemma LeftoverKeepsInvariant(q: Queue)
    requires Invariant(q)
    ensures Invariant(Leftover(q))
  {
    RootPassesIff(q);
    var kept := Leftover(q);
    forall i | 0 <= i < |kept| ensures EntryOk(kept[i]) && !kept[i].emit.found {
      assert kept[i] in kept;
    }
  }

  lemma TransitionKeepsInvariant(q: Queue, event: Event, q': Queue)
    requires Invariant(q) && Transition(q, event, q')
    ensures Invariant(q')
  {
    match event {
      case Expect(emit) => DeclaredKeepsInvariant(q, emit);
      case Prefill(emit) => PrefilledKeepsInvariant(q, emit);
      case Emit(log) =>
        var reason :| Step(q, log, q', reason);
        StepKeepsInvariant(q, log, q', reason);
      case EndCall(_, _, _) =>
      case EndRoot => LeftoverKeepsInvariant(q);
    }
  }

  /** In every state of every run the invariant holds. */
  lemma {:induction false} ReachableInvariant(q: Queue, events: seq<Event>, q': Queue)
    requires Invariant(q) && Reaches(q, events, q')
    ensures Invariant(q')
    decreases |events|
  {
    if events != [] {
      var mid :| Transition(q, events[0], mid) && Reaches(mid, events[1..], q');
      TransitionKeepsInvariant(q, events[0], mid);
      ReachableInvariant(mid, events[1..], q');
    }
  }

  lemma {:induction false} ReachesSplit(q: Queue, a: seq<Event>, b: seq<Event>, q': Queue) returns (mid: Queue)
    requires Reaches(q, a + b, q')
    ensures Reaches(q, a, mid) && Reaches(mid, b, q')
    decreases |a|
  {
    if a == [] {
      assert a + b == b;
      mid := q;
    } else {
      assert (a + b)[1..] == a[1..] + b && (a + b)[0] == a[0];
      var next :| Transition(q, a[0], next) && Reaches(next, a[1..] + b, q');
      mid := ReachesSplit(next, a[1..], b, q');
    }
  }

  /** In every reachable state, an emitter-bound expectation is matched exactly when its emitter's
      counter stands at the expected count, and never exceeds it. */
  lemma ExactCounts(events: seq<Event>, q: Queue, i: nat)
    requires Reaches([], events, q) && i < |q|
    requires q[i].emit.address.Some? && q[i].emit.count > 0
    ensures Seen(q[i]) <= q[i].emit.count
    ensures q[i].emit.found <==> Seen(q[i]) == q[i].emit.count
  {
    ReachableInvariant([], events, q);
    assert EntryOk(q[i]);
  }

  /** In every reachable state, the "expected 0 times" failure comes exactly on a log that matches
      a filled zero-count expectation, and leaves the tracker as it was; and no log ever marks such
      an expectation found. */
  lemma ZeroCountSoundness(events: seq<Event>, q: Queue, log: Log, q': Queue, reason: Option<Failure>)
    requires Reaches([], events, q) && Step(q, log, q', reason)
    ensures reason == Some(EmittedZeroTimes) <==>
      exists i | 0 <= i < |q| :: q[i].emit.count == 0 && Matches(q[i].emit, log)
    ensures reason == Some(EmittedZeroTimes) ==> q' == q
    ensures forall i | 0 <= i < |q'| :: q'[i].emit.count == 0 ==> !q'[i].emit.found
  {
    ReachableInvariant([], events, q);
    StepKeepsInvariant(q, log, q', reason);
    forall i | 0 <= i < |q'| ensures q'[i].emit.count == 0 ==> !q'[i].emit.found {
      assert EntryOk(q'[i]);
    }
    forall i | 0 <= i < |q| ensures q[i].emit.count == 0 ==> !q[i].emit.found {
      assert EntryOk(q[i]);
    }
    if i :| 0 <= i < |q| && q[i].emit.count == 0 && Matches(q[i].emit, log) {
      assert Forbids(q[i].emit, log);
      assert !AllFound(q);
    }
  }

  /** Declaring an expectation and emitting its template, on a queue with nothing left to fill,
      appends the filled expectation behind the unmatched ones and changes nothing else. */
  lemma DeclareThenFill(q: Queue, emit: ExpectedEmit, template: Log, q': Queue, reason: Option<Failure>)
    requires Invariant(q) && !ShouldFill(q) && emit.log.None? && !emit.found
    requires emit.anonymous || template.data.topics != []
    requires !Forbidden(q, template)
    requires Step(Declared(q, emit), template, q', reason)
    ensures reason == None
    ensures q' == q[..FirstFound(q)] + [Entry(emit.(log := Some(template.data)), map[])] + q[FirstFound(q)..]
  {
    var d, f := Declared(q, emit), FirstFound(q);
    DeclaredFirstFound(q, emit);
    DeclaredForbids(q, emit, template);
    assert d[f] == Entry(emit, map[]);
    FillStep(d, template, q', reason);
    DeclaredReplaced(q, emit, Filled(d[f], template));
  }

  lemma DeclaredReplaced(q: Queue, emit: ExpectedEmit, e: Entry)
    ensures Declared(q, emit)[FirstFound(q) := e] == q[..FirstFound(q)] + [e] + q[FirstFound(q)..]
  {
  }

  /** While something is left to fill, a log fills the last unmatched expectation. */
  lemma FillStep(q: Queue, log: Log, q': Queue, reason: Option<Failure>)
    requires FirstFound(q) > 0 && q[FirstFound(q) - 1].emit.log.None? && !Forbidden(q, log)
    requires q[FirstFound(q) - 1].emit.anonymous || log.data.topics != []
    requires Step(q, log, q', reason)
    ensures var i := FirstFound(q) - 1; reason == None && q' == q[i := Filled(q[i], log)]
  {
    assert !q[0].emit.found;
    assert ShouldFill(q);
  }

  lemma DeclaredFirstFound(q: Queue, emit: ExpectedEmit)
    requires !emit.found
    ensures FirstFound(Declared(q, emit)) == FirstFound(q) + 1
  {
    DeclaredAt(q, emit);
    FirstFoundIs(Declared(q, emit), FirstFound(q) + 1);
  }

  lemma DeclaredAt(q: Queue, emit: ExpectedEmit)
    ensures var d, f := Declared(q, emit), FirstFound(q);
      && |d| == |q| + 1
      && forall k | 0 <= k < |d| :: d[k] == if k < f then q[k] else if k == f then Entry(emit, map[]) else q[k - 1]
  {
  }

  lemma DeclaredForbids(q: Queue, emit: ExpectedEmit, log: Log)
    requires emit.log.None? && !Forbidden(q, log)
    ensures !Forbidden(Declared(q, emit), log)
  {
    var d, f := Declared(q, emit), FirstFound(q);
    DeclaredAt(q, emit);
    forall k | 0 <= k < |d| ensures !Forbids(d[k].emit, log) {
      assert k < f ==> d[k] == q[k];
      assert k > f ==> d[k] == q[k - 1];
    }
  }

  // ----- the order of expectations -----

  /** The unmatched entries, in the order in which they wait. */
  function UnfoundOf(q: Queue): Queue {
    if q == [] then []
    else (if q[0].emit.found then [] else [q[0]]) + UnfoundOf(q[1..])
  }

  lemma {:induction false} UnfoundOfAppend(a: Queue, b: Queue)
    ensures UnfoundOf(a + b) == UnfoundOf(a) + UnfoundOf(b)
  {
    if a == [] {
      assert a + b == b;
    } else {
      UnfoundOfAppend(a[1..], b);
      assert (a + b)[1..] == a[1..] + b;
      Associate(if a[0].emit.found then [] else [a[0]], UnfoundOf(a[1..]), UnfoundOf(b));
    }
  }

  lemma UnfoundOfOne(e: Entry)
    ensures UnfoundOf([e]) == if e.emit.found then [] else [e]
  {
    assert [e][1..] == [];
  }

  lemma {:induction false} UnfoundOfIn(q: Queue)
    ensures forall e | e in UnfoundOf(q) :: e in q && !e.emit.found
    ensures UnfoundOf(q) == [] <==> AllFound(q)
  {
    if q != [] {
      UnfoundOfIn(q[1..]);
      assert q == [q[0]] + q[1..];
    }
  }

  /** Pushing a prefilled expectation at the back, as the logo-URI cheatcode does, keeps found
      entries a suffix exactly when nothing has been found yet. */
  lemma PushBackKeepsSuffixIff(q: Queue, emit: ExpectedEmit)
    requires FoundSuffix(q) && !emit.found
    ensures FoundSuffix(Prefilled(q, emit)) <==> FirstFound(q) == |q|
  {
    var q' := Prefilled(q, emit);
    if FirstFound(q) < |q| {
      assert q'[FirstFound(q)].emit.found && !q'[|q|].emit.found;
    }
  }

  /** A prefilled expectation always waits behind the others. */
  lemma PrefilledIsLast(q: Queue, emit: ExpectedEmit)
    requires !emit.found
    ensures UnfoundOf(Prefilled(q, emit)) == UnfoundOf(q) + [Entry(emit, map[])]
  {
    UnfoundOfAppend(q, [Entry(emit, map[])]);
    UnfoundOfOne(Entry(emit, map[]));
  }

  /** A newly declared expectation waits before the unmatched ones that stand behind a found one. */
  lemma DeclaredOrder(q: Queue, emit: ExpectedEmit)
    requires !emit.found
    ensures UnfoundOf(q) == UnfoundOf(q[..FirstFound(q)]) + UnfoundOf(q[FirstFound(q)..])
    ensures UnfoundOf(Declared(q, emit)) ==
      UnfoundOf(q[..FirstFound(q)]) + [Entry(emit, map[])] + UnfoundOf(q[FirstFound(q)..])
  {
    var a, e, b := q[..FirstFound(q)], Entry(emit, map[]), q[FirstFound(q)..];
    assert q == a + b;
    UnfoundOfAppend(a, b);
    UnfoundOfAppend(a + [e], b);
    UnfoundOfAppend(a, [e]);
    UnfoundOfOne(e);
  }

  /** Expectations wait in the order of their declaration exactly as long as found entries form a
      suffix: otherwise a new one overtakes the prefilled ones behind them. */
  lemma DeclaredIsLastIff(q: Queue, emit: ExpectedEmit)
    requires Invariant(q) && emit.log.None? && !emit.found
    ensures UnfoundOf(Declared(q, emit)) == UnfoundOf(q) + [Entry(emit, map[])] <==> FoundSuffix(q)
  {
    DeclaredOrder(q, emit);
    var a, b := UnfoundOf(q[..FirstFound(q)]), UnfoundOf(q[FirstFound(q)..]);
    UnfoundOfIn(q[FirstFound(q)..]);
    forall e | e in b ensures e != Entry(emit, map[]) {
      BehindFoundIsFilled(q, e);
    }
    InsertedLastIff(a, Entry(emit, map[]), b);
    SuffixIff(q);
  }

  lemma InsertedLastIff<T>(a: seq<T>, x: T, b: seq<T>)
    requires x !in b
    ensures a + [x] + b == a + b + [x] <==> b == []
  {
    if b != [] {
      assert (a + [x] + b)[|a|] == x && (a + b + [x])[|a|] == b[0];
    }
  }

  lemma SuffixIff(q: Queue)
    ensures FoundSuffix(q) <==> UnfoundOf(q[FirstFound(q)..]) == []
  {
    UnfoundOfIn(q[FirstFound(q)..]);
    FoundFrom(q, FirstFound(q));
  }

  lemma FoundFrom(q: Queue, f: nat)
    requires f <= |q|
    ensures AllFound(q[f..]) <==> forall i | f <= i < |q| :: q[i].emit.found
  {
    assert forall i | f <= i < |q| :: q[f..][i - f] == q[i];
  }

  lemma BehindFoundIsFilled(q: Queue, e: Entry)
    requires Invariant(q) && e in q[FirstFound(q)..] && !e.emit.found
    ensures e.emit.log.Some?
  {
    var f := FirstFound(q);
    var k :| 0 <= k < |q[f..]| && q[f..][k] == e;
    assert q[f].emit.found && q[f + k] == e;
  }

  /** An expectation of one log, met by its own template. */
  lemma MetQueue(met: ExpectedEmit, template: Log) returns (q1: Queue, q2: Queue, e: Entry)
    requires met.log.None? && !met.found && met.count == 1 && met.address.None?
    requires met.anonymous || template.data.topics != []
    ensures e.emit.found && Transition([], Expect(met), q1)
    ensures Transition(q1, Emit(template), q2) && Transition(q2, Emit(template), [e])
  {
    q1, q2 := [Entry(met, map[])], [Entry(met.(log := Some(template.data)), map[])];
    assert EntryOk(q2[0]);
    e := Examined(q2[0], template, true);
    MetAtOnce(q2[0], template);
    assert Without(q2, 0) == [];
    assert Requeued(q2, 0, template, true) == [e];
    assert Step(q1, template, q2, None) && Step(q2, template, [e], None);
  }

  /** The order is lost in a reachable state, after one expectation was met and before another is
      declared: the late one then waits first. */
  lemma PrefilledIsOvertaken(met: ExpectedEmit, template: Log, prefilled: ExpectedEmit, late: ExpectedEmit)
    returns (events: seq<Event>, q: Queue)
    requires met.log.None? && !met.found && met.count == 1 && met.address.None?
    requires met.anonymous || template.data.topics != []
    requires prefilled.log.Some? && !prefilled.found
    requires late.log.None? && !late.found
    ensures events == [Expect(met), Emit(template), Emit(template), Prefill(prefilled)]
    ensures Reaches([], events, q) && !FoundSuffix(q)
    ensures UnfoundOf(q) == [Entry(prefilled, map[])]
    ensures UnfoundOf(Declared(q, late)) == [Entry(late, map[]), Entry(prefilled, map[])]
  {
    events := [Expect(met), Emit(template), Emit(template), Prefill(prefilled)];
    var q1, q2, e := MetQueue(met, template);
    q := Prefilled([e], prefilled);
    assert Transition([e], Prefill(prefilled), q);
    FourTransitions([], events, q1, q2, [e], q);
    assert q == [e, Entry(prefilled, map[])];
    BehindOneFound(e, Entry(prefilled, map[]), late);
  }

  lemma BehindOneFound(e: Entry, waiting: Entry, late: ExpectedEmit)
    requires e.emit.found && !waiting.emit.found && !late.found
    ensures !FoundSuffix([e, waiting]) && UnfoundOf([e, waiting]) == [waiting]
    ensures UnfoundOf(Declared([e, waiting], late)) == [Entry(late, map[]), waiting]
  {
    var q := [e, waiting];
    assert q == [e] + [waiting] && q[..0] == [] && q[0..] == q;
    assert FirstFound(q) == 0;
    UnfoundOfAppend([e], [waiting]);
    UnfoundOfOne(e);
    UnfoundOfOne(waiting);
    DeclaredOrder(q, late);
  }

  lemma MetAtOnce(e: Entry, log: Log)
    requires EntryOk(e) && !e.emit.found && e.counts == map[] && e.emit.address.None? && e.emit.count == 1
    requires e.emit.log == Some(log.data)
    ensures MayDecide(CountLog(e, log), log, true)
  {
    CountLogCounts(e, log);
    assert ChecksTopicsAndData(e.emit.checks, e.emit.log.value, log.data);
    var c := CountLog(e, log);
    assert c.counts[log.address].Count(log.data) >= 1;
  }

  lemma FourTransitions(q: Queue, events: seq<Event>, q1: Queue, q2: Queue, q3: Queue, q4: Queue)
    requires |events| == 4
    requires Transition(q, events[0], q1) && Transition(q1, events[1], q2)
    requires Transition(q2, events[2], q3) && Transition(q3, events[3], q4)
    ensures Reaches(q, events, q4)
  {
    assert events[1..][0] == events[1] && events[1..][1..] == events[2..];
    assert events[2..][0] == events[2] && events[2..][1..] == events[3..];
    assert events[3..][0] == events[3] && events[3..][1..] == [];
    assert Reaches(q4, [], q4);
    assert Reaches(q3, events[3..], q4);
    assert Reaches(q2, events[2..], q4);
    assert Reaches(q1, events[1..], q4);
  }

  // ----- verdicts -----

  /** Expectations whose verdict does not depend on hash order. */
  predicate Deterministic(e: ExpectedEmit) {
    e.address.Some? || e.count <= 1
  }

  ghost predicate AllDeterministic(q: Queue) {
    forall i | 0 <= i < |q| :: Deterministic(q[i].emit)
  }

  /** The final count of an entry whose verdict is settled is the expected count. */
  lemma SettledCount(e: Entry)
    requires EntryOk(e) && Deterministic(e.emit) && !Pending(e.emit)
    ensures FinalCount(e) == e.emit.count
  {
    if e.emit.address.Some? && e.emit.address.value in e.counts {
      assert CounterOk(e.emit, e.counts[e.emit.address.value]);
    }
    if e.counts == map[] {
      assert CountsPerEmitter(e) == map[];
    }
  }

  /** With nothing pending, only expectations of several logs from any emitter are miscounted. */
  lemma {:induction false} OnlyHashOrderMiscounts(q: Queue)
    requires forall i | 0 <= i < |q| :: EntryOk(q[i]) && !Pending(q[i].emit)
    ensures forall m | m in Miscounts(q) :: m.0.address.None? && m.0.count > 1 && MiscountIn(q, m)
  {
    if q != [] {
      if Deterministic(q[0].emit) {
        SettledCount(q[0]);
      }
      OnlyHashOrderMiscounts(q[1..]);
      forall m | m in Miscounts(q) ensures m.0.address.None? && m.0.count > 1 && MiscountIn(q, m) {
        if m in Miscounts(q[1..]) {
          var i :| 0 <= i < |q[1..]| && m == (q[1..][i].emit, FinalCount(q[1..][i]));
          assert m == (q[i + 1].emit, FinalCount(q[i + 1]));
        } else {
          assert m == (q[0].emit, FinalCount(q[0]));
        }
      }
    }
  }

  /** `m` is an entry of the queue with its final count. */
  ghost predicate MiscountIn(q: Queue, m: (ExpectedEmit, nat)) {
    exists i | 0 <= i < |q| :: m == (q[i].emit, FinalCount(q[i]))
  }

  lemma {:induction false} NoMiscounts(q: Queue)
    requires forall i | 0 <= i < |q| :: EntryOk(q[i]) && Deterministic(q[i].emit) && !Pending(q[i].emit)
    ensures Miscounts(q) == []
  {
    if q != [] {
      SettledCount(q[0]);
      NoMiscounts(q[1..]);
    }
  }

  /** In every reachable state, whatever else the queue holds, a checked call end reports the first
      unmatched expectation if there is one; it reports a wrong count only for an expectation of
      several logs from any emitter, never for an emitter-bound one or one of a single log; and it
      clears the tracker otherwise. */
  lemma CallEndVerdicts(events: seq<Event>, q: Queue, depth: nat, succeeded: bool)
    requires Reaches([], events, q) && DepthTracked(q, depth)
    ensures FirstPending(q) < |q| ==>
      CallEnd(q, depth, false, succeeded) == (Some(Unmatched(q[FirstPending(q)].emit)), q)
    ensures FirstPending(q) == |q| ==>
      forall m | m in Miscounts(q) :: m.0.address.None? && m.0.count > 1
    ensures FirstPending(q) == |q| ==>
      if Miscounts(q) == [] then CallEnd(q, depth, false, succeeded) == (None, [])
      else
        var (emit, count) := Miscounts(q)[0];
        CallEnd(q, depth, false, succeeded) ==
          (Some(if succeeded then WrongCount(emit.count, count) else CallFailed), q)
    ensures FirstPending(q) == |q| && AllDeterministic(q) ==> CallEnd(q, depth, false, succeeded) == (None, [])
  {
    ReachableInvariant([], events, q);
    if FirstPending(q) == |q| {
      OnlyHashOrderMiscounts(q);
      if AllDeterministic(q) {
        NoMiscounts(q);
      }
    }
  }

  /** Any expectation, hash order included, that survives a passing call end had every counted log
      from one single emitter. */
  lemma PassingMeansOneEmitter(events: seq<Event>, q: Queue, depth: nat, succeeded: bool, i: nat)
    requires Reaches([], events, q) && DepthTracked(q, depth) && i < |q|
    requires CallEnd(q, depth, false, succeeded) == (None, [])
    requires q[i].emit.address.None? && q[i].emit.count > 0
    ensures exists a :: q[i].counts.Keys == {a} && q[i].counts[a].CountUnchecked() == q[i].emit.count
  {
    ReachableInvariant([], events, q);
    var e := q[i];
    assert EntryOk(e);
    assert !Pending(e.emit);
    NoMiscountAt(q, i);
    assert Sum(CountsPerEmitter(e)) == e.emit.count;
    if e.emit.count == 1 {
      var a :| a in e.counts;
      OnlyEmitter(e, a);
    } else {
      var a :| a in e.counts && e.counts[a].CountUnchecked() >= e.emit.count;
      OnlyEmitter(e, a);
    }
  }

  lemma {:induction false} NoMiscountAt(q: Queue, i: nat)
    requires Miscounts(q) == [] && i < |q|
    ensures FinalCount(q[i]) == q[i].emit.count
  {
    if i > 0 {
      NoMiscountAt(q[1..], i - 1);
    }
  }

  /** A counter that alone reaches the total leaves room for no other. */
  lemma OnlyEmitter(e: Entry, a: Address)
    requires CountersOk(e) && e.emit.log.Some? && a in e.counts
    requires Sum(CountsPerEmitter(e)) <= e.counts[a].CountUnchecked() || Sum(CountsPerEmitter(e)) == 1
    ensures e.counts.Keys == {a} && e.counts[a].CountUnchecked() == Sum(CountsPerEmitter(e))
  {
    var per := CountsPerEmitter(e);
    assert forall b | b in e.counts :: per[b] == e.counts[b].CountUnchecked() && per[b] >= 1;
    SumRemove(per, a);
    forall b | b in e.counts && b != a ensures false {
      SumAtLeast(per - {a}, b);
    }
    OneEmitter(e, a);
  }

  /** The root end passes exactly when nothing that expects a log is left unmatched. */
  lemma {:induction false} RootPassesIff(q: Queue)
    ensures Leftover(q) == [] <==> FirstPending(q) == |q|
    ensures forall e | e in Leftover(q) :: e in q && Pending(e.emit)
  {
    if q != [] {
      RootPassesIff(q[1..]);
    }
  }
}
