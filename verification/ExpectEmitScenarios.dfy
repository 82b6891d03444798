/**
 What a whole `expectEmit` test comes to, in terms of the logs it emits: which logs are the expected ones,
 which calls decide, and what a failure reports.
 */
module ExpectEmitScenarios {
  import opened Common
  import opened ExpectEmit
  import opened ExpectEmitProperties
  import opened ExpectEmitMatching
  import opened ExpectEmitTurns

  // ----- which logs are the expected ones -----

  /** The log equals the template in all that the checks let through. */
  predicate Alike(e: ExpectedEmit, log: Log)
    requires e.log.Some?
  {
    Shown(e.checks, e.log.value) == Shown(e.checks, log.data)
  }

  predicate Welcome(e: ExpectedEmit, log: Log)
    requires e.log.Some?
  {
    Alike(e, log) && (e.address.Some? ==> e.address.value == log.address)
  }

  lemma MatchesIff(e: ExpectedEmit, log: Log)
    requires e.log.Some?
    ensures Matches(e, log) <==> Welcome(e, log)
  {
    EqualWhereChecked(e.checks, e.log.value, log.data);
  }

  function CountWelcome(e: ExpectedEmit, logs: seq<Log>): nat
    requires e.log.Some?
  {
    if logs == [] then 0 else (if Welcome(e, logs[0]) then 1 else 0) + CountWelcome(e, logs[1..])
  }

  lemma {:induction false} EnoughWelcome(e: ExpectedEmit, n: nat, logs: seq<Log>)
    requires e.log.Some?
    ensures TakeMatches(e, n, logs).Some? <==> CountWelcome(e, logs) >= n
    decreases |logs|
  {
    if n > 0 && logs != [] {
      MatchesIff(e, logs[0]);
      EnoughWelcome(e, n, logs[1..]);
      EnoughWelcome(e, n - 1, logs[1..]);
    }
  }

  /** With everything checked, the expected log is the template from the given emitter and no other. */
  lemma OnlyThatLog(e: ExpectedEmit, log: Log)
    requires e.log.Some? && e.address.Some? && e.checks == [true, true, true, true, true]
    ensures Welcome(e, log) <==> log == Log(e.address.value, e.log.value)
  {
    if Alike(e, log) {
      EqualWhereChecked(e.checks, e.log.value, log.data);
      assert log.data.topics == e.log.value.topics;
    }
  }

  lemma {:induction false} CountThatLog(e: ExpectedEmit, logs: seq<Log>)
    requires e.log.Some? && e.address.Some? && e.checks == [true, true, true, true, true]
    ensures CountWelcome(e, logs) == multiset(logs)[Log(e.address.value, e.log.value)]
  {
    if logs != [] {
      OnlyThatLog(e, logs[0]);
      CountThatLog(e, logs[1..]);
      assert logs == [logs[0]] + logs[1..];
    }
  }

  /** One expectation of a given emitter: the call passes if and only if that emitter sends at least the
      expected number of logs that equal the template where it is checked; with everything checked, if
      and only if the trace holds that very log so many times. */
  lemma GivenEmitterPassesIff(e: ExpectedEmit, logs: seq<Log>, q': Queue, succeeded: bool)
    requires e.log.Some? && !e.found && e.address.Some? && Observes([Entry(e, map[])], logs, q')
    ensures CallEnd(q', e.depth, false, succeeded) == (None, []) <==> CountWelcome(e, logs) >= e.count
    ensures e.checks == [true, true, true, true, true] ==>
      (CallEnd(q', e.depth, false, succeeded) == (None, []) <==>
         multiset(logs)[Log(e.address.value, e.log.value)] >= e.count)
  {
    var q := [Entry(e, map[])];
    assert q[0].emit.depth == e.depth && Expected(q) == [e] && [e][1..] == [];
    CallPassesIff(q, logs, q', e.depth, succeeded);
    if e.count > 0 {
      forall log ensures !Forbidden(q, log) {
      }
      AllPermitted(q, logs);
      EnoughWelcome(e, e.count, logs);
    }
    if e.checks == [true, true, true, true, true] {
      CountThatLog(e, logs);
    }
  }

  // ----- which calls decide -----

  /** A call end changes the queue only at a tracked depth, not static, with nothing left over and no count
      off, and then clears it; and it reports a failure only at a tracked depth, not static. */
  lemma CallEndClearsIff(q: Queue, depth: nat, isStatic: bool, succeeded: bool)
    ensures var (unmet, q') := CallEnd(q, depth, isStatic, succeeded);
      && (q' == [] || q' == q)
      && (unmet.Some? ==> q' == q && DepthTracked(q, depth) && !isStatic)
      && (q' != q <==>
            && DepthTracked(q, depth) && !isStatic
            && Leftover(q) == [] && (forall e | e in q :: FinalCount(e) == e.emit.count))
  {
    RootPassesIff(q);
    NoMiscounts(q);
  }

  lemma {:induction false} NoMiscounts(q: Queue)
    ensures Miscounts(q) == [] <==> forall e | e in q :: FinalCount(e) == e.emit.count
  {
    if q != [] {
      NoMiscounts(q[1..]);
      assert forall e :: e in q <==> e == q[0] || e in q[1..];
    }
  }

  ghost predicate DepthsWithin(q: Queue, depths: set<nat>) {
    forall i | 0 <= i < |q| :: q[i].emit.depth in depths
  }

  /** The end of a call that no expectation of these depths is about: at another depth, or static. */
  predicate Bystander(event: Event, depths: set<nat>) {
    event.EndCall? && (event.isStatic || event.depth !in depths)
  }

  function Decisive(events: seq<Event>, depths: set<nat>): seq<Event> {
    if events == [] then []
    else if Bystander(events[0], depths) then Decisive(events[1..], depths)
    else [events[0]] + Decisive(events[1..], depths)
  }

  ghost predicate DeclaredWithin(events: seq<Event>, depths: set<nat>) {
    forall i | 0 <= i < |events| :: events[i].Expect? || events[i].Prefill? ==> events[i].emit.depth in depths
  }

  lemma BystanderChangesNothing(q: Queue, event: Event, q': Queue, depths: set<nat>)
    requires DepthsWithin(q, depths) && Bystander(event, depths) && Transition(q, event, q')
    ensures q' == q
  {
    CallEndClearsIff(q, event.depth, event.isStatic, event.succeeded);
  }

  lemma StepKeepsDepths(q: Queue, log: Log, q': Queue, reason: Option<Failure>, depths: set<nat>)
    requires DepthsWithin(q, depths) && Step(q, log, q', reason)
    ensures DepthsWithin(q', depths)
  {
  }

  lemma TransitionKeepsDepths(q: Queue, event: Event, q': Queue, depths: set<nat>)
    requires DepthsWithin(q, depths) && Transition(q, event, q')
    requires event.Expect? || event.Prefill? ==> event.emit.depth in depths
    ensures DepthsWithin(q', depths)
  {
    match event {
      case Expect(emit) => DeclaredAt(q, emit);
      case Prefill(emit) =>
      case Emit(log) =>
        var reason :| Step(q, log, q', reason);
        StepKeepsDepths(q, log, q', reason, depths);
      case EndCall(_, _, _) =>
      case EndRoot =>
        RootPassesIff(q);
        forall i | 0 <= i < |q'| ensures q'[i].emit.depth in depths {
          assert q'[i] in q';
        }
    }
  }

  /** Taking out the ends of such calls leaves a run to the same state. */
  lemma {:induction false} BystandersTakenOut(q: Queue, events: seq<Event>, q': Queue, depths: set<nat>)
    requires DepthsWithin(q, depths) && DeclaredWithin(events, depths) && Reaches(q, events, q')
    ensures Reaches(q, Decisive(events, depths), q')
    decreases |events|
  {
    if events != [] {
      var mid :| Transition(q, events[0], mid) && Reaches(mid, events[1..], q');
      TransitionKeepsDepths(q, events[0], mid, depths);
      BystandersTakenOut(mid, events[1..], q', depths);
      if Bystander(events[0], depths) {
        BystanderChangesNothing(q, events[0], mid, depths);
      } else {
        var rest := Decisive(events[1..], depths);
        assert ([events[0]] + rest)[1..] == rest;
        assert Transition(q, events[0], mid) && Reaches(mid, rest, q');
      }
    }
  }

  function DepthsOf(setups: seq<Setup>): set<nat> {
    set i | 0 <= i < |setups| :: setups[i].emit.depth
  }

  lemma {:induction false} SetupWithin(setups: seq<Setup>, depths: set<nat>)
    requires forall i | 0 <= i < |setups| :: setups[i].emit.depth in depths
    ensures DeclaredWithin(SetupEvents(setups), depths)
  {
    if setups != [] {
      SetupWithin(setups[..|setups| - 1], depths);
    }
  }

  lemma {:induction false} EmitsDeclareNothing(logs: seq<Log>, depths: set<nat>)
    ensures DeclaredWithin(Emits(logs), depths)
  {
    if logs != [] {
      EmitsDeclareNothing(logs[1..], depths);
    }
  }

  lemma {:induction false} DecisiveDeclares(events: seq<Event>, depths: set<nat>)
    requires DeclaredWithin(Decisive(events, depths), depths)
    ensures DeclaredWithin(events, depths)
  {
    if events != [] {
      var rest := Decisive(events[1..], depths);
      if !Bystander(events[0], depths) {
        var all := [events[0]] + rest;
        assert all[0] == events[0];
        forall i | 0 <= i < |rest| ensures rest[i] == all[i + 1] {
        }
      }
      DecisiveDeclares(events[1..], depths);
    }
  }

  /** A whole test: from the empty tracker, declaring and filling a list of expectations, then any trace, with
      the ends of static calls and of calls at other depths anywhere in between, then the end of a call
      at a tracked depth, passes if and only if the expectations take their matches in turn, in the order
      of their declaration. */
  lemma TestPassesIff(setups: seq<Setup>, logs: seq<Log>, events: seq<Event>, q': Queue, depth: nat, succeeded: bool)
    requires Declarable(setups) && DepthTracked(ReadyQueue(setups), depth)
    requires Decisive(events, DepthsOf(setups)) == SetupEvents(setups) + Emits(logs)
    requires Reaches([], events, q')
    ensures var q := ReadyQueue(setups);
      CallEnd(q', depth, false, succeeded) == (None, []) <==> InTurn(Expected(q), Permitted(q, logs))
  {
    var depths := DepthsOf(setups);
    SetupWithin(setups, depths);
    EmitsDeclareNothing(logs, depths);
    DecisiveDeclares(events, depths);
    BystandersTakenOut([], events, q', depths);
    var q := ReachesSplit([], SetupEvents(setups), Emits(logs), q');
    SetupReaches(setups, q);
    EmitsObserve(q, logs, q');
    ReadyIsFresh(setups);
    CallPassesIff(q, logs, q', depth, succeeded);
  }

  // ----- what a failure reports -----

  /** How an unexpected log differs from the expected one. */
  function Difference(e: ExpectedEmit, log: Log): EmitMismatch
    requires e.log.Some?
  {
    if Alike(e, log) && e.address.Some? then EmitterMismatch(e.address.value, log.address) else LogMismatch(log.data)
  }

  /** The difference of the last log that is not the expected one. */
  function LastDifference(e: ExpectedEmit, logs: seq<Log>): Option<EmitMismatch>
    requires e.log.Some?
  {
    if logs == [] then e.mismatch
    else
      var last := logs[|logs| - 1];
      if !Welcome(e, last) then Some(Difference(e, last)) else LastDifference(e, logs[..|logs| - 1])
  }

  lemma {:induction false} LastDifferenceCons(e: ExpectedEmit, log: Log, logs: seq<Log>)
    requires e.log.Some?
    ensures LastDifference(e, [log] + logs) == LastDifference(e.(mismatch := LastDifference(e, [log])), logs)
  {
    if logs == [] {
      assert [log] + logs == [log];
    } else {
      var n := |logs| - 1;
      LastDifferenceCons(e, log, logs[..n]);
      assert ([log] + logs)[..n + 1] == [log] + logs[..n];
      assert ([log] + logs)[n + 1] == logs[n];
    }
  }

  lemma MismatchIs(e: ExpectedEmit, log: Log)
    requires e.log.Some?
    ensures MismatchAfter(e, log) == LastDifference(e, [log])
  {
    EqualWhereChecked(e.checks, e.log.value, log.data);
    assert [log][..0] == [];
  }

  lemma {:induction false} PendingRemembers(entry: Entry, logs: seq<Log>, q': Queue)
    requires entry.emit.log.Some? && Pending(entry.emit) && Observes([entry], logs, q')
    ensures |q'| == 1
    ensures Pending(q'[0].emit) ==> q'[0].emit == entry.emit.(mismatch := LastDifference(entry.emit, logs))
    decreases |logs|
  {
    if logs != [] {
      var q, log := [entry], logs[0];
      var mid, reason :| Step(q, log, mid, reason) && Observes(mid, logs[1..], q');
      assert q[0] == entry;
      assert !AllFound(q) && !Forbidden(q, log) && !ShouldFill(q) && !OnlyZeroCountsLeft(q);
      assert FirstPending(q) == 0 && Without(q, 0) == [];
      var found: bool :| MayDecide(CountLog(entry, log), log, found) && mid == Requeued(q, 0, log, found);
      var next := Examined(entry, log, found);
      assert mid == [next];
      if found {
        StaysFound(next, logs[1..], q');
      } else {
        PendingRemembers(next, logs[1..], q');
        MismatchIs(entry.emit, log);
        LastDifferenceCons(entry.emit, log, logs[1..]);
        assert [log] + logs[1..] == logs;
      }
    }
  }

  lemma {:induction false} StaysFound(entry: Entry, logs: seq<Log>, q': Queue)
    requires entry.emit.found && Observes([entry], logs, q')
    ensures q' == [entry]
    decreases |logs|
  {
    if logs != [] {
      assert AllFound([entry]);
      StaysFound(entry, logs[1..], q');
    }
  }

  /** An expectation that no run over the trace found is reported with how the last unexpected log
      differed: in its content where that is checked, or else in its emitter. */
  lemma MismatchReported(e: ExpectedEmit, logs: seq<Log>, q': Queue, succeeded: bool)
    requires e.log.Some? && Pending(e) && Observes([Entry(e, map[])], logs, q')
    ensures FirstPending(q') < |q'| ==>
      CallEnd(q', e.depth, false, succeeded) == (Some(Unmatched(e.(mismatch := LastDifference(e, logs)))), q')
  {
    PendingRemembers(Entry(e, map[]), logs, q');
    if FirstPending(q') < |q'| {
      assert q'[0].emit.depth == e.depth;
    }
  }
}
