/**
 What the `expectEmit` tracker means over whole traces: ordered subsequence matching.
 */
module ExpectEmitMatching {
  import opened Common
  import opened ExpectEmit
  import opened ExpectEmitProperties

  // ----- ordered subsequence matching -----

  /** What a log must satisfy for an expectation to count it. */
  datatype Pattern = Pattern(checks: Checks, log: RawLog, address: Option<Address>)

  predicate Accepts(p: Pattern, log: Log) {
    && ChecksTopicsAndData(p.checks, p.log, log.data)
    && (p.address.None? || p.address.value == log.address)
  }

  /** `at` lists increasing positions of `logs` at which the patterns match, one by one. */
  ghost predicate Embedding(patterns: seq<Pattern>, logs: seq<Log>, at: seq<nat>) {
    && |at| == |patterns|
    && (forall k | 0 <= k < |at| :: at[k] < |logs| && Accepts(patterns[k], logs[at[k]]))
    && (forall j, k | 0 <= j < k < |at| :: at[j] < at[k])
  }

  /** The trace contains matches of all the patterns, in order. */
  ghost predicate ContainsInOrder(patterns: seq<Pattern>, logs: seq<Log>) {
    exists at :: Embedding(patterns, logs, at)
  }

  /** Taking the earliest match each time: the patterns left after the trace. */
  function Greedy(patterns: seq<Pattern>, logs: seq<Log>): seq<Pattern> {
    if logs == [] || patterns == [] then patterns
    else Greedy(GreedyStep(patterns, logs[0]), logs[1..])
  }

  function GreedyStep(patterns: seq<Pattern>, log: Log): seq<Pattern> {
    if patterns != [] && Accepts(patterns[0], log) then patterns[1..] else patterns
  }

  /** All positions moved one log later. */
  function Later(at: seq<nat>): (r: seq<nat>)
    ensures |r| == |at| && forall k | 0 <= k < |at| :: r[k] == at[k] + 1
  {
    if at == [] then [] else [at[0] + 1] + Later(at[1..])
  }

  /** All positions moved one log earlier. */
  function Earlier(at: seq<nat>): (r: seq<nat>)
    requires forall k | 0 <= k < |at| :: at[k] >= 1
    ensures |r| == |at| && forall k | 0 <= k < |at| :: r[k] == at[k] - 1
  {
    if at == [] then [] else [at[0] - 1] + Earlier(at[1..])
  }

  lemma EmbedLater(patterns: seq<Pattern>, logs: seq<Log>, at: seq<nat>)
    requires logs != [] && Embedding(patterns, logs[1..], at)
    ensures Embedding(patterns, logs, Later(at))
  {
  }

  lemma EmbedEarlier(patterns: seq<Pattern>, logs: seq<Log>, at: seq<nat>)
    requires logs != [] && Embedding(patterns, logs, at)
    requires forall k | 0 <= k < |at| :: at[k] >= 1
    ensures Embedding(patterns, logs[1..], Earlier(at))
  {
    var e := Earlier(at);
    forall k | 0 <= k < |e| ensures e[k] < |logs[1..]| && Accepts(patterns[k], logs[1..][e[k]]) {
      assert logs[1..][at[k] - 1] == logs[at[k]];
    }
  }

  lemma EmbedTail(patterns: seq<Pattern>, logs: seq<Log>, at: seq<nat>)
    requires patterns != [] && Embedding(patterns, logs, at)
    ensures Embedding(patterns[1..], logs, at[1..])
    ensures forall k | 0 <= k < |at[1..]| :: at[1..][k] >= 1
  {
    forall k | 0 <= k < |at[1..]| ensures at[1..][k] >= 1 {
      assert at[1..][k] == at[k + 1] > at[0];
    }
  }

  lemma EmbedFirst(patterns: seq<Pattern>, logs: seq<Log>, at: seq<nat>)
    requires patterns != [] && logs != [] && Accepts(patterns[0], logs[0])
    requires Embedding(patterns[1..], logs, at) && forall k | 0 <= k < |at| :: at[k] >= 1
    ensures Embedding(patterns, logs, [0] + at)
  {
    var all := [0] + at;
    forall k | 0 <= k < |all| ensures all[k] < |logs| && Accepts(patterns[k], logs[all[k]]) {
      assert k > 0 ==> patterns[k] == patterns[1..][k - 1] && all[k] == at[k - 1];
    }
  }

  lemma {:induction false} GreedyFindsEmbedding(patterns: seq<Pattern>, logs: seq<Log>)
    requires Greedy(patterns, logs) == []
    ensures ContainsInOrder(patterns, logs)
    decreases |logs|
  {
    if patterns == [] {
      assert Embedding(patterns, logs, []);
    } else {
      var next := GreedyStep(patterns, logs[0]);
      GreedyFindsEmbedding(next, logs[1..]);
      var at :| Embedding(next, logs[1..], at);
      EmbedLater(next, logs, at);
      if next == patterns {
        assert Embedding(patterns, logs, Later(at));
      } else {
        EmbedFirst(patterns, logs, Later(at));
      }
    }
  }

  lemma {:induction false} GreedyIsComplete(patterns: seq<Pattern>, logs: seq<Log>, at: seq<nat>)
    requires Embedding(patterns, logs, at)
    ensures Greedy(patterns, logs) == []
    decreases |logs|
  {
    if patterns != [] {
      assert at[0] < |logs|;
      if Accepts(patterns[0], logs[0]) {
        EmbedTail(patterns, logs, at);
        EmbedEarlier(patterns[1..], logs, at[1..]);
        GreedyIsComplete(patterns[1..], logs[1..], Earlier(at[1..]));
      } else {
        EmbedEarlier(patterns, logs, at);
        GreedyIsComplete(patterns, logs[1..], Earlier(at));
      }
    }
  }

  // ----- the tracker is greedy matching -----

  ghost predicate AllFilled(q: Queue) {
    forall i | 0 <= i < |q| :: q[i].emit.log.Some?
  }

  function PatternOf(e: ExpectedEmit): Pattern
    requires e.log.Some?
  {
    Pattern(e.checks, e.log.value, e.address)
  }

  /** The matches an entry still waits for. */
  ghost function Owed(e: Entry): seq<Pattern> {
    if e.emit.log.None? || e.emit.found || e.emit.count <= Seen(e) then []
    else Repeat(PatternOf(e.emit), e.emit.count - Seen(e))
  }

  /** The matches the whole queue still waits for, in order. */
  ghost function Remaining(q: Queue): seq<Pattern> {
    if q == [] then [] else Owed(q[0]) + Remaining(q[1..])
  }

  lemma {:induction false} RemainingAppend(a: Queue, b: Queue)
    ensures Remaining(a + b) == Remaining(a) + Remaining(b)
  {
    if a == [] {
      assert a + b == b;
    } else {
      RemainingAppend(a[1..], b);
      assert (a + b)[1..] == a[1..] + b && (a + b)[0] == a[0];
      Associate(Owed(a[0]), Remaining(a[1..]), Remaining(b));
    }
  }

  lemma {:induction false} NothingOwed(q: Queue)
    requires forall i | 0 <= i < |q| :: !Pending(q[i].emit)
    ensures Remaining(q) == []
  {
    if q != [] {
      NothingOwed(q[1..]);
    }
  }

  lemma RemainingOne(e: Entry)
    ensures Remaining([e]) == Owed(e)
  {
    assert [e][1..] == [];
  }

  lemma SplitAround<T>(s: seq<T>, i: nat)
    requires i < |s|
    ensures s == s[..i] + ([s[i]] + s[i + 1..])
  {
  }

  /** An entry owes its part between what comes before and after it. */
  lemma RemainingAround(q: Queue, i: nat)
    requires i < |q|
    ensures Remaining(q) == Remaining(q[..i]) + (Owed(q[i]) + Remaining(q[i + 1..]))
    ensures Remaining(Without(q, i)) == Remaining(q[..i]) + Remaining(q[i + 1..])
  {
    SplitAround(q, i);
    RemainingAppend(q[..i], [q[i]] + q[i + 1..]);
    RemainingAppend([q[i]], q[i + 1..]);
    RemainingAppend(q[..i], q[i + 1..]);
    RemainingOne(q[i]);
  }

  /** One log takes at most one match off the front of what an entry owes. */
  lemma OwedStep(e: Entry, log: Log, found: bool)
    requires EntryOk(e) && e.emit.log.Some? && Pending(e.emit) && Deterministic(e.emit)
    requires MayDecide(CountLog(e, log), log, found)
    ensures Owed(e) != [] && Owed(e)[0] == PatternOf(e.emit)
    ensures Owed(Examined(e, log, found)) == GreedyStep(Owed(e), log)
    ensures found ==> Owed(Examined(e, log, found)) == []
  {
    ExaminedOk(e, log, found);
    if e.emit.address.Some? {
      BoundProgress(e, log, found);
    } else {
      AnyEmitterOnce(e, log, found);
    }
  }

  lemma GreedyStepPrefix(a: seq<Pattern>, b: seq<Pattern>, log: Log)
    requires a != []
    ensures GreedyStep(a + b, log) == GreedyStep(a, log) + b
  {
    assert (a + b)[1..] == a[1..] + b;
  }

  /** Requeueing the first pending entry takes one greedy step off what remains. */
  lemma RequeuedRemaining(q: Queue, i: nat, log: Log, found: bool)
    requires i < |q| && i == FirstPending(q) && EntryOk(q[i]) && q[i].emit.log.Some? && Deterministic(q[i].emit)
    requires MayDecide(CountLog(q[i], log), log, found)
    ensures Remaining(Requeued(q, i, log, found)) == GreedyStep(Remaining(q), log)
  {
    var rest, e', tail := Without(q, i), Examined(q[i], log, found), Remaining(q[i + 1..]);
    OwedStep(q[i], log, found);
    RemainingFromPending(q, i);
    GreedyStepPrefix(Owed(q[i]), tail, log);
    RemainingOne(e');
    if found {
      RemainingAppend(rest, [e']);
      assert [] + tail == tail == tail + [];
    } else {
      RemainingAppend([e'], rest);
    }
  }

  lemma RemainingFromPending(q: Queue, i: nat)
    requires i < |q| && i == FirstPending(q)
    ensures Remaining(q) == Owed(q[i]) + Remaining(q[i + 1..])
    ensures Remaining(Without(q, i)) == Remaining(q[i + 1..])
  {
    RemainingAround(q, i);
    NothingOwed(q[..i]);
    assert forall s: seq<Pattern> :: [] + s == s;
  }

  /** On a filled queue, one permitted log acts as one greedy matching step. */
  lemma StepIsGreedy(q: Queue, log: Log, q': Queue, reason: Option<Failure>)
    requires Invariant(q) && AllFilled(q) && AllDeterministic(q)
    requires Step(q, log, q', reason)
    ensures Invariant(q') && AllFilled(q') && AllDeterministic(q')
    ensures Remaining(q') == if Forbidden(q, log) then Remaining(q) else GreedyStep(Remaining(q), log)
  {
    StepKeepsInvariant(q, log, q', reason);
    if Idle(q, log) {
      if !Forbidden(q, log) {
        NothingOwed(q);
      }
    } else {
      PickedIsUnfound(q);
      var i := IndexToFillOrCheck(q);
      var found: bool :| MayDecide(CountLog(q[i], log), log, found) && q' == Requeued(q, i, log, found);
      RequeuedRemaining(q, i, log, found);
      RequeuedKinds(q, i, log, found);
    }
  }

  lemma RequeuedKinds(q: Queue, i: nat, log: Log, found: bool)
    requires AllFilled(q) && AllDeterministic(q) && i < |q|
    ensures AllFilled(Requeued(q, i, log, found)) && AllDeterministic(Requeued(q, i, log, found))
  {
    var rest := Without(q, i);
    assert AllFilled(rest) && AllDeterministic(rest);
  }

  // ----- what is forbidden never changes -----

  lemma RequeuedForbids(q: Queue, i: nat, log: Log, found: bool, other: Log)
    requires i < |q| && q[i].emit.log.Some? && q[i].emit.count > 0
    ensures Forbidden(Requeued(q, i, log, found), other) <==> Forbidden(Without(q, i), other)
    ensures Forbidden(q, other) <==> Forbidden(Without(q, i), other)
  {
    var rest, q' := Without(q, i), Requeued(q, i, log, found);
    if k :| 0 <= k < |rest| && Forbids(rest[k].emit, other) {
      assert q[if k < i then k else k + 1] == rest[k];
      assert q'[if found then k else k + 1] == rest[k];
    }
    if k :| 0 <= k < |q| && Forbids(q[k].emit, other) {
      assert rest[if k < i then k else k - 1] == q[k];
    }
    if k :| 0 <= k < |q'| && Forbids(q'[k].emit, other) {
      assert rest[if found then k else k - 1] == q'[k];
    }
  }

  lemma ForbiddenStable(q: Queue, log: Log, q': Queue, reason: Option<Failure>, other: Log)
    requires Invariant(q) && AllFilled(q) && Step(q, log, q', reason)
    ensures Forbidden(q', other) <==> Forbidden(q, other)
  {
    if !Idle(q, log) {
      PickedIsUnfound(q);
      var i := IndexToFillOrCheck(q);
      var found: bool :| MayDecide(CountLog(q[i], log), log, found) && q' == Requeued(q, i, log, found);
      RequeuedForbids(q, i, log, found, other);
    }
  }

  /** The logs of a trace that violate no zero-count expectation of `q`. */
  function Permitted(q: Queue, logs: seq<Log>): seq<Log> {
    if logs == [] then []
    else if Forbidden(q, logs[0]) then Permitted(q, logs[1..])
    else [logs[0]] + Permitted(q, logs[1..])
  }

  lemma {:induction false} PermittedStable(q: Queue, q': Queue, logs: seq<Log>)
    requires forall log :: Forbidden(q', log) <==> Forbidden(q, log)
    ensures Permitted(q', logs) == Permitted(q, logs)
  {
    if logs != [] {
      PermittedStable(q, q', logs[1..]);
    }
  }

  /** `q'` is a queue the tracker may be in after observing `logs`, failures included. */
  ghost predicate Observes(q: Queue, logs: seq<Log>, q': Queue)
    decreases |logs|
  {
    if logs == [] then q' == q
    else exists mid, reason :: Step(q, logs[0], mid, reason) && Observes(mid, logs[1..], q')
  }

  /** A run of the tracker leaves exactly what greedy matching of the permitted logs leaves. */
  lemma {:induction false} RunIsGreedy(q: Queue, logs: seq<Log>, q': Queue)
    requires Invariant(q) && AllFilled(q) && AllDeterministic(q) && Observes(q, logs, q')
    ensures Invariant(q') && AllFilled(q') && AllDeterministic(q')
    ensures Remaining(q') == Greedy(Remaining(q), Permitted(q, logs))
    decreases |logs|
  {
    if logs != [] {
      var mid, reason :| Step(q, logs[0], mid, reason) && Observes(mid, logs[1..], q');
      StepIsGreedy(q, logs[0], mid, reason);
      RunIsGreedy(mid, logs[1..], q');
      forall log ensures Forbidden(mid, log) <==> Forbidden(q, log) {
        ForbiddenStable(q, logs[0], mid, reason, log);
      }
      PermittedStable(q, mid, logs[1..]);
      if !Forbidden(q, logs[0]) {
        GreedyCons(Remaining(q), logs[0], Permitted(q, logs[1..]));
      }
    }
  }

  lemma GreedyCons(patterns: seq<Pattern>, log: Log, logs: seq<Log>)
    ensures Greedy(patterns, [log] + logs) == Greedy(GreedyStep(patterns, log), logs)
  {
    assert ([log] + logs)[1..] == logs;
  }

  /** Each expectation's pattern, as many times as its count, in declaration order. */
  function Requirements(q: Queue): seq<Pattern>
    requires AllFilled(q)
  {
    if q == [] then []
    else Repeat(PatternOf(q[0].emit), q[0].emit.count) + Requirements(q[1..])
  }

  lemma {:induction false} FreshOwesEverything(q: Queue)
    requires AllFilled(q) && FreshQueue(q)
    ensures Remaining(q) == Requirements(q)
  {
    if q != [] {
      FreshOwesEverything(q[1..]);
    }
  }

  lemma {:induction false} NothingRemainsIff(q: Queue)
    requires Invariant(q) && AllFilled(q) && AllDeterministic(q)
    ensures Remaining(q) == [] <==> FirstPending(q) == |q|
  {
    if FirstPending(q) == |q| {
      NothingOwed(q);
    } else {
      var i := FirstPending(q);
      RemainingAround(q, i);
      assert EntryOk(q[i]);
      assert Owed(q[i]) != [];
    }
  }

  /** Greedy matching is sound and complete: from fresh, filled expectations that do not depend on
      hash order, every run over a trace matches all of them if and only if the permitted logs of
      the trace contain, in order, `count` matches of the first, then of the second, and so on. */
  lemma MatchingIsComplete(q: Queue, logs: seq<Log>, q': Queue)
    requires FreshQueue(q) && AllFilled(q) && AllDeterministic(q)
    requires Observes(q, logs, q')
    ensures FirstPending(q') == |q'| <==> ContainsInOrder(Requirements(q), Permitted(q, logs))
  {
    FreshQueueInvariant(q);
    RunIsGreedy(q, logs, q');
    FreshOwesEverything(q);
    NothingRemainsIff(q');
    var permitted := Permitted(q, logs);
    if Greedy(Requirements(q), permitted) == [] {
      GreedyFindsEmbedding(Requirements(q), permitted);
    }
    if ContainsInOrder(Requirements(q), permitted) {
      var at :| Embedding(Requirements(q), permitted, at);
      GreedyIsComplete(Requirements(q), permitted, at);
    }
  }

  /** With every template filled in, a trace changes no declaration. */
  lemma {:induction false} RunConservesDeclarations(q: Queue, logs: seq<Log>, q': Queue)
    requires Invariant(q) && AllFilled(q) && Observes(q, logs, q')
    ensures multiset(Declarations(q')) == multiset(Declarations(q))
    decreases |logs|
  {
    if logs != [] {
      var mid, reason :| Step(q, logs[0], mid, reason) && Observes(mid, logs[1..], q');
      StepKeepsInvariant(q, logs[0], mid, reason);
      StepConservesDeclarations(q, logs[0], mid, reason);
      StaysFilled(q, mid);
      RunConservesDeclarations(mid, logs[1..], q');
    }
  }

  lemma StaysFilled(q: Queue, q': Queue)
    requires AllFilled(q) && multiset(Declarations(q')) == multiset(Declarations(q))
    ensures AllFilled(q')
  {
    forall i | 0 <= i < |q'| ensures q'[i].emit.log.Some? {
      var k := SameDeclaration(q', q, i);
    }
  }

  lemma SameDeclaration(q: Queue, q': Queue, i: nat) returns (k: nat)
    requires multiset(Declarations(q)) == multiset(Declarations(q')) && i < |q|
    ensures k < |q'| && DeclarationOf(q'[k].emit) == DeclarationOf(q[i].emit)
  {
    var d := Declarations(q)[i];
    assert d in multiset(Declarations(q));
    assert d in Declarations(q');
    k :| 0 <= k < |Declarations(q')| && Declarations(q')[k] == d;
  }

  lemma StaysTracked(q: Queue, logs: seq<Log>, q': Queue, depth: nat)
    requires Invariant(q) && AllFilled(q) && Observes(q, logs, q') && DepthTracked(q, depth)
    ensures DepthTracked(q', depth)
  {
    RunConservesDeclarations(q, logs, q');
    var i :| 0 <= i < |q| && q[i].emit.depth == depth;
    var k := SameDeclaration(q, q', i);
    assert q'[k].emit.depth == depth;
  }

  /** Without expectations of several logs from any emitter, a call at a tracked depth passes and clears
      the tracker if and only if the permitted logs contain the declared requirements in order. */
  lemma CallPassesInOrderIff(q: Queue, logs: seq<Log>, q': Queue, depth: nat, succeeded: bool)
    requires FreshQueue(q) && AllFilled(q) && AllDeterministic(q) && DepthTracked(q, depth)
    requires Observes(q, logs, q')
    ensures CallEnd(q', depth, false, succeeded) == (None, []) <==>
            ContainsInOrder(Requirements(q), Permitted(q, logs))
  {
    FreshQueueInvariant(q);
    StaysTracked(q, logs, q', depth);
    RunIsGreedy(q, logs, q');
    MatchingIsComplete(q, logs, q');
    if FirstPending(q') == |q'| {
      NoMiscounts(q');
    }
  }

  // ----- a whole test -----

  /** An `expectEmit` call and the template emitted after it. */
  datatype Setup = Setup(emit: ExpectedEmit, template: Log)

  function Ready(s: Setup): Entry {
    Entry(s.emit.(log := Some(s.template.data)), map[])
  }

  function ReadyQueue(setups: seq<Setup>): (q: Queue)
    ensures |q| == |setups| && forall i | 0 <= i < |q| :: q[i] == Ready(setups[i])
  {
    seq(|setups|, i requires 0 <= i < |setups| => Ready(setups[i]))
  }

  /** Each expectation may be filled by its template, which no earlier expectation forbids. */
  ghost predicate Declarable(setups: seq<Setup>) {
    && (forall i | 0 <= i < |setups| :: MayFill(setups[i]))
    && (forall i, j | 0 <= j < i < |setups| :: !Forbids(Ready(setups[j]).emit, setups[i].template))
  }

  ghost predicate MayFill(s: Setup) {
    s.emit.log.None? && !s.emit.found && (s.emit.anonymous || s.template.data.topics != [])
  }

  function SetupEvents(setups: seq<Setup>): seq<Event> {
    if setups == [] then []
    else
      var last := setups[|setups| - 1];
      SetupEvents(setups[..|setups| - 1]) + [Expect(last.emit), Emit(last.template)]
  }

  lemma {:induction false} SetupReaches(setups: seq<Setup>, q: Queue)
    requires Declarable(setups) && Reaches([], SetupEvents(setups), q)
    ensures q == ReadyQueue(setups)
  {
    if setups != [] {
      var front, last := setups[..|setups| - 1], setups[|setups| - 1];
      var mid := ReachesSplit([], SetupEvents(front), [Expect(last.emit), Emit(last.template)], q);
      SetupReaches(front, mid);
      DeclareAndFill(front, last, q);
    }
  }

  lemma DeclareAndFill(front: seq<Setup>, last: Setup, q: Queue)
    requires Declarable(front + [last]) && Reaches(ReadyQueue(front), [Expect(last.emit), Emit(last.template)], q)
    ensures q == ReadyQueue(front + [last])
  {
    var mid, events := ReadyQueue(front), [Expect(last.emit), Emit(last.template)];
    assert events[1..] == [Emit(last.template)] && events[1..][1..] == [];
    var declared := Declared(mid, last.emit);
    assert Reaches(declared, events[1..], q);
    var reason :| Step(declared, last.template, q, reason);
    FrontFills(front, last);
    FreshQueueInvariant(mid);
    FirstFoundIs(mid, |mid|);
    NotForbidden(front, last);
    DeclareThenFill(mid, last.emit, last.template, q, reason);
    assert mid[..|mid|] == mid && mid[|mid|..] == [];
  }

  lemma FrontFills(front: seq<Setup>, last: Setup)
    requires Declarable(front + [last])
    ensures FreshQueue(ReadyQueue(front)) && MayFill(last)
  {
    var all := front + [last];
    assert all[|front|] == last;
    forall i | 0 <= i < |front| ensures Fresh(ReadyQueue(front)[i]) {
      assert all[i] == front[i];
    }
  }

  lemma NotForbidden(front: seq<Setup>, last: Setup)
    requires Declarable(front + [last])
    ensures !Forbidden(ReadyQueue(front), last.template)
  {
    var all := front + [last];
    forall j | 0 <= j < |front| ensures !Forbids(ReadyQueue(front)[j].emit, last.template) {
      assert all[j] == front[j] && all[|front|] == last;
    }
  }

  function Emits(logs: seq<Log>): seq<Event> {
    if logs == [] then [] else [Emit(logs[0])] + Emits(logs[1..])
  }

  lemma {:induction false} EmitsObserve(q: Queue, logs: seq<Log>, q': Queue)
    requires Reaches(q, Emits(logs), q')
    ensures Observes(q, logs, q')
    decreases |logs|
  {
    if logs != [] {
      assert Emits(logs)[1..] == Emits(logs[1..]);
      var mid :| Transition(q, Emit(logs[0]), mid) && Reaches(mid, Emits(logs[1..]), q');
      EmitsObserve(mid, logs[1..], q');
    }
  }

  /** What pushing a prefilled expectation costs. When it is pushed and then another is declared and
      filled, the logs are required in the order of declaration if nothing had been found, and in
      the opposite order otherwise. */
  lemma PrefilledRequirementOrder(
    q: Queue, prefilled: ExpectedEmit, late: Setup, q': Queue, reason: Option<Failure>)
    requires Invariant(q) && FoundSuffix(q) && AllFilled(q)
    requires prefilled.log.Some? && !prefilled.found && MayFill(late)
    requires !Forbidden(Prefilled(q, prefilled), late.template)
    requires Step(Declared(Prefilled(q, prefilled), late.emit), late.template, q', reason)
    ensures var first, second := Owed(Entry(prefilled, map[])), Owed(Ready(late));
      Remaining(q') == if FirstFound(q) == |q| then Remaining(q) + first + second else Remaining(q) + second + first
  {
    var q1 := Prefilled(q, prefilled);
    PrefilledKeepsInvariant(q, prefilled);
    assert !ShouldFill(q1);
    DeclareThenFill(q1, late.emit, late.template, q', reason);
    PrefilledSplit(q, Entry(prefilled, map[]), Ready(late));
  }

  lemma PrefilledSplit(q: Queue, e: Entry, late: Entry)
    requires FoundSuffix(q) && !e.emit.found
    ensures var f := FirstFound(q + [e]);
      Remaining((q + [e])[..f] + [late] + (q + [e])[f..]) ==
      if FirstFound(q) == |q| then Remaining(q) + Owed(e) + Owed(late) else Remaining(q) + Owed(late) + Owed(e)
  {
    FirstFoundIs(q + [e], if FirstFound(q) == |q| then |q| + 1 else FirstFound(q));
    if FirstFound(q) == |q| {
      PrefilledLast(q, e, late);
    } else {
      PrefilledBehind(q, FirstFound(q), e, late);
    }
  }

  lemma PrefilledLast(q: Queue, e: Entry, late: Entry)
    ensures Remaining((q + [e])[..|q| + 1] + [late] + (q + [e])[|q| + 1..]) == Remaining(q) + Owed(e) + Owed(late)
  {
    InsertedLast(q, e, late);
    RemainingTwo(q, e, late);
  }

  lemma PrefilledBehind(q: Queue, f: nat, e: Entry, late: Entry)
    requires f <= |q| && forall i | f <= i < |q| :: q[i].emit.found
    ensures Remaining((q + [e])[..f] + [late] + (q + [e])[f..]) == Remaining(q) + Owed(late) + Owed(e)
  {
    InsertedBefore(q, f, e, late);
    NothingOwed(q[f..]);
    RemainingAcross(q[..f], late, q[f..], e);
  }

  lemma InsertedLast<T>(s: seq<T>, x: T, y: T)
    ensures (s + [x])[..|s| + 1] + [y] + (s + [x])[|s| + 1..] == s + [x] + [y]
  {
  }

  lemma InsertedBefore<T>(s: seq<T>, i: nat, x: T, y: T)
    requires i <= |s|
    ensures (s + [x])[..i] + [y] + (s + [x])[i..] == s[..i] + [y] + (s[i..] + [x])
    ensures s[..i] + s[i..] == s
  {
    assert (s + [x])[..i] == s[..i] && (s + [x])[i..] == s[i..] + [x];
  }

  lemma RemainingTwo(q: Queue, a: Entry, b: Entry)
    ensures Remaining(q + [a] + [b]) == Remaining(q) + Owed(a) + Owed(b)
  {
    RemainingAppend(q + [a], [b]);
    RemainingAppend(q, [a]);
    RemainingOne(a);
    RemainingOne(b);
  }

  lemma RemainingAcross(x: Queue, a: Entry, y: Queue, b: Entry)
    requires Remaining(y) == []
    ensures Remaining(x + [a] + (y + [b])) == Remaining(x + y) + Owed(a) + Owed(b)
  {
    RemainingAppend(x, y);
    RemainingAppend(x + [a], y + [b]);
    RemainingAppend(x, [a]);
    RemainingAppend(y, [b]);
    RemainingOne(a);
    RemainingOne(b);
    assert Remaining(x) + [] == Remaining(x) && [] + Owed(b) == Owed(b);
  }

  // ----- no log gets stuck -----

  /** Some verdict is always possible. */
  lemma VerdictExists(e: Entry, log: Log) returns (found: bool)
    ensures MayDecide(e, log, found)
  {
    if !Matches(e.emit, log) {
      found := false;
    } else if e.emit.address.Some? {
      found := log.address in e.counts && e.counts[log.address].Count(log.data) >= e.emit.count;
    } else if a :| a in e.counts && e.counts[a].SatisfiesChecks(log.data) {
      found := e.counts[a].Count(log.data) >= e.emit.count;
    } else {
      found := false;
    }
  }

  lemma StepExists(q: Queue, log: Log) returns (q': Queue, reason: Option<Failure>)
    ensures Step(q, log, q', reason)
  {
    q', reason := q, None;
    if AllFound(q) {
    } else if Forbidden(q, log) {
      reason := Some(EmittedZeroTimes);
    } else if ShouldFill(q) || !OnlyZeroCountsLeft(q) {
      var i := IndexToFillOrCheck(q);
      if q[i].emit.log.Some? {
        var found := VerdictExists(CountLog(q[i], log), log);
        q' := Requeued(q, i, log, found);
      } else if q[i].emit.anonymous || log.data.topics != [] {
        q' := q[i := Filled(q[i], log)];
      } else {
        q', reason := Without(q, i), Some(UseExpectEmitAnonymous);
      }
    }
  }

  /** Every trace can be observed from every queue: removal is always at a valid index and no log
      gets the tracker stuck. */
  lemma {:induction false} RunExists(q: Queue, logs: seq<Log>) returns (q': Queue)
    ensures Observes(q, logs, q')
    decreases |logs|
  {
    if logs == [] {
      q' := q;
    } else {
      var mid, reason := StepExists(q, logs[0]);
      q' := RunExists(mid, logs[1..]);
    }
  }

  /** Over whole traces, found entries and their counters stay as they were. */
  lemma {:induction false} RunFreezesFound(q: Queue, logs: seq<Log>, q': Queue)
    requires Invariant(q) && Observes(q, logs, q')
    ensures Invariant(q') && FoundOf(q) <= FoundOf(q')
    decreases |logs|
  {
    if logs != [] {
      var mid, reason :| Step(q, logs[0], mid, reason) && Observes(mid, logs[1..], q');
      StepKeepsInvariant(q, logs[0], mid, reason);
      FoundEntriesFrozen(q, logs[0], mid, reason);
      RunFreezesFound(mid, logs[1..], q');
    }
  }
}
