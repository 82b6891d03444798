/**
 What the order of a hash map decides in the `expectEmit` tracker: expectations of several logs from any
 emitter consult the counter of some emitter, not of the one that sent the log. That never decides
 whether a call passes, but it decides which failure is reported at the end of a call that does not, and
 the verdict of the root end.
 */
module ExpectEmitHashOrder {
  import opened Common
  import opened ExpectEmit
  import opened ExpectEmitProperties
  import opened ExpectEmitMatching
  import opened ExpectEmitTurns

  /** An expectation of any emitter, filled and waiting. */
  predicate AnyEmitter(e: ExpectedEmit) {
    e.log.Some? && e.address.None? && Pending(e)
  }

  /** The matching logs that emitter `a` sent. */
  function Sent(e: ExpectedEmit, logs: seq<Log>, a: Address): nat {
    if logs == [] then 0
    else
      var last := logs[|logs| - 1];
      Sent(e, logs[..|logs| - 1], a) + (if last.address == a && Matches(e, last) then 1 else 0)
  }

  lemma SentSnoc(e: ExpectedEmit, logs: seq<Log>, log: Log, a: Address)
    ensures Sent(e, logs + [log], a) == Sent(e, logs, a) + if log.address == a && Matches(e, log) then 1 else 0
  {
    assert (logs + [log])[..|logs|] == logs;
  }

  lemma {:induction false} SentGrows(e: ExpectedEmit, logs: seq<Log>, k: nat, a: Address)
    requires k <= |logs|
    ensures Sent(e, logs[..k], a) <= Sent(e, logs, a)
  {
    if k < |logs| {
      var n := |logs| - 1;
      SentGrows(e, logs[..n], k, a);
      assert logs[..n][..k] == logs[..k];
    } else {
      assert logs[..k] == logs;
    }
  }

  /** The unmatched entry of `e` after the trace `done`: each emitter's counter stands at the matching
      logs it sent. */
  ghost predicate Tracks(entry: Entry, e: ExpectedEmit, done: seq<Log>) {
    && CountersOk(entry)
    && entry.emit == e.(mismatch := entry.emit.mismatch)
    && forall a :: CountOf(entry, a) == Sent(e, done, a)
  }

  ghost function CountOf(entry: Entry, a: Address): nat {
    if a in entry.counts then entry.counts[a].CountUnchecked() else 0
  }

  lemma TracksFresh(e: ExpectedEmit)
    requires AnyEmitter(e)
    ensures Tracks(Entry(e, map[]), e, [])
  {
  }

  /** Counting one more log keeps the counters in step with the trace. */
  lemma CountTracks(entry: Entry, e: ExpectedEmit, done: seq<Log>, log: Log)
    requires AnyEmitter(e) && Tracks(entry, e, done)
    ensures CountersOk(CountLog(entry, log))
    ensures forall a :: CountOf(CountLog(entry, log), a) == Sent(e, done + [log], a)
  {
    CountLogCounts(entry, log);
    forall a ensures CountOf(CountLog(entry, log), a) == Sent(e, done + [log], a) {
      SentSnoc(e, done, log, a);
      assert CountOf(entry, a) == Sent(e, done, a);
    }
  }

  /** The counter of emitter `a` may be the one consulted, and then says `n`. */
  ghost predicate Consulted(c: Entry, log: Log, a: Address, n: nat) {
    a in c.counts && c.counts[a].SatisfiesChecks(log.data) && c.counts[a].Count(log.data) == n
  }

  /** After a matching log, exactly the emitters that sent a match may be consulted. */
  lemma WhoIsConsulted(entry: Entry, e: ExpectedEmit, done: seq<Log>, log: Log)
    requires AnyEmitter(e) && Tracks(entry, e, done) && Matches(e, log)
    ensures var c := CountLog(entry, log);
      && log.address in c.counts
      && forall a :: (a in c.counts <==> Sent(e, done + [log], a) > 0)
                     && (a in c.counts ==> Consulted(c, log, a, Sent(e, done + [log], a)))
  {
    CountTracks(entry, e, done, log);
    CountLogCounts(entry, log);
    var c := CountLog(entry, log);
    forall a ensures (a in c.counts <==> Sent(e, done + [log], a) > 0)
                     && (a in c.counts ==> Consulted(c, log, a, Sent(e, done + [log], a)))
    {
      assert CountOf(c, a) == Sent(e, done + [log], a);
    }
  }

  /** Some emitter that sent a match gives the verdict. */
  ghost predicate Given(e: ExpectedEmit, seen: seq<Log>, found: bool) {
    exists a :: Sent(e, seen, a) > 0 && found == (Sent(e, seen, a) >= e.count)
  }

  /** After a matching log, a verdict is possible exactly when some emitter that sent a match gives
      it. */
  lemma PossibleVerdicts(entry: Entry, e: ExpectedEmit, done: seq<Log>, log: Log, found: bool)
    requires AnyEmitter(e) && Tracks(entry, e, done)
    ensures MayDecide(CountLog(entry, log), log, found) <==>
      if Matches(e, log) then Given(e, done + [log], found) else !found
  {
    var c, all := CountLog(entry, log), done + [log];
    CountKeepsEmit(entry, log);
    if Matches(e, log) {
      WhoIsConsulted(entry, e, done, log);
      if MayDecide(c, log, found) {
        assert Consulted(c, log, log.address, Sent(e, all, log.address));
        var a :| a in c.counts && c.counts[a].SatisfiesChecks(log.data) &&
          found == (c.counts[a].Count(log.data) >= e.count);
        assert Consulted(c, log, a, Sent(e, all, a));
        assert Sent(e, all, a) > 0;
      }
      if Given(e, all, found) {
        var a :| Sent(e, all, a) > 0 && found == (Sent(e, all, a) >= e.count);
        assert Consulted(c, log, a, Sent(e, all, a));
        assert c.counts[a].SatisfiesChecks(log.data) && found == (c.counts[a].Count(log.data) >= c.emit.count);
      }
    }
  }

  lemma CountKeepsEmit(entry: Entry, log: Log)
    requires entry.emit.log.Some?
    ensures CountLog(entry, log).emit == entry.emit
  {
  }

  /** From the one waiting entry, a log leads to exactly the entries the possible verdicts give. */
  lemma StepOfOne(entry: Entry, e: ExpectedEmit, log: Log, q': Queue)
    requires AnyEmitter(e) && entry.emit == e.(mismatch := entry.emit.mismatch)
    ensures (exists reason :: Step([entry], log, q', reason)) <==>
      exists found :: MayDecide(CountLog(entry, log), log, found) && q' == [Examined(entry, log, found)]
  {
    var q := [entry];
    assert q[0].emit == entry.emit;
    assert !AllFound(q) && !Forbidden(q, log) && !ShouldFill(q) && !OnlyZeroCountsLeft(q);
    assert FirstPending(q) == 0;
    assert Without(q, 0) == [];
    forall found: bool ensures Requeued(q, 0, log, found) == [Examined(entry, log, found)] {
    }
    assert Step(q, log, q', None) <==>
      exists found: bool :: MayDecide(CountLog(entry, log), log, found) && q' == Requeued(q, 0, log, found);
  }

  lemma ExaminedTracks(entry: Entry, e: ExpectedEmit, done: seq<Log>, log: Log)
    requires AnyEmitter(e) && Tracks(entry, e, done)
    ensures Tracks(Examined(entry, log, false), e, done + [log])
  {
    CountTracks(entry, e, done, log);
    var e' := Examined(entry, log, false);
    forall a ensures CountOf(e', a) == Sent(e, done + [log], a) {
      assert CountOf(e', a) == CountOf(CountLog(entry, log), a);
    }
  }

  // ----- runs from one expectation -----

  /** Once found, the one entry stays found. */
  lemma {:induction false} FoundStays(entry: Entry, logs: seq<Log>, q': Queue)
    requires entry.emit.found
    ensures Observes([entry], logs, q') <==> q' == [entry]
    decreases |logs|
  {
    if logs != [] {
      FoundStays(entry, logs[1..], q');
      assert AllFound([entry]);
      assert Step([entry], logs[0], [entry], None);
    }
  }

  predicate LastMatches(e: ExpectedEmit, seen: seq<Log>) {
    seen != [] && Matches(e, seen[|seen| - 1])
  }

  /** After the last log of `seen` the expectation may be found: it matches, and some emitter sent
      enough. */
  ghost predicate MayFind(e: ExpectedEmit, seen: seq<Log>) {
    LastMatches(e, seen) && Given(e, seen, true)
  }

  /** After the last log of `seen` it may be missed: it does not match, or some emitter that sent a
      match is short. */
  ghost predicate MayMiss(e: ExpectedEmit, seen: seq<Log>) {
    LastMatches(e, seen) ==> Given(e, seen, false)
  }

  /** A matching log was sent by someone, who gives some verdict. */
  lemma FindOrMiss(e: ExpectedEmit, seen: seq<Log>)
    ensures MayFind(e, seen) || MayMiss(e, seen)
  {
    if LastMatches(e, seen) {
      var a := seen[|seen| - 1].address;
      assert Sent(e, seen, a) > 0;
    }
  }

  /** One more log, with a possible verdict. */
  lemma OneStep(entry: Entry, e: ExpectedEmit, done: seq<Log>, log: Log, found: bool) returns (next: Entry)
    requires AnyEmitter(e) && Tracks(entry, e, done)
    requires if found then MayFind(e, done + [log]) else MayMiss(e, done + [log])
    ensures exists reason :: Step([entry], log, [next], reason)
    ensures next.emit.found == found
    ensures !found ==> Tracks(next, e, done + [log])
  {
    next := Examined(entry, log, found);
    assert (done + [log])[|done|] == log;
    PossibleVerdicts(entry, e, done, log, found);
    StepOfOne(entry, e, log, [next]);
    if !found {
      ExaminedTracks(entry, e, done, log);
    }
  }

  /** Only possible verdicts are given. */
  lemma OnlyPossible(entry: Entry, e: ExpectedEmit, done: seq<Log>, log: Log, q': Queue)
    requires AnyEmitter(e) && Tracks(entry, e, done) && exists reason :: Step([entry], log, q', reason)
    ensures |q'| == 1
    ensures if q'[0].emit.found then MayFind(e, done + [log])
            else MayMiss(e, done + [log]) && Tracks(q'[0], e, done + [log])
  {
    StepOfOne(entry, e, log, q');
    var found :| MayDecide(CountLog(entry, log), log, found) && q' == [Examined(entry, log, found)];
    assert (done + [log])[|done|] == log;
    PossibleVerdicts(entry, e, done, log, found);
    if !found {
      ExaminedTracks(entry, e, done, log);
    }
  }

  lemma ObservesCons(q: Queue, log: Log, mid: Queue, rest: seq<Log>, q': Queue)
    requires (exists reason :: Step(q, log, mid, reason)) && Observes(mid, rest, q')
    ensures Observes(q, [log] + rest, q')
  {
    var reason :| Step(q, log, mid, reason);
    var logs := [log] + rest;
    assert logs[0] == log && logs[1..] == rest;
    assert Step(q, logs[0], mid, reason) && Observes(mid, logs[1..], q');
  }

  ghost predicate FindsLater(e: ExpectedEmit, logs: seq<Log>, i: nat) {
    exists k | i < k <= |logs| :: MayFind(e, logs[..k])
  }

  ghost predicate MissesLater(e: ExpectedEmit, logs: seq<Log>, i: nat) {
    forall k | i < k <= |logs| :: MayMiss(e, logs[..k])
  }

  lemma OneEarlier(e: ExpectedEmit, logs: seq<Log>, i: nat)
    requires i < |logs|
    ensures FindsLater(e, logs, i) <==> MayFind(e, logs[..i + 1]) || FindsLater(e, logs, i + 1)
    ensures MissesLater(e, logs, i) <==> MayMiss(e, logs[..i + 1]) && MissesLater(e, logs, i + 1)
  {
  }

  /** A run that has not found the expectation after `logs[..i]` ends found only if it may be found at
      some later log, and pending only if it may be missed at every later one. */
  lemma {:induction false} RunIsPossible(entry: Entry, e: ExpectedEmit, logs: seq<Log>, i: nat, q': Queue)
    requires i <= |logs| && AnyEmitter(e) && Tracks(entry, e, logs[..i]) && Observes([entry], logs[i..], q')
    ensures |q'| == 1
    ensures if q'[0].emit.found then FindsLater(e, logs, i) else MissesLater(e, logs, i) && q'[0].emit.count == e.count
    decreases |logs| - i
  {
    if i < |logs| {
      assert logs[..i] + [logs[i]] == logs[..i + 1] && logs[i..][1..] == logs[i + 1..];
      var mid: Queue, reason :| Step([entry], logs[i], mid, reason) && Observes(mid, logs[i + 1..], q');
      OnlyPossible(entry, e, logs[..i], logs[i], mid);
      OneEarlier(e, logs, i);
      assert mid == [mid[0]];
      if mid[0].emit.found {
        FoundStays(mid[0], logs[i + 1..], q');
      } else {
        RunIsPossible(mid[0], e, logs, i + 1, q');
      }
    }
  }

  /** If it may be missed at every later log, some run misses it. */
  lemma {:induction false} MissingRun(entry: Entry, e: ExpectedEmit, logs: seq<Log>, i: nat) returns (last: Entry)
    requires i <= |logs| && AnyEmitter(e) && Tracks(entry, e, logs[..i])
    requires MissesLater(e, logs, i)
    ensures Observes([entry], logs[i..], [last]) && Pending(last.emit)
    decreases |logs| - i
  {
    last := entry;
    if i < |logs| {
      assert logs[..i] + [logs[i]] == logs[..i + 1] && [logs[i]] + logs[i + 1..] == logs[i..];
      OneEarlier(e, logs, i);
      var next := OneStep(entry, e, logs[..i], logs[i], false);
      last := MissingRun(next, e, logs, i + 1);
      ObservesCons([entry], logs[i], [next], logs[i + 1..], [last]);
    }
  }

  /** If it may be found at some later log, some run finds it. */
  lemma {:induction false} FindingRun(entry: Entry, e: ExpectedEmit, logs: seq<Log>, i: nat, k: nat)
    returns (last: Entry)
    requires AnyEmitter(e) && i < k <= |logs| && Tracks(entry, e, logs[..i]) && MayFind(e, logs[..k])
    ensures Observes([entry], logs[i..], [last]) && last.emit.found
    decreases |logs| - i
  {
    assert logs[..i] + [logs[i]] == logs[..i + 1] && [logs[i]] + logs[i + 1..] == logs[i..];
    FindOrMiss(e, logs[..i + 1]);
    if MayFind(e, logs[..i + 1]) {
      last := OneStep(entry, e, logs[..i], logs[i], true);
      FoundStays(last, logs[i + 1..], [last]);
      ObservesCons([entry], logs[i], [last], logs[i + 1..], [last]);
    } else {
      var next := OneStep(entry, e, logs[..i], logs[i], false);
      last := FindingRun(next, e, logs, i + 1, k);
      ObservesCons([entry], logs[i], [next], logs[i + 1..], [last]);
    }
  }

  // ----- what a trace decides -----

  /** The root end passes: nothing that expects a log is left over. */
  predicate Passes(q: Queue) {
    Leftover(q) == []
  }

  lemma OnePasses(e: Entry)
    ensures Passes([e]) <==> !Pending(e.emit)
  {
    LeftoverOne(e);
  }

  /** Some emitter sent enough. */
  ghost predicate SomeoneSent(e: ExpectedEmit, logs: seq<Log>) {
    exists a :: Sent(e, logs, a) >= e.count
  }

  lemma {:induction false} WhenSent(e: ExpectedEmit, logs: seq<Log>, a: Address) returns (k: nat)
    requires AnyEmitter(e) && Sent(e, logs, a) >= e.count
    ensures 0 < k <= |logs| && MayFind(e, logs[..k])
  {
    var n := |logs| - 1;
    if Sent(e, logs[..n], a) >= e.count {
      k := WhenSent(e, logs[..n], a);
      assert logs[..n][..k] == logs[..k];
    } else {
      k := |logs|;
      assert logs[..k] == logs;
      assert LastMatches(e, logs) && Sent(e, logs, a) > 0;
    }
  }

  /** Some run over the trace passes the root end if and only if some single emitter sent the expected
      number of matching logs. */
  lemma SomeRunPassesIff(e: ExpectedEmit, logs: seq<Log>)
    requires AnyEmitter(e)
    ensures (exists q' :: Observes([Entry(e, map[])], logs, q') && Passes(q')) <==> SomeoneSent(e, logs)
  {
    var start := Entry(e, map[]);
    TracksFresh(e);
    assert logs[..0] == [] && logs[0..] == logs;
    if q': Queue :| Observes([start], logs, q') && Passes(q') {
      RunIsPossible(start, e, logs, 0, q');
      RootPassesIff(q');
      assert q'[0].emit.found;
      var k :| 0 < k <= |logs| && MayFind(e, logs[..k]);
      var a :| Sent(e, logs[..k], a) > 0 && Sent(e, logs[..k], a) >= e.count;
      SentGrows(e, logs, k, a);
    }
    if SomeoneSent(e, logs) {
      var a :| Sent(e, logs, a) >= e.count;
      var k := WhenSent(e, logs, a);
      var last := FindingRun(start, e, logs, 0, k);
      OnePasses(last);
    }
  }

  /** The last log of `seen` matches, and everyone who sent a match sent enough. */
  ghost predicate EveryoneSent(e: ExpectedEmit, seen: seq<Log>) {
    LastMatches(e, seen) && forall a :: Sent(e, seen, a) == 0 || Sent(e, seen, a) >= e.count
  }

  /** Every run over the trace passes the root end if and only if right after some matching log everyone
      who had sent a match had sent the expected number. */
  lemma EveryRunPassesIff(e: ExpectedEmit, logs: seq<Log>)
    requires AnyEmitter(e)
    ensures (forall q' :: Observes([Entry(e, map[])], logs, q') ==> Passes(q')) <==>
      exists k | 0 < k <= |logs| :: EveryoneSent(e, logs[..k])
  {
    var start := Entry(e, map[]);
    TracksFresh(e);
    assert logs[..0] == [] && logs[0..] == logs;
    forall k | 0 < k <= |logs| ensures EveryoneSent(e, logs[..k]) <==> !MayMiss(e, logs[..k]) {
      MissIff(e, logs[..k]);
    }
    if k :| 0 < k <= |logs| && EveryoneSent(e, logs[..k]) {
      forall q' | Observes([start], logs, q') ensures Passes(q') {
        RunIsPossible(start, e, logs, 0, q');
        RootPassesIff(q');
        assert !MayMiss(e, logs[..k]);
      }
    } else {
      var last := MissingRun(start, e, logs, 0);
      OnePasses(last);
    }
  }

  lemma MissIff(e: ExpectedEmit, seen: seq<Log>)
    ensures EveryoneSent(e, seen) <==> !MayMiss(e, seen)
  {
  }

  // ----- what a trace decides at the call end -----

  /** The last log of `seen` matches, and `a` alone sent matches, `n` of them. */
  ghost predicate Alone(e: ExpectedEmit, seen: seq<Log>, n: nat, a: Address) {
    LastMatches(e, seen) && Sent(e, seen, a) == n && forall b | b != a :: Sent(e, seen, b) == 0
  }

  lemma {:induction false} SentCons(e: ExpectedEmit, log: Log, logs: seq<Log>, a: Address)
    ensures Sent(e, [log] + logs, a) == Sent(e, logs, a) + if log.address == a && Matches(e, log) then 1 else 0
  {
    if logs == [] {
      assert [log] + logs == [] + [log];
      SentSnoc(e, [], log, a);
    } else {
      var n := |logs| - 1;
      SentCons(e, log, logs[..n], a);
      assert [log] + logs == ([log] + logs[..n]) + [logs[n]];
      SentSnoc(e, [log] + logs[..n], logs[n], a);
    }
  }

  /** The first `n` matches come from `a`. */
  ghost predicate TakesFrom(e: ExpectedEmit, n: nat, logs: seq<Log>, a: Address) {
    var taken := TakeMatches(e, n, logs);
    taken.Some? && AllFrom(taken.value.0, a)
  }

  lemma TakesFromCons(e: ExpectedEmit, n: nat, log: Log, logs: seq<Log>, a: Address)
    requires n > 0
    ensures TakesFrom(e, n, [log] + logs, a) <==>
      if Matches(e, log) then log.address == a && TakesFrom(e, n - 1, logs, a) else TakesFrom(e, n, logs, a)
  {
    TakeOne(e, n, log, logs);
    var rest := TakeMatches(e, n - 1, logs);
    if Matches(e, log) && rest.Some? {
      var taken := [log] + rest.value.0;
      assert taken[0] == log && taken[1..] == rest.value.0;
      assert forall l | l in rest.value.0 :: l in taken;
    }
  }

  ghost predicate SometimeAlone(e: ExpectedEmit, n: nat, logs: seq<Log>, a: Address) {
    exists k | 0 < k <= |logs| :: Alone(e, logs[..k], n, a)
  }

  lemma AloneCons(e: ExpectedEmit, log: Log, seen: seq<Log>, n: nat, a: Address)
    requires seen != []
    ensures Alone(e, [log] + seen, n, a) <==>
      if !Matches(e, log) then Alone(e, seen, n, a)
      else log.address == a && n > 0 && Alone(e, seen, n - 1, a)
  {
    forall b
      ensures Sent(e, [log] + seen, b) == Sent(e, seen, b) + if log.address == b && Matches(e, log) then 1 else 0
    {
      SentCons(e, log, seen, b);
    }
    assert ([log] + seen)[|seen|] == seen[|seen| - 1];
    if Matches(e, log) && log.address != a {
      assert Sent(e, [log] + seen, log.address) > 0;
    }
  }

  lemma AloneOne(e: ExpectedEmit, log: Log, n: nat, a: Address)
    ensures Alone(e, [log], n, a) <==> Matches(e, log) && log.address == a && n == 1
  {
    assert [log] == [] + [log];
    forall b ensures Sent(e, [log], b) == if log.address == b && Matches(e, log) then 1 else 0 {
      SentSnoc(e, [], log, b);
    }
    if Matches(e, log) && log.address != a {
      assert Sent(e, [log], log.address) > 0;
    }
  }

  lemma SometimeAloneCons(e: ExpectedEmit, n: nat, log: Log, logs: seq<Log>, a: Address)
    requires n > 0
    ensures SometimeAlone(e, n, [log] + logs, a) <==>
      if !Matches(e, log) then SometimeAlone(e, n, logs, a)
      else log.address == a && (n == 1 || SometimeAlone(e, n - 1, logs, a))
  {
    var all := [log] + logs;
    forall k | 0 < k <= |logs| ensures all[..k + 1] == [log] + logs[..k] {
    }
    assert all[..1] == [log];
    AloneOne(e, log, n, a);
    forall k | 0 < k <= |logs|
      ensures Alone(e, all[..k + 1], n, a) <==>
        if !Matches(e, log) then Alone(e, logs[..k], n, a) else log.address == a && Alone(e, logs[..k], n - 1, a)
    {
      AloneCons(e, log, logs[..k], n, a);
    }
    if k :| 0 < k <= |all| && Alone(e, all[..k], n, a) {
      if k > 1 {
        assert all[..k] == [log] + logs[..k - 1];
      }
    }
    if k :| 0 < k <= |logs| && Alone(e, logs[..k], if Matches(e, log) then n - 1 else n, a) {
      assert !Matches(e, log) || log.address == a ==> Alone(e, all[..k + 1], n, a);
    }
  }

  /** The first matches come from `a` exactly when at some point `a` alone has sent that many. */
  lemma {:induction false} TakesFromIff(e: ExpectedEmit, n: nat, logs: seq<Log>, a: Address)
    requires n > 0
    ensures TakesFrom(e, n, logs, a) <==> SometimeAlone(e, n, logs, a)
    decreases |logs|
  {
    if logs != [] {
      var log, rest := logs[0], logs[1..];
      assert logs == [log] + rest;
      TakesFromCons(e, n, log, rest, a);
      SometimeAloneCons(e, n, log, rest, a);
      if !Matches(e, log) {
        TakesFromIff(e, n, rest, a);
      } else if n > 1 {
        TakesFromIff(e, n - 1, rest, a);
      }
    }
  }

  lemma {:induction false} TakenCount(e: ExpectedEmit, n: nat, logs: seq<Log>)
    ensures TakeMatches(e, n, logs).Some? ==> |TakeMatches(e, n, logs).value.0| == n
    decreases |logs|
  {
    if n > 0 && logs != [] {
      TakenCount(e, n, logs[1..]);
      TakenCount(e, n - 1, logs[1..]);
    }
  }

  /** One expectation takes its turn exactly when some single emitter sends its first matches. */
  lemma InTurnOne(e: ExpectedEmit, logs: seq<Log>)
    requires AnyEmitter(e)
    ensures InTurn([e], logs) <==> exists a :: TakesFrom(e, e.count, logs, a)
  {
    var taken := TakeMatches(e, e.count, logs);
    assert [e][1..] == [];
    TakenCount(e, e.count, logs);
    if taken.Some? && e.count == 1 {
      var first := taken.value.0[0];
      assert taken.value.0 == [first];
      assert AllFrom([first], first.address);
      assert TakesFrom(e, e.count, logs, first.address);
    }
    forall a | taken.Some? && AllFrom(taken.value.0, a) ensures TakesFrom(e, e.count, logs, a) {
    }
  }

  /** Whatever the hash order, the call end passes if and only if right after some matching log a single
      emitter has sent the expected number of matching logs and nobody else any. */
  lemma CallEndPassesIff(e: ExpectedEmit, logs: seq<Log>, q': Queue, succeeded: bool)
    requires AnyEmitter(e) && Observes([Entry(e, map[])], logs, q')
    ensures CallEnd(q', e.depth, false, succeeded) == (None, []) <==>
      exists k, a | 0 < k <= |logs| :: Alone(e, logs[..k], e.count, a)
  {
    var q := [Entry(e, map[])];
    assert q[0].emit.depth == e.depth && Expected(q) == [e];
    forall log ensures !Forbidden(q, log) {
    }
    AllPermitted(q, logs);
    CallPassesIff(q, logs, q', e.depth, succeeded);
    InTurnOne(e, logs);
    forall a ensures TakesFrom(e, e.count, logs, a) <==> SometimeAlone(e, e.count, logs, a) {
      TakesFromIff(e, e.count, logs, a);
    }
    if k, a :| 0 < k <= |logs| && Alone(e, logs[..k], e.count, a) {
      assert SometimeAlone(e, e.count, logs, a);
    }
  }

  /** Where the call end fails, hash order decides which failure it reports: a wrong count if the run found
      the expectation, an unmatched expectation if it did not. */
  lemma FailureReported(e: ExpectedEmit, logs: seq<Log>, q': Queue)
    requires AnyEmitter(e) && Observes([Entry(e, map[])], logs, q')
    requires forall k, a | 0 < k <= |logs| :: !Alone(e, logs[..k], e.count, a)
    ensures var failure := CallEnd(q', e.depth, false, true).0;
      failure.Some? && if Passes(q') then failure.value.WrongCount? else failure.value.Unmatched?
  {
    var q := [Entry(e, map[])];
    assert q[0].emit.depth == e.depth;
    CallEndPassesIff(e, logs, q', true);
    FreshQueueInvariant(q);
    StaysTracked(q, logs, q', e.depth);
    RootPassesIff(q');
  }

  // ----- which expectations hash order decides -----

  /** All runs over every trace end in the same verdict of the root end. */
  ghost predicate VerdictsAgree(q: Queue) {
    forall logs, a, b :: Observes(q, logs, a) && Observes(q, logs, b) ==> (Passes(a) <==> Passes(b))
  }

  /** One log from `y`, then `n` from `x`. */
  function ContestedTrace(data: RawLog, x: Address, y: Address, n: nat): seq<Log> {
    if n == 0 then [Log(y, data)] else ContestedTrace(data, x, y, n - 1) + [Log(x, data)]
  }

  lemma {:induction false} ContestedSent(e: ExpectedEmit, x: Address, y: Address, n: nat)
    requires AnyEmitter(e) && x != y
    ensures var logs := ContestedTrace(e.log.value, x, y, n);
      |logs| == n + 1 && Sent(e, logs, x) == n && Sent(e, logs, y) == 1
  {
    var data := e.log.value;
    if n == 0 {
      assert ContestedTrace(data, x, y, 0) == [] + [Log(y, data)];
      SentSnoc(e, [], Log(y, data), x);
      SentSnoc(e, [], Log(y, data), y);
    } else {
      ContestedSent(e, x, y, n - 1);
      SentSnoc(e, ContestedTrace(data, x, y, n - 1), Log(x, data), x);
      SentSnoc(e, ContestedTrace(data, x, y, n - 1), Log(x, data), y);
    }
  }

  lemma {:induction false} ContestedPrefix(data: RawLog, x: Address, y: Address, n: nat, k: nat)
    requires 0 < k <= |ContestedTrace(data, x, y, n)|
    ensures |ContestedTrace(data, x, y, n)| == n + 1
    ensures ContestedTrace(data, x, y, n)[..k] == ContestedTrace(data, x, y, k - 1)
  {
    if k <= n {
      ContestedLength(data, x, y, n - 1);
      ContestedPrefix(data, x, y, n - 1, k);
    } else {
      ContestedLength(data, x, y, n);
    }
  }

  lemma {:induction false} ContestedLength(data: RawLog, x: Address, y: Address, n: nat)
    ensures |ContestedTrace(data, x, y, n)| == n + 1
  {
    if n > 0 {
      ContestedLength(data, x, y, n - 1);
    }
  }

  /** For every expectation of several logs from any emitter there is a trace that passes the root end in
      one run and fails it in another. At the call end both runs fail: one for a wrong count, the other
      for an unmatched expectation. */
  lemma ContestedVerdict(e: ExpectedEmit, x: Address, y: Address) returns (logs: seq<Log>, a: Queue, b: Queue)
    requires AnyEmitter(e) && e.count > 1 && x != y
    ensures Observes([Entry(e, map[])], logs, a) && Passes(a)
    ensures Observes([Entry(e, map[])], logs, b) && !Passes(b)
    ensures CallEnd(a, e.depth, false, true).0.Some? && CallEnd(a, e.depth, false, true).0.value.WrongCount?
    ensures CallEnd(b, e.depth, false, true).0.Some? && CallEnd(b, e.depth, false, true).0.value.Unmatched?
  {
    logs := ContestedTrace(e.log.value, x, y, e.count);
    ContestedSent(e, x, y, e.count);
    SomeRunPassesIff(e, logs);
    assert SomeoneSent(e, logs);
    a :| Observes([Entry(e, map[])], logs, a) && Passes(a);
    forall k | 0 < k <= |logs| ensures Sent(e, logs[..k], y) == 1 {
      ContestedPrefix(e.log.value, x, y, e.count, k);
      ContestedSent(e, x, y, k - 1);
    }
    EveryRunPassesIff(e, logs);
    b :| Observes([Entry(e, map[])], logs, b) && !Passes(b);
    FailureReported(e, logs, a);
    FailureReported(e, logs, b);
  }

  /** Hash order never decides the root end for an expectation exactly when it names its emitter or
      expects at most one log. */
  lemma VerdictsAgreeIff(e: ExpectedEmit)
    requires e.log.Some? && !e.found
    ensures VerdictsAgree([Entry(e, map[])]) <==> Deterministic(e)
  {
    var q := [Entry(e, map[])];
    if Deterministic(e) {
      forall logs, a, b | Observes(q, logs, a) && Observes(q, logs, b) ensures Passes(a) <==> Passes(b) {
        MatchingIsComplete(q, logs, a);
        MatchingIsComplete(q, logs, b);
        RootPassesIff(a);
        RootPassesIff(b);
      }
    } else {
      var logs, a, b := ContestedVerdict(e, 0, 1);
    }
  }
}
