/**
 What passes a call end, for every queue of filled expectations of the `expectEmit` tracker: each
 expectation in turn takes the first matching logs after those of its predecessor, as many as it
 expects, and one of several logs from any emitter takes them from one single emitter. Whatever the
 order of a hash map, all runs over a trace agree on this.
 */
module ExpectEmitTurns {
  import opened Common
  import opened ExpectEmit
  import opened ExpectEmitProperties
  import opened ExpectEmitMatching

  // ----- taking turns -----

  /** The first `n` matching logs, and what comes after the last of them. */
  function TakeMatches(e: ExpectedEmit, n: nat, logs: seq<Log>): Option<(seq<Log>, seq<Log>)> {
    if n == 0 then Some(([], logs))
    else if logs == [] then None
    else if !Matches(e, logs[0]) then TakeMatches(e, n, logs[1..])
    else
      var rest := TakeMatches(e, n - 1, logs[1..]);
      if rest.Some? then Some(([logs[0]] + rest.value.0, rest.value.1)) else None
  }

  ghost predicate AllFrom(logs: seq<Log>, a: Address) {
    forall l | l in logs :: l.address == a
  }

  /** Each expectation takes its matches after those of its predecessor. */
  ghost predicate InTurn(expected: seq<ExpectedEmit>, logs: seq<Log>)
    decreases |expected|
  {
    expected == [] ||
    var taken := TakeMatches(expected[0], expected[0].count, logs);
    && taken.Some?
    && (Deterministic(expected[0]) || exists a :: AllFrom(taken.value.0, a))
    && InTurn(expected[1..], taken.value.1)
  }

  // ----- turns from any state -----

  /** The matching logs counted so far. */
  ghost function Progress(e: Entry): nat {
    if e.emit.address.Some? then Seen(e) else Sum(CountsPerEmitter(e))
  }

  /** The matching logs still to come. */
  ghost function Left(e: Entry): nat {
    if e.emit.count <= Progress(e) then 0 else e.emit.count - Progress(e)
  }

  /** The logs counted and the logs taken suit the expectation: if it expects several from any emitter,
      they all came from one. */
  ghost predicate Pure(e: Entry, taken: seq<Log>) {
    Deterministic(e.emit) || exists a :: OnlySender(e, a) && AllFrom(taken, a)
  }

  /** The pending entries of `q` can still pass with the logs to come. */
  ghost predicate Turn(q: Queue, logs: seq<Log>)
    decreases |q|
  {
    q == [] ||
    var taken := TakeMatches(q[0].emit, Left(q[0]), logs);
    taken.Some? && Pure(q[0], taken.value.0) && Turn(q[1..], taken.value.1)
  }

  lemma TurnCons(e: Entry, rest: Queue, logs: seq<Log>)
    ensures Turn([e] + rest, logs) <==>
      var taken := TakeMatches(e.emit, Left(e), logs);
      taken.Some? && Pure(e, taken.value.0) && Turn(rest, taken.value.1)
  {
    assert ([e] + rest)[1..] == rest;
  }

  lemma TakeOne(e: ExpectedEmit, n: nat, log: Log, logs: seq<Log>)
    requires n > 0
    ensures TakeMatches(e, n, [log] + logs) ==
      if !Matches(e, log) then TakeMatches(e, n, logs)
      else
        var rest := TakeMatches(e, n - 1, logs);
        if rest.Some? then Some(([log] + rest.value.0, rest.value.1)) else None
  {
    assert ([log] + logs)[1..] == logs;
  }

  /** Which logs match does not depend on the progress of matching. */
  lemma {:induction false} TakeSame(e: ExpectedEmit, e': ExpectedEmit, n: nat, logs: seq<Log>)
    requires e' == e.(found := e'.found, mismatch := e'.mismatch)
    ensures TakeMatches(e', n, logs) == TakeMatches(e, n, logs)
    decreases |logs|, n
  {
    if n > 0 && logs != [] {
      assert Matches(e', logs[0]) <==> Matches(e, logs[0]);
      if Matches(e, logs[0]) {
        TakeSame(e, e', n - 1, logs[1..]);
      } else {
        TakeSame(e, e', n, logs[1..]);
      }
    }
  }

  // ----- one log at the entry whose turn it is -----

  ghost predicate Waiting(e: Entry) {
    EntryOk(e) && e.emit.log.Some? && Pending(e.emit)
  }

  /** Several logs from any emitter. */
  predicate Several(e: ExpectedEmit) {
    e.address.None? && e.count > 1
  }

  ghost predicate Contested(e: Entry) {
    Several(e.emit) && exists a, b | a in e.counts && b in e.counts :: a != b
  }

  lemma ContestedIsImpure(e: Entry, taken: seq<Log>)
    requires Contested(e)
    ensures !Pure(e, taken)
  {
    var a, b :| a in e.counts && b in e.counts && a != b;
  }

  /** Once contested, an expectation is miscounted if it is ever found. */
  lemma ContestedIsMiscounted(e: Entry)
    requires EntryOk(e) && e.emit.log.Some? && e.emit.found && Contested(e)
    ensures FinalCount(e) != e.emit.count
  {
    var x :| x in e.counts && e.counts[x].CountUnchecked() >= e.emit.count;
    var a, b :| a in e.counts && b in e.counts && a != b;
    MoreThanOne(e, x, if a == x then b else a);
  }

  lemma MoreThanOne(e: Entry, x: Address, y: Address)
    requires CountersOk(e) && e.emit.log.Some? && x in e.counts && y in e.counts && x != y
    ensures Sum(CountsPerEmitter(e)) > e.counts[x].CountUnchecked()
  {
    PerEmitter(e);
    assert CounterOk(e.emit, e.counts[y]);
    SumRemove(CountsPerEmitter(e), x);
    SumAtLeast(CountsPerEmitter(e) - {x}, y);
  }

  /** An entry that waits has something left to wait for, unless it is contested. */
  lemma SomethingLeft(e: Entry)
    requires Waiting(e) && !Contested(e)
    ensures Left(e) > 0
  {
    if e.emit.address.None? {
      if e.counts == map[] {
        assert CountsPerEmitter(e) == map[];
      } else {
        var a :| a in e.counts;
        if e.emit.count > 1 {
          assert OnlySender(e, a);
          assert e.counts.Keys == {a};
          OneEmitter(e, a);
        }
      }
    }
  }

  /** A log that does not match changes nothing that counts. */
  lemma MissKeeps(e: Entry, log: Log, found: bool)
    requires Waiting(e) && !Matches(e.emit, log) && MayDecide(CountLog(e, log), log, found)
    ensures var e' := Examined(e, log, found);
      !found && Progress(e') == Progress(e) && (e.emit.address.None? ==> e'.counts == e.counts)
  {
    CountLogCounts(e, log);
    if e.emit.address.Some? {
      BoundProgress(e, log, found);
    } else {
      assert CountsPerEmitter(Examined(e, log, found)) == CountsPerEmitter(e);
    }
  }

  /** A log that matches counts once, for its sender. */
  lemma MatchAdds(e: Entry, log: Log, found: bool)
    requires Waiting(e) && Matches(e.emit, log) && MayDecide(CountLog(e, log), log, found)
    ensures var e' := Examined(e, log, found);
      && Progress(e') == Progress(e) + 1
      && (e.emit.address.None? ==> e'.counts.Keys == e.counts.Keys + {log.address})
  {
    CountLogCounts(e, log);
    if e.emit.address.Some? {
      BoundProgress(e, log, found);
    } else {
      TotalGrows(e, log, Examined(e, log, found));
    }
  }

  lemma TotalGrows(e: Entry, log: Log, e': Entry)
    requires EntryOk(e) && e.emit.log.Some? && e.emit.address.None? && Matches(e.emit, log)
    requires e'.counts == CountLog(e, log).counts && e'.emit.log == e.emit.log
    ensures Sum(CountsPerEmitter(e')) == Sum(CountsPerEmitter(e)) + 1
  {
    var c := CountLog(e, log);
    CountLogCounts(e, log);
    assert CountsPerEmitter(e') == CountsPerEmitter(c);
    PerEmitter(e);
    PerEmitter(c);
    OneMore(CountsPerEmitter(e), CountsPerEmitter(c), log.address);
  }

  /** A map in which one value is one more, or new and one. */
  lemma OneMore(m: map<Address, nat>, m': map<Address, nat>, a: Address)
    requires m'.Keys == m.Keys + {a} && m'[a] == (if a in m then m[a] else 0) + 1
    requires forall b | b in m && b != a :: m'[b] == m[b]
    ensures Sum(m') == Sum(m) + 1
  {
    assert m' == m[a := m'[a]];
    if a in m {
      SumUpdate(m, a, m'[a]);
    } else {
      SumInsert(m, a, m'[a]);
    }
  }

  /** All counted logs pass the checks, so each counter counts in full. */
  lemma PerEmitter(e: Entry)
    requires CountersOk(e) && e.emit.log.Some?
    ensures CountsPerEmitter(e).Keys == e.counts.Keys
    ensures forall a | a in e.counts :: CountsPerEmitter(e)[a] == e.counts[a].CountUnchecked()
  {
    forall a | a in e.counts ensures CountsPerEmitter(e)[a] == e.counts[a].CountUnchecked() {
      assert CounterOk(e.emit, e.counts[a]);
    }
  }

  /** While only one emitter sends, the expectation is found exactly at the last log it waits for, and then
      with the right count. */
  lemma FoundAtLast(e: Entry, log: Log, found: bool)
    requires Waiting(e) && Matches(e.emit, log) && MayDecide(CountLog(e, log), log, found)
    requires !Contested(Examined(e, log, found))
    ensures found <==> Left(e) == 1
    ensures found ==> FinalCount(Examined(e, log, found)) == e.emit.count
  {
    ExaminedOk(e, log, found);
    MatchAdds(e, log, found);
    var e' := Examined(e, log, found);
    if Deterministic(e.emit) {
      if e.emit.address.Some? {
        BoundProgress(e, log, found);
      } else {
        AnyEmitterOnce(e, log, found);
        assert CountsPerEmitter(Entry(e.emit, map[])) == map[];
      }
      if found {
        SettledCount(e');
      }
    } else {
      LoneFoundAtLast(e, log, found);
    }
  }

  lemma LoneFoundAtLast(e: Entry, log: Log, found: bool)
    requires Waiting(e) && Several(e.emit) && Matches(e.emit, log) && MayDecide(CountLog(e, log), log, found)
    requires !Contested(Examined(e, log, found))
    ensures found <==> Left(e) == 1
    ensures found ==> FinalCount(Examined(e, log, found)) == e.emit.count
  {
    ExaminedOk(e, log, found);
    MatchAdds(e, log, found);
    CountLogCounts(e, log);
    var e', a := Examined(e, log, found), log.address;
    assert e'.counts.Keys == {a};
    OneEmitter(e', a);
    assert !Contested(e);
    SomethingLeft(e);
    assert e'.counts[a].SatisfiesChecks(log.data);
  }

  lemma HeadMisses(e: Entry, rest: Queue, log: Log, logs: seq<Log>, found: bool)
    requires Waiting(e) && !Matches(e.emit, log) && MayDecide(CountLog(e, log), log, found)
    ensures Turn([e] + rest, [log] + logs) <==> Turn([Examined(e, log, found)] + rest, logs)
  {
    var e' := Examined(e, log, found);
    MissKeeps(e, log, found);
    TurnCons(e, rest, [log] + logs);
    TurnCons(e', rest, logs);
    if Contested(e) {
      ImpureEnds(e, rest, [log] + logs);
      ImpureEnds(e', rest, logs);
    } else {
      SomethingLeft(e);
      TakeOne(e.emit, Left(e), log, logs);
      TakeSame(e.emit, e'.emit, Left(e), logs);
      SamePurity(e, e', TakeMatches(e.emit, Left(e), logs));
    }
  }

  lemma SamePurity(e: Entry, e': Entry, taken: Option<(seq<Log>, seq<Log>)>)
    requires e'.emit == e.emit.(found := e'.emit.found, mismatch := e'.emit.mismatch)
    requires e.emit.address.None? ==> e'.counts == e.counts
    ensures taken.Some? ==> (Pure(e, taken.value.0) <==> Pure(e', taken.value.0))
  {
    if e.emit.address.None? {
      assert forall a :: OnlySender(e, a) <==> OnlySender(e', a);
    }
  }

  lemma ImpureEnds(e: Entry, rest: Queue, logs: seq<Log>)
    requires Contested(e)
    ensures !Turn([e] + rest, logs)
  {
    TurnCons(e, rest, logs);
    var taken := TakeMatches(e.emit, Left(e), logs);
    ContestedIsImpure(e, if taken.Some? then taken.value.0 else []);
  }

  /** A second sender spoils the expectation for good. */
  lemma HeadSpoilt(e: Entry, rest: Queue, log: Log, logs: seq<Log>, found: bool)
    requires Waiting(e) && Matches(e.emit, log) && MayDecide(CountLog(e, log), log, found)
    requires Contested(Examined(e, log, found))
    ensures !Turn([e] + rest, [log] + logs)
    ensures if found then FinalCount(Examined(e, log, found)) != e.emit.count
            else !Turn([Examined(e, log, found)] + rest, logs)
  {
    var e' := Examined(e, log, found);
    ExaminedOk(e, log, found);
    MatchAdds(e, log, found);
    if found {
      ContestedIsMiscounted(e');
    } else {
      ImpureEnds(e', rest, logs);
    }
    if Contested(e) {
      ImpureEnds(e, rest, [log] + logs);
    } else {
      SomethingLeft(e);
      TakeOne(e.emit, Left(e), log, logs);
      TurnCons(e, rest, [log] + logs);
      var taken := TakeMatches(e.emit, Left(e), [log] + logs);
      if taken.Some? {
        TwoSenders(e, e', log, taken.value.0);
      }
    }
  }

  lemma TwoSenders(e: Entry, e': Entry, log: Log, taken: seq<Log>)
    requires Contested(e') && e'.counts.Keys == e.counts.Keys + {log.address} && log in taken && Several(e.emit)
    ensures !Pure(e, taken)
  {
    var x, y :| x in e'.counts && y in e'.counts && x != y;
    assert x in e'.counts.Keys && y in e'.counts.Keys;
    forall a | OnlySender(e, a) ensures !AllFrom(taken, a) {
      assert log.address != a;
    }
  }

  lemma LoneSender(e: Entry, e': Entry, log: Log, taken: seq<Log>)
    requires !Contested(e') && Several(e.emit) && Several(e'.emit)
    requires e'.counts.Keys == e.counts.Keys + {log.address}
    ensures Pure(e, [log] + taken) <==> Pure(e', taken)
    ensures Pure(e, [log])
  {
    var s := log.address;
    assert s in e'.counts.Keys;
    forall b | b in e.counts ensures b == s {
      assert b in e'.counts.Keys;
    }
    assert OnlySender(e, s) && OnlySender(e', s) && AllFrom([log], s);
    forall a | OnlySender(e', a) ensures a == s {
    }
    forall a | AllFrom([log] + taken, a) ensures a == s && AllFrom(taken, a) {
      assert log in [log] + taken;
      assert forall l | l in taken :: l in [log] + taken;
    }
    assert AllFrom(taken, s) ==> AllFrom([log] + taken, s);
  }

  lemma HeadMatches(e: Entry, rest: Queue, log: Log, logs: seq<Log>, found: bool)
    requires Waiting(e) && Matches(e.emit, log) && MayDecide(CountLog(e, log), log, found)
    requires !Contested(Examined(e, log, found))
    ensures Turn([e] + rest, [log] + logs) <==>
      if found then Turn(rest, logs) else Turn([Examined(e, log, found)] + rest, logs)
  {
    var e' := Examined(e, log, found);
    MatchAdds(e, log, found);
    FoundAtLast(e, log, found);
    NotYetContested(e, e');
    SomethingLeft(e);
    OneLess(e, e', rest, log, logs);
    if !found {
      TurnCons(e', rest, logs);
    }
  }

  /** A log counted is one less to take. */
  lemma OneLess(e: Entry, e': Entry, rest: Queue, log: Log, logs: seq<Log>)
    requires Left(e) > 0 && Matches(e.emit, log) && !Contested(e')
    requires e'.emit == e.emit.(found := e'.emit.found, mismatch := e'.emit.mismatch)
    requires e.emit.address.None? ==> e'.counts.Keys == e.counts.Keys + {log.address}
    ensures var tail := TakeMatches(e'.emit, Left(e) - 1, logs);
      Turn([e] + rest, [log] + logs) <==> tail.Some? && Pure(e', tail.value.0) && Turn(rest, tail.value.1)
    ensures Left(e) == 1 ==> (Turn([e] + rest, [log] + logs) <==> Turn(rest, logs))
  {
    TurnCons(e, rest, [log] + logs);
    TakeOne(e.emit, Left(e), log, logs);
    TakeSame(e.emit, e'.emit, Left(e) - 1, logs);
    var tail := TakeMatches(e.emit, Left(e) - 1, logs);
    if Several(e.emit) {
      LoneSender(e, e', log, if tail.Some? then tail.value.0 else []);
      assert [log] + [] == [log];
    }
  }

  lemma NotYetContested(e: Entry, e': Entry)
    requires !Contested(e') && Several(e'.emit) == Several(e.emit)
    requires e.emit.address.None? ==> e.counts.Keys <= e'.counts.Keys
    ensures !Contested(e)
  {
    forall a | a in e.counts && e.emit.address.None? ensures a in e'.counts {
      assert a in e.counts.Keys;
    }
  }

  /** One log at the entry whose turn it is, whatever the verdict. */
  lemma TurnStep(e: Entry, rest: Queue, log: Log, logs: seq<Log>, found: bool)
    requires Waiting(e) && MayDecide(CountLog(e, log), log, found)
    ensures Turn([e] + rest, [log] + logs) <==>
      if found then FinalCount(Examined(e, log, found)) == e.emit.count && Turn(rest, logs)
      else Turn([Examined(e, log, found)] + rest, logs)
  {
    if !Matches(e.emit, log) {
      HeadMisses(e, rest, log, logs, found);
    } else if Contested(Examined(e, log, found)) {
      HeadSpoilt(e, rest, log, logs, found);
    } else {
      HeadMatches(e, rest, log, logs, found);
      FoundAtLast(e, log, found);
    }
  }

  // ----- one log at the queue -----

  /** Whatever is settled has the right count. */
  ghost predicate Exact(q: Queue) {
    forall i | 0 <= i < |q| :: !Pending(q[i].emit) ==> FinalCount(q[i]) == q[i].emit.count
  }

  /** The call end passes if nothing but `logs` is still to come. */
  ghost predicate WillPass(q: Queue, logs: seq<Log>) {
    Exact(q) && Turn(Leftover(q), logs)
  }

  lemma {:induction false} NothingLeftover(q: Queue)
    requires forall i | 0 <= i < |q| :: !Pending(q[i].emit)
    ensures Leftover(q) == []
  {
    if q != [] {
      NothingLeftover(q[1..]);
    }
  }

  lemma LeftoverOne(e: Entry)
    ensures Leftover([e]) == if Pending(e.emit) then [e] else []
  {
    assert [e][1..] == [];
  }

  /** The first pending entry heads the leftover ones. */
  lemma LeftoverFromPending(q: Queue, i: nat)
    requires i < |q| && i == FirstPending(q)
    ensures Leftover(q) == [q[i]] + Leftover(Without(q, i))
  {
    SplitAround(q, i);
    NothingLeftover(q[..i]);
    LeftoverAppend(q[..i], [q[i]] + q[i + 1..]);
    LeftoverAppend([q[i]], q[i + 1..]);
    LeftoverAppend(q[..i], q[i + 1..]);
    LeftoverOne(q[i]);
    assert [] + ([q[i]] + Leftover(q[i + 1..])) == [q[i]] + Leftover(q[i + 1..]);
    assert [] + Leftover(q[i + 1..]) == Leftover(q[i + 1..]);
  }

  lemma LeftoverRequeued(q: Queue, i: nat, log: Log, found: bool)
    requires i < |q| && q[i].emit.log.Some? && Pending(q[i].emit)
    ensures Leftover(Requeued(q, i, log, found)) ==
      if found then Leftover(Without(q, i)) else [Examined(q[i], log, found)] + Leftover(Without(q, i))
  {
    var e, rest := Examined(q[i], log, found), Without(q, i);
    LeftoverOne(e);
    LeftoverAppend(rest, [e]);
    LeftoverAppend([e], rest);
    assert Leftover(rest) + [] == Leftover(rest);
  }

  lemma ExactRequeued(q: Queue, i: nat, log: Log, found: bool)
    requires i < |q| && q[i].emit.log.Some? && Pending(q[i].emit)
    ensures Exact(Requeued(q, i, log, found)) <==>
      Exact(q) && (found ==> FinalCount(Examined(q[i], log, found)) == q[i].emit.count)
  {
    ExactWithout(q, i);
    var e, rest := Examined(q[i], log, found), Without(q, i);
    if found {
      ExactAppend(rest, e);
    } else {
      ExactPrepend(rest, e);
    }
  }

  lemma ExactWithout(q: Queue, i: nat)
    requires i < |q| && Pending(q[i].emit)
    ensures Exact(Without(q, i)) <==> Exact(q)
  {
    var rest := Without(q, i);
    forall k | 0 <= k < |rest| ensures rest[k] == q[if k < i then k else k + 1] {
    }
    forall k | 0 <= k < |q| && k != i ensures q[k] == rest[if k < i then k else k - 1] {
    }
  }

  lemma ExactAppend(q: Queue, e: Entry)
    ensures Exact(q + [e]) <==> Exact(q) && (!Pending(e.emit) ==> FinalCount(e) == e.emit.count)
  {
    var q' := q + [e];
    assert q'[|q|] == e;
    assert forall k | 0 <= k < |q| :: q'[k] == q[k];
  }

  lemma ExactPrepend(q: Queue, e: Entry)
    requires Pending(e.emit)
    ensures Exact([e] + q) <==> Exact(q)
  {
    var q' := [e] + q;
    assert forall k | 0 <= k < |q| :: q'[k + 1] == q[k];
    assert forall k | 0 < k < |q'| :: q'[k] == q[k - 1];
  }

  /** Observing a permitted log changes what may pass only by that log, whatever the hash order. */
  lemma StepTakesTurn(q: Queue, log: Log, q': Queue, reason: Option<Failure>, logs: seq<Log>)
    requires Invariant(q) && AllFilled(q) && Step(q, log, q', reason) && !Forbidden(q, log)
    ensures WillPass(q, [log] + logs) <==> WillPass(q', logs)
  {
    if Idle(q, log) {
      NothingLeftover(q);
    } else {
      PickedIsUnfound(q);
      var i := IndexToFillOrCheck(q);
      var found: bool :| MayDecide(CountLog(q[i], log), log, found) && q' == Requeued(q, i, log, found);
      assert EntryOk(q[i]);
      LeftoverFromPending(q, i);
      LeftoverRequeued(q, i, log, found);
      ExactRequeued(q, i, log, found);
      TurnStep(q[i], Leftover(Without(q, i)), log, logs, found);
    }
  }

  /** Over a whole trace, the permitted logs decide. */
  lemma {:induction false} RunTakesTurns(q: Queue, logs: seq<Log>, q': Queue)
    requires Invariant(q) && AllFilled(q) && Observes(q, logs, q')
    ensures Invariant(q') && AllFilled(q')
    ensures WillPass(q, Permitted(q, logs)) <==> WillPass(q', [])
    decreases |logs|
  {
    if logs != [] {
      var mid, reason :| Step(q, logs[0], mid, reason) && Observes(mid, logs[1..], q');
      StepKeepsInvariant(q, logs[0], mid, reason);
      StepConservesDeclarations(q, logs[0], mid, reason);
      StaysFilled(q, mid);
      RunTakesTurns(mid, logs[1..], q');
      forall log ensures Forbidden(mid, log) <==> Forbidden(q, log) {
        ForbiddenStable(q, logs[0], mid, reason, log);
      }
      PermittedStable(q, mid, logs[1..]);
      if !Forbidden(q, logs[0]) {
        StepTakesTurn(q, logs[0], mid, reason, Permitted(q, logs[1..]));
      }
    }
  }

  // ----- the call end -----

  lemma {:induction false} ExactIff(q: Queue)
    requires forall i | 0 <= i < |q| :: !Pending(q[i].emit)
    ensures Exact(q) <==> Miscounts(q) == []
  {
    if q != [] {
      ExactIff(q[1..]);
      ExactTail(q);
    }
  }

  lemma ExactTail(q: Queue)
    requires q != [] && !Pending(q[0].emit)
    ensures Exact(q) <==> FinalCount(q[0]) == q[0].emit.count && Exact(q[1..])
  {
    assert forall k | 0 < k < |q| :: q[k] == q[1..][k - 1];
  }

  lemma FirstLeftoverWaits(q: Queue)
    requires Invariant(q) && AllFilled(q) && Leftover(q) != []
    ensures Waiting(Leftover(q)[0])
  {
    RootPassesIff(q);
    var e := Leftover(q)[0];
    assert e in Leftover(q);
    var i :| 0 <= i < |q| && q[i] == e;
  }

  lemma WaitingInVain(e: Entry, rest: Queue)
    requires Waiting(e)
    ensures !Turn([e] + rest, [])
  {
    if Contested(e) {
      ImpureEnds(e, rest, []);
    } else {
      SomethingLeft(e);
      TurnCons(e, rest, []);
    }
  }

  /** With no logs to come, nothing may be left over. */
  lemma NoMoreTurns(q: Queue)
    requires Invariant(q) && AllFilled(q)
    ensures Turn(Leftover(q), []) <==> Leftover(q) == []
  {
    var left := Leftover(q);
    if left != [] {
      FirstLeftoverWaits(q);
      WaitingInVain(left[0], left[1..]);
      assert [left[0]] + left[1..] == left;
    }
  }

  lemma CallEndIff(q: Queue, depth: nat, succeeded: bool)
    requires Invariant(q) && AllFilled(q) && DepthTracked(q, depth)
    ensures CallEnd(q, depth, false, succeeded) == (None, []) <==> WillPass(q, [])
  {
    NoMoreTurns(q);
    RootPassesIff(q);
    if FirstPending(q) == |q| {
      ExactIff(q);
    }
  }

  /** The expectations of a queue. */
  function Expected(q: Queue): seq<ExpectedEmit> {
    if q == [] then [] else [q[0].emit] + Expected(q[1..])
  }

  lemma {:induction false} FreshTakesTurns(q: Queue, logs: seq<Log>)
    requires AllFilled(q) && FreshQueue(q)
    ensures Turn(Leftover(q), logs) <==> InTurn(Expected(q), logs)
    decreases |q|
  {
    if q != [] {
      var e, rest := q[0], q[1..];
      assert CountsPerEmitter(e) == map[];
      var taken := TakeMatches(e.emit, e.emit.count, logs);
      assert Expected(q)[1..] == Expected(rest);
      if taken.Some? {
        FreshTakesTurns(rest, taken.value.1);
        assert forall a :: OnlySender(e, a);
      }
      if Pending(e.emit) {
        TurnCons(e, Leftover(rest), logs);
      }
    }
  }

  lemma FreshIsExact(q: Queue)
    requires FreshQueue(q)
    ensures Exact(q)
  {
    forall i | 0 <= i < |q| && !Pending(q[i].emit) ensures FinalCount(q[i]) == q[i].emit.count {
      assert Fresh(q[i]);
      assert CountsPerEmitter(q[i]) == map[];
    }
  }

  /** End to end, for every queue of fresh filled expectations, whatever they expect: a call at a tracked
      depth passes and clears the tracker if and only if the expectations take their matches in turn.
      Where no expectation is of several logs from any emitter, that is if and only if the permitted logs
      contain the requirements in order. */
  lemma CallPassesIff(q: Queue, logs: seq<Log>, q': Queue, depth: nat, succeeded: bool)
    requires FreshQueue(q) && AllFilled(q) && DepthTracked(q, depth) && Observes(q, logs, q')
    ensures CallEnd(q', depth, false, succeeded) == (None, []) <==> InTurn(Expected(q), Permitted(q, logs))
    ensures AllDeterministic(q) ==>
      (CallEnd(q', depth, false, succeeded) == (None, []) <==> ContainsInOrder(Requirements(q), Permitted(q, logs)))
  {
    FreshQueueInvariant(q);
    StaysTracked(q, logs, q', depth);
    RunTakesTurns(q, logs, q');
    CallEndIff(q', depth, succeeded);
    FreshIsExact(q);
    FreshTakesTurns(q, Permitted(q, logs));
    if AllDeterministic(q) {
      CallPassesInOrderIff(q, logs, q', depth, succeeded);
    }
  }

  lemma {:induction false} AllPermitted(q: Queue, logs: seq<Log>)
    requires forall log :: !Forbidden(q, log)
    ensures Permitted(q, logs) == logs
  {
    if logs != [] {
      AllPermitted(q, logs[1..]);
    }
  }

  /** So hash order never decides whether a call passes: all runs over a trace agree. */
  lemma CallEndsAgree(q: Queue, logs: seq<Log>, a: Queue, b: Queue, depth: nat, succeeded: bool)
    requires FreshQueue(q) && AllFilled(q) && DepthTracked(q, depth)
    requires Observes(q, logs, a) && Observes(q, logs, b)
    ensures CallEnd(a, depth, false, succeeded) == (None, []) <==> CallEnd(b, depth, false, succeeded) == (None, [])
  {
    CallPassesIff(q, logs, a, depth, succeeded);
    CallPassesIff(q, logs, b, depth, succeeded);
  }

  lemma ReadyIsFresh(setups: seq<Setup>)
    requires Declarable(setups)
    ensures FreshQueue(ReadyQueue(setups)) && AllFilled(ReadyQueue(setups))
  {
    forall i | 0 <= i < |setups| ensures Fresh(ReadyQueue(setups)[i]) {
      assert MayFill(setups[i]);
    }
  }
}
