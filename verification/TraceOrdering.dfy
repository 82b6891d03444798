/**
 The interleaving of logs and child calls of one call frame (crates/cast/src/rpc_trace.rs): logs are
 bucketed by the number of calls before them and the buckets are merged with the calls.
 */
module TraceOrdering {
  import opened Common

  datatype Member = Call(i: nat) | Log(li: nat)

  /** A log's position; a missing one is zero, one past the last call is the end. */
  function Position(positions: seq<Option<nat>>, calls: nat, li: nat): (r: nat)
    requires li < |positions|
    ensures r <= calls
  {
    var p := if positions[li].Some? then positions[li].value else 0;
    if p < calls then p else calls
  }

  /** The logs among the first `k` that go into bucket `b`, in order. */
  function Bucket(positions: seq<Option<nat>>, calls: nat, b: nat, k: nat): seq<nat>
    requires k <= |positions|
  {
    if k == 0 then []
    else
      var before := Bucket(positions, calls, b, k - 1);
      if Position(positions, calls, k - 1) == b then before + [k - 1] else before
  }

  function AsLogs(lis: seq<nat>): (r: seq<Member>)
    ensures |r| == |lis| && forall k | 0 <= k < |lis| :: r[k] == Log(lis[k])
  {
    seq(|lis|, k requires 0 <= k < |lis| => Log(lis[k]))
  }

  function LogsAt(positions: seq<Option<nat>>, calls: nat, b: nat): seq<Member> {
    AsLogs(Bucket(positions, calls, b, |positions|))
  }

  /** The buckets from `b` on, each followed by its call. */
  function MergeFrom(positions: seq<Option<nat>>, calls: nat, b: nat): seq<Member>
    requires b <= calls
    decreases calls - b
  {
    if b == calls then LogsAt(positions, calls, b)
    else LogsAt(positions, calls, b) + [Call(b)] + MergeFrom(positions, calls, b + 1)
  }

  function Ordering(positions: seq<Option<nat>>, calls: nat): seq<Member> {
    MergeFrom(positions, calls, 0)
  }

  ghost predicate Bucketed(buckets: seq<seq<nat>>, positions: seq<Option<nat>>, calls: nat, k: nat)
    requires k <= |positions|
  {
    && |buckets| == calls + 1
    && forall b | 0 <= b <= calls :: buckets[b] == Bucket(positions, calls, b, k)
  }

  method FillBuckets(positions: seq<Option<nat>>, calls: nat) returns (buckets: seq<seq<nat>>)
    ensures Bucketed(buckets, positions, calls, |positions|)
  {
    buckets := Repeat([], calls + 1);
    for li := 0 to |positions|
      invariant Bucketed(buckets, positions, calls, li)
    {
      var position := Position(positions, calls, li);
      buckets := buckets[position := buckets[position] + [li]];
    }
  }

  /** Fills the buckets in one pass over the logs, then reads them off in one pass. */
  method Interleave(positions: seq<Option<nat>>, calls: nat) returns (ordering: seq<Member>)
    ensures ordering == Ordering(positions, calls)
  {
    var buckets := FillBuckets(positions, calls);
    ordering := [];
    for i := 0 to calls + 1
      invariant i <= calls ==> ordering + MergeFrom(positions, calls, i) == Ordering(positions, calls)
      invariant i == calls + 1 ==> ordering == Ordering(positions, calls)
    {
      MergeStep(positions, calls, i, ordering);
      ordering := AppendLogs(ordering, buckets[i]);
      if i < calls {
        ordering := ordering + [Call(i)];
      }
    }
  }

  lemma MergeStep(positions: seq<Option<nat>>, calls: nat, i: nat, before: seq<Member>)
    requires i <= calls
    ensures before + MergeFrom(positions, calls, i) ==
      if i == calls then before + LogsAt(positions, calls, i)
      else before + LogsAt(positions, calls, i) + [Call(i)] + MergeFrom(positions, calls, i + 1)
  {
    if i < calls {
      var logs, rest := LogsAt(positions, calls, i), MergeFrom(positions, calls, i + 1);
      Associate(before, logs, [Call(i)]);
      Associate(before, logs + [Call(i)], rest);
    }
  }

  method AppendLogs(before: seq<Member>, bucket: seq<nat>) returns (ordering: seq<Member>)
    ensures ordering == before + AsLogs(bucket)
  {
    ordering := before;
    for k := 0 to |bucket|
      invariant ordering == before + AsLogs(bucket)[..k]
    {
      ordering := ordering + [Log(bucket[k])];
    }
  }

  // ----- the stable merge -----

  ghost predicate IsMember(positions: seq<Option<nat>>, calls: nat, m: Member) {
    match m
    case Call(i) => i < calls
    case Log(li) => li < |positions|
  }

  /** Members are ordered by the number of calls before them; a log comes before the call it
      precedes, and logs at one position keep their original order. */
  ghost predicate Before(positions: seq<Option<nat>>, calls: nat, a: Member, b: Member) {
    && IsMember(positions, calls, a)
    && IsMember(positions, calls, b)
    && match (a, b)
       case (Call(i), Call(j)) => i < j
       case (Call(i), Log(lj)) => i < Position(positions, calls, lj)
       case (Log(li), Call(j)) => Position(positions, calls, li) <= j
       case (Log(li), Log(lj)) =>
         var p, q := Position(positions, calls, li), Position(positions, calls, lj);
         p < q || (p == q && li < lj)
  }

  ghost predicate InOrder(positions: seq<Option<nat>>, calls: nat, o: seq<Member>) {
    forall j, k | 0 <= j < k < |o| :: Before(positions, calls, o[j], o[k])
  }

  /** Every call and every log exactly once, in that order. */
  ghost predicate IsStableMerge(positions: seq<Option<nat>>, calls: nat, o: seq<Member>) {
    && (forall m :: m in o <==> IsMember(positions, calls, m))
    && InOrder(positions, calls, o)
  }

  lemma {:induction false} BucketHolds(positions: seq<Option<nat>>, calls: nat, b: nat, k: nat)
    requires k <= |positions|
    ensures forall li | li in Bucket(positions, calls, b, k) :: li < k && Position(positions, calls, li) == b
    ensures forall li | 0 <= li < k && Position(positions, calls, li) == b :: li in Bucket(positions, calls, b, k)
    ensures forall i, j | 0 <= i < j < |Bucket(positions, calls, b, k)| ::
      Bucket(positions, calls, b, k)[i] < Bucket(positions, calls, b, k)[j]
  {
    if k > 0 {
      BucketHolds(positions, calls, b, k - 1);
      var before := Bucket(positions, calls, b, k - 1);
      if Position(positions, calls, k - 1) == b {
        assert forall i | 0 <= i < |before| :: before[i] in before;
      }
    }
  }

  /** What the merge from bucket `b` on holds: the calls from `b` and the logs from position `b`. */
  ghost predicate From(positions: seq<Option<nat>>, calls: nat, b: nat, m: Member) {
    match m
    case Call(i) => b <= i < calls
    case Log(li) => li < |positions| && Position(positions, calls, li) >= b
  }

  lemma LogsAtHolds(positions: seq<Option<nat>>, calls: nat, b: nat)
    ensures var logs := LogsAt(positions, calls, b);
      && (forall m | m in logs :: m.Log? && m.li < |positions| && Position(positions, calls, m.li) == b)
      && (forall li | 0 <= li < |positions| && Position(positions, calls, li) == b :: Log(li) in logs)
      && (forall j, k | 0 <= j < k < |logs| :: logs[j].Log? && logs[k].Log? && logs[j].li < logs[k].li)
  {
    BucketHolds(positions, calls, b, |positions|);
    var bucket, logs := Bucket(positions, calls, b, |positions|), LogsAt(positions, calls, b);
    forall k | 0 <= k < |logs| ensures logs[k].li in bucket {
      assert logs[k] == Log(bucket[k]);
    }
    forall li | 0 <= li < |positions| && Position(positions, calls, li) == b ensures Log(li) in logs {
      var k :| 0 <= k < |bucket| && bucket[k] == li;
      assert logs[k] == Log(li);
    }
  }

  lemma {:induction false} MergeHolds(positions: seq<Option<nat>>, calls: nat, b: nat)
    requires b <= calls
    ensures forall m :: m in MergeFrom(positions, calls, b) <==> From(positions, calls, b, m)
    decreases calls - b
  {
    LogsAtHolds(positions, calls, b);
    var logs := LogsAt(positions, calls, b);
    if b < calls {
      MergeHolds(positions, calls, b + 1);
      forall m ensures m in MergeFrom(positions, calls, b) <==> From(positions, calls, b, m) {
        assert m in MergeFrom(positions, calls, b) <==>
               m in logs || m == Call(b) || m in MergeFrom(positions, calls, b + 1);
      }
    }
  }

  lemma {:induction false} MergeIsSorted(positions: seq<Option<nat>>, calls: nat, b: nat)
    requires b <= calls
    ensures InOrder(positions, calls, MergeFrom(positions, calls, b))
    decreases calls - b
  {
    LogsAtHolds(positions, calls, b);
    MergeHolds(positions, calls, b);
    if b < calls {
      MergeIsSorted(positions, calls, b + 1);
      MergeHolds(positions, calls, b + 1);
      var logs, rest := LogsAt(positions, calls, b), MergeFrom(positions, calls, b + 1);
      SortedAround(positions, calls, b, logs, rest);
      assert logs + [Call(b)] + rest == logs + ([Call(b)] + rest);
    }
  }

  lemma SortedAround(positions: seq<Option<nat>>, calls: nat, b: nat, logs: seq<Member>, rest: seq<Member>)
    requires b < calls
    requires forall m | m in logs :: m.Log? && m.li < |positions| && Position(positions, calls, m.li) == b
    requires forall j, k | 0 <= j < k < |logs| :: logs[j].Log? && logs[k].Log? && logs[j].li < logs[k].li
    requires forall m | m in rest :: From(positions, calls, b + 1, m)
    requires InOrder(positions, calls, rest)
    ensures InOrder(positions, calls, logs + ([Call(b)] + rest))
  {
    var o := logs + ([Call(b)] + rest);
    var n := |logs|;
    forall j, k | 0 <= j < k < |o| ensures Before(positions, calls, o[j], o[k]) {
      if j < n {
        assert o[j] in logs;
        if k >= n { assert o[k] == Call(b) || o[k] in rest; }
      } else if j == n {
        assert o[k] in rest;
      } else {
        assert o[j] == rest[j - n - 1] && o[k] == rest[k - n - 1];
      }
    }
  }

  /** The bucketed ordering is the stable merge. */
  lemma OrderingIsStableMerge(positions: seq<Option<nat>>, calls: nat)
    ensures IsStableMerge(positions, calls, Ordering(positions, calls))
  {
    MergeIsSorted(positions, calls, 0);
    MergeHolds(positions, calls, 0);
  }

  /** Nothing else is. */
  lemma StableMergeIsOrdering(positions: seq<Option<nat>>, calls: nat, o: seq<Member>)
    requires IsStableMerge(positions, calls, o)
    ensures o == Ordering(positions, calls)
  {
    OrderingIsStableMerge(positions, calls);
    InOrderIsUnique(positions, calls, o, Ordering(positions, calls));
  }

  lemma {:induction false} InOrderIsUnique(
    positions: seq<Option<nat>>, calls: nat, a: seq<Member>, b: seq<Member>)
    requires forall m :: m in a <==> m in b
    requires InOrder(positions, calls, a) && InOrder(positions, calls, b)
    ensures a == b
    decreases |a|
  {
    if a != [] {
      assert a[0] in a;
      var j :| 0 <= j < |b| && b[j] == a[0];
      assert b[0] in b;
      var i :| 0 <= i < |a| && a[i] == b[0];
      assert i == 0 || j == 0;
      assert a[0] == b[0];
      TailsAgree(positions, calls, a, b);
      InOrderIsUnique(positions, calls, a[1..], b[1..]);
      assert a == [a[0]] + a[1..] && b == [b[0]] + b[1..];
    } else {
      FirstIsMember(b);
    }
  }

  lemma FirstIsMember(o: seq<Member>)
    ensures o != [] ==> o[0] in o
  {
  }

  lemma TailsAgree(positions: seq<Option<nat>>, calls: nat, a: seq<Member>, b: seq<Member>)
    requires a != [] && b != [] && a[0] == b[0]
    requires forall m :: m in a <==> m in b
    requires InOrder(positions, calls, a) && InOrder(positions, calls, b)
    ensures forall m :: m in a[1..] <==> m in b[1..]
  {
    forall m ensures m in a[1..] <==> m in a && m != a[0] {
      if m in a[1..] {
        var k :| 0 <= k < |a[1..]| && a[1..][k] == m;
        assert Before(positions, calls, a[0], a[k + 1]);
      }
    }
    forall m ensures m in b[1..] <==> m in b && m != b[0] {
      if m in b[1..] {
        var k :| 0 <= k < |b[1..]| && b[1..][k] == m;
        assert Before(positions, calls, b[0], b[k + 1]);
      }
    }
  }

  function CallsIn(o: seq<Member>): nat {
    if o == [] then 0 else (if o[0].Call? then 1 else 0) + CallsIn(o[1..])
  }

  lemma {:induction false} CallsInAppend(a: seq<Member>, b: seq<Member>)
    ensures CallsIn(a + b) == CallsIn(a) + CallsIn(b)
  {
    if a == [] {
      assert a + b == b;
    } else {
      CallsInAppend(a[1..], b);
      assert (a + b)[1..] == a[1..] + b;
    }
  }

  lemma {:induction false} NoCalls(o: seq<Member>)
    requires forall m | m in o :: m.Log?
    ensures CallsIn(o) == 0
  {
    if o != [] {
      assert o[0] in o;
      NoCalls(o[1..]);
    }
  }

  lemma CallsPastLogs(logs: seq<Member>, i: nat, rest: seq<Member>)
    requires forall m | m in logs :: m.Log?
    ensures CallsIn(logs + [Call(i)] + rest) == 1 + CallsIn(rest)
  {
    Associate(logs, [Call(i)], rest);
    CallsInAppend(logs, [Call(i)] + rest);
    NoCalls(logs);
    assert ([Call(i)] + rest)[1..] == rest;
  }

  /** Each log comes after exactly as many calls as its position says, at most all of them. */
  lemma {:induction false} LogComesAfterItsCalls(positions: seq<Option<nat>>, calls: nat, b: nat, k: nat)
    requires b <= calls && k < |MergeFrom(positions, calls, b)| && MergeFrom(positions, calls, b)[k].Log?
    ensures var o := MergeFrom(positions, calls, b);
      o[k].li < |positions| && CallsIn(o[..k]) + b == Position(positions, calls, o[k].li)
    decreases calls - b
  {
    var o, logs := MergeFrom(positions, calls, b), LogsAt(positions, calls, b);
    LogsAtHolds(positions, calls, b);
    if k < |logs| {
      assert o[k] in logs;
      assert o[..k] == logs[..k];
      NoCalls(logs[..k]);
    } else {
      var rest, j := MergeFrom(positions, calls, b + 1), k - |logs| - 1;
      assert o[k] == rest[j];
      LogComesAfterItsCalls(positions, calls, b + 1, j);
      assert o[..k] == logs + [Call(b)] + rest[..j];
      CallsPastLogs(logs, b, rest[..j]);
    }
  }
}
