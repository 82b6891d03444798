/**
 Conversion of a geth `callTracer` frame tree into a trace arena (crates/cast/src/rpc_trace.rs): a
 recursive method pushes nodes onto a growing vector and back-patches each node's children and
 member ordering once its subtree is in.
 */
module TraceArena {
  import opened Common
  import opened TraceOrdering

  type Address = nat

  const U64_MAX: nat := 0xffff_ffff_ffff_ffff

  /** The UTF-8 bytes of a text. */
  function Utf8(s: string): seq<byte> {
    if s == "" then [] else Utf8Char(s[0] as int) + Utf8(s[1..])
  }

  function Utf8Char(c: int): seq<byte>
    requires 0 <= c < 0x11_0000
  {
    if c < 0x80 then [c]
    else if c < 0x800 then [0xc0 + c / 64, 0x80 + c % 64]
    else if c < 0x1_0000 then [0xe0 + c / 4096, 0x80 + c / 64 % 64, 0x80 + c % 64]
    else [0xf0 + c / 262144, 0x80 + c / 4096 % 64, 0x80 + c / 64 % 64, 0x80 + c % 64]
  }

  datatype LogFrame = LogFrame(
    address: Option<Address>,
    topics: Option<seq<nat>>,
    data: Option<seq<byte>>,
    position: Option<nat>,
    index: Option<nat>)

  datatype Frame = Frame(
    typ: string,
    from: Address,
    to: Option<Address>,
    value: Option<nat>,
    gas: nat,
    gasUsed: nat,
    input: seq<byte>,
    output: Option<seq<byte>>,
    error: Option<string>,
    revertReason: Option<string>,
    logs: seq<LogFrame>,
    calls: seq<Frame>)

  datatype CallKind = PlainCall | StaticCall | DelegateCall | CallCode | AuthCall | Create | Create2
  datatype Status = Return | Revert | OutOfGas | SelfDestruct

  datatype CallTrace = CallTrace(
    depth: nat,
    success: bool,
    caller: Address,
    address: Address,
    selfdestructAddress: Option<Address>,
    selfdestructRefundTarget: Option<Address>,
    selfdestructTransferredValue: Option<nat>,
    kind: CallKind,
    value: nat,
    data: seq<byte>,
    output: seq<byte>,
    gasUsed: nat,
    gasLimit: nat,
    status: Status)

  datatype CallLog = CallLog(address: Address, topics: seq<nat>, data: seq<byte>, position: nat, index: nat)

  datatype Node = Node(
    parent: Option<nat>,
    children: seq<nat>,
    idx: nat,
    trace: CallTrace,
    logs: seq<CallLog>,
    ordering: seq<Member>)

  // ----- one frame -----

  function OrElse<T>(o: Option<T>, default: T): T {
    if o.Some? then o.value else default
  }

  function Upper(s: string): string {
    if s == "" then "" else [if 'a' <= s[0] <= 'z' then s[0] - 'a' + 'A' else s[0]] + Upper(s[1..])
  }

  predicate Contains(s: string, needle: string) {
    needle <= s || (s != [] && Contains(s[1..], needle))
  }

  function KindOf(typ: string): CallKind {
    var t := Upper(typ);
    if t == "STATICCALL" then StaticCall
    else if t == "DELEGATECALL" then DelegateCall
    else if t == "CALLCODE" then CallCode
    else if t == "AUTHCALL" then AuthCall
    else if t == "CREATE" then Create
    else if t == "CREATE2" then Create2
    else PlainCall
  }

  function StatusFromFrame(f: Frame): Status {
    if f.error.None? && f.revertReason.None? then Return
    else if f.revertReason.Some? then Revert
    else if Contains(f.error.value, "out of gas") then OutOfGas
    else Revert
  }

  predicate IsSelfDestruct(f: Frame) {
    f.typ == "SELFDESTRUCT"
  }

  function OutputOf(f: Frame): seq<byte> {
    var output := OrElse(f.output, []);
    if output == [] && f.revertReason.Some? then Utf8(f.revertReason.value)
    else if output == [] && f.error.Some? then Utf8(f.error.value)
    else output
  }

  function Saturate(n: nat): nat {
    if n <= U64_MAX then n else U64_MAX
  }

  function TraceOf(f: Frame, depth: nat): CallTrace {
    var destroyed := IsSelfDestruct(f);
    CallTrace(
      depth,
      f.error.None? && f.revertReason.None?,
      f.from,
      if destroyed then f.from else OrElse(f.to, 0),
      if destroyed then Some(f.from) else None,
      if destroyed then f.to else None,
      if destroyed then f.value else None,
      KindOf(f.typ),
      if destroyed then 0 else OrElse(f.value, 0),
      f.input,
      OutputOf(f),
      Saturate(f.gasUsed),
      Saturate(f.gas),
      if destroyed then SelfDestruct else StatusFromFrame(f))
  }

  function CallLogOf(l: LogFrame): CallLog {
    CallLog(OrElse(l.address, 0), OrElse(l.topics, []), OrElse(l.data, []), OrElse(l.position, 0), OrElse(l.index, 0))
  }

  function LogsOf(f: Frame): seq<CallLog> {
    seq(|f.logs|, i requires 0 <= i < |f.logs| => CallLogOf(f.logs[i]))
  }

  function PositionsOf(f: Frame): seq<Option<nat>> {
    seq(|f.logs|, i requires 0 <= i < |f.logs| => f.logs[i].position)
  }

  // ----- the arena as a function of the tree -----

  /** The number of frames in a tree. */
  function Size(f: Frame): (r: nat)
    ensures r >= 1
  {
    1 + SizeAll(f.calls)
  }

  function SizeAll(calls: seq<Frame>): nat {
    if calls == [] then 0 else SizeAll(calls[..|calls| - 1]) + Size(calls[|calls| - 1])
  }

  /** The indices of sibling frames laid out one subtree after the other. */
  function ChildIndices(calls: seq<Frame>, start: nat): (r: seq<nat>)
    ensures |r| == |calls|
  {
    if calls == [] then []
    else
      var front := calls[..|calls| - 1];
      ChildIndices(front, start) + [start + SizeAll(front)]
  }

  function NodeOf(f: Frame, parent: Option<nat>, depth: nat, base: nat): Node {
    Node(parent, ChildIndices(f.calls, base + 1), base, TraceOf(f, depth), LogsOf(f),
         Ordering(PositionsOf(f), |f.calls|))
  }

  /** A frame, then its subtrees in order. */
  function Preorder(f: Frame, parent: Option<nat>, depth: nat, base: nat): (r: seq<Node>)
    ensures |r| == Size(f)
    decreases f
  {
    [NodeOf(f, parent, depth, base)] + PreorderAll(f.calls, base, depth + 1, base + 1)
  }

  function PreorderAll(calls: seq<Frame>, parent: nat, depth: nat, base: nat): (r: seq<Node>)
    ensures |r| == SizeAll(calls)
    decreases calls
  {
    if calls == [] then []
    else
      var front := calls[..|calls| - 1];
      PreorderAll(front, parent, depth, base)
      + Preorder(calls[|calls| - 1], Some(parent), depth, base + SizeAll(front))
  }

  /** Pushing one more child extends both the nodes and the child list. */
  lemma ChildPushed(nodes: seq<Node>, calls: seq<Frame>, k: nat, parent: nat, depth: nat)
    requires k < |calls| && |nodes| == parent + 1
    ensures var done := nodes + PreorderAll(calls[..k], parent, depth, parent + 1);
      && done + Preorder(calls[k], Some(parent), depth, |done|) ==
           nodes + PreorderAll(calls[..k + 1], parent, depth, parent + 1)
      && ChildIndices(calls[..k], parent + 1) + [|done|] == ChildIndices(calls[..k + 1], parent + 1)
  {
    assert calls[..k + 1][..k] == calls[..k];
    Associate(nodes, PreorderAll(calls[..k], parent, depth, parent + 1),
              Preorder(calls[k], Some(parent), depth, parent + 1 + SizeAll(calls[..k])));
  }

  lemma BackPatch(start: seq<Node>, bare: Node, rest: seq<Node>, children: seq<nat>, ordering: seq<Member>)
    ensures var all, patched := start + [bare] + rest, bare.(children := children, ordering := ordering);
      all[|start|] == bare && all[|start| := patched] == start + ([patched] + rest)
  {
  }

  class Arena {
    var nodes: seq<Node>

    constructor ()
      ensures nodes == []
    {
      nodes := [];
    }

    /** Appends the subtree of `frame`: the node first, its links filled in once the subtree is in. */
    method PushFrame(frame: Frame, parent: Option<nat>, depth: nat) returns (idx: nat)
      modifies this
      ensures idx == |old(nodes)|
      ensures nodes == old(nodes) + Preorder(frame, parent, depth, |old(nodes)|)
      decreases frame
    {
      ghost var start := nodes;
      idx := |nodes|;
      var bare := Node(parent, [], idx, TraceOf(frame, depth), LogsOf(frame), []);
      nodes := nodes + [bare];
      var children: seq<nat> := [];
      assert nodes == nodes + [];
      for k := 0 to |frame.calls|
        invariant nodes == start + [bare] + PreorderAll(frame.calls[..k], idx, depth + 1, idx + 1)
        invariant children == ChildIndices(frame.calls[..k], idx + 1)
      {
        ChildPushed(start + [bare], frame.calls, k, idx, depth + 1);
        var c := PushFrame(frame.calls[k], Some(idx), depth + 1);
        children := children + [c];
      }
      assert frame.calls[..|frame.calls|] == frame.calls;
      var ordering := Interleave(PositionsOf(frame), |children|);
      BackPatch(start, bare, PreorderAll(frame.calls, idx, depth + 1, idx + 1), children, ordering);
      nodes := nodes[idx := nodes[idx].(children := children, ordering := ordering)];
    }

    /** Converts a whole tree; a root without an address takes the one given. */
    method FromRoot(root: Frame, rootAddress: Option<Address>)
      modifies this
      ensures nodes == ArenaOf(root, rootAddress)
    {
      nodes := [];
      var _ := PushFrame(root, None, 0);
      assert nodes == Preorder(root, None, 0, 0);
      if rootAddress.Some? && nodes != [] && nodes[0].trace.address == 0 {
        nodes := nodes[0 := nodes[0].(trace := nodes[0].trace.(address := rootAddress.value))];
      }
    }
  }

  function ArenaOf(root: Frame, rootAddress: Option<Address>): (r: seq<Node>)
    ensures |r| == Size(root)
  {
    var nodes := Preorder(root, None, 0, 0);
    if rootAddress.Some? && nodes[0].trace.address == 0
    then nodes[0 := nodes[0].(trace := nodes[0].trace.(address := rootAddress.value))]
    else nodes
  }

  // ----- the arena is faithful to the tree -----

  /** The part of `nodes` that starts at `base` is the preorder of `f`. */
  ghost predicate Holds(nodes: seq<Node>, f: Frame, parent: Option<nat>, depth: nat, base: nat) {
    base + Size(f) <= |nodes| && nodes[base..base + Size(f)] == Preorder(f, parent, depth, base)
  }

  ghost predicate HoldsAll(nodes: seq<Node>, calls: seq<Frame>, parent: nat, depth: nat, base: nat) {
    base + SizeAll(calls) <= |nodes| && nodes[base..base + SizeAll(calls)] == PreorderAll(calls, parent, depth, base)
  }

  lemma HoldsSplit(nodes: seq<Node>, f: Frame, parent: Option<nat>, depth: nat, base: nat)
    requires Holds(nodes, f, parent, depth, base)
    ensures base < |nodes| && nodes[base] == NodeOf(f, parent, depth, base)
    ensures HoldsAll(nodes, f.calls, base, depth + 1, base + 1)
  {
    var part := nodes[base..base + Size(f)];
    assert part[0] == nodes[base];
    assert part[1..] == nodes[base + 1..base + Size(f)];
    assert part[1..] == PreorderAll(f.calls, base, depth + 1, base + 1);
  }

  lemma HoldsAllSplit(nodes: seq<Node>, calls: seq<Frame>, parent: nat, depth: nat, base: nat)
    requires calls != [] && HoldsAll(nodes, calls, parent, depth, base)
    ensures var front := calls[..|calls| - 1];
      && HoldsAll(nodes, front, parent, depth, base)
      && Holds(nodes, calls[|calls| - 1], Some(parent), depth, base + SizeAll(front))
  {
    var front, last := calls[..|calls| - 1], calls[|calls| - 1];
    var a := PreorderAll(front, parent, depth, base);
    var b := Preorder(last, Some(parent), depth, base + SizeAll(front));
    SliceSplit(nodes, base, a, b);
  }

  lemma SliceSplit<T>(s: seq<T>, base: nat, a: seq<T>, b: seq<T>)
    requires base + |a| + |b| <= |s| && s[base..base + |a| + |b|] == a + b
    ensures s[base..base + |a|] == a && s[base + |a|..base + |a| + |b|] == b
  {
    var part := s[base..base + |a| + |b|];
    assert part[..|a|] == a && part[|a|..] == b;
    assert part[..|a|] == s[base..base + |a|] && part[|a|..] == s[base + |a|..base + |a| + |b|];
  }

  /** What one node promises: its index is its position, and its children come after it, in order,
      each naming it as parent and one level deeper. */
  ghost predicate NodeOk(nodes: seq<Node>, i: nat)
    requires i < |nodes|
  {
    nodes[i].idx == i && Brood(nodes, i, nodes[i].children, i + 1)
  }

  /** The children `cs` of node `i`, from position `start` on, in strictly ascending order. */
  ghost predicate Brood(nodes: seq<Node>, i: nat, cs: seq<nat>, start: nat)
    requires i < |nodes|
  {
    && (forall k | 0 <= k < |cs| :: start <= cs[k] && ChildOk(nodes, i, cs[k]))
    && (forall j, k | 0 <= j < k < |cs| :: cs[j] < cs[k])
  }

  ghost predicate ChildOk(nodes: seq<Node>, i: nat, c: nat)
    requires i < |nodes|
  {
    && i < c < |nodes|
    && nodes[c].parent == Some(i)
    && nodes[c].trace.depth == nodes[i].trace.depth + 1
  }

  /** A node other than the root of its part is listed by its parent, which comes before it. */
  ghost predicate Adopted(nodes: seq<Node>, i: nat)
    requires i < |nodes|
  {
    && nodes[i].parent.Some?
    && nodes[i].parent.value < i
    && i in nodes[nodes[i].parent.value].children
  }

  lemma {:induction false} ChildrenOk(nodes: seq<Node>, calls: seq<Frame>, parent: nat, depth: nat, start: nat)
    requires HoldsAll(nodes, calls, parent, depth, start) && parent < start
    requires nodes[parent].trace.depth + 1 == depth
    ensures Brood(nodes, parent, ChildIndices(calls, start), start)
    decreases calls
  {
    if calls != [] {
      var front, last := calls[..|calls| - 1], calls[|calls| - 1];
      HoldsAllSplit(nodes, calls, parent, depth, start);
      HoldsSplit(nodes, last, Some(parent), depth, start + SizeAll(front));
      ChildrenOk(nodes, front, parent, depth, start);
      IndicesBelow(front, start);
    }
  }

  lemma {:induction false} IndicesBelow(calls: seq<Frame>, start: nat)
    ensures forall k | 0 <= k < |calls| :: ChildIndices(calls, start)[k] < start + SizeAll(calls)
  {
    if calls != [] {
      IndicesBelow(calls[..|calls| - 1], start);
    }
  }

  /** In the part held for `f`, every node is in order and every node but the first is adopted. */
  lemma {:induction false} SubtreeOk(nodes: seq<Node>, f: Frame, parent: Option<nat>, depth: nat, base: nat)
    requires Holds(nodes, f, parent, depth, base)
    ensures forall i | base <= i < base + Size(f) :: NodeOk(nodes, i)
    ensures forall i | base < i < base + Size(f) :: Adopted(nodes, i)
    decreases f, 1
  {
    HoldsSplit(nodes, f, parent, depth, base);
    ChildrenOk(nodes, f.calls, base, depth + 1, base + 1);
    SubtreesOk(nodes, f.calls, base, depth + 1, base + 1);
    forall i | base < i < base + Size(f) ensures Adopted(nodes, i) {
      if i in ChildIndices(f.calls, base + 1) {
        assert nodes[i].parent == Some(base);
      }
    }
  }

  lemma {:induction false} SubtreesOk(nodes: seq<Node>, calls: seq<Frame>, parent: nat, depth: nat, base: nat)
    requires HoldsAll(nodes, calls, parent, depth, base)
    ensures forall i | base <= i < base + SizeAll(calls) :: NodeOk(nodes, i)
    ensures forall i | base <= i < base + SizeAll(calls) :: i in ChildIndices(calls, base) || Adopted(nodes, i)
    decreases calls, 0
  {
    if calls != [] {
      var front, last := calls[..|calls| - 1], calls[|calls| - 1];
      HoldsAllSplit(nodes, calls, parent, depth, base);
      SubtreesOk(nodes, front, parent, depth, base);
      SubtreeOk(nodes, last, Some(parent), depth, base + SizeAll(front));
      var cs := ChildIndices(calls, base);
      assert forall c | c in ChildIndices(front, base) :: c in cs;
      assert cs[|cs| - 1] == base + SizeAll(front);
    }
  }

  // ----- contiguous subtrees -----

  /** `sub` is a frame of the tree `f`. */
  predicate Within(sub: Frame, f: Frame)
    decreases f
  {
    sub == f || WithinAny(sub, f.calls)
  }

  predicate WithinAny(sub: Frame, calls: seq<Frame>)
    decreases calls
  {
    calls != [] && (WithinAny(sub, calls[..|calls| - 1]) || Within(sub, calls[|calls| - 1]))
  }

  /** Every position of the arena starts the contiguous preorder of one frame of the tree. */
  lemma {:induction false} SubtreeIsContiguous(
    nodes: seq<Node>, f: Frame, parent: Option<nat>, depth: nat, base: nat, i: nat) returns (sub: Frame)
    requires Holds(nodes, f, parent, depth, base) && base <= i < base + Size(f)
    ensures Within(sub, f)
    ensures i + Size(sub) <= base + Size(f)
    ensures Holds(nodes, sub, nodes[i].parent, nodes[i].trace.depth, i)
    decreases f, 1
  {
    HoldsSplit(nodes, f, parent, depth, base);
    if i == base {
      sub := f;
    } else {
      sub := SubtreesAreContiguous(nodes, f.calls, base, depth + 1, base + 1, i);
    }
  }

  lemma {:induction false} SubtreesAreContiguous(
    nodes: seq<Node>, calls: seq<Frame>, parent: nat, depth: nat, base: nat, i: nat) returns (sub: Frame)
    requires HoldsAll(nodes, calls, parent, depth, base) && base <= i < base + SizeAll(calls)
    ensures WithinAny(sub, calls)
    ensures i + Size(sub) <= base + SizeAll(calls)
    ensures Holds(nodes, sub, nodes[i].parent, nodes[i].trace.depth, i)
    decreases calls, 0
  {
    HoldsAllSplit(nodes, calls, parent, depth, base);
    var front, last := calls[..|calls| - 1], calls[|calls| - 1];
    if i < base + SizeAll(front) {
      sub := SubtreesAreContiguous(nodes, front, parent, depth, base, i);
    } else {
      sub := SubtreeIsContiguous(nodes, last, Some(parent), depth, base + SizeAll(front), i);
    }
  }

  // ----- rebuilding the tree -----

  datatype Tree = Tree(trace: CallTrace, logs: seq<CallLog>, ordering: seq<Member>, children: seq<Tree>)

  function TreeOf(f: Frame, depth: nat): Tree {
    Tree(TraceOf(f, depth), LogsOf(f), Ordering(PositionsOf(f), |f.calls|), TreesOf(f.calls, depth + 1))
  }

  function TreesOf(calls: seq<Frame>, depth: nat): seq<Tree> {
    if calls == [] then [] else TreesOf(calls[..|calls| - 1], depth) + [TreeOf(calls[|calls| - 1], depth)]
  }

  /** Child links that only lead forward. */
  ghost predicate LinksForward(nodes: seq<Node>) {
    forall i | 0 <= i < |nodes| :: Forward(nodes, i, nodes[i].children)
  }

  ghost predicate Forward(nodes: seq<Node>, i: nat, cs: seq<nat>) {
    forall k | 0 <= k < |cs| :: i < cs[k] < |nodes|
  }

  /** The tree reached by following child links from `i`. */
  ghost function Rebuild(nodes: seq<Node>, i: nat): Tree
    requires LinksForward(nodes) && i < |nodes|
    decreases |nodes| - i
  {
    Tree(nodes[i].trace, nodes[i].logs, nodes[i].ordering, RebuildAll(nodes, nodes[i].children, i))
  }

  ghost function RebuildAll(nodes: seq<Node>, cs: seq<nat>, parent: nat): seq<Tree>
    requires LinksForward(nodes) && parent < |nodes| && Forward(nodes, parent, cs)
    decreases |nodes| - parent, 0, |cs|
  {
    if cs == [] then [] else RebuildAll(nodes, cs[..|cs| - 1], parent) + [Rebuild(nodes, cs[|cs| - 1])]
  }

  /** Following the links from `i` rebuilds the tree of the frame. */
  ghost predicate Regrown(nodes: seq<Node>, f: Frame, depth: nat, i: nat)
    requires LinksForward(nodes)
  {
    i < |nodes| && Rebuild(nodes, i) == TreeOf(f, depth)
  }

  /** The same for the sibling frame `k`, of siblings that start at `start`. */
  ghost predicate SiblingRegrown(nodes: seq<Node>, calls: seq<Frame>, depth: nat, start: nat, k: nat)
    requires LinksForward(nodes) && k < |calls|
  {
    Regrown(nodes, calls[k], depth, start + SizeAll(calls[..k]))
  }

  ghost predicate SiblingHeld(nodes: seq<Node>, calls: seq<Frame>, parent: nat, depth: nat, start: nat, k: nat)
    requires k < |calls|
  {
    Holds(nodes, calls[k], Some(parent), depth, start + SizeAll(calls[..k]))
  }

  lemma {:induction false} HoldsEach(
    nodes: seq<Node>, calls: seq<Frame>, parent: nat, depth: nat, start: nat, k: nat)
    requires HoldsAll(nodes, calls, parent, depth, start) && k < |calls|
    ensures SiblingHeld(nodes, calls, parent, depth, start, k)
  {
    HoldsAllSplit(nodes, calls, parent, depth, start);
    var n := |calls| - 1;
    if k < n {
      HoldsEach(nodes, calls[..n], parent, depth, start, k);
      assert calls[..n][..k] == calls[..k];
    }
  }

  lemma {:induction false} RebuildsTree(nodes: seq<Node>, f: Frame, parent: Option<nat>, depth: nat, base: nat)
    requires LinksForward(nodes) && Holds(nodes, f, parent, depth, base)
    ensures Regrown(nodes, f, depth, base)
    decreases f
  {
    HoldsSplit(nodes, f, parent, depth, base);
    var inner, start := depth + 1, base + 1;
    forall k | 0 <= k < |f.calls| ensures SiblingRegrown(nodes, f.calls, inner, start, k) {
      HoldsEach(nodes, f.calls, base, inner, start, k);
      RebuildsTree(nodes, f.calls[k], Some(base), inner, start + SizeAll(f.calls[..k]));
    }
    JoinTrees(nodes, f.calls, base, inner, start);
  }

  /** Following the links `cs` rebuilds the trees. */
  ghost predicate Rebuilds(nodes: seq<Node>, cs: seq<nat>, parent: nat, trees: seq<Tree>)
    requires LinksForward(nodes) && parent < |nodes|
  {
    Forward(nodes, parent, cs) && RebuildAll(nodes, cs, parent) == trees
  }

  lemma RebuildsOneMore(nodes: seq<Node>, cs: seq<nat>, c: nat, parent: nat, trees: seq<Tree>, tree: Tree)
    requires LinksForward(nodes) && parent < c < |nodes|
    requires Rebuilds(nodes, cs, parent, trees) && Rebuild(nodes, c) == tree
    ensures Rebuilds(nodes, cs + [c], parent, trees + [tree])
  {
    assert (cs + [c])[..|cs|] == cs;
  }

  lemma LastChild(calls: seq<Frame>, start: nat, depth: nat)
    requires calls != []
    ensures var front, last := calls[..|calls| - 1], calls[|calls| - 1];
      && ChildIndices(calls, start) == ChildIndices(front, start) + [start + SizeAll(front)]
      && TreesOf(calls, depth) == TreesOf(front, depth) + [TreeOf(last, depth)]
  {
  }

  lemma {:induction false} JoinTrees(nodes: seq<Node>, calls: seq<Frame>, parent: nat, depth: nat, start: nat)
    requires LinksForward(nodes) && parent < start <= |nodes|
    requires forall k | 0 <= k < |calls| :: SiblingRegrown(nodes, calls, depth, start, k)
    ensures Rebuilds(nodes, ChildIndices(calls, start), parent, TreesOf(calls, depth))
  {
    if calls != [] {
      var front, last := calls[..|calls| - 1], calls[|calls| - 1];
      forall k | 0 <= k < |front| ensures SiblingRegrown(nodes, front, depth, start, k) {
        assert SiblingRegrown(nodes, calls, depth, start, k);
        assert front[..k] == calls[..k];
      }
      JoinTrees(nodes, front, parent, depth, start);
      assert SiblingRegrown(nodes, calls, depth, start, |front|);
      RebuildsOneMore(
        nodes, ChildIndices(front, start), start + SizeAll(front), parent, TreesOf(front, depth), TreeOf(last, depth));
      LastChild(calls, start, depth);
    }
  }

  /** Only what lies behind a node matters to the tree rebuilt from it. */
  lemma {:induction false} RebuildFromTail(a: seq<Node>, b: seq<Node>, i: nat)
    requires LinksForward(a) && LinksForward(b) && |a| == |b| && i < |a|
    requires forall k | i <= k < |a| :: a[k] == b[k]
    ensures Rebuild(a, i) == Rebuild(b, i)
    decreases |a| - i, 1
  {
    assert Forward(a, i, a[i].children);
    RebuildAllFromTail(a, b, a[i].children, i);
  }

  lemma {:induction false} RebuildAllFromTail(a: seq<Node>, b: seq<Node>, cs: seq<nat>, i: nat)
    requires LinksForward(a) && LinksForward(b) && |a| == |b| && i < |a| && Forward(a, i, cs)
    requires forall k | i < k < |a| :: a[k] == b[k]
    ensures RebuildAll(a, cs, i) == RebuildAll(b, cs, i)
    decreases |a| - i, 0, |cs|
  {
    if cs != [] {
      RebuildAllFromTail(a, b, cs[..|cs| - 1], i);
      RebuildFromTail(a, b, cs[|cs| - 1]);
    }
  }

  /** A trace without an address takes the one given. */
  function WithAddress(trace: CallTrace, address: Option<Address>): CallTrace {
    if address.Some? && trace.address == 0 then trace.(address := address.value) else trace
  }

  lemma ArenaIsPreorder(root: Frame, rootAddress: Option<Address>)
    ensures var nodes, arena := Preorder(root, None, 0, 0), ArenaOf(root, rootAddress);
      && |nodes| == |arena| > 0
      && arena[0] == nodes[0].(trace := WithAddress(nodes[0].trace, rootAddress))
      && forall k | 0 < k < |nodes| :: arena[k] == nodes[k]
  {
  }

  /** Parents and children agree, whatever the traces say but for their depths. */
  ghost predicate Linked(nodes: seq<Node>) {
    && (forall i | 0 <= i < |nodes| :: NodeOk(nodes, i))
    && (forall i | 0 < i < |nodes| :: Adopted(nodes, i))
    && LinksForward(nodes)
  }

  lemma PreorderIsLinked(root: Frame)
    ensures var nodes := Preorder(root, None, 0, 0);
      && nodes[0].parent == None && nodes[0].trace.depth == 0
      && Linked(nodes)
      && Rebuild(nodes, 0) == TreeOf(root, 0)
  {
    var nodes := Preorder(root, None, 0, 0);
    assert nodes[0..|nodes|] == nodes;
    assert Holds(nodes, root, None, 0, 0);
    HoldsSplit(nodes, root, None, 0, 0);
    SubtreeOk(nodes, root, None, 0, 0);
    forall i | 0 <= i < |nodes| ensures Forward(nodes, i, nodes[i].children) {
      assert NodeOk(nodes, i);
    }
    RebuildsTree(nodes, root, None, 0, 0);
  }

  lemma SameLinks(a: seq<Node>, b: seq<Node>)
    requires |a| == |b| && Linked(a)
    requires forall k | 0 <= k < |a| ::
      b[k].idx == a[k].idx && b[k].children == a[k].children && b[k].parent == a[k].parent
      && b[k].trace.depth == a[k].trace.depth
    ensures Linked(b)
  {
    forall i | 0 <= i < |b| ensures NodeOk(b, i) && Forward(b, i, b[i].children) {
      assert NodeOk(a, i);
      forall k | 0 <= k < |b[i].children| ensures i + 1 <= b[i].children[k] && ChildOk(b, i, b[i].children[k]) {
        assert ChildOk(a, i, a[i].children[k]);
      }
    }
    forall i | 0 < i < |b| ensures Adopted(b, i) {
      assert Adopted(a, i);
    }
  }

  /** Arena faithfulness: for every frame tree and root address, the nodes are as many as the frames,
      each index is its position, the root alone has no parent, parents and children agree both ways
      with depths one apart, and following the child links rebuilds the tree, with the root address
      filled in where it was missing and nothing else changed. */
  lemma ArenaIsFaithful(root: Frame, rootAddress: Option<Address>)
    ensures var arena, tree := ArenaOf(root, rootAddress), TreeOf(root, 0);
      && |arena| == Size(root)
      && arena[0].parent == None && arena[0].trace.depth == 0
      && Linked(arena)
      && Rebuild(arena, 0) == tree.(trace := WithAddress(tree.trace, rootAddress))
  {
    var nodes, arena := Preorder(root, None, 0, 0), ArenaOf(root, rootAddress);
    PreorderIsLinked(root);
    ArenaIsPreorder(root, rootAddress);
    SameLinks(nodes, arena);
    assert Forward(nodes, 0, nodes[0].children);
    RebuildAllFromTail(nodes, arena, nodes[0].children, 0);
  }

  // ----- failures -----

  predicate FrameFailed(f: Frame) {
    f.error.Some? || f.revertReason.Some?
  }

  /** The failed frames of a tree. */
  function FailedFrames(f: Frame): nat {
    (if FrameFailed(f) then 1 else 0) + FailedAll(f.calls)
  }

  function FailedAll(calls: seq<Frame>): nat {
    if calls == [] then 0 else FailedAll(calls[..|calls| - 1]) + FailedFrames(calls[|calls| - 1])
  }

  /** The nodes marked failed, and shown as such: a plain return is never shown for one. */
  function ShownFailures(nodes: seq<Node>): nat {
    if nodes == [] then 0
    else (if !nodes[0].trace.success && nodes[0].trace.status != Return then 1 else 0) + ShownFailures(nodes[1..])
  }

  lemma {:induction false} ShownAppend(a: seq<Node>, b: seq<Node>)
    ensures ShownFailures(a + b) == ShownFailures(a) + ShownFailures(b)
  {
    if a == [] {
      assert a + b == b;
    } else {
      ShownAppend(a[1..], b);
      assert (a + b)[1..] == a[1..] + b;
    }
  }

  lemma {:induction false} PreorderShows(f: Frame, parent: Option<nat>, depth: nat, base: nat)
    ensures ShownFailures(Preorder(f, parent, depth, base)) == FailedFrames(f)
    decreases f, 1
  {
    PreorderAllShows(f.calls, base, depth + 1, base + 1);
    var node := NodeOf(f, parent, depth, base);
    ShownAppend([node], PreorderAll(f.calls, base, depth + 1, base + 1));
    assert [node][1..] == [];
  }

  lemma {:induction false} PreorderAllShows(calls: seq<Frame>, parent: nat, depth: nat, base: nat)
    ensures ShownFailures(PreorderAll(calls, parent, depth, base)) == FailedAll(calls)
    decreases calls, 0
  {
    if calls != [] {
      var front, last := calls[..|calls| - 1], calls[|calls| - 1];
      PreorderAllShows(front, parent, depth, base);
      PreorderShows(last, Some(parent), depth, base + SizeAll(front));
      ShownAppend(PreorderAll(front, parent, depth, base), Preorder(last, Some(parent), depth, base + SizeAll(front)));
    }
  }

  /** No failure is hidden and none is made up: the arena of any tree shows exactly as many failed calls as
      the tree has failed frames, at any depth. */
  lemma FailuresAreShown(root: Frame, rootAddress: Option<Address>)
    ensures ShownFailures(ArenaOf(root, rootAddress)) == FailedFrames(root)
  {
    var nodes, arena := Preorder(root, None, 0, 0), ArenaOf(root, rootAddress);
    PreorderShows(root, None, 0, 0);
    ArenaIsPreorder(root, rootAddress);
    assert arena[1..] == nodes[1..];
  }
}
