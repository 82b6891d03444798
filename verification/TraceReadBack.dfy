/**
 What can be read back from a trace arena (crates/cast/src/rpc_trace.rs): the frame tree it was made from,
 with defaults where the tracer left something out, and for every frame how it ended and why.
 */
module TraceReadBack {
  import opened Common
  import opened TraceOrdering
  import opened TraceArena

  // ----- the frames -----

  /** The tracer's name for a kind of call. */
  function NameOf(kind: CallKind): string {
    match kind
    case PlainCall => "CALL"
    case StaticCall => "STATICCALL"
    case DelegateCall => "DELEGATECALL"
    case CallCode => "CALLCODE"
    case AuthCall => "AUTHCALL"
    case Create => "CREATE"
    case Create2 => "CREATE2"
  }

  function ReadLog(l: CallLog): LogFrame {
    LogFrame(Some(l.address), Some(l.topics), Some(l.data), Some(l.position), Some(l.index))
  }

  function ReadLogs(logs: seq<CallLog>): seq<LogFrame> {
    seq(|logs|, i requires 0 <= i < |logs| => ReadLog(logs[i]))
  }

  /** The frame a trace shows, without its calls and the words of a failure. A selfdestruct shows who was
      destroyed, who got the balance and how much it was. */
  function ReadTrace(c: CallTrace, logs: seq<CallLog>): Frame {
    if c.selfdestructAddress.Some? then
      Frame(
        "SELFDESTRUCT", c.selfdestructAddress.value, c.selfdestructRefundTarget, c.selfdestructTransferredValue,
        c.gasLimit, c.gasUsed, c.data, Some(c.output), None, None, ReadLogs(logs), [])
    else
      Frame(
        NameOf(c.kind), c.caller, Some(c.address), Some(c.value), c.gasLimit, c.gasUsed, c.data, Some(c.output),
        None, None, ReadLogs(logs), [])
  }

  /** The frames a tree of traces shows. */
  function ReadFrame(t: Tree): Frame {
    ReadTrace(t.trace, t.logs).(calls := ReadFrames(t.children))
  }

  function ReadFrames(ts: seq<Tree>): seq<Frame> {
    if ts == [] then [] else ReadFrames(ts[..|ts| - 1]) + [ReadFrame(ts[|ts| - 1])]
  }

  predicate SameLetter(a: char, b: char) {
    a == b || ('a' <= a <= 'z' && b == a - 'a' + 'A')
  }

  /** The text spells the upper-case name, in whatever case. */
  predicate Spells(s: string, name: string) {
    |s| == |name| && forall i | 0 <= i < |s| :: SameLetter(s[i], name[i])
  }

  /** The type shown: a known one in upper case, and a plain call for anything else. */
  function TypeShown(typ: string): string {
    if typ == "SELFDESTRUCT" then typ
    else if Spells(typ, "STATICCALL") then "STATICCALL"
    else if Spells(typ, "DELEGATECALL") then "DELEGATECALL"
    else if Spells(typ, "CALLCODE") then "CALLCODE"
    else if Spells(typ, "AUTHCALL") then "AUTHCALL"
    else if Spells(typ, "CREATE") then "CREATE"
    else if Spells(typ, "CREATE2") then "CREATE2"
    else "CALL"
  }

  function Present<T>(o: Option<T>, default: T): Option<T> {
    if o.None? then Some(default) else o
  }

  function CompletedLog(l: LogFrame): LogFrame {
    LogFrame(
      Present(l.address, 0), Present(l.topics, []), Present(l.data, []), Present(l.position, 0), Present(l.index, 0))
  }

  function CompletedLogs(logs: seq<LogFrame>): seq<LogFrame> {
    seq(|logs|, i requires 0 <= i < |logs| => CompletedLog(logs[i]))
  }

  function Capped(gas: nat): nat {
    if gas > 0xffff_ffff_ffff_ffff then 0xffff_ffff_ffff_ffff else gas
  }

  /** The frame with defaults for what the tracer left out: no recipient, value, output, topics or data is
      zero or empty, gas is capped at 64 bits, and a failure that returned nothing has its words for
      output. A selfdestruct may well have no recipient and value. */
  function CompletedHead(f: Frame): Frame {
    HeadNamed(f, TypeShown(f.typ))
  }

  function HeadNamed(f: Frame, typ: string): Frame {
    Frame(
      typ,
      f.from,
      if f.typ == "SELFDESTRUCT" then f.to else Present(f.to, 0),
      if f.typ == "SELFDESTRUCT" then f.value else Present(f.value, 0),
      Capped(f.gas),
      Capped(f.gasUsed),
      f.input,
      Some(Shown(f)),
      None,
      None,
      CompletedLogs(f.logs),
      [])
  }

  function Completed(f: Frame): Frame {
    CompletedHead(f).(calls := CompletedAll(f.calls))
  }

  function CompletedAll(calls: seq<Frame>): seq<Frame> {
    if calls == [] then [] else CompletedAll(calls[..|calls| - 1]) + [Completed(calls[|calls| - 1])]
  }

  predicate ReturnedData(f: Frame) {
    f.output.Some? && f.output.value != []
  }

  /** The words of a failure. */
  function Words(f: Frame): string
    requires FrameFailed(f)
  {
    if f.revertReason.Some? then f.revertReason.value else f.error.value
  }

  function Shown(f: Frame): seq<byte> {
    if ReturnedData(f) then f.output.value else if FrameFailed(f) then Utf8(Words(f)) else []
  }

  lemma SpellsCons(s: string, name: string)
    requires s != "" && name != ""
    ensures Spells(s, name) <==> SameLetter(s[0], name[0]) && Spells(s[1..], name[1..])
  {
    var t, rest := s[1..], name[1..];
    if Spells(t, rest) && SameLetter(s[0], name[0]) {
      forall i | 0 <= i < |s| ensures SameLetter(s[i], name[i]) {
        if i > 0 {
          assert SameLetter(t[i - 1], rest[i - 1]);
        }
      }
    }
    if Spells(s, name) {
      forall i | 0 <= i < |t| ensures SameLetter(t[i], rest[i]) {
        assert SameLetter(s[i + 1], name[i + 1]);
      }
    }
  }

  lemma {:induction false} UpperSpells(s: string, name: string)
    requires forall i | 0 <= i < |name| :: !('a' <= name[i] <= 'z')
    ensures Upper(s) == name <==> Spells(s, name)
  {
    if s != "" && name != "" {
      UpperSpells(s[1..], name[1..]);
      SpellsCons(s, name);
      UpperCons(s, name);
    }
  }

  lemma UpperCons(s: string, name: string)
    requires s != "" && name != "" && !('a' <= name[0] <= 'z')
    ensures Upper(s) == name <==> SameLetter(s[0], name[0]) && Upper(s[1..]) == name[1..]
  {
    var first := Upper(s)[0];
    assert Upper(s) == [first] + Upper(s[1..]) && name == [name[0]] + name[1..];
    if Upper(s) == name {
      assert Upper(s)[1..] == Upper(s[1..]);
    }
  }

  lemma KindIsShown(typ: string)
    requires typ != "SELFDESTRUCT"
    ensures NameOf(KindOf(typ)) == TypeShown(typ)
  {
    UpperSpells(typ, "STATICCALL");
    UpperSpells(typ, "DELEGATECALL");
    UpperSpells(typ, "CALLCODE");
    UpperSpells(typ, "AUTHCALL");
    UpperSpells(typ, "CREATE");
    UpperSpells(typ, "CREATE2");
  }

  lemma LogsReadBack(f: Frame)
    ensures ReadLogs(LogsOf(f)) == CompletedLogs(f.logs)
  {
  }

  lemma TraceReadsBack(f: Frame, depth: nat)
    ensures ReadTrace(TraceOf(f, depth), LogsOf(f)) == CompletedHead(f)
  {
    OutputIsShown(f);
    LogsReadBack(f);
    if f.typ == "SELFDESTRUCT" {
      DestroyedReadsBack(f, depth);
    } else {
      KindIsShown(f.typ);
      CallReadsBack(f, depth, KindOf(f.typ));
    }
  }

  lemma OutputIsShown(f: Frame)
    ensures OutputOf(f) == Shown(f)
  {
  }

  lemma DestroyedReadsBack(f: Frame, depth: nat)
    requires f.typ == "SELFDESTRUCT" && OutputOf(f) == Shown(f) && ReadLogs(LogsOf(f)) == CompletedLogs(f.logs)
    ensures ReadTrace(TraceOf(f, depth), LogsOf(f)) == HeadNamed(f, f.typ)
  {
  }

  lemma CallReadsBack(f: Frame, depth: nat, kind: CallKind)
    requires f.typ != "SELFDESTRUCT" && OutputOf(f) == Shown(f) && ReadLogs(LogsOf(f)) == CompletedLogs(f.logs)
    requires kind == KindOf(f.typ)
    ensures ReadTrace(TraceOf(f, depth), LogsOf(f)) == HeadNamed(f, NameOf(kind))
  {
  }

  lemma {:induction false} TreeReadsBack(f: Frame, depth: nat)
    ensures ReadFrame(TreeOf(f, depth)) == Completed(f)
    decreases f, 1
  {
    TreesReadBack(f.calls, depth + 1);
    TraceReadsBack(f, depth);
  }

  lemma {:induction false} TreesReadBack(calls: seq<Frame>, depth: nat)
    ensures ReadFrames(TreesOf(calls, depth)) == CompletedAll(calls)
    decreases calls, 0
  {
    if calls != [] {
      var front, last := calls[..|calls| - 1], calls[|calls| - 1];
      TreesReadBack(front, depth);
      TreeReadsBack(last, depth);
      var trees := TreesOf(front, depth) + [TreeOf(last, depth)];
      assert trees[..|trees| - 1] == TreesOf(front, depth);
    }
  }

  /** The whole frame tree can be read back from the arena, for every tree and root address: each frame with
      defaults for what was left out, and the root address where the root had none. */
  lemma FramesReadBack(root: Frame, rootAddress: Option<Address>)
    ensures LinksForward(ArenaOf(root, rootAddress))
    ensures var f := Completed(root);
      ReadFrame(Rebuild(ArenaOf(root, rootAddress), 0)) ==
      if rootAddress.Some? && root.typ != "SELFDESTRUCT" && f.to == Some(0) then f.(to := rootAddress) else f
  {
    ArenaIsFaithful(root, rootAddress);
    TreeReadsBack(root, 0);
  }

  /** The frame leaves nothing out, and its type is one the tracer uses. */
  predicate Complete(f: Frame) {
    && f.typ in {"CALL", "STATICCALL", "DELEGATECALL", "CALLCODE", "AUTHCALL", "CREATE", "CREATE2", "SELFDESTRUCT"}
    && (f.typ != "SELFDESTRUCT" ==> f.to.Some? && f.value.Some?)
    && f.gas < 0x1_0000_0000_0000_0000 && f.gasUsed < 0x1_0000_0000_0000_0000
    && f.output.Some? && (FrameFailed(f) ==> f.output.value != [])
    && (forall i | 0 <= i < |f.logs| :: LogComplete(f.logs[i]))
    && AllComplete(f.calls)
  }

  predicate AllComplete(calls: seq<Frame>) {
    calls == [] || (AllComplete(calls[..|calls| - 1]) && Complete(calls[|calls| - 1]))
  }

  predicate LogComplete(l: LogFrame) {
    l.address.Some? && l.topics.Some? && l.data.Some? && l.position.Some? && l.index.Some?
  }

  /** The tree without the words of its failures. */
  function Wordless(f: Frame): Frame {
    f.(error := None, revertReason := None, calls := AllWordless(f.calls))
  }

  function AllWordless(calls: seq<Frame>): seq<Frame> {
    if calls == [] then [] else AllWordless(calls[..|calls| - 1]) + [Wordless(calls[|calls| - 1])]
  }

  lemma NamesAreShown(typ: string)
    requires typ in {"CALL", "STATICCALL", "DELEGATECALL", "CALLCODE", "AUTHCALL", "CREATE", "CREATE2", "SELFDESTRUCT"}
    ensures TypeShown(typ) == typ
  {
    if typ == "CALL" {
      assert |typ| == 4;
    } else if typ == "CREATE" {
      assert |typ| == 6;
    } else if typ == "CREATE2" {
      assert |typ| == 7;
    } else if typ == "CALLCODE" || typ == "AUTHCALL" {
      assert |typ| == 8 && typ[0] == if typ == "CALLCODE" then 'C' else 'A';
      assert !Spells("AUTHCALL", "CALLCODE") by {
        assert !SameLetter("AUTHCALL"[0], "CALLCODE"[0]);
      }
    } else if typ == "DELEGATECALL" {
      assert |typ| == 12;
    }
  }

  lemma {:induction false} CompleteIsItself(f: Frame)
    requires Complete(f)
    ensures Completed(f) == Wordless(f)
    decreases f, 1
  {
    NamesAreShown(f.typ);
    AllCompleteAre(f.calls);
    assert CompletedLogs(f.logs) == f.logs;
  }

  lemma {:induction false} AllCompleteAre(calls: seq<Frame>)
    requires AllComplete(calls)
    ensures CompletedAll(calls) == AllWordless(calls)
    decreases calls, 0
  {
    if calls != [] {
      AllCompleteAre(calls[..|calls| - 1]);
      CompleteIsItself(calls[|calls| - 1]);
    }
  }

  /** So a tree that leaves nothing out comes back as it was, but for the words of its failures. */
  lemma CompleteTreeReadsBack(root: Frame)
    requires Complete(root)
    ensures LinksForward(ArenaOf(root, None))
    ensures ReadFrame(Rebuild(ArenaOf(root, None), 0)) == Wordless(root)
  {
    FramesReadBack(root, None);
    CompleteIsItself(root);
  }

  // ----- how frames ended -----

  /** The text of UTF-8 bytes, unless they are ill-formed. */
  function Text(bytes: seq<byte>): Option<string> {
    if bytes == [] then Some("")
    else
      var n := Width(bytes[0]);
      if |bytes| < n then None
      else
        var c := Scalar(bytes[..n]);
        if 0xd800 <= c < 0xe000 || c >= 0x11_0000 then None
        else
          var rest := Text(bytes[n..]);
          if rest.None? then None else Some([c as char] + rest.value)
  }

  /** The number of bytes a first byte announces. */
  function Width(first: byte): (n: nat)
    ensures 1 <= n <= 4
  {
    if first < 0x80 then 1 else if first < 0xe0 then 2 else if first < 0xf0 then 3 else 4
  }

  function Scalar(bytes: seq<byte>): nat
    requires 1 <= |bytes| <= 4
  {
    var a: int := bytes[0];
    if |bytes| == 1 then a
    else
      var b: int := bytes[1] % 64;
      if |bytes| == 2 then a % 32 * 64 + b
      else
        var c: int := bytes[2] % 64;
        if |bytes| == 3 then (a % 16 * 64 + b) * 64 + c
        else
          var d: int := bytes[3] % 64;
          ((a % 8 * 64 + b) * 64 + c) * 64 + d
  }

  /** Six bits at a time. */
  lemma Sextets(c: nat)
    ensures c == c / 64 * 64 + c % 64 && c / 64 / 64 == c / 4096 && c / 4096 / 64 == c / 262144
    ensures c / 64 == c / 4096 * 64 + c / 64 % 64 && c / 4096 == c / 262144 * 64 + c / 4096 % 64
  {
  }

  lemma CharReadsBack(c: int)
    requires 0 <= c < 0x11_0000
    ensures var b := Utf8Char(c); 1 <= |b| <= 4 && Width(b[0]) == |b| && Scalar(b) == c
  {
    Sextets(c);
    if c < 0x80 {
    } else if c < 0x800 {
      TwoBytes(c / 64, c % 64);
    } else if c < 0x1_0000 {
      ThreeBytes(c / 4096, c / 64 % 64, c % 64);
    } else {
      FourBytes(c / 262144, c / 4096 % 64, c / 64 % 64, c % 64);
    }
  }

  lemma Remainder(k: nat, a: nat, m: nat)
    requires a < m
    ensures (k * m + a) % m == a
  {
    var q := (k * m + a) / m;
    assert k * m + a == q * m + (k * m + a) % m;
    Multiples(q + 1, k, m);
    Multiples(k + 1, q, m);
  }

  lemma Multiples(a: nat, b: nat, m: nat)
    ensures a <= b ==> a * m <= b * m
  {
  }

  lemma TwoBytes(a: nat, b: nat)
    requires a < 32 && b < 64
    ensures Scalar([0xc0 + a, 0x80 + b]) == a * 64 + b
  {
    Remainder(6, a, 32);
    Remainder(2, b, 64);
  }

  lemma ThreeBytes(a: nat, b: nat, c: nat)
    requires a < 16 && b < 64 && c < 64
    ensures Scalar([0xe0 + a, 0x80 + b, 0x80 + c]) == (a * 64 + b) * 64 + c
  {
    Remainder(14, a, 16);
    Remainder(2, b, 64);
    Remainder(2, c, 64);
  }

  lemma FourBytes(a: nat, b: nat, c: nat, d: nat)
    requires a < 8 && b < 64 && c < 64 && d < 64
    ensures Scalar([0xf0 + a, 0x80 + b, 0x80 + c, 0x80 + d]) == ((a * 64 + b) * 64 + c) * 64 + d
  {
    Remainder(30, a, 8);
    Remainder(2, b, 64);
    Remainder(2, c, 64);
    Remainder(2, d, 64);
  }

  /** The words of a failure can be read off the bytes shown for them. */
  lemma {:induction false} WordsReadBack(s: string)
    ensures Text(Utf8(s)) == Some(s)
  {
    if s != "" {
      var c := s[0] as int;
      var first, rest := Utf8Char(c), Utf8(s[1..]);
      CharReadsBack(c);
      WordsReadBack(s[1..]);
      var all := first + rest;
      assert all[..|first|] == first && all[|first|..] == rest && all[0] == first[0];
      assert s == [s[0]] + s[1..];
    }
  }

  ghost predicate Mentions(s: string, needle: string) {
    exists i | 0 <= i <= |s| :: needle <= s[i..]
  }

  lemma {:induction false} ContainsIff(s: string, needle: string)
    ensures Contains(s, needle) <==> Mentions(s, needle)
  {
    assert s[0..] == s;
    if s != [] {
      ContainsIff(s[1..], needle);
      forall i | 0 <= i < |s| ensures s[1..][i..] == s[i + 1..] {
      }
      if Contains(s[1..], needle) {
        var i :| 0 <= i <= |s| - 1 && needle <= s[1..][i..];
        assert needle <= s[i + 1..];
      }
      if Mentions(s, needle) {
        var i :| 0 <= i <= |s| && needle <= s[i..];
        if i > 0 {
          assert needle <= s[1..][i - 1..];
        }
      }
    }
  }

  /** The trace tells how the frame ended: whether it failed, with which status, and with its data or else its
      words for output. A selfdestruct is told as such, by the destroyed contract, which sent nothing. */
  ghost predicate Tells(c: CallTrace, f: Frame) {
    && (c.success <==> !FrameFailed(f))
    && (c.status == SelfDestruct <==> f.typ == "SELFDESTRUCT")
    && (f.typ != "SELFDESTRUCT" ==>
          && (c.status == Return <==> !FrameFailed(f))
          && (c.status == OutOfGas <==> f.revertReason.None? && f.error.Some? && Mentions(f.error.value, "out of gas")))
    && (f.typ == "SELFDESTRUCT" ==> c.caller == f.from && c.address == f.from && c.value == 0)
    && (ReturnedData(f) ==> c.output == f.output.value)
    && (!ReturnedData(f) && FrameFailed(f) ==> Text(c.output) == Some(Words(f)))
    && (!ReturnedData(f) && !FrameFailed(f) ==> c.output == [])
  }

  /** Every log of the tree comes after as many calls as its position says, or after all. */
  ghost predicate InPlace(t: Tree) {
    forall k | 0 <= k < |t.ordering| && t.ordering[k].Log? ::
      && t.ordering[k].li < |t.logs|
      && var p := t.logs[t.ordering[k].li].position;
         CallsIn(t.ordering[..k]) == if p < |t.children| then p else |t.children|
  }

  ghost predicate TellsTree(t: Tree, f: Frame)
    decreases f, 1
  {
    Tells(t.trace, f) && InPlace(t) && TellsTrees(t.children, f.calls)
  }

  ghost predicate TellsTrees(ts: seq<Tree>, calls: seq<Frame>)
    decreases calls, 0
  {
    |ts| == |calls| &&
    (calls == [] ||
     (TellsTrees(ts[..|ts| - 1], calls[..|calls| - 1]) && TellsTree(ts[|ts| - 1], calls[|calls| - 1])))
  }

  lemma TraceTells(f: Frame, depth: nat)
    ensures Tells(TraceOf(f, depth), f)
  {
    if f.error.Some? {
      ContainsIff(f.error.value, "out of gas");
    }
    if FrameFailed(f) {
      WordsReadBack(Words(f));
    }
  }

  lemma {:induction false} TreeTells(f: Frame, depth: nat)
    ensures TellsTree(TreeOf(f, depth), f)
    decreases f, 1
  {
    TraceTells(f, depth);
    TreesTell(f.calls, depth + 1);
    LogsInPlace(f, depth);
  }

  lemma {:induction false} TreesTell(calls: seq<Frame>, depth: nat)
    ensures TellsTrees(TreesOf(calls, depth), calls)
    decreases calls, 0
  {
    if calls != [] {
      var front, last := calls[..|calls| - 1], calls[|calls| - 1];
      TreesTell(front, depth);
      TreeTells(last, depth);
      var trees := TreesOf(front, depth) + [TreeOf(last, depth)];
      assert trees[..|trees| - 1] == TreesOf(front, depth);
    }
  }

  lemma LogsInPlace(f: Frame, depth: nat)
    requires |TreesOf(f.calls, depth + 1)| == |f.calls|
    ensures InPlace(TreeOf(f, depth))
  {
    var t, positions, n := TreeOf(f, depth), PositionsOf(f), |f.calls|;
    forall k | 0 <= k < |t.ordering| && t.ordering[k].Log?
      ensures t.ordering[k].li < |t.logs|
      ensures var p := t.logs[t.ordering[k].li].position; CallsIn(t.ordering[..k]) == if p < n then p else n
    {
      LogComesAfterItsCalls(positions, n, 0, k);
    }
  }

  /** At every depth of every tree the arena tells how each frame ended, and where its logs belong; but a
      destroyed root without an address takes the one given. */
  lemma ArenaTells(root: Frame, rootAddress: Option<Address>)
    ensures LinksForward(ArenaOf(root, rootAddress))
    ensures var t := Rebuild(ArenaOf(root, rootAddress), 0);
      if root.typ == "SELFDESTRUCT" && root.from == 0 && rootAddress.Some?
      then t.trace.address == rootAddress.value && TellsTree(t.(trace := t.trace.(address := 0)), root)
      else TellsTree(t, root)
  {
    ArenaIsFaithful(root, rootAddress);
    TreeTells(root, 0);
    var t, plain := Rebuild(ArenaOf(root, rootAddress), 0), TreeOf(root, 0);
    if t.trace != plain.trace && !(root.typ == "SELFDESTRUCT" && root.from == 0) {
      assert Tells(t.trace, root);
    }
  }
}
