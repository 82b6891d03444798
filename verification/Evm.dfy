/**
 A straight-line EVM interpreter for the opcodes the probe emits, following Appendix H of the
 Ethereum Yellow Paper. Address assignment by CREATE and the outcome of CALL are left to an
 environment that may answer differently after every history of calls. Gas is not modelled.
 */
module Evm {
  import opened Common

  const WORD_SIZE: nat := 0x1_0000000000000000_0000000000000000_0000000000000000_0000000000000000

  const STOP: byte := 0x00
  const MUL: byte := 0x02
  const ISZERO: byte := 0x15
  const AND: byte := 0x16
  const OR: byte := 0x17
  const CODECOPY: byte := 0x39
  const MSTORE: byte := 0x52
  const PUSH1: byte := 0x60
  const PUSH2: byte := 0x61
  const PUSH3: byte := 0x62
  const DUP6: byte := 0x85
  const SWAP1: byte := 0x90
  const CREATE: byte := 0xf0
  const CALL: byte := 0xf1
  const RETURN: byte := 0xf3

  /** What the executing code asked of its environment, with the answers. */
  datatype Event =
    | Created(value: nat, initcode: seq<byte>, address: nat)
    | Called(gas: nat, to: nat, value: nat, input: seq<byte>, success: bool)

  /** The environment answers from the history of events. A failed CREATE gives address zero. */
  datatype World = World(
    create: (seq<Event>, nat, seq<byte>) -> nat,
    call: (seq<Event>, nat, nat, nat, seq<byte>) -> (bool, seq<byte>))

  type Memory = nat -> byte

  /** The top of the stack comes first. */
  datatype State = State(pc: nat, stack: seq<nat>, memory: Memory, events: seq<Event>)

  datatype Outcome =
    | Returned(output: seq<byte>, events: seq<Event>)
    | Stopped(events: seq<Event>)
    | Halted

  datatype Transition = Running(state: State) | Done(outcome: Outcome)

  function BitAnd(a: nat, b: nat): nat
    decreases a
  {
    if a == 0 || b == 0 then 0
    else (if a % 2 == 1 && b % 2 == 1 then 1 else 0) + 2 * BitAnd(a / 2, b / 2)
  }

  function BitOr(a: nat, b: nat): nat
    decreases a + b
  {
    if a == 0 then b else if b == 0 then a
    else (if a % 2 == 1 || b % 2 == 1 then 1 else 0) + 2 * BitOr(a / 2, b / 2)
  }

  predicate Bit(word: nat, i: nat) {
    (word / Pow(2, i)) % 2 == 1
  }

  /** Code past its end reads as zero. */
  function CodeAt(code: seq<byte>, i: nat): byte {
    if i < |code| then code[i] else 0
  }

  function Window(memory: Memory, offset: nat, size: nat): (r: seq<byte>)
    ensures |r| == size
    ensures forall i | 0 <= i < size :: r[i] == memory(offset + i)
  {
    seq(size, i requires 0 <= i < size => memory(offset + i))
  }

  function CopyCode(memory: Memory, to: nat, code: seq<byte>, from: nat, size: nat): Memory {
    (i: nat) => if to <= i < to + size then CodeAt(code, from + (i - to)) else memory(i)
  }

  function Store(memory: Memory, to: nat, bytes: seq<byte>): Memory {
    (i: nat) => if to <= i < to + |bytes| then bytes[i - to] else memory(i)
  }

  /** The output of a call lands in the part of the output area it covers. */
  function Prefix(bytes: seq<byte>, size: nat): seq<byte> {
    if |bytes| <= size then bytes else bytes[..size]
  }

  // ----- instructions -----

  datatype Instr = Push(bytes: seq<byte>) | Plain(op: byte)

  /** The instruction at position `pc`; operand bytes past the end read as zero. */
  function Fetch(code: seq<byte>, pc: nat): (i: Instr)
    requires pc < |code|
  {
    var op := code[pc];
    if op == PUSH1 then Push([CodeAt(code, pc + 1)])
    else if op == PUSH2 then Push([CodeAt(code, pc + 1), CodeAt(code, pc + 2)])
    else if op == PUSH3 then Push([CodeAt(code, pc + 1), CodeAt(code, pc + 2), CodeAt(code, pc + 3)])
    else Plain(op)
  }

  /** The effect of one instruction. Stack underflow and unknown opcodes halt exceptionally. */
  function Perform(i: Instr, code: seq<byte>, s: State, w: World): (t: Transition)
    ensures t.Running? ==> t.state.pc > s.pc
  {
    var st := s.stack;
    match i
    case Push(bytes) => Running(s.(pc := s.pc + 1 + |bytes|, stack := [FromBigEndian(bytes)] + st))
    case Plain(op) =>
      if op == STOP then Done(Stopped(s.events))
      else if op == DUP6 && |st| >= 6 then
        Running(s.(pc := s.pc + 1, stack := [st[5]] + st))
      else if op == SWAP1 && |st| >= 2 then
        Running(s.(pc := s.pc + 1, stack := [st[1], st[0]] + st[2..]))
      else if op == ISZERO && |st| >= 1 then
        Running(s.(pc := s.pc + 1, stack := [if st[0] == 0 then 1 else 0] + st[1..]))
      else if op == AND && |st| >= 2 then
        Running(s.(pc := s.pc + 1, stack := [BitAnd(st[0], st[1])] + st[2..]))
      else if op == OR && |st| >= 2 then
        Running(s.(pc := s.pc + 1, stack := [BitOr(st[0], st[1])] + st[2..]))
      else if op == MUL && |st| >= 2 then
        Running(s.(pc := s.pc + 1, stack := [(st[0] * st[1]) % WORD_SIZE] + st[2..]))
      else if op == CODECOPY && |st| >= 3 then
        Running(s.(pc := s.pc + 1, stack := st[3..], memory := CopyCode(s.memory, st[0], code, st[1], st[2])))
      else if op == MSTORE && |st| >= 2 then
        Running(s.(pc := s.pc + 1, stack := st[2..], memory := Store(s.memory, st[0], BigEndian(st[1], 32))))
      else if op == CREATE && |st| >= 3 then
        var initcode := Window(s.memory, st[1], st[2]);
        var address := w.create(s.events, st[0], initcode);
        Running(s.(pc := s.pc + 1, stack := [address] + st[3..],
                   events := s.events + [Created(st[0], initcode, address)]))
      else if op == CALL && |st| >= 7 then
        var input := Window(s.memory, st[3], st[4]);
        var (success, output) := w.call(s.events, st[0], st[1], st[2], input);
        Running(s.(pc := s.pc + 1, stack := [if success then 1 else 0] + st[7..],
                   memory := Store(s.memory, st[5], Prefix(output, st[6])),
                   events := s.events + [Called(st[0], st[1], st[2], input, success)]))
      else if op == RETURN && |st| >= 2 then
        Done(Returned(Window(s.memory, st[0], st[1]), s.events))
      else Done(Halted)
  }

  /** Runs to the end; every instruction moves forward. */
  function Exec(code: seq<byte>, s: State, w: World): Outcome
    decreases |code| - s.pc
  {
    if s.pc >= |code| then Stopped(s.events)
    else
      var t := Perform(Fetch(code, s.pc), code, s, w);
      if t.Done? then t.outcome else Exec(code, t.state, w)
  }

  // ----- straight-line programs -----

  datatype Program = End | Then(instr: Instr, rest: Program)

  function Append(p: Program, q: Program): Program {
    if p.End? then q else Then(p.instr, Append(p.rest, q))
  }

  /** An instruction `Fetch` can read back. */
  predicate Encodable(i: Instr) {
    match i
    case Push(bytes) => 1 <= |bytes| <= 3
    case Plain(op) => op != PUSH1 && op != PUSH2 && op != PUSH3
  }

  predicate AllEncodable(p: Program) {
    p.Then? ==> Encodable(p.instr) && AllEncodable(p.rest)
  }

  function Encode(i: Instr): seq<byte>
    requires Encodable(i)
  {
    match i
    case Push(bytes) => [PUSH1 + |bytes| - 1] + bytes
    case Plain(op) => [op]
  }

  function Assemble(p: Program): seq<byte>
    requires AllEncodable(p)
  {
    if p.End? then [] else Encode(p.instr) + Assemble(p.rest)
  }

  /** Performs the instructions one after the other. */
  function Run(p: Program, code: seq<byte>, s: State, w: World): Transition {
    if p.End? then Running(s)
    else
      var t := Perform(p.instr, code, s, w);
      if t.Done? then t else Run(p.rest, code, t.state, w)
  }

  lemma {:induction false} AppendAssembles(p: Program, q: Program)
    requires AllEncodable(p) && AllEncodable(q)
    ensures AllEncodable(Append(p, q)) && Assemble(Append(p, q)) == Assemble(p) + Assemble(q)
  {
    if p.Then? {
      AppendAssembles(p.rest, q);
    }
  }

  lemma {:induction false} AppendRuns(p: Program, q: Program, code: seq<byte>, s: State, w: World, t: State)
    requires Run(p, code, s, w) == Running(t)
    ensures Run(Append(p, q), code, s, w) == Run(q, code, t, w)
  {
    if p.Then? {
      AppendRuns(p.rest, q, code, Perform(p.instr, code, s, w).state, w, t);
    }
  }

  lemma RunOne(i: Instr, rest: Program, code: seq<byte>, s: State, w: World, t: State)
    requires Perform(i, code, s, w) == Running(t)
    ensures Run(Then(i, rest), code, s, w) == Run(rest, code, t, w)
  {
  }

  /** The bytes of `part` lie at position `pc` of `code`. */
  ghost predicate At(code: seq<byte>, pc: nat, part: seq<byte>) {
    pc + |part| <= |code| && code[pc..pc + |part|] == part
  }

  lemma AtSplit(code: seq<byte>, pc: nat, a: seq<byte>, b: seq<byte>)
    requires At(code, pc, a + b)
    ensures At(code, pc, a) && At(code, pc + |a|, b)
  {
    assert code[pc..pc + |a|] == (a + b)[..|a|];
    assert code[pc + |a|..pc + |a| + |b|] == (a + b)[|a|..];
  }

  lemma AtByte(code: seq<byte>, pc: nat, part: seq<byte>, k: nat)
    requires At(code, pc, part) && k < |part|
    ensures pc + k < |code| && code[pc + k] == part[k]
  {
    assert code[pc..pc + |part|][k] == code[pc + k];
  }

  lemma FetchEncoded(code: seq<byte>, pc: nat, i: Instr)
    requires Encodable(i) && At(code, pc, Encode(i))
    ensures pc < |code| && Fetch(code, pc) == i
  {
    AtByte(code, pc, Encode(i), 0);
    if i.Push? {
      forall k | 0 <= k < |i.bytes| ensures CodeAt(code, pc + 1 + k) == i.bytes[k] {
        AtByte(code, pc, Encode(i), 1 + k);
      }
      assert |i.bytes| == 1 || |i.bytes| == 2 || |i.bytes| == 3;
    }
  }

  /** Executing code that holds an assembled program performs the program. */
  lemma {:induction false} ExecRuns(p: Program, code: seq<byte>, s: State, w: World)
    requires AllEncodable(p) && At(code, s.pc, Assemble(p))
    ensures var t := Run(p, code, s, w);
      Exec(code, s, w) == if t.Done? then t.outcome else Exec(code, t.state, w)
  {
    if p.Then? {
      AtSplit(code, s.pc, Encode(p.instr), Assemble(p.rest));
      FetchEncoded(code, s.pc, p.instr);
      var t := Perform(p.instr, code, s, w);
      if t.Running? {
        ExecRuns(p.rest, code, t.state, w);
      }
    }
  }

  function Start(): State {
    State(0, [], (_: nat) => 0, [])
  }

  // ----- bits -----

  lemma HalfBit(word: nat, i: nat)
    requires i > 0
    ensures Bit(word, i) <==> Bit(word / 2, i - 1)
  {
    Quotients(word, Pow(2, i - 1));
  }

  lemma Quotients(word: nat, p: nat)
    requires p > 0
    ensures word / (2 * p) == word / 2 / p
  {
    var q, r := word / 2 / p, word / 2 % p;
    assert word == (q * p + r) * 2 + word % 2;
    DivideOut(2 * r + word % 2, q, 2 * p);
    assert q * (2 * p) == 2 * (q * p);
  }

  lemma LowBit(word: nat)
    ensures Bit(word, 0) <==> word % 2 == 1
  {
    assert word / 1 == word;
  }

  lemma Halved(low: nat, high: nat)
    requires low <= 1
    ensures (low + 2 * high) / 2 == high && (low + 2 * high) % 2 == low
  {
  }

  lemma AndHalves(a: nat, b: nat)
    ensures BitAnd(a, b) / 2 == BitAnd(a / 2, b / 2)
    ensures BitAnd(a, b) % 2 == 1 <==> a % 2 == 1 && b % 2 == 1
  {
    if a > 0 && b > 0 {
      Halved(if a % 2 == 1 && b % 2 == 1 then 1 else 0, BitAnd(a / 2, b / 2));
    }
  }

  lemma OrHalves(a: nat, b: nat)
    ensures BitOr(a, b) / 2 == BitOr(a / 2, b / 2)
    ensures BitOr(a, b) % 2 == 1 <==> a % 2 == 1 || b % 2 == 1
  {
    if a > 0 && b > 0 {
      Halved(if a % 2 == 1 || b % 2 == 1 then 1 else 0, BitOr(a / 2, b / 2));
    }
  }

  /** AND and OR work bit by bit. */
  lemma {:induction false} BitsOfAnd(a: nat, b: nat, i: nat)
    ensures Bit(BitAnd(a, b), i) <==> Bit(a, i) && Bit(b, i)
    decreases i
  {
    AndHalves(a, b);
    if i == 0 {
      LowBit(a);
      LowBit(b);
      LowBit(BitAnd(a, b));
    } else {
      BitsOfAnd(a / 2, b / 2, i - 1);
      HalfBit(BitAnd(a, b), i);
      HalfBit(a, i);
      HalfBit(b, i);
    }
  }

  lemma {:induction false} BitsOfOr(a: nat, b: nat, i: nat)
    ensures Bit(BitOr(a, b), i) <==> Bit(a, i) || Bit(b, i)
    decreases i
  {
    OrHalves(a, b);
    if i == 0 {
      LowBit(a);
      LowBit(b);
      LowBit(BitOr(a, b));
    } else {
      BitsOfOr(a / 2, b / 2, i - 1);
      HalfBit(BitOr(a, b), i);
      HalfBit(a, i);
      HalfBit(b, i);
    }
  }

  lemma {:induction false} BitOrDisjoint(a: nat, i: nat)
    requires a < Pow(2, i)
    ensures BitOr(Pow(2, i), a) == Pow(2, i) + a
  {
    if i > 0 && a > 0 {
      BitOrDisjoint(a / 2, i - 1);
      assert Pow(2, i) == 2 * Pow(2, i - 1);
    }
  }

  /** The low bits below `i`, bit `i`, and the rest, do not disturb one another. */
  lemma BitOfSum(low: nat, flag: nat, high: nat, i: nat)
    requires low < Pow(2, i) && flag <= 1
    ensures Bit(low + flag * Pow(2, i) + high * Pow(2, i + 1), i) <==> flag == 1
  {
    var p := Pow(2, i);
    var q := flag + 2 * high;
    assert low + flag * p + high * Pow(2, i + 1) == low + q * p by {
      assert high * Pow(2, i + 1) == 2 * high * p;
    }
    DivideOut(low, q, p);
  }

  lemma DivideOut(low: nat, q: nat, p: nat)
    requires low < p
    ensures (low + q * p) / p == q
  {
    var r := (low + q * p) / p;
    assert low + q * p == r * p + (low + q * p) % p;
    assert r < q ==> (r + 1) * p <= q * p;
    assert r > q ==> r * p >= (q + 1) * p;
  }
}
