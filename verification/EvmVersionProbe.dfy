/**
 The EVM version probe (crates/cast/src/evm_version.rs): a code generator whose output deploys and
 calls one contract per probed feature and returns the mask of the probes that succeeded, and the
 mapping from that mask to an EVM version.

 The source's fixed probe table becomes a parameter: any list of at most 8 runtimes of at most 243
 bytes each, the bounds its one-byte operands impose.
 */
module EvmVersionProbe {
  import opened Common
  import opened Evm

  type Probes = p: seq<seq<byte>> | |p| <= 8 && forall i | 0 <= i < |p| :: |p[i]| <= 243 witness []

  const PROBE_GAS: nat := 20_000
  const PER_PROBE: nat := 39
  const HEADER_AND_FOOTER: nat := 10
  const PREFIX_LEN: byte := 12

  // ----- the generated programs -----

  /** Copies a deploy code to the start of memory. */
  function LoadPart(len: byte, hi: byte, lo: byte): Program {
    Then(Push([len]), Then(Push([hi, lo]), Then(Push([0]), Then(Plain(CODECOPY), End))))
  }

  /** Deploys what was copied, without value. */
  function CreatePart(len: byte): Program {
    Then(Push([len]), Then(Push([0]), Then(Push([0]), Then(Plain(CREATE), End))))
  }

  function PushZeros(n: nat, rest: Program): Program {
    if n == 0 then rest else Then(Push([0]), PushZeros(n - 1, rest))
  }

  /** Calls the deployed contract with the gas of a probe and nothing else; its address lies below the zeros
      just pushed, and stays there. */
  function CallPart(): Program {
    PushZeros(5, Then(Plain(DUP6), Then(Push([0x00, 0x4e, 0x20]), Then(Plain(CALL), End))))
  }

  /** Adds the probe's weight to the mask below, if deployment and call both went well. */
  function MaskPart(weight: byte): Program {
    Then(Plain(SWAP1), Then(Plain(ISZERO), Then(Plain(ISZERO), Then(Plain(AND),
      Then(Push([weight]), Then(Plain(MUL), Then(Plain(OR), End)))))))
  }

  /** Returns the mask as one word. */
  function Footer(): Program {
    Then(Push([0]), Then(Plain(MSTORE), Then(Push([32]), Then(Push([0]), Then(Plain(RETURN), End)))))
  }

  /** Returns the code that follows the prefix. */
  function DeployPart(len: byte): Program {
    Then(Push([len]), Then(Push([PREFIX_LEN]), Then(Push([0]), Then(Plain(CODECOPY),
      Then(Push([len]), Then(Push([0]), Then(Plain(RETURN), End)))))))
  }

  function BlockPart(weight: byte, len: byte, start: nat): Program
    requires start < 65536
  {
    Append(LoadPart(len, start / 256, start % 256),
           Append(CreatePart(len), Append(CallPart(), MaskPart(weight))))
  }

  lemma WeightFits(bit: nat)
    requires bit < 8
    ensures Pow(2, bit) <= 128
  {
    PowMonotone(bit, 7);
    assert Pow(2, 7) == 2 * (2 * (2 * (2 * (2 * (2 * (2 * 1))))));
  }

  lemma {:induction false} PowMonotone(a: nat, b: nat)
    requires a <= b
    ensures Pow(2, a) <= Pow(2, b)
    decreases b
  {
    if a < b { PowMonotone(a, b - 1); }
  }

  // ----- the generated bytes -----

  /** Code that copies what follows it into memory and returns it. */
  method DeployCode(runtime: seq<byte>) returns (code: seq<byte>)
    requires |runtime| <= 255
    ensures code == DeployBytes(runtime)
  {
    var len: byte := |runtime|;
    code := [PUSH1, len, PUSH1, PREFIX_LEN, PUSH1, 0, CODECOPY, PUSH1, len, PUSH1, 0, RETURN];
    code := code + runtime;
  }

  function DeployBytes(runtime: seq<byte>): (code: seq<byte>)
    requires |runtime| <= 255
    ensures |code| == 12 + |runtime|
  {
    var len: byte := |runtime|;
    [PUSH1, len, PUSH1, PREFIX_LEN, PUSH1, 0, CODECOPY, PUSH1, len, PUSH1, 0, RETURN] + runtime
  }

  function Initcode(probes: Probes, i: nat): (code: seq<byte>)
    requires i < |probes|
    ensures |code| <= 255
  {
    DeployBytes(probes[i])
  }

  function InitcodesFrom(probes: Probes, i: nat): seq<byte>
    requires i <= |probes|
    decreases |probes| - i
  {
    if i == |probes| then [] else Initcode(probes, i) + InitcodesFrom(probes, i + 1)
  }

  /** Where the initcode of probe `i` starts. */
  function Offset(probes: Probes, i: nat): (r: nat)
    requires i <= |probes|
    ensures r <= HEADER_AND_FOOTER + PER_PROBE * |probes| + 255 * i
  {
    if i == 0 then HEADER_AND_FOOTER + PER_PROBE * |probes|
    else Offset(probes, i - 1) + |Initcode(probes, i - 1)|
  }

  function BlockBytes(weight: byte, len: byte, start: nat): (code: seq<byte>)
    requires start < 65536
    ensures |code| == PER_PROBE
  {
    [PUSH1, len, PUSH2, start / 256, start % 256, PUSH1, 0, CODECOPY]
    + [PUSH1, len, PUSH1, 0, PUSH1, 0, CREATE]
    + ([PUSH1, 0, PUSH1, 0, PUSH1, 0, PUSH1, 0, PUSH1, 0] + [DUP6, PUSH3, 0x00, 0x4e, 0x20, CALL])
    + ([SWAP1, ISZERO, ISZERO, AND] + [PUSH1, weight, MUL, OR])
  }

  function ProbeBlock(probes: Probes, i: nat): (code: seq<byte>)
    requires i < |probes|
    ensures |code| == PER_PROBE
  {
    WeightFits(i);
    BlockBytes(Pow(2, i), |Initcode(probes, i)|, Offset(probes, i))
  }

  function BlocksFrom(probes: Probes, i: nat): (code: seq<byte>)
    requires i <= |probes|
    ensures |code| == PER_PROBE * (|probes| - i)
    decreases |probes| - i
  {
    if i == |probes| then [] else ProbeBlock(probes, i) + BlocksFrom(probes, i + 1)
  }

  function FooterBytes(): seq<byte> {
    [PUSH1, 0, MSTORE, PUSH1, 32, PUSH1, 0, RETURN]
  }

  function ProbeBytes(probes: Probes): seq<byte> {
    [PUSH1, 0] + BlocksFrom(probes, 0) + FooterBytes() + InitcodesFrom(probes, 0)
  }

  /** Blocks first, then the initcodes they copy, whose offsets run along. */
  method ProbeCode(probes: Probes) returns (code: seq<byte>)
    ensures code == ProbeBytes(probes)
  {
    code := [PUSH1, 0];
    var data: seq<byte> := [];
    var offset := HEADER_AND_FOOTER + PER_PROBE * |probes|;
    var bit := 0;
    while bit < |probes|
      invariant bit <= |probes|
      invariant offset == Offset(probes, bit)
      invariant code + BlocksFrom(probes, bit) == [PUSH1, 0] + BlocksFrom(probes, 0)
      invariant data + InitcodesFrom(probes, bit) == InitcodesFrom(probes, 0)
    {
      var initcode := DeployCode(probes[bit]);
      WeightFits(bit);
      var block := EmitBlock(Pow(2, bit), |initcode|, offset);
      Associate(code, block, BlocksFrom(probes, bit + 1));
      Associate(data, initcode, InitcodesFrom(probes, bit + 1));
      code := code + block;
      offset := offset + |initcode|;
      data := data + initcode;
      bit := bit + 1;
    }
    assert code + [] == code && data + [] == data;
    code := code + [PUSH1, 0, MSTORE, PUSH1, 32, PUSH1, 0, RETURN];
    code := code + data;
  }

  /** The body of the loop: the bytes appended for one probe. */
  method EmitBlock(weight: byte, len: byte, offset: nat) returns (block: seq<byte>)
    requires offset < 65536
    ensures block == BlockBytes(weight, len, offset)
  {
    var hi: byte, lo: byte := offset / 256, offset % 256;
    block := [PUSH1, len, PUSH2, hi, lo, PUSH1, 0, CODECOPY];
    block := block + [PUSH1, len, PUSH1, 0, PUSH1, 0, CREATE];
    var zeros: seq<byte> := [];
    for k := 0 to 5
      invariant zeros == [PUSH1, 0, PUSH1, 0, PUSH1, 0, PUSH1, 0, PUSH1, 0][..2 * k]
    {
      zeros := zeros + [PUSH1, 0];
    }
    block := block + (zeros + [DUP6, PUSH3, 0x00, 0x4e, 0x20, CALL]);
    block := block + ([SWAP1, ISZERO, ISZERO, AND] + [PUSH1, weight, MUL, OR]);
  }

  // ----- the bytes are the programs, assembled -----

  lemma LoadAssembles(len: byte, hi: byte, lo: byte)
    ensures AllEncodable(LoadPart(len, hi, lo))
    ensures Assemble(LoadPart(len, hi, lo)) == [PUSH1, len, PUSH2, hi, lo, PUSH1, 0, CODECOPY]
  {
    var p3 := Then(Plain(CODECOPY), End);
    var p2 := Then(Push([0]), p3);
    assert Assemble(p3) == [CODECOPY];
    assert Assemble(p2) == [PUSH1, 0, CODECOPY];
    assert Assemble(Then(Push([hi, lo]), p2)) == [PUSH2, hi, lo, PUSH1, 0, CODECOPY];
  }

  lemma CreateAssembles(len: byte)
    ensures AllEncodable(CreatePart(len))
    ensures Assemble(CreatePart(len)) == [PUSH1, len, PUSH1, 0, PUSH1, 0, CREATE]
  {
    var p3 := Then(Plain(CREATE), End);
    var p2 := Then(Push([0]), p3);
    assert Assemble(p3) == [CREATE];
    assert Assemble(p2) == [PUSH1, 0, CREATE];
    assert Assemble(Then(Push([0]), p2)) == [PUSH1, 0, PUSH1, 0, CREATE];
  }

  function ZeroBytes(n: nat): seq<byte> {
    if n == 0 then [] else [PUSH1, 0] + ZeroBytes(n - 1)
  }

  lemma {:induction false} ZerosAssemble(n: nat, rest: Program)
    requires AllEncodable(rest)
    ensures AllEncodable(PushZeros(n, rest))
    ensures Assemble(PushZeros(n, rest)) == ZeroBytes(n) + Assemble(rest)
  {
    if n > 0 {
      ZerosAssemble(n - 1, rest);
      assert Encode(Push([0])) == [PUSH1, 0];
      Associate([PUSH1, 0], ZeroBytes(n - 1), Assemble(rest));
    }
  }

  lemma CallAssembles()
    ensures AllEncodable(CallPart())
    ensures Assemble(CallPart()) ==
      [PUSH1, 0, PUSH1, 0, PUSH1, 0, PUSH1, 0, PUSH1, 0] + [DUP6, PUSH3, 0x00, 0x4e, 0x20, CALL]
  {
    var p2 := Then(Plain(CALL), End);
    var p1 := Then(Push([0x00, 0x4e, 0x20]), p2);
    assert Assemble(p2) == [CALL];
    assert Assemble(p1) == [PUSH3, 0x00, 0x4e, 0x20, CALL];
    assert Assemble(Then(Plain(DUP6), p1)) == [DUP6, PUSH3, 0x00, 0x4e, 0x20, CALL];
    ZerosAssemble(5, Then(Plain(DUP6), p1));
    assert ZeroBytes(2) == [PUSH1, 0, PUSH1, 0];
    assert ZeroBytes(3) == [PUSH1, 0, PUSH1, 0, PUSH1, 0];
    assert ZeroBytes(5) == [PUSH1, 0, PUSH1, 0, PUSH1, 0, PUSH1, 0, PUSH1, 0];
  }

  lemma MaskAssembles(weight: byte)
    ensures AllEncodable(MaskPart(weight))
    ensures Assemble(MaskPart(weight)) == [SWAP1, ISZERO, ISZERO, AND] + [PUSH1, weight, MUL, OR]
  {
    var p6 := Then(Plain(OR), End);
    var p5 := Then(Plain(MUL), p6);
    var p4 := Then(Push([weight]), p5);
    var p3 := Then(Plain(AND), p4);
    var p2 := Then(Plain(ISZERO), p3);
    var p1 := Then(Plain(ISZERO), p2);
    assert Assemble(p6) == [OR];
    assert Assemble(p5) == [MUL, OR];
    assert Assemble(p4) == [PUSH1, weight, MUL, OR];
    assert AllEncodable(p4);
    assert Assemble(p3) == [AND] + Assemble(p4);
    assert AllEncodable(p2);
    assert Assemble(p2) == [ISZERO, AND] + Assemble(p4);
    assert Assemble(p1) == [ISZERO, ISZERO, AND] + Assemble(p4);
  }

  lemma FooterAssembles()
    ensures AllEncodable(Footer())
    ensures Assemble(Footer()) == FooterBytes()
  {
    var p4 := Then(Plain(RETURN), End);
    var p3 := Then(Push([0]), p4);
    var p2 := Then(Push([32]), p3);
    var p1 := Then(Plain(MSTORE), p2);
    assert Assemble(p4) == [RETURN];
    assert Assemble(p3) == [PUSH1, 0, RETURN];
    assert Assemble(p2) == [PUSH1, 32, PUSH1, 0, RETURN];
    assert Assemble(p1) == [MSTORE, PUSH1, 32, PUSH1, 0, RETURN];
  }

  lemma DeployAssembles(len: byte)
    ensures AllEncodable(DeployPart(len))
    ensures Assemble(DeployPart(len)) ==
      [PUSH1, len, PUSH1, PREFIX_LEN, PUSH1, 0, CODECOPY, PUSH1, len, PUSH1, 0, RETURN]
  {
    var p6 := Then(Plain(RETURN), End);
    var p5 := Then(Push([0]), p6);
    var p4 := Then(Push([len]), p5);
    var p3 := Then(Plain(CODECOPY), p4);
    var p2 := Then(Push([0]), p3);
    var p1 := Then(Push([PREFIX_LEN]), p2);
    assert Assemble(p6) == [RETURN];
    assert Assemble(p5) == [PUSH1, 0, RETURN];
    assert Assemble(p4) == [PUSH1, len, PUSH1, 0, RETURN];
    assert AllEncodable(p4);
    assert Assemble(p3) == [CODECOPY, PUSH1, len, PUSH1, 0, RETURN];
    assert AllEncodable(p2);
    assert Assemble(p2) == [PUSH1, 0, CODECOPY, PUSH1, len, PUSH1, 0, RETURN];
    assert Assemble(p1) == [PUSH1, PREFIX_LEN, PUSH1, 0, CODECOPY, PUSH1, len, PUSH1, 0, RETURN];
  }

  lemma BlockAssembles(weight: byte, len: byte, start: nat)
    requires start < 65536
    ensures AllEncodable(BlockPart(weight, len, start))
    ensures Assemble(BlockPart(weight, len, start)) == BlockBytes(weight, len, start)
  {
    var load, create, call, flag :=
      LoadPart(len, start / 256, start % 256), CreatePart(len), CallPart(), MaskPart(weight);
    LoadAssembles(len, start / 256, start % 256);
    CreateAssembles(len);
    CallAssembles();
    MaskAssembles(weight);
    AppendAssembles(call, flag);
    AppendAssembles(create, Append(call, flag));
    AppendAssembles(load, Append(create, Append(call, flag)));
    Associate(Assemble(load), Assemble(create), Assemble(call) + Assemble(flag));
    Associate(Assemble(load) + Assemble(create), Assemble(call), Assemble(flag));
  }

  function ProbeProgram(probes: Probes, i: nat): Program
    requires i < |probes|
  {
    WeightFits(i);
    BlockPart(Pow(2, i), |Initcode(probes, i)|, Offset(probes, i))
  }

  /** The blocks from probe `i` on, then the footer. */
  function ProgramFrom(probes: Probes, i: nat): Program
    requires i <= |probes|
    decreases |probes| - i
  {
    if i == |probes| then Footer() else Append(ProbeProgram(probes, i), ProgramFrom(probes, i + 1))
  }

  lemma {:induction false} ProgramAssembles(probes: Probes, i: nat)
    requires i <= |probes|
    ensures AllEncodable(ProgramFrom(probes, i))
    ensures Assemble(ProgramFrom(probes, i)) == BlocksFrom(probes, i) + FooterBytes()
    decreases |probes| - i
  {
    if i == |probes| {
      FooterAssembles();
      assert [] + FooterBytes() == FooterBytes();
    } else {
      WeightFits(i);
      BlockAssembles(Pow(2, i), |Initcode(probes, i)|, Offset(probes, i));
      ProgramAssembles(probes, i + 1);
      AppendAssembles(ProbeProgram(probes, i), ProgramFrom(probes, i + 1));
      Associate(ProbeBlock(probes, i), BlocksFrom(probes, i + 1), FooterBytes());
    }
  }

  lemma {:induction false} InitcodesAt(probes: Probes, i: nat, code: seq<byte>)
    requires i <= |probes| && At(code, Offset(probes, 0), InitcodesFrom(probes, 0))
    ensures At(code, Offset(probes, i), InitcodesFrom(probes, i))
  {
    if i > 0 {
      InitcodesAt(probes, i - 1, code);
      AtSplit(code, Offset(probes, i - 1), Initcode(probes, i - 1), InitcodesFrom(probes, i));
    }
  }

  /** Each initcode lies where its block says. */
  ghost predicate InitcodesStored(probes: Probes, code: seq<byte>) {
    forall i | 0 <= i < |probes| :: At(code, Offset(probes, i), Initcode(probes, i))
  }

  lemma Layout(probes: Probes)
    ensures At(ProbeBytes(probes), 0, [PUSH1, 0] + (BlocksFrom(probes, 0) + FooterBytes()))
    ensures InitcodesStored(probes, ProbeBytes(probes))
  {
    var code, codes := ProbeBytes(probes), InitcodesFrom(probes, 0);
    var program := [PUSH1, 0] + (BlocksFrom(probes, 0) + FooterBytes());
    Associate([PUSH1, 0], BlocksFrom(probes, 0), FooterBytes());
    assert code == program + codes;
    assert code[0..|code|] == program + codes;
    AtSplit(code, 0, program, codes);
    forall i | 0 <= i < |probes| ensures At(code, Offset(probes, i), Initcode(probes, i)) {
      InitcodesAt(probes, i, code);
      AtSplit(code, Offset(probes, i), Initcode(probes, i), InitcodesFrom(probes, i + 1));
    }
  }

  // ----- running the parts -----

  lemma PushesByte(b: byte, code: seq<byte>, s: State, w: World)
    ensures Perform(Push([b]), code, s, w) == Running(s.(pc := s.pc + 2, stack := [b as nat] + s.stack))
  {
    assert [b][..0] == [];
    assert FromBigEndian([b]) == b;
  }

  lemma PushesWord(hi: byte, lo: byte, code: seq<byte>, s: State, w: World)
    ensures Perform(Push([hi, lo]), code, s, w) ==
            Running(s.(pc := s.pc + 3, stack := [hi * 256 + lo] + s.stack))
  {
    assert [hi, lo][..1] == [hi];
    assert [hi][..0] == [];
    assert FromBigEndian([hi]) == hi;
    assert FromBigEndian([hi, lo]) == hi * 256 + lo;
  }

  lemma RunLoad(code: seq<byte>, s: State, w: World, len: byte, hi: byte, lo: byte)
    ensures Run(LoadPart(len, hi, lo), code, s, w) ==
      Running(s.(pc := s.pc + 8, memory := CopyCode(s.memory, 0, code, hi * 256 + lo, len)))
  {
    var from := hi * 256 + lo;
    PushesByte(len, code, s, w);
    var s1 := s.(pc := s.pc + 2, stack := [len as nat] + s.stack);
    PushesWord(hi, lo, code, s1, w);
    var s2 := s1.(pc := s.pc + 5, stack := [from] + s1.stack);
    PushesByte(0, code, s2, w);
    var s3 := s2.(pc := s.pc + 7, stack := [0] + s2.stack);
    assert s3.stack == [0, from, len as nat] + s.stack;
    var s4 := s.(pc := s.pc + 8, memory := CopyCode(s.memory, 0, code, from, len));
    assert Perform(Plain(CODECOPY), code, s3, w) == Running(s4);
    RunOne(Plain(CODECOPY), End, code, s3, w, s4);
    RunOne(Push([0]), Then(Plain(CODECOPY), End), code, s2, w, s3);
  }

  lemma RunCreate(code: seq<byte>, s: State, w: World, len: byte, initcode: seq<byte>)
    requires Window(s.memory, 0, len) == initcode
    ensures var address := w.create(s.events, 0, initcode);
      Run(CreatePart(len), code, s, w) ==
      Running(s.(pc := s.pc + 7, stack := [address] + s.stack,
                 events := s.events + [Created(0, initcode, address)]))
  {
    PushesByte(len, code, s, w);
    var s1 := s.(pc := s.pc + 2, stack := [len as nat] + s.stack);
    PushesByte(0, code, s1, w);
    var s2 := s1.(pc := s.pc + 4, stack := [0] + s1.stack);
    PushesByte(0, code, s2, w);
    var s3 := s2.(pc := s.pc + 6, stack := [0] + s2.stack);
    assert s3.stack == [0, 0, len as nat] + s.stack;
    var address := w.create(s.events, 0, initcode);
    var s4 := s.(pc := s.pc + 7, stack := [address] + s.stack,
                 events := s.events + [Created(0, initcode, address)]);
    assert Perform(Plain(CREATE), code, s3, w) == Running(s4);
    RunOne(Plain(CREATE), End, code, s3, w, s4);
    RunOne(Push([0]), Then(Plain(CREATE), End), code, s2, w, s3);
  }

  lemma {:induction false} RunZeros(n: nat, rest: Program, code: seq<byte>, s: State, w: World)
    ensures Run(PushZeros(n, rest), code, s, w) ==
            Run(rest, code, s.(pc := s.pc + 2 * n, stack := Repeat(0, n) + s.stack), w)
  {
    if n == 0 {
      assert Repeat(0, 0) + s.stack == s.stack;
    } else {
      PushesByte(0, code, s, w);
      var s1 := s.(pc := s.pc + 2, stack := [0] + s.stack);
      RunOne(Push([0]), PushZeros(n - 1, rest), code, s, w, s1);
      RunZeros(n - 1, rest, code, s1, w);
      OneMoreZero(n, s.stack);
    }
  }

  lemma OneMoreZero(n: nat, stack: seq<nat>)
    requires n > 0
    ensures Repeat(0, n - 1) + ([0] + stack) == Repeat(0, n) + stack
  {
  }

  /** The state after CALL: nothing is written to memory, and the success flag is pushed. */
  function AfterCall(s: State, w: World, address: nat): State {
    var (success, output) := w.call(s.events, PROBE_GAS, address, 0, []);
    State(s.pc + 16, [if success then 1 else 0] + s.stack, Store(s.memory, 0, Prefix(output, 0)),
          s.events + [Called(PROBE_GAS, address, 0, [], success)])
  }

  lemma RunCall(code: seq<byte>, s: State, w: World, address: nat, rest: seq<nat>)
    requires s.stack == [address] + rest
    ensures Run(CallPart(), code, s, w) == Running(AfterCall(s, w, address))
  {
    var p2 := Then(Plain(CALL), End);
    var p1 := Then(Push([0x00, 0x4e, 0x20]), p2);
    RunZeros(5, Then(Plain(DUP6), p1), code, s, w);
    var args: seq<nat> := Repeat(0, 5);
    var s1 := s.(pc := s.pc + 10, stack := args + s.stack);
    var s2 := s.(pc := s.pc + 11, stack := [address] + s1.stack);
    assert s1.stack[5] == address;
    assert Perform(Plain(DUP6), code, s1, w) == Running(s2);
    RunOne(Plain(DUP6), p1, code, s1, w, s2);
    var s3 := s.(pc := s.pc + 15, stack := [PROBE_GAS] + s2.stack);
    PushesGas();
    assert Perform(Push([0x00, 0x4e, 0x20]), code, s2, w) == Running(s3);
    RunOne(Push([0x00, 0x4e, 0x20]), p2, code, s2, w, s3);
    PerformsCall(code, s3, w, address, args, s.stack);
    RunOne(Plain(CALL), End, code, s3, w, AfterCall(s, w, address));
  }

  lemma PushesGas()
    ensures FromBigEndian([0x00, 0x4e, 0x20]) == PROBE_GAS
  {
    assert [0x00, 0x4e, 0x20][..2] == [0x00, 0x4e];
    assert [0x00, 0x4e][..1] == [0x00];
    assert [0x00][..0] == [];
    assert FromBigEndian([0x00]) == 0;
    assert FromBigEndian([0x00, 0x4e]) == 0x4e;
  }

  lemma PerformsCall(code: seq<byte>, s: State, w: World, address: nat, args: seq<nat>, rest: seq<nat>)
    requires args == Repeat(0, 5) && s.stack == [PROBE_GAS] + ([address] + (args + rest)) && s.pc >= 15
    ensures Perform(Plain(CALL), code, s, w) ==
            Running(AfterCall(s.(pc := s.pc - 15, stack := rest), w, address))
  {
    assert s.stack == [PROBE_GAS, address, 0, 0, 0, 0, 0] + rest;
    assert s.stack[7..] == rest;
    assert Window(s.memory, 0, 0) == [];
  }

  /** The mask word with the flag of probe `bit` added. */
  function WithFlag(mask: nat, bit: nat, flag: bool): nat {
    if flag then Pow(2, bit) + mask else mask
  }

  lemma MaskArithmetic(bit: nat, weight: nat, flag: nat, mask: nat)
    requires weight == Pow(2, bit) <= 128 && flag <= 1 && mask < weight
    ensures BitOr((weight * flag) % WORD_SIZE, mask) == WithFlag(mask, bit, flag == 1)
  {
    SmallWord(weight * flag);
    if flag == 1 {
      assert weight * flag == weight;
      BitOrDisjoint(mask, bit);
    } else {
      assert weight * flag == 0;
    }
  }

  lemma SmallWord(x: nat)
    requires x <= 128
    ensures x % WORD_SIZE == x
  {
  }

  lemma RunMask(code: seq<byte>, s: State, w: World, bit: nat, weight: byte, success: bool, address: nat, mask: nat)
    requires bit < 8 && weight as nat == Pow(2, bit) <= 128 && mask < weight
    requires s.stack == [if success then 1 else 0, address, mask]
    ensures Run(MaskPart(weight), code, s, w) ==
            Running(s.(pc := s.pc + 8, stack := [WithFlag(mask, bit, success && address != 0)]))
  {
    var ok, nonzero := if success then 1 else 0, if address == 0 then 0 else 1;
    var flag := if success && address != 0 then 1 else 0;
    var p6 := Then(Plain(OR), End);
    var p5 := Then(Plain(MUL), p6);
    var p4 := Then(Push([weight]), p5);
    var p3 := Then(Plain(AND), p4);
    var p2 := Then(Plain(ISZERO), p3);
    var p1 := Then(Plain(ISZERO), p2);
    var s1 := s.(pc := s.pc + 1, stack := [address, ok, mask]);
    RunOne(Plain(SWAP1), p1, code, s, w, s1);
    var s2 := s.(pc := s.pc + 2, stack := [1 - nonzero, ok, mask]);
    RunOne(Plain(ISZERO), p2, code, s1, w, s2);
    var s3 := s.(pc := s.pc + 3, stack := [nonzero, ok, mask]);
    RunOne(Plain(ISZERO), p3, code, s2, w, s3);
    var s4 := s.(pc := s.pc + 4, stack := [flag, mask]);
    assert BitAnd(nonzero, ok) == flag;
    RunOne(Plain(AND), p4, code, s3, w, s4);
    RunAccumulate(code, s4, w, bit, weight, flag, mask);
  }

  lemma RunAccumulate(code: seq<byte>, s: State, w: World, bit: nat, weight: byte, flag: nat, mask: nat)
    requires bit < 8 && weight as nat == Pow(2, bit) <= 128 && flag <= 1 && mask < weight
    requires s.stack == [flag, mask]
    ensures Run(Then(Push([weight]), Then(Plain(MUL), Then(Plain(OR), End))), code, s, w) ==
            Running(s.(pc := s.pc + 4, stack := [WithFlag(mask, bit, flag == 1)]))
  {
    var p6 := Then(Plain(OR), End);
    var p5 := Then(Plain(MUL), p6);
    PushesByte(weight, code, s, w);
    var s1 := s.(pc := s.pc + 2, stack := [weight as nat, flag, mask]);
    assert s1.stack == [weight as nat] + s.stack;
    RunOne(Push([weight]), p5, code, s, w, s1);
    var s2 := s.(pc := s.pc + 3, stack := [(weight * flag) % WORD_SIZE, mask]);
    RunOne(Plain(MUL), p6, code, s1, w, s2);
    MaskArithmetic(bit, weight, flag, mask);
    var s3 := s.(pc := s.pc + 4, stack := [WithFlag(mask, bit, flag == 1)]);
    assert Perform(Plain(OR), code, s2, w) == Running(s3);
    RunOne(Plain(OR), End, code, s2, w, s3);
  }

  lemma RunFooter(code: seq<byte>, s: State, w: World, mask: nat)
    requires s.stack == [mask]
    ensures Run(Footer(), code, s, w) == Done(Returned(BigEndian(mask, 32), s.events))
  {
    var p4 := Then(Plain(RETURN), End);
    var p3 := Then(Push([0]), p4);
    var p2 := Then(Push([32]), p3);
    PushesByte(0, code, s, w);
    var s1 := s.(pc := s.pc + 2, stack := [0, mask]);
    assert s1.stack == [0] + s.stack;
    RunOne(Push([0]), Then(Plain(MSTORE), p2), code, s, w, s1);
    var s2 := s.(pc := s.pc + 3, stack := [], memory := Store(s.memory, 0, BigEndian(mask, 32)));
    RunOne(Plain(MSTORE), p2, code, s1, w, s2);
    PushesByte(32, code, s2, w);
    var s3 := s2.(pc := s.pc + 5, stack := [32]);
    RunOne(Push([32]), p3, code, s2, w, s3);
    PushesByte(0, code, s3, w);
    var s4 := s2.(pc := s.pc + 7, stack := [0, 32]);
    assert s4.stack == [0] + s3.stack;
    RunOne(Push([0]), p4, code, s3, w, s4);
    assert Window(s4.memory, 0, 32) == BigEndian(mask, 32);
  }

  // ----- what the generated code computes -----

  /** The events and the mask after deploying and calling probe `i`. */
  function Round(probes: Probes, i: nat, events: seq<Event>, mask: nat, w: World): (r: (seq<Event>, nat))
    requires i < |probes|
    ensures |r.0| == |events| + 2 && events <= r.0
  {
    var address := w.create(events, 0, Initcode(probes, i));
    var created := events + [Created(0, Initcode(probes, i), address)];
    var (success, _) := w.call(created, PROBE_GAS, address, 0, []);
    (created + [Called(PROBE_GAS, address, 0, [], success)], WithFlag(mask, i, success && address != 0))
  }

  /** The reference: deploy and call the probes in turn, adding up the bits of those that
      succeed. */
  function Survey(probes: Probes, i: nat, events: seq<Event>, mask: nat, w: World): (nat, seq<Event>)
    requires i <= |probes|
    decreases |probes| - i
  {
    if i == |probes| then (mask, events)
    else
      var (events', mask') := Round(probes, i, events, mask, w);
      Survey(probes, i + 1, events', mask', w)
  }

  lemma InitcodeLoaded(code: seq<byte>, memory: Memory, start: nat, initcode: seq<byte>)
    requires At(code, start, initcode)
    ensures Window(CopyCode(memory, 0, code, start, |initcode|), 0, |initcode|) == initcode
  {
    var loaded := Window(CopyCode(memory, 0, code, start, |initcode|), 0, |initcode|);
    forall k | 0 <= k < |initcode| ensures loaded[k] == initcode[k] {
      AtByte(code, start, initcode, k);
      assert loaded[k] == CopyCode(memory, 0, code, start, |initcode|)(0 + k) == CodeAt(code, start + k);
    }
  }

  /** One block performs one round of the survey. */
  lemma RunBlock(probes: Probes, i: nat, code: seq<byte>, s: State, w: World, mask: nat) returns (memory: Memory)
    requires i < |probes| && mask < Pow(2, i) && s.stack == [mask]
    requires At(code, Offset(probes, i), Initcode(probes, i))
    ensures var (events, mask') := Round(probes, i, s.events, mask, w);
      Run(ProbeProgram(probes, i), code, s, w) == Running(State(s.pc + PER_PROBE, [mask'], memory, events))
  {
    WeightFits(i);
    var weight: byte := Pow(2, i);
    var initcode, start := Initcode(probes, i), Offset(probes, i);
    var len: byte := |initcode|;
    RunLoad(code, s, w, len, start / 256, start % 256);
    var s1 := s.(pc := s.pc + 8, memory := CopyCode(s.memory, 0, code, start, len));
    InitcodeLoaded(code, s.memory, start, initcode);
    RunCreate(code, s1, w, len, initcode);
    var address := w.create(s.events, 0, initcode);
    var s2 := s1.(pc := s.pc + 15, stack := [address] + s.stack,
                  events := s.events + [Created(0, initcode, address)]);
    RunCall(code, s2, w, address, [mask]);
    var s3 := AfterCall(s2, w, address);
    var (success, output) := w.call(s2.events, PROBE_GAS, address, 0, []);
    assert s3.stack == [if success then 1 else 0, address, mask];
    RunMask(code, s3, w, i, weight, success, address, mask);
    memory := s3.memory;
    AppendRuns(LoadPart(len, start / 256, start % 256),
               Append(CreatePart(len), Append(CallPart(), MaskPart(weight))), code, s, w, s1);
    AppendRuns(CreatePart(len), Append(CallPart(), MaskPart(weight)), code, s1, w, s2);
    AppendRuns(CallPart(), MaskPart(weight), code, s2, w, s3);
  }

  lemma RunStep(probes: Probes, i: nat, code: seq<byte>, s: State, w: World, mask: nat) returns (s': State)
    requires i < |probes| && mask < Pow(2, i) && s.stack == [mask]
    requires At(code, Offset(probes, i), Initcode(probes, i))
    ensures s'.events == Round(probes, i, s.events, mask, w).0
    ensures s'.stack == [Round(probes, i, s.events, mask, w).1]
    ensures Run(ProgramFrom(probes, i), code, s, w) == Run(ProgramFrom(probes, i + 1), code, s', w)
  {
    var memory := RunBlock(probes, i, code, s, w, mask);
    var (events, mask') := Round(probes, i, s.events, mask, w);
    s' := State(s.pc + PER_PROBE, [mask'], memory, events);
    AppendRuns(ProbeProgram(probes, i), ProgramFrom(probes, i + 1), code, s, w, s');
  }

  lemma {:induction false} RunProgram(probes: Probes, i: nat, code: seq<byte>, s: State, w: World, mask: nat)
    requires i <= |probes| && s.stack == [mask] && mask < Pow(2, i)
    requires InitcodesStored(probes, code)
    ensures Run(ProgramFrom(probes, i), code, s, w) == Reported(Survey(probes, i, s.events, mask, w))
    decreases |probes| - i, 1
  {
    if i == |probes| {
      RunFooter(code, s, w, mask);
    } else {
      RunRest(probes, i, code, s, w, mask);
    }
  }

  lemma {:induction false} RunRest(probes: Probes, i: nat, code: seq<byte>, s: State, w: World, mask: nat)
    requires i < |probes| && s.stack == [mask] && mask < Pow(2, i)
    requires InitcodesStored(probes, code)
    ensures Run(ProgramFrom(probes, i), code, s, w) == Reported(Survey(probes, i, s.events, mask, w))
    decreases |probes| - i, 0
  {
    assert At(code, Offset(probes, i), Initcode(probes, i));
    var mask' := Round(probes, i, s.events, mask, w).1;
    RoundBound(probes, i, s.events, mask, w);
    var s' := RunStep(probes, i, code, s, w, mask);
    RunProgram(probes, i + 1, code, s', w, mask');
    SurveyStep(probes, i, s.events, mask, w);
  }

  lemma SurveyStep(probes: Probes, i: nat, events: seq<Event>, mask: nat, w: World)
    requires i < |probes|
    ensures var r := Round(probes, i, events, mask, w);
      Survey(probes, i, events, mask, w) == Survey(probes, i + 1, r.0, r.1, w)
  {
  }

  /** The outcome that returns a survey's mask as a word. */
  function Reported(survey: (nat, seq<Event>)): Transition {
    Done(Returned(BigEndian(survey.0, 32), survey.1))
  }

  lemma RoundBound(probes: Probes, i: nat, events: seq<Event>, mask: nat, w: World)
    requires i < |probes| && mask < Pow(2, i)
    ensures Round(probes, i, events, mask, w).1 < Pow(2, i + 1)
  {
    assert Pow(2, i + 1) == 2 * Pow(2, i);
  }

  // ----- what the survey means -----

  /** Probe `i` was deployed with exactly its initcode and then called once at the created address
      with the probe gas. */
  ghost predicate Probed(probes: Probes, events: seq<Event>, i: nat)
    requires i < |probes| && |events| == 2 * |probes|
  {
    && events[2 * i].Created?
    && events[2 * i + 1].Called?
    && events[2 * i] == Created(0, Initcode(probes, i), events[2 * i].address)
    && events[2 * i + 1] ==
         Called(PROBE_GAS, events[2 * i].address, 0, [], events[2 * i + 1].success)
  }

  /** It was created and its call succeeded. */
  ghost predicate Succeeded(events: seq<Event>, i: nat)
    requires 2 * i + 1 < |events|
  {
    && events[2 * i].Created? && events[2 * i].address != 0
    && events[2 * i + 1].Called? && events[2 * i + 1].success
  }

  lemma {:induction false} SurveyEvents(probes: Probes, i: nat, events: seq<Event>, mask: nat, w: World)
    requires i <= |probes| && |events| == 2 * i
    ensures var all := Survey(probes, i, events, mask, w).1;
      && |all| == 2 * |probes|
      && events <= all
      && (forall k | i <= k < |probes| :: Probed(probes, all, k))
    decreases |probes| - i
  {
    if i < |probes| {
      var (called, mask') := Round(probes, i, events, mask, w);
      SurveyEvents(probes, i + 1, called, mask', w);
      var all := Survey(probes, i, events, mask, w).1;
      assert all[2 * i] == called[2 * i] && all[2 * i + 1] == called[2 * i + 1];
    }
  }

  /** Later rounds leave the bits below alone. */
  lemma {:induction false} SurveyBits(probes: Probes, i: nat, events: seq<Event>, mask: nat, w: World)
    returns (high: nat)
    requires i <= |probes| && |events| == 2 * i && mask < Pow(2, i)
    ensures Survey(probes, i, events, mask, w).0 == mask + high * Pow(2, i)
    ensures Survey(probes, i, events, mask, w).0 < Pow(2, |probes|)
    ensures |Survey(probes, i, events, mask, w).1| == 2 * |probes|
    ensures forall k | i <= k < |probes| ::
      Bit(Survey(probes, i, events, mask, w).0, k) <==> Succeeded(Survey(probes, i, events, mask, w).1, k)
    decreases |probes| - i
  {
    if i == |probes| {
      high := 0;
    } else {
      var (called, mask') := Round(probes, i, events, mask, w);
      SurveyFlag(probes, i, events, mask, w);
      var flag := if Succeeded(Survey(probes, i, events, mask, w).1, i) then 1 else 0;
      RoundBound(probes, i, events, mask, w);
      var above := SurveyBits(probes, i + 1, called, mask', w);
      high := flag + 2 * above;
      TopBit(mask, flag, above, i, Survey(probes, i, events, mask, w).0);
    }
  }

  lemma TopBit(mask: nat, flag: nat, above: nat, i: nat, total: nat)
    requires mask < Pow(2, i) && flag <= 1 && total == mask + flag * Pow(2, i) + above * Pow(2, i + 1)
    ensures total == mask + (flag + 2 * above) * Pow(2, i)
    ensures Bit(total, i) <==> flag == 1
  {
    CarryUp(mask, flag, above, i);
    BitOfSum(mask, flag, above, i);
  }

  /** A round adds the bit of its probe, as the whole survey shows it. */
  lemma SurveyFlag(probes: Probes, i: nat, events: seq<Event>, mask: nat, w: World)
    requires i < |probes| && |events| == 2 * i && mask < Pow(2, i)
    ensures var all := Survey(probes, i, events, mask, w).1;
      && |all| == 2 * |probes|
      && Round(probes, i, events, mask, w).1 == mask + (if Succeeded(all, i) then 1 else 0) * Pow(2, i)
  {
    var (called, mask') := Round(probes, i, events, mask, w);
    SurveyEvents(probes, i + 1, called, mask', w);
    var all := Survey(probes, i, events, mask, w).1;
    assert all[2 * i] == called[2 * i] && all[2 * i + 1] == called[2 * i + 1];
    RoundFlag(probes, i, events, mask, w);
  }

  lemma CarryUp(mask: nat, flag: nat, above: nat, i: nat)
    ensures mask + flag * Pow(2, i) + above * Pow(2, i + 1) == mask + (flag + 2 * above) * Pow(2, i)
  {
    var p := Pow(2, i);
    assert above * (2 * p) == 2 * above * p;
  }

  lemma RoundFlag(probes: Probes, i: nat, events: seq<Event>, mask: nat, w: World)
    requires i < |probes| && |events| == 2 * i && mask < Pow(2, i)
    ensures var r := Round(probes, i, events, mask, w);
      r.1 == WithFlag(mask, i, Succeeded(r.0, i))
  {
  }

  /** Code-generator correctness. Against every environment, the generated code deploys and calls
      the probes in order, exactly once each, and returns a word whose bit `i` is set exactly when
      probe `i` was created and its call succeeded, with no higher bit set. */
  lemma ProbeCodeComputesMask(probes: Probes, w: World) returns (mask: nat, events: seq<Event>)
    ensures Exec(ProbeBytes(probes), Start(), w) == Returned(BigEndian(mask, 32), events)
    ensures |events| == 2 * |probes|
    ensures forall i | 0 <= i < |probes| :: Probed(probes, events, i)
    ensures forall i | 0 <= i < |probes| :: Bit(mask, i) <==> Succeeded(events, i)
    ensures mask < Pow(2, |probes|)
  {
    var code, s, program := ProbeBytes(probes), Start(), ProgramFrom(probes, 0);
    Layout(probes);
    ProgramAssembles(probes, 0);
    assert Encode(Push([0])) == [PUSH1, 0];
    ExecRuns(Then(Push([0]), program), code, s, w);
    PushesByte(0, code, s, w);
    var s1 := s.(pc := 2, stack := [0]);
    assert s1.stack == [0] + s.stack;
    RunOne(Push([0]), program, code, s, w, s1);
    RunProgram(probes, 0, code, s1, w, 0);
    SurveyEvents(probes, 0, [], 0, w);
    var _ := SurveyBits(probes, 0, [], 0, w);
    var (m, all) := Survey(probes, 0, [], 0, w);
    mask, events := m, all;
  }

  /** The initcode returns exactly the runtime, whatever bytes the runtime holds. */
  lemma DeployCodeReturnsRuntime(runtime: seq<byte>, w: World)
    requires |runtime| <= 255
    ensures Exec(DeployBytes(runtime), Start(), w) == Returned(runtime, [])
  {
    var code, len: byte, s := DeployBytes(runtime), |runtime|, Start();
    DeployAssembles(len);
    assert code[0..|code|] == Assemble(DeployPart(len)) + runtime;
    AtSplit(code, 0, Assemble(DeployPart(len)), runtime);
    ExecRuns(DeployPart(len), code, s, w);
    RunDeploy(code, s, w, len, runtime);
  }

  lemma RunDeploy(code: seq<byte>, s: State, w: World, len: byte, runtime: seq<byte>)
    requires s == Start() && |runtime| == len && At(code, 12, runtime)
    ensures Run(DeployPart(len), code, s, w) == Done(Returned(runtime, []))
  {
    var p6 := Then(Plain(RETURN), End);
    var p5 := Then(Push([0]), p6);
    var p4 := Then(Push([len]), p5);
    RunLoadFrom(code, s, w, len, p4);
    var s4 := s.(pc := s.pc + 7, memory := CopyCode(s.memory, 0, code, 12, len));
    PushesByte(len, code, s4, w);
    var s5 := s4.(pc := s4.pc + 2, stack := [len as nat]);
    assert s5.stack == [len as nat] + s4.stack;
    RunOne(Push([len]), p5, code, s4, w, s5);
    PushesByte(0, code, s5, w);
    var s6 := s4.(pc := s4.pc + 4, stack := [0, len as nat]);
    assert s6.stack == [0] + s5.stack;
    RunOne(Push([0]), p6, code, s5, w, s6);
    InitcodeLoaded(code, s.memory, 12, runtime);
  }

  lemma RunLoadFrom(code: seq<byte>, s: State, w: World, len: byte, rest: Program)
    ensures Run(Then(Push([len]), Then(Push([PREFIX_LEN]), Then(Push([0]), Then(Plain(CODECOPY), rest)))), code, s, w)
         == Run(rest, code, s.(pc := s.pc + 7, memory := CopyCode(s.memory, 0, code, 12, len)), w)
  {
    PushesByte(len, code, s, w);
    var s1 := s.(pc := s.pc + 2, stack := [len as nat] + s.stack);
    RunOne(Push([len]), Then(Push([PREFIX_LEN]), Then(Push([0]), Then(Plain(CODECOPY), rest))), code, s, w, s1);
    PushesByte(12, code, s1, w);
    var s2 := s1.(pc := s.pc + 4, stack := [12] + s1.stack);
    RunOne(Push([PREFIX_LEN]), Then(Push([0]), Then(Plain(CODECOPY), rest)), code, s1, w, s2);
    PushesByte(0, code, s2, w);
    var s3 := s2.(pc := s.pc + 6, stack := [0] + s2.stack);
    RunOne(Push([0]), Then(Plain(CODECOPY), rest), code, s2, w, s3);
    assert s3.stack == [0, 12, len as nat] + s.stack;
    var s4 := s.(pc := s.pc + 7, memory := CopyCode(s.memory, 0, code, 12, len));
    assert Perform(Plain(CODECOPY), code, s3, w) == Running(s4);
    RunOne(Plain(CODECOPY), rest, code, s3, w, s4);
  }

  // ----- from the mask to a version -----

  datatype EvmVersion = Paris | Shanghai | Cancun | Prague | Osaka | Amsterdam

  const VERSIONS: seq<EvmVersion> := [Shanghai, Cancun, Prague, Osaka, Amsterdam]

  /** The versions in the order of their release. */
  function Rank(v: EvmVersion): nat {
    match v
    case Paris => 0
    case Shanghai => 1
    case Cancun => 2
    case Prague => 3
    case Osaka => 4
    case Amsterdam => 5
  }

  /** How many of the probes from `i` on succeeded without a gap. */
  function LeadingBits(mask: nat, i: nat, n: nat): (r: nat)
    requires i <= n
    ensures i <= r <= n
    decreases n - i
  {
    if i < n && Bit(mask, i) then LeadingBits(mask, i + 1, n) else i
  }

  function EvmVersionFromMask(mask: nat): EvmVersion {
    var k := LeadingBits(mask, 0, |VERSIONS|);
    if k == 0 then Paris else VERSIONS[k - 1]
  }

  /** What the client makes of the output of the probe call. */
  function VersionFromOutput(output: seq<byte>): Option<EvmVersion> {
    if |output| != 32 then None
    else
      var mask := FromBigEndian(output);
      if mask / Pow(2, |VERSIONS|) != 0 then None else Some(EvmVersionFromMask(mask))
  }

  lemma {:induction false} LeadingBitsMeans(mask: nat, i: nat, n: nat)
    requires i <= n
    ensures forall k | i <= k < LeadingBits(mask, i, n) :: Bit(mask, k)
    ensures LeadingBits(mask, i, n) < n ==> !Bit(mask, LeadingBits(mask, i, n))
    decreases n - i
  {
    if i < n && Bit(mask, i) {
      LeadingBitsMeans(mask, i + 1, n);
    }
  }

  /** End to end: whatever the node does, the client reads back the newest version whose probe and
      all earlier ones succeeded, the probes being in the order of release after Paris. */
  lemma ProbeDetectsVersion(probes: Probes, w: World) returns (k: nat, events: seq<Event>)
    requires |probes| == 5
    ensures Exec(ProbeBytes(probes), Start(), w).Returned? && Exec(ProbeBytes(probes), Start(), w).events == events
    ensures k <= |probes| && |events| == 2 * |probes|
    ensures forall i | 0 <= i < |probes| :: Probed(probes, events, i)
    ensures forall i | 0 <= i < k :: Succeeded(events, i)
    ensures k < |probes| ==> !Succeeded(events, k)
    ensures var v := VersionFromOutput(Exec(ProbeBytes(probes), Start(), w).output); v.Some? && Rank(v.value) == k
  {
    var mask;
    mask, events := ProbeCodeComputesMask(probes, w);
    k := LeadingBits(mask, 0, |VERSIONS|);
    LeadingBitsMeans(mask, 0, |VERSIONS|);
    MaskFitsByte(mask, |VERSIONS|);
    SmallRoundTrip(mask, 32);
    OutputDecodes(BigEndian(mask, 32), mask);
  }

  lemma OutputDecodes(output: seq<byte>, mask: nat)
    requires |output| == 32 && FromBigEndian(output) == mask < Pow(2, |VERSIONS|)
    ensures VersionFromOutput(output) == Some(EvmVersionFromMask(mask))
  {
    QuotientZero(mask, Pow(2, |VERSIONS|));
  }

  lemma QuotientZero(a: nat, b: nat)
    requires a < b
    ensures a / b == 0
  {
  }

  lemma SmallRoundTrip(v: nat, n: nat)
    requires v < 256 && n >= 1
    ensures FromBigEndian(BigEndian(v, n)) == v
  {
    ByteFits(n);
    BigEndianRoundTrip(v, n);
  }

  lemma MaskFitsByte(mask: nat, n: nat)
    requires n <= 8 && mask < Pow(2, n)
    ensures mask < 256
  {
    PowMonotone(n, 8);
    WeightFits(7);
    assert Pow(2, 8) == 2 * Pow(2, 7);
  }

  lemma {:induction false} ByteFits(n: nat)
    requires n >= 1
    ensures Pow(256, n) >= 256
  {
    if n > 1 {
      ByteFits(n - 1);
    }
  }
}
