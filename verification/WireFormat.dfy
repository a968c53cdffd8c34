/**
  * The serialized form of one instruction: an opcode byte, an operand count, and one tagged little-endian payload per
  * operand. The writer appends, the decoder re-walks; both are tied to the same pure functions, which are then shown
  * to be inverse to each other in both directions.
  */
module WireFormat {
  import opened Prelude
  import opened OpcodeSchema

  const OPERAND_KIND_REGISTER: Byte := 0
  const OPERAND_KIND_CONST_INDEX: Byte := 1
  const OPERAND_KIND_IMM32: Byte := 2

  /** The operand count is written as one byte. */
  const MAX_OPERANDS: int := 255

  datatype DecodeError =
    | UnexpectedEnd(offset: nat)
    | UnknownOpcode(offset: nat, opcode: Byte)
    | UnknownOperandKind(offset: nat, tag: Byte)
    | InvalidOperandShape(offset: nat, shapeError: OperandShapeError)
    | InvalidTarget(offset: nat, target: int)
    | InvalidControlOperand(offset: nat, operandIndex: nat, value: I32)

  // ----- The bytes, position by position -----

  /** The four bytes from `at` on, least significant first. */
  function WordAt(bytes: seq<Byte>, at: nat): (w: nat)
    requires at + 4 <= |bytes|
  {
    bytes[at] as nat + 256 * (bytes[at + 1] as nat) + 65536 * (bytes[at + 2] as nat)
    + 16777216 * (bytes[at + 3] as nat)
  }

  /** Operand `o` stands at `at`: its tag, then two bytes for a register, four for a constant index or an immediate. */
  predicate OperandAt(bytes: seq<Byte>, at: nat, o: Operand)
  {
    match o
    case Register(r) =>
      at + 3 <= |bytes| && bytes[at] == 0 && bytes[at + 1] as nat + 256 * (bytes[at + 2] as nat) == r
    case ConstIndex(i) => at + 5 <= |bytes| && bytes[at] == 1 && WordAt(bytes, at + 1) == i
    case Imm32(v) =>
      at + 5 <= |bytes| && bytes[at] == 2 && WordAt(bytes, at + 1) == if v < 0 then v + 0x1_0000_0000 else v
  }

  /** Where operand `k` starts, counted from the opcode byte; `k == |operands|` is the end of the instruction. */
  function OperandStart(operands: seq<Operand>, k: nat): (n: nat)
    requires k <= |operands|
  {
    if k == 0 then 2 else OperandStart(operands, k - 1) + if operands[k - 1].Register? then 3 else 5
  }

  /** The instruction stands at `at`: opcode number, operand count, then each operand at its start. */
  ghost predicate InstructionAt(bytes: seq<Byte>, at: nat, instr: Instruction)
  {
    && at + OperandStart(instr.operands, |instr.operands|) <= |bytes| && at + 2 <= |bytes|
    && bytes[at] as nat == instr.op && bytes[at + 1] as nat == |instr.operands|
    && forall k :: 0 <= k < |instr.operands| ==>
         OperandAt(bytes, at + OperandStart(instr.operands, k), instr.operands[k])
  }

  // ----- Writing -----

  function OperandSize(o: Operand): (n: nat)
  {
    if o.Register? then 3 else 5
  }

  function EmitOperand(o: Operand): (bytes: seq<Byte>)
    ensures |bytes| == OperandSize(o)
  {
    match o
    case Register(r) => [OPERAND_KIND_REGISTER] + LittleEndian16(r)
    case ConstIndex(i) => [OPERAND_KIND_CONST_INDEX] + LittleEndian32(i)
    case Imm32(v) => [OPERAND_KIND_IMM32] + LittleEndian32(ToUnsigned(v))
  }

  /** Bytes taken by the first `k` operands. */
  function OperandsSize(operands: seq<Operand>, k: nat): (n: nat)
    requires k <= |operands|
  {
    if k == 0 then 0 else OperandsSize(operands, k - 1) + OperandSize(operands[k - 1])
  }

  /** The first `k` operands in order. */
  function EmitOperands(operands: seq<Operand>, k: nat): (bytes: seq<Byte>)
    requires k <= |operands|
    ensures |bytes| == OperandsSize(operands, k)
  {
    if k == 0 then [] else EmitOperands(operands, k - 1) + EmitOperand(operands[k - 1])
  }

  function InstructionSize(operands: seq<Operand>): (n: nat)
    ensures n >= 2
  {
    2 + OperandsSize(operands, |operands|)
  }

  function Emit(instr: Instruction): (bytes: seq<Byte>)
    requires |instr.operands| <= MAX_OPERANDS
    ensures |bytes| == InstructionSize(instr.operands)
  {
    [instr.op as Byte, |instr.operands| as Byte] + EmitOperands(instr.operands, |instr.operands|)
  }

  /** The written form of an operand is its bytes. */
  lemma {:induction false} EmittedOperandAt(bytes: seq<Byte>, at: nat, o: Operand)
    requires Occurs(bytes, at, EmitOperand(o))
    ensures OperandAt(bytes, at, o)
  {
    var chunk := EmitOperand(o);
    assert forall i :: 0 <= i < |chunk| ==> bytes[at + i] == bytes[at..at + |chunk|][i] == chunk[i];
    if o.Register? {
      assert bytes[at + 1] == LittleEndian16(o.reg)[0] && bytes[at + 2] == LittleEndian16(o.reg)[1];
    } else {
      var w: U32 := if o.ConstIndex? then o.index else ToUnsigned(o.value);
      assert forall i :: 0 <= i < 4 ==> bytes[at + 1 + i] == LittleEndian32(w)[i];
      LittleEndian32Value(w);
    }
  }

  lemma {:induction false} LittleEndian32Value(w: U32)
    ensures WordAt(LittleEndian32(w), 0) == w
  {
    var low, high := w % 0x1_0000, w / 0x1_0000;
    assert low % 0x100 + 256 * (low / 0x100) == low && high % 0x100 + 256 * (high / 0x100) == high;
  }

  lemma {:induction false} StartIsSize(operands: seq<Operand>, k: nat)
    requires k <= |operands|
    ensures OperandStart(operands, k) == 2 + OperandsSize(operands, k)
  {
    if k > 0 {
      StartIsSize(operands, k - 1);
    }
  }

  lemma {:induction false} EmitNext(operands: seq<Operand>, n: nat)
    requires 0 < n <= |operands|
    ensures EmitOperands(operands, n) == EmitOperands(operands, n - 1) + EmitOperand(operands[n - 1])
  {}

  lemma {:induction false} EmittedOperandsAt(bytes: seq<Byte>, at: nat, operands: seq<Operand>, n: nat)
    requires n <= |operands| && Occurs(bytes, at + 2, EmitOperands(operands, n))
    ensures forall k :: 0 <= k < n ==> OperandAt(bytes, at + OperandStart(operands, k), operands[k])
  {
    hide OperandAt, EmitOperand, EmitOperands, Occurs, OperandStart, OperandsSize;
    if n > 0 {
      EmitNext(operands, n);
      OccursSplit(bytes, at + 2, EmitOperands(operands, n - 1), EmitOperand(operands[n - 1]));
      EmittedOperandsAt(bytes, at, operands, n - 1);
      StartIsSize(operands, n - 1);
      EmittedOperandAt(bytes, at + OperandStart(operands, n - 1), operands[n - 1]);
    }
  }

  /** The written form of an instruction is its bytes: opcode number, operand count, tagged operands. */
  lemma {:induction false} EmittedAt(bytes: seq<Byte>, at: nat, instr: Instruction)
    requires |instr.operands| <= MAX_OPERANDS && Occurs(bytes, at, Emit(instr))
    ensures InstructionAt(bytes, at, instr)
  {
    hide OperandAt, EmitOperands, OperandStart, OperandsSize;
    var n := |instr.operands|;
    var header := [instr.op as Byte, n as Byte];
    OccursSplit(bytes, at, header, EmitOperands(instr.operands, n));
    assert bytes[at] == bytes[at..at + 2][0] == header[0] && bytes[at + 1] == bytes[at..at + 2][1] == header[1];
    EmittedOperandsAt(bytes, at, instr.operands, n);
    StartIsSize(instr.operands, n);
  }

  ghost predicate AllCountsFit(instrs: seq<Instruction>)
  {
    forall i :: 0 <= i < |instrs| ==> |instrs[i].operands| <= MAX_OPERANDS
  }

  /** Byte offset of instruction `i`; instruction `|instrs|` is the end of the stream. */
  function ByteOffset(instrs: seq<Instruction>, i: nat): (offset: nat)
    requires i <= |instrs|
  {
    if i == 0 then 0 else ByteOffset(instrs, i - 1) + InstructionSize(instrs[i - 1].operands)
  }

  function TotalSize(instrs: seq<Instruction>): (n: nat)
  {
    ByteOffset(instrs, |instrs|)
  }

  /** The byte stream of the first `n` instructions. */
  function EmitFirst(instrs: seq<Instruction>, n: nat): (bytes: seq<Byte>)
    requires n <= |instrs| && AllCountsFit(instrs)
    ensures |bytes| == ByteOffset(instrs, n)
  {
    if n == 0 then [] else EmitFirst(instrs, n - 1) + Emit(instrs[n - 1])
  }

  function EmitAll(instrs: seq<Instruction>): (bytes: seq<Byte>)
    requires AllCountsFit(instrs)
    ensures |bytes| == TotalSize(instrs)
  {
    EmitFirst(instrs, |instrs|)
  }

  lemma {:induction false} OperandsSizePrefix(a: seq<Operand>, b: seq<Operand>, k: nat)
    requires k <= |a| && k <= |b| && a[..k] == b[..k]
    ensures OperandsSize(a, k) == OperandsSize(b, k)
    ensures EmitOperands(a, k) == EmitOperands(b, k)
  {
    if k > 0 {
      assert a[..k][k - 1] == b[..k][k - 1];
      assert a[..k - 1] == a[..k][..k - 1] == b[..k - 1];
      OperandsSizePrefix(a, b, k - 1);
    }
  }

  lemma {:induction false} AppendOperand(bytes: seq<Byte>, o: Operand)
    ensures OperandAt(bytes + EmitOperand(o), |bytes|, o)
  {
    hide OperandAt, EmitOperand;
    assert (bytes + EmitOperand(o))[|bytes|..] == EmitOperand(o);
    EmittedOperandAt(bytes + EmitOperand(o), |bytes|, o);
  }

  lemma {:induction false} AppendInstruction(bytes: seq<Byte>, instr: Instruction)
    requires |instr.operands| <= MAX_OPERANDS
    ensures InstructionAt(bytes + Emit(instr), |bytes|, instr)
  {
    hide InstructionAt, Emit;
    assert (bytes + Emit(instr))[|bytes|..] == Emit(instr);
    EmittedAt(bytes + Emit(instr), |bytes|, instr);
  }

  /** Append-only writer of the byte stream. */
  class BytecodeWriter {
    var bytes: seq<Byte>

    constructor ()
      ensures bytes == []
    {
      bytes := [];
    }

    /** Offset at which the next write lands. */
    method Pc() returns (pc: U32)
      requires |bytes| <= U32_MAX
      ensures pc == |bytes|
    {
      pc := |bytes|;
    }

    method WriteOperand(o: Operand)
      modifies this
      ensures bytes == old(bytes) + EmitOperand(o) && OperandAt(bytes, |old(bytes)|, o)
    {
      ghost var before := bytes;
      AppendOperand(before, o);
      match o
      case Register(r) =>
        bytes := bytes + [OPERAND_KIND_REGISTER];
        bytes := bytes + LittleEndian16(r);
      case ConstIndex(i) =>
        bytes := bytes + [OPERAND_KIND_CONST_INDEX];
        bytes := bytes + LittleEndian32(i);
      case Imm32(v) =>
        bytes := bytes + [OPERAND_KIND_IMM32];
        bytes := bytes + LittleEndian32(ToUnsigned(v));
    }

    method WriteOperands(operands: seq<Operand>)
      modifies this
      ensures bytes == old(bytes) + EmitOperands(operands, |operands|)
    {
      hide EmitOperand;
      for k := 0 to |operands|
        invariant bytes == old(bytes) + EmitOperands(operands, k)
      {
        ghost var before := EmitOperands(operands, k);
        WriteOperand(operands[k]);
        assert old(bytes) + before + EmitOperand(operands[k]) == old(bytes) + (before + EmitOperand(operands[k]));
      }
    }

    method Write(instr: Instruction)
      requires |instr.operands| <= MAX_OPERANDS
      modifies this
      ensures bytes == old(bytes) + Emit(instr) && InstructionAt(bytes, |old(bytes)|, instr)
    {
      hide EmitOperands, InstructionAt;
      AppendInstruction(bytes, instr);
      var op, count := instr.op as Byte, |instr.operands| as Byte;
      bytes := bytes + [op];
      bytes := bytes + [count];
      WriteOperands(instr.operands);
      ghost var tail := EmitOperands(instr.operands, |instr.operands|);
      assert old(bytes) + [op] + [count] + tail == old(bytes) + ([op, count] + tail);
    }
  }

  // ----- Reading -----

  function TakeN(code: seq<Byte>, pc: nat, n: nat): (r: Result<seq<Byte>, DecodeError>)
    ensures r.Ok? ==> |r.value| == n
  {
    if pc + n <= |code| then Ok(code[pc..pc + n]) else Err(UnexpectedEnd(pc))
  }

  function ParseOperand(code: seq<Byte>, pc: nat): (r: Result<(Operand, nat), DecodeError>)
  {
    if pc >= |code| then Err(UnexpectedEnd(pc))
    else if code[pc] == OPERAND_KIND_REGISTER then
      match TakeN(code, pc + 1, 2)
      case Ok(bytes) => Ok((Register(FromLittleEndian16(bytes)), pc + 3))
      case Err(e) => Err(e)
    else if code[pc] == OPERAND_KIND_CONST_INDEX then
      match TakeN(code, pc + 1, 4)
      case Ok(bytes) => Ok((ConstIndex(FromLittleEndian32(bytes)), pc + 5))
      case Err(e) => Err(e)
    else if code[pc] == OPERAND_KIND_IMM32 then
      match TakeN(code, pc + 1, 4)
      case Ok(bytes) => Ok((Imm32(ToSigned(FromLittleEndian32(bytes))), pc + 5))
      case Err(e) => Err(e)
    else Err(UnknownOperandKind(pc, code[pc]))
  }

  /** The first `n` operands from `pc` on, and where they end. */
  function ParseOperands(code: seq<Byte>, pc: nat, n: nat): (r: Result<(seq<Operand>, nat), DecodeError>)
    ensures r.Ok? ==> |r.value.0| == n
  {
    if n == 0 then Ok(([], pc))
    else
      match ParseOperands(code, pc, n - 1)
      case Err(e) => Err(e)
      case Ok((operands, cursor)) =>
        match ParseOperand(code, cursor)
        case Err(e) => Err(e)
        case Ok((operand, next)) => Ok((operands + [operand], next))
  }

  function ParseInstruction(s: Schema, code: seq<Byte>, pc: U32): (r: Result<(Instruction, nat), DecodeError>)
    requires s.Valid()
  {
    if pc >= |code| then Err(UnexpectedEnd(pc))
    else if OpFromByte(code[pc]).None? then Err(UnknownOpcode(pc, code[pc]))
    else if pc + 1 >= |code| then Err(UnexpectedEnd(pc + 1))
    else
      var op := OpFromByte(code[pc]).value;
      match ParseOperands(code, pc + 2, code[pc + 1] as nat)
      case Err(e) => Err(e)
      case Ok((operands, next)) =>
        RowShape(s, op);
        match VerifyOperandShape(s, op, operands)
        case Err(e) => Err(InvalidOperandShape(pc, e))
        case Ok(_) => Ok((Instruction(pc, op, operands), next))
  }

  /** Reads exactly the operand whose bytes stand at `pc`; otherwise says where bytes ran out or which tag is
      unknown. */
  method DecodeOperand(code: seq<Byte>, pc: nat) returns (r: Result<(Operand, nat), DecodeError>)
    ensures r == ParseOperand(code, pc)
    ensures r.Ok? ==> OperandAt(code, pc, r.value.0) && r.value.1 == pc + if r.value.0.Register? then 3 else 5
    ensures forall o :: OperandAt(code, pc, o) ==> r.Ok? && r.value.0 == o
    ensures pc >= |code| ==> r == Err(UnexpectedEnd(pc))
    ensures pc < |code| && code[pc] > 2 ==> r == Err(UnknownOperandKind(pc, code[pc]))
    ensures pc < |code| <= pc + 2 && code[pc] == 0 ==> r == Err(UnexpectedEnd(pc + 1))
    ensures pc < |code| <= pc + 4 && 1 <= code[pc] <= 2 ==> r == Err(UnexpectedEnd(pc + 1))
  {
    ParsedAt(code, pc);
    if pc >= |code| { return Err(UnexpectedEnd(pc)); }
    var kind := code[pc];
    if kind == OPERAND_KIND_REGISTER {
      var taken := TakeN(code, pc + 1, 2);
      if taken.Err? { return Err(taken.error); }
      return Ok((Register(FromLittleEndian16(taken.value)), pc + 3));
    }
    if kind == OPERAND_KIND_CONST_INDEX || kind == OPERAND_KIND_IMM32 {
      var taken := TakeN(code, pc + 1, 4);
      if taken.Err? { return Err(taken.error); }
      var word := FromLittleEndian32(taken.value);
      return Ok((if kind == OPERAND_KIND_IMM32 then Imm32(ToSigned(word)) else ConstIndex(word), pc + 5));
    }
    return Err(UnknownOperandKind(pc, kind));
  }

  /** Decode the instruction at `pc`; the decoder's loop over the operand count computes `ParseInstruction`. */
  method DecodeInstruction(s: Schema, code: seq<Byte>, pc: U32) returns (r: Result<(Instruction, nat), DecodeError>)
    requires s.Valid()
    ensures r == ParseInstruction(s, code, pc)
    ensures r.Ok? ==> && InstructionAt(code, pc, r.value.0) && r.value.0.pc == pc
                      && r.value.1 == pc + OperandStart(r.value.0.operands, |r.value.0.operands|)
  {
    InstructionParsedAt(s, code, pc);
    hide InstructionAt, OperandStart;
    if pc >= |code| { return Err(UnexpectedEnd(pc)); }
    var op := OpFromByte(code[pc]);
    if op.None? { return Err(UnknownOpcode(pc, code[pc])); }
    if pc + 1 >= |code| { return Err(UnexpectedEnd(pc + 1)); }
    var count := code[pc + 1] as nat;
    var cursor := pc + 2;
    var operands := [];
    for k := 0 to count
      invariant ParseOperands(code, pc + 2, k) == Ok((operands, cursor))
    {
      var decoded := DecodeOperand(code, cursor);
      if decoded.Err? {
        StuckPrefix(code, pc + 2, k + 1, count);
        return Err(decoded.error);
      }
      operands := operands + [decoded.value.0];
      cursor := decoded.value.1;
    }
    RowShape(s, op.value);
    match VerifyOperandShape(s, op.value, operands)
    case Err(e) => return Err(InvalidOperandShape(pc, e));
    case Ok(_) => return Ok((Instruction(pc, op.value, operands), cursor));
  }

  lemma {:induction false} StuckPrefix(code: seq<Byte>, pc: nat, k: nat, n: nat)
    requires k <= n && ParseOperands(code, pc, k).Err?
    ensures ParseOperands(code, pc, n) == ParseOperands(code, pc, k)
  {
    if k < n {
      StuckPrefix(code, pc, k, n - 1);
    }
  }

  // ----- Writing and reading are inverse -----

  /** `chunk` sits in `code` at `pc`. */
  predicate Occurs(code: seq<Byte>, pc: nat, chunk: seq<Byte>)
  {
    pc + |chunk| <= |code| && code[pc..pc + |chunk|] == chunk
  }

  lemma {:induction false} OccursSplit(code: seq<Byte>, pc: nat, left: seq<Byte>, right: seq<Byte>)
    ensures Occurs(code, pc, left + right) <==> Occurs(code, pc, left) && Occurs(code, pc + |left|, right)
  {
    if pc + |left| + |right| <= |code| {
      var both := code[pc..pc + |left| + |right|];
      assert both == code[pc..pc + |left|] + code[pc + |left|..pc + |left| + |right|];
      assert both[..|left|] == code[pc..pc + |left|] && both[|left|..] == code[pc + |left|..pc + |left| + |right|];
    }
  }

  lemma {:induction false} ReadWrittenOperand(code: seq<Byte>, pc: nat, o: Operand)
    requires Occurs(code, pc, EmitOperand(o))
    ensures ParseOperand(code, pc) == Ok((o, pc + OperandSize(o)))
  {
    var bytes := EmitOperand(o);
    assert code[pc..pc + |bytes|][0] == bytes[0];
    assert code[pc + 1..pc + |bytes|] == bytes[1..];
    match o
    case Register(r) => LittleEndian16RoundTrip(r);
    case ConstIndex(i) => LittleEndian32RoundTrip(i);
    case Imm32(v) => LittleEndian32RoundTrip(ToUnsigned(v));
  }

  lemma {:induction false} WrittenIfReadOperand(code: seq<Byte>, pc: nat)
    requires ParseOperand(code, pc).Ok?
    ensures var (o, next) := ParseOperand(code, pc).value;
            next == pc + OperandSize(o) && Occurs(code, pc, EmitOperand(o))
  {
    var (o, next) := ParseOperand(code, pc).value;
    assert next == pc + OperandSize(o) <= |code|;
    assert code[pc..next] == [code[pc]] + code[pc + 1..next];
    if o.Register? {
      LittleEndian16Canonical(code[pc + 1..next]);
    } else {
      LittleEndian32Canonical(code[pc + 1..next]);
    }
  }

  lemma {:induction false} ReadWrittenOperands(code: seq<Byte>, pc: nat, operands: seq<Operand>, k: nat)
    requires k <= |operands|
    requires Occurs(code, pc, EmitOperands(operands, k))
    ensures ParseOperands(code, pc, k) == Ok((operands[..k], pc + OperandsSize(operands, k)))
  {
    hide ParseOperand, EmitOperand, Occurs;
    if k > 0 {
      OccursSplit(code, pc, EmitOperands(operands, k - 1), EmitOperand(operands[k - 1]));
      ReadWrittenOperands(code, pc, operands, k - 1);
      ReadWrittenOperand(code, pc + OperandsSize(operands, k - 1), operands[k - 1]);
      assert operands[..k] == operands[..k - 1] + [operands[k - 1]];
    }
  }

  lemma {:induction false} NothingOccurs(code: seq<Byte>, pc: nat)
    requires pc <= |code|
    ensures Occurs(code, pc, [])
  {}

  lemma {:induction false} WrittenIfReadOperands(code: seq<Byte>, pc: nat, n: nat)
    requires pc <= |code|
    requires ParseOperands(code, pc, n).Ok?
    ensures var (operands, next) := ParseOperands(code, pc, n).value;
            next == pc + OperandsSize(operands, n) && Occurs(code, pc, EmitOperands(operands, n))
  {
    hide ParseOperand, EmitOperand, Occurs;
    if n == 0 {
      NothingOccurs(code, pc);
    } else {
      WrittenIfReadOperands(code, pc, n - 1);
      var (init, cursor) := ParseOperands(code, pc, n - 1).value;
      WrittenIfReadOperand(code, cursor);
      var (operands, next) := ParseOperands(code, pc, n).value;
      OperandsSizePrefix(init, operands, n - 1);
      OccursSplit(code, pc, EmitOperands(operands, n - 1), EmitOperand(operands[n - 1]));
    }
  }

  /** A written well-shaped instruction is read back, wherever it occurs. */
  lemma {:induction false} ReadWritten(s: Schema, code: seq<Byte>, pc: U32, instr: Instruction)
    requires s.Valid()
    requires |instr.operands| <= MAX_OPERANDS && s.WellShaped(instr.op, instr.operands)
    requires Occurs(code, pc, Emit(instr))
    ensures ParseInstruction(s, code, pc) == Ok((instr.(pc := pc), pc + InstructionSize(instr.operands)))
  {
    hide ParseOperands, EmitOperands, VerifyOperandShape, Schema.WellShaped;
    OccursSplit(code, pc, [instr.op as Byte, |instr.operands| as Byte], EmitOperands(instr.operands, |instr.operands|));
    assert code[pc..pc + 2][0] == instr.op as Byte && code[pc..pc + 2][1] == |instr.operands| as Byte;
    ReadWrittenOperands(code, pc + 2, instr.operands, |instr.operands|);
    assert instr.operands[..|instr.operands|] == instr.operands;
    RowShape(s, instr.op);
    ShapeVerdict(s, instr.op, instr.operands);
  }

  /** Whatever is read is exactly what writing the result would have produced. */
  lemma {:induction false} WrittenIfRead(s: Schema, code: seq<Byte>, pc: U32)
    requires s.Valid()
    requires ParseInstruction(s, code, pc).Ok?
    ensures var (instr, next) := ParseInstruction(s, code, pc).value;
            && instr.pc == pc
            && |instr.operands| <= MAX_OPERANDS && s.WellShaped(instr.op, instr.operands)
            && next == pc + InstructionSize(instr.operands)
            && Occurs(code, pc, Emit(instr))
  {
    var (instr, next) := ParseInstruction(s, code, pc).value;
    WrittenIfReadOperands(code, pc + 2, code[pc + 1] as nat);
    assert code[pc..pc + 2] == [instr.op as Byte, |instr.operands| as Byte];
    OccursSplit(code, pc, [instr.op as Byte, |instr.operands| as Byte], EmitOperands(instr.operands, |instr.operands|));
    RowShape(s, instr.op);
    ShapeVerdict(s, instr.op, instr.operands);
  }

  // ----- What is read is what stands there -----

  lemma {:induction false} OperandAtUnique(bytes: seq<Byte>, at: nat, o: Operand, o': Operand)
    requires OperandAt(bytes, at, o) && OperandAt(bytes, at, o')
    ensures o == o'
  {}

  /** Bytes of an operand are read as that operand. */
  lemma {:induction false} OperandAtParses(bytes: seq<Byte>, at: nat, o: Operand)
    requires OperandAt(bytes, at, o)
    ensures ParseOperand(bytes, at).Ok?
  {}

  lemma {:induction false} ParsedAt(code: seq<Byte>, pc: nat)
    ensures var r := ParseOperand(code, pc);
            && (r.Ok? ==> OperandAt(code, pc, r.value.0) && r.value.1 == pc + OperandSize(r.value.0))
            && forall o :: OperandAt(code, pc, o) ==> r.Ok? && r.value.0 == o
  {
    hide ParseOperand, OperandAt, EmitOperand, Occurs;
    var r := ParseOperand(code, pc);
    if r.Ok? {
      WrittenIfReadOperand(code, pc);
      EmittedOperandAt(code, pc, r.value.0);
    }
    forall o | OperandAt(code, pc, o)
      ensures r.Ok? && r.value.0 == o
    {
      OperandAtParses(code, pc, o);
      OperandAtUnique(code, pc, o, r.value.0);
    }
  }

  lemma {:induction false} InstructionParsedAt(s: Schema, code: seq<Byte>, pc: U32)
    requires s.Valid()
    ensures var r := ParseInstruction(s, code, pc);
            r.Ok? ==> && InstructionAt(code, pc, r.value.0) && r.value.0.pc == pc
                      && r.value.1 == pc + OperandStart(r.value.0.operands, |r.value.0.operands|)
  {
    hide ParseInstruction, InstructionAt, Emit, Occurs, Schema.Valid, Schema.WellShaped;
    var r := ParseInstruction(s, code, pc);
    if r.Ok? {
      WrittenIfRead(s, code, pc);
      EmittedAt(code, pc, r.value.0);
      StartIsSize(r.value.0.operands, |r.value.0.operands|);
    }
  }

  /** In the stream of a function every instruction stands at its offset. */
  lemma {:induction false} StreamAt(instrs: seq<Instruction>, i: nat, n: nat)
    requires AllCountsFit(instrs) && i < n <= |instrs|
    ensures InstructionAt(EmitFirst(instrs, n), ByteOffset(instrs, i), instrs[i])
  {
    hide InstructionAt, Emit, InstructionSize;
    if i == n - 1 {
      AppendInstruction(EmitFirst(instrs, i), instrs[i]);
    } else {
      StreamAt(instrs, i, n - 1);
      InstructionAtPrefix(EmitFirst(instrs, n - 1), Emit(instrs[n - 1]), ByteOffset(instrs, i), instrs[i]);
    }
  }

  lemma {:induction false} OperandAtPrefix(bytes: seq<Byte>, more: seq<Byte>, at: nat, o: Operand)
    requires OperandAt(bytes, at, o)
    ensures OperandAt(bytes + more, at, o)
  {}

  lemma {:induction false} InstructionAtPrefix(bytes: seq<Byte>, more: seq<Byte>, at: nat, instr: Instruction)
    requires InstructionAt(bytes, at, instr)
    ensures InstructionAt(bytes + more, at, instr)
  {
    hide OperandAt, OperandStart;
    forall k | 0 <= k < |instr.operands|
      ensures OperandAt(bytes + more, at + OperandStart(instr.operands, k), instr.operands[k])
    {
      OperandAtPrefix(bytes, more, at + OperandStart(instr.operands, k), instr.operands[k]);
    }
  }
}
