/**
  * Verification, layout and encoding of a compiler function: the instruction list with instruction-index branch deltas
  * becomes one byte stream with byte deltas, by writing everything once and then patching every branch operand in
  * place.
  */
module Encoding {
  import opened Prelude
  import opened OpcodeSchema
  import opened ControlFlow
  import opened WireFormat

  datatype VerifyError =
    | FunctionTooLarge
    | InvalidShape(index: nat, shapeError: OperandShapeError)
    | InvalidTarget(index: nat, target: int)
    | InvalidOperand(index: nat, operandIndex: nat, value: I32)

  // ----- Verification in instruction-index space -----

  function AtInstruction(index: nat, e: ControlError): (v: VerifyError)
  {
    match e
    case BadTarget(target) => VerifyError.InvalidTarget(index, target)
    case BadFloor(operandIndex, value) => InvalidOperand(index, operandIndex, value)
  }

  /** Check instruction `i` of a function of `count` instructions. */
  function VerifyInstruction(s: Schema, op: Op, operands: seq<Operand>, i: nat, count: nat): (e: Option<VerifyError>)
    requires s.Valid()
  {
    RowShape(s, op);
    match VerifyOperandShape(s, op, operands)
    case Err(shapeError) => Some(InvalidShape(i, shapeError))
    case Ok(_) =>
      ShapeVerdict(s, op, operands);
      assert s.ValidRow(op);
      match CheckControl(s, op, operands, i + 1, InstructionSpace(count))
      case Some(e) => Some(AtInstruction(i, e))
      case None => None
  }

  /** The first error among instructions from `i` on. */
  function VerifyLogical(s: Schema, instrs: seq<Instruction>, i: nat): (e: Option<VerifyError>)
    requires s.Valid() && i <= |instrs|
    decreases |instrs| - i
  {
    if i == |instrs| then None
    else
      var e := VerifyInstruction(s, instrs[i].op, instrs[i].operands, i, |instrs|);
      if e.Some? then e else VerifyLogical(s, instrs, i + 1)
  }

  ghost predicate InstructionOk(s: Schema, op: Op, operands: seq<Operand>, i: nat, count: nat)
    requires s.Valid()
  {
    && s.WellShaped(op, operands)
    && s.ValidRow(op)
    && ControlOk(s, op, operands, i + 1, InstructionSpace(count))
  }

  ghost predicate LogicalOk(s: Schema, instrs: seq<Instruction>)
    requires s.Valid()
  {
    forall i :: 0 <= i < |instrs| ==> InstructionOk(s, instrs[i].op, instrs[i].operands, i, |instrs|)
  }

  lemma {:induction false} InstructionVerdict(s: Schema, op: Op, operands: seq<Operand>, i: nat, count: nat)
    requires s.Valid()
    ensures VerifyInstruction(s, op, operands, i, count).None? <==> InstructionOk(s, op, operands, i, count)
  {
    assert s.ValidRow(op);
    ShapeVerdict(s, op, operands);
    if s.WellShaped(op, operands) {
      ControlVerdict(s, op, operands, i + 1, InstructionSpace(count));
    }
  }

  /** The error names instruction `j` and what is wrong with it: its operand list, or else its first illegal target or
      negative floor. */
  ghost predicate Explains(s: Schema, instrs: seq<Instruction>, j: nat, e: VerifyError)
    requires j < |instrs|
  {
    var op, operands, space := instrs[j].op, instrs[j].operands, InstructionSpace(|instrs|);
    match e
    case FunctionTooLarge => false
    case InvalidShape(index, shapeError) =>
      && index == j && !s.WellShaped(op, operands) && s.shape(op).Valid()
      && VerifyOperandShape(s, op, operands) == Err(shapeError)
    case InvalidTarget(index, target) =>
      index == j && s.WellShaped(op, operands) && FirstFault(s, op, operands, j + 1, space, BadTarget(target))
    case InvalidOperand(index, operandIndex, value) =>
      && index == j && s.WellShaped(op, operands)
      && FirstFault(s, op, operands, j + 1, space, BadFloor(operandIndex, value))
  }

  lemma {:induction false} InstructionExplained(s: Schema, instrs: seq<Instruction>, j: nat)
    requires s.Valid() && j < |instrs|
    requires VerifyInstruction(s, instrs[j].op, instrs[j].operands, j, |instrs|).Some?
    ensures Explains(s, instrs, j, VerifyInstruction(s, instrs[j].op, instrs[j].operands, j, |instrs|).value)
  {
    hide FirstFault, CheckControl;
    var op, operands := instrs[j].op, instrs[j].operands;
    assert s.ValidRow(op);
    ShapeVerdict(s, op, operands);
    if s.WellShaped(op, operands) {
      ControlBlamed(s, op, operands, j + 1, InstructionSpace(|instrs|));
    }
  }

  /** The verifier accepts from `i` on exactly when every instruction from `i` on is legal, and otherwise reports
      the first illegal one, by its index and with what is wrong with it. */
  lemma {:induction false} LogicalVerdict(s: Schema, instrs: seq<Instruction>, i: nat)
    requires s.Valid() && i <= |instrs|
    ensures match VerifyLogical(s, instrs, i)
            case None =>
              forall j :: i <= j < |instrs| ==> InstructionOk(s, instrs[j].op, instrs[j].operands, j, |instrs|)
            case Some(e) =>
              exists j :: i <= j < |instrs|
                && Explains(s, instrs, j, e)
                && !InstructionOk(s, instrs[j].op, instrs[j].operands, j, |instrs|)
                && forall k :: i <= k < j ==> InstructionOk(s, instrs[k].op, instrs[k].operands, k, |instrs|)
    decreases |instrs| - i
  {
    hide VerifyInstruction, InstructionOk, Schema.Valid, Explains;
    if i < |instrs| {
      InstructionVerdict(s, instrs[i].op, instrs[i].operands, i, |instrs|);
      if VerifyInstruction(s, instrs[i].op, instrs[i].operands, i, |instrs|).Some? {
        InstructionExplained(s, instrs, i);
      }
      LogicalVerdict(s, instrs, i + 1);
    }
  }

  // ----- Layout -----

  datatype FunctionLayout = FunctionLayout(totalBytes: U32, instrToBytePc: seq<U32>)

  /** `layout` lists the byte offset of every instruction and the end of the stream. */
  ghost predicate IsLayout(instrs: seq<Instruction>, layout: FunctionLayout)
  {
    && layout.totalBytes == TotalSize(instrs)
    && |layout.instrToBytePc| == |instrs|
    && forall i :: 0 <= i < |instrs| ==> layout.instrToBytePc[i] == ByteOffset(instrs, i)
  }

  lemma {:induction false} OperandsSizeMonotone(operands: seq<Operand>, j: nat, k: nat)
    requires j <= k <= |operands|
    ensures OperandsSize(operands, j) <= OperandsSize(operands, k)
  {
    if j < k {
      OperandsSizeMonotone(operands, j, k - 1);
    }
  }

  /** Offsets grow by at least two bytes per instruction. */
  lemma {:induction false} OffsetsIncrease(instrs: seq<Instruction>, i: nat, j: nat)
    requires i <= j <= |instrs|
    ensures ByteOffset(instrs, i) + 2 * (j - i) <= ByteOffset(instrs, j)
  {
    if i < j {
      OffsetsIncrease(instrs, i, j - 1);
    }
  }

  /** Serialized size of one instruction, by checked `u32` additions. */
  method MeasureInstruction(operands: seq<Operand>) returns (size: Option<U32>)
    ensures size == if InstructionSize(operands) > U32_MAX then None else Some(InstructionSize(operands))
  {
    var byteLen: U32 := 2;
    for k := 0 to |operands|
      invariant byteLen == 2 + OperandsSize(operands, k)
    {
      var operandLen := if operands[k].Register? then 3 else 5;
      if byteLen as int + operandLen > U32_MAX {
        OperandsSizeMonotone(operands, k + 1, |operands|);
        return None;
      }
      byteLen := byteLen + operandLen;
    }
    return Some(byteLen);
  }

  /** Layout without writing bytes: the running `u32` offset overflows exactly when the true total does not fit. */
  method LayoutFunction(s: Schema, instrs: seq<Instruction>) returns (r: Result<FunctionLayout, VerifyError>)
    requires s.Valid()
    ensures match VerifyLogical(s, instrs, 0)
            case Some(e) => r == Err(e)
            case None =>
              if TotalSize(instrs) > U32_MAX then r == Err(FunctionTooLarge)
              else r.Ok? && IsLayout(instrs, r.value)
  {
    hide VerifyLogical, InstructionSize;
    var verdict := VerifyLogical(s, instrs, 0);
    if verdict.Some? { return Err(verdict.value); }
    var bytePc: U32 := 0;
    var instrToBytePc: seq<U32> := [];
    for i := 0 to |instrs|
      invariant bytePc == ByteOffset(instrs, i)
      invariant |instrToBytePc| == i
      invariant forall j :: 0 <= j < i ==> instrToBytePc[j] == ByteOffset(instrs, j)
    {
      instrToBytePc := instrToBytePc + [bytePc];
      OffsetsIncrease(instrs, i + 1, |instrs|);
      var measured := MeasureInstruction(instrs[i].operands);
      if measured.None? { return Err(FunctionTooLarge); }
      var byteLen: U32 := measured.value;
      if bytePc as int + byteLen > U32_MAX { return Err(FunctionTooLarge); }
      bytePc := bytePc + byteLen;
    }
    return Ok(FunctionLayout(bytePc, instrToBytePc));
  }

  datatype SpanEntry = SpanEntry(pc: U32, start: U32, end: U32)

  /** Move a source map from instruction indices to byte offsets; entries past the last instruction go to the end. */
  function TranslateSpans(spans: seq<SpanEntry>, layout: FunctionLayout): (r: seq<SpanEntry>)
    ensures |r| == |spans|
    ensures forall x :: 0 <= x < |spans| ==> r[x].start == spans[x].start && r[x].end == spans[x].end
    ensures forall x :: 0 <= x < |spans| && spans[x].pc < |layout.instrToBytePc| ==>
              r[x].pc == layout.instrToBytePc[spans[x].pc]
    ensures forall x :: 0 <= x < |spans| && spans[x].pc >= |layout.instrToBytePc| ==> r[x].pc == layout.totalBytes
  {
    seq(|spans|, x requires 0 <= x < |spans| => spans[x].(pc :=
      if spans[x].pc < |layout.instrToBytePc| then layout.instrToBytePc[spans[x].pc] else layout.totalBytes))
  }

  ghost predicate SortedByPc(spans: seq<SpanEntry>)
  {
    forall x, y :: 0 <= x < y < |spans| ==> spans[x].pc <= spans[y].pc
  }

  /** Translation keeps the order of a source map, and keeps in-range entries of different instructions apart. */
  lemma {:induction false} SpansStaySorted(instrs: seq<Instruction>, spans: seq<SpanEntry>, layout: FunctionLayout)
    requires IsLayout(instrs, layout) && SortedByPc(spans)
    ensures SortedByPc(TranslateSpans(spans, layout))
    ensures forall x, y :: 0 <= x < y < |spans| && spans[x].pc < spans[y].pc && spans[x].pc < |instrs| ==>
              TranslateSpans(spans, layout)[x].pc < TranslateSpans(spans, layout)[y].pc
  {
    hide ByteOffset;
    var r := TranslateSpans(spans, layout);
    forall x, y | 0 <= x < y < |spans|
      ensures r[x].pc <= r[y].pc
      ensures spans[x].pc < spans[y].pc && spans[x].pc < |instrs| ==> r[x].pc < r[y].pc
    {
      var i := if spans[x].pc < |instrs| then spans[x].pc else |instrs|;
      var j := if spans[y].pc < |instrs| then spans[y].pc else |instrs|;
      OffsetsIncrease(instrs, i, j);
    }
  }

  // ----- The byte-delta form of a function -----

  /** Sizes within which every byte distance fits `i32` and none is the absent-handler value. */
  ghost predicate WithinBounds(instrs: seq<Instruction>)
  {
    AllCountsFit(instrs) && TotalSize(instrs) <= I32_MAX
  }

  /** A branch operand of instruction `i`, from instruction delta to byte delta relative to the byte after its opcode.
      The absent-handler sentinel stays. */
  function RelinkOperand(instrs: seq<Instruction>, i: nat, o: Operand): (r: Operand)
    requires i < |instrs|
  {
    if NamesPosition(instrs, i, o) && I32_MIN <= ByteDistance(instrs, i, o.value) <= I32_MAX
    then Imm32(ByteDistance(instrs, i, o.value))
    else o
  }

  /** The operand, of a branch at instruction `i`, is present and names a position of the function. */
  predicate NamesPosition(instrs: seq<Instruction>, i: nat, o: Operand)
  {
    o.Imm32? && o.value != NO_HANDLER_OFFSET && 0 <= i + 1 + o.value <= |instrs|
  }

  /** From the byte after the opcode of instruction `i` to the position `delta` instructions on. */
  function ByteDistance(instrs: seq<Instruction>, i: nat, delta: int): (d: int)
    requires i < |instrs| && 0 <= i + 1 + delta <= |instrs|
  {
    ByteOffset(instrs, i + 1 + delta) - (ByteOffset(instrs, i) + 1)
  }

  predicate IsSlot(s: Schema, instrs: seq<Instruction>, i: nat, k: nat)
  {
    i < |instrs| && k < |instrs[i].operands| && k in s.branchSlots(instrs[i].op)
  }

  /** What the encoder needs of a verified function: one-byte operand counts, 32-bit byte offsets, and byte distances of
      its own branches that fit `i32`. Anything else makes it panic. */
  ghost predicate Linkable(s: Schema, instrs: seq<Instruction>)
  {
    && AllCountsFit(instrs) && TotalSize(instrs) <= U32_MAX
    && forall i: nat, k: nat :: IsSlot(s, instrs, i, k) && NamesPosition(instrs, i, instrs[i].operands[k]) ==>
         I32_MIN <= ByteDistance(instrs, i, instrs[i].operands[k].value) <= I32_MAX
  }

  lemma {:induction false} DistanceWithin(instrs: seq<Instruction>, i: nat, delta: int)
    requires i < |instrs| && 0 <= i + 1 + delta <= |instrs| && TotalSize(instrs) <= I32_MAX
    ensures I32_MIN < ByteDistance(instrs, i, delta) <= I32_MAX
  {
    hide ByteOffset;
    OffsetsIncrease(instrs, i, |instrs|);
    OffsetsIncrease(instrs, i + 1 + delta, |instrs|);
  }

  /** Functions of at most `i32::MAX` bytes can be encoded. */
  lemma {:induction false} SmallIsLinkable(s: Schema, instrs: seq<Instruction>)
    requires WithinBounds(instrs)
    ensures Linkable(s, instrs)
  {
    hide ByteOffset, ByteDistance;
    forall i: nat, k: nat | IsSlot(s, instrs, i, k) && NamesPosition(instrs, i, instrs[i].operands[k])
      ensures I32_MIN <= ByteDistance(instrs, i, instrs[i].operands[k].value) <= I32_MAX
    {
      DistanceWithin(instrs, i, instrs[i].operands[k].value);
    }
  }

  /** `linked` is `instrs` with exactly the branch operands chosen by `done` rewritten. */
  ghost predicate RelinkedAt(s: Schema, instrs: seq<Instruction>, done: set<(nat, nat)>, linked: seq<Instruction>)
  {
    && |linked| == |instrs|
    && (forall i :: 0 <= i < |instrs| ==>
          && linked[i].op == instrs[i].op && linked[i].pc == instrs[i].pc
          && |linked[i].operands| == |instrs[i].operands|)
    && (forall i, k :: 0 <= i < |instrs| && 0 <= k < |instrs[i].operands| ==>
          linked[i].operands[k] ==
          if (i, k) in done then RelinkOperand(instrs, i, instrs[i].operands[k]) else instrs[i].operands[k])
  }

  function RelinkInstruction(s: Schema, instrs: seq<Instruction>, i: nat): (r: Instruction)
    requires i < |instrs|
  {
    var operands := instrs[i].operands;
    instrs[i].(operands := seq(|operands|, k requires 0 <= k < |operands| =>
      if k in s.branchSlots(instrs[i].op) then RelinkOperand(instrs, i, operands[k]) else operands[k]))
  }

  /** The instruction list whose plain serialization is the encoded function. */
  function Relink(s: Schema, instrs: seq<Instruction>): (linked: seq<Instruction>)
    ensures |linked| == |instrs|
  {
    seq(|instrs|, i requires 0 <= i < |instrs| => RelinkInstruction(s, instrs, i))
  }

  /** Same opcodes and operand kinds, so the same layout. */
  ghost predicate SameKinds(a: seq<Instruction>, b: seq<Instruction>)
  {
    && |a| == |b|
    && (forall i :: 0 <= i < |a| ==> a[i].op == b[i].op && |a[i].operands| == |b[i].operands|)
    && (forall i, k :: 0 <= i < |a| && 0 <= k < |a[i].operands| ==>
          a[i].operands[k].Kind() == b[i].operands[k].Kind())
  }

  lemma {:induction false} SameOperandsSize(a: seq<Operand>, b: seq<Operand>, k: nat)
    requires |a| == |b| && k <= |a|
    requires forall j :: 0 <= j < |a| ==> a[j].Kind() == b[j].Kind()
    ensures OperandsSize(a, k) == OperandsSize(b, k)
  {
    if k > 0 {
      SameOperandsSize(a, b, k - 1);
      assert a[k - 1].Kind() == b[k - 1].Kind();
    }
  }

  lemma {:induction false} SameOffsets(a: seq<Instruction>, b: seq<Instruction>, i: nat)
    requires SameKinds(a, b) && i <= |a|
    ensures ByteOffset(a, i) == ByteOffset(b, i)
  {
    if i > 0 {
      SameOffsets(a, b, i - 1);
      SameOperandsSize(a[i - 1].operands, b[i - 1].operands, |a[i - 1].operands|);
    }
  }

  lemma {:induction false} RelinkedKinds(s: Schema, instrs: seq<Instruction>, done: set<(nat, nat)>,
                                         linked: seq<Instruction>)
    requires RelinkedAt(s, instrs, done, linked)
    ensures SameKinds(instrs, linked)
  {
    hide ByteOffset;
  }

  // ----- Patching in place -----

  function Patch(bytes: seq<Byte>, start: nat, chunk: seq<Byte>): (r: seq<Byte>)
    requires start + |chunk| <= |bytes|
    ensures |r| == |bytes|
  {
    bytes[..start] + chunk + bytes[start + |chunk|..]
  }

  lemma {:induction false} PatchLeft(a: seq<Byte>, b: seq<Byte>, start: nat, chunk: seq<Byte>)
    requires start + |chunk| <= |a|
    ensures Patch(a + b, start, chunk) == Patch(a, start, chunk) + b
  {}

  lemma {:induction false} PatchRight(a: seq<Byte>, b: seq<Byte>, start: nat, chunk: seq<Byte>)
    requires start + |chunk| <= |b|
    ensures Patch(a + b, |a| + start, chunk) == a + Patch(b, start, chunk)
  {}

  function SetImmediate(instrs: seq<Instruction>, i: nat, k: nat, v: I32): (r: seq<Instruction>)
    requires i < |instrs| && k < |instrs[i].operands|
  {
    instrs[i := instrs[i].(operands := instrs[i].operands[k := Imm32(v)])]
  }

  /** Where the payload of operand `k` of instruction `i` starts. */
  function PayloadOffset(instrs: seq<Instruction>, i: nat, k: nat): (offset: nat)
    requires i < |instrs| && k < |instrs[i].operands|
  {
    ByteOffset(instrs, i) + 2 + OperandsSize(instrs[i].operands, k) + 1
  }

  function ImmBytes(v: I32): (bytes: seq<Byte>)
    ensures |bytes| == 4
  {
    LittleEndian32(ToUnsigned(v))
  }

  lemma {:induction false} PatchImmediate(u: I32, v: I32)
    ensures EmitOperand(Imm32(u))[1..5] == ImmBytes(u)
    ensures Patch(EmitOperand(Imm32(u)), 1, ImmBytes(v)) == EmitOperand(Imm32(v))
  {
    hide LittleEndian32, ToUnsigned;
  }

  lemma {:induction false} SliceLeft(a: seq<Byte>, b: seq<Byte>, start: nat, n: nat)
    requires start + n <= |a|
    ensures (a + b)[start..start + n] == a[start..start + n]
  {}

  lemma {:induction false} SliceRight(a: seq<Byte>, b: seq<Byte>, start: nat, n: nat)
    requires start + n <= |b|
    ensures (a + b)[|a| + start..|a| + start + n] == b[start..start + n]
  {}

  lemma {:induction false} PatchOperands(operands: seq<Operand>, k: nat, v: I32, n: nat)
    requires k < n <= |operands| && operands[k].Imm32?
    ensures var start := OperandsSize(operands, k) + 1;
            && start + 4 <= OperandsSize(operands, n)
            && EmitOperands(operands, n)[start..start + 4] == ImmBytes(operands[k].value)
            && Patch(EmitOperands(operands, n), start, ImmBytes(v)) == EmitOperands(operands[k := Imm32(v)], n)
  {
    hide EmitOperand, Patch, ImmBytes;
    var changed, start := operands[k := Imm32(v)], OperandsSize(operands, k) + 1;
    var before, last := EmitOperands(operands, n - 1), EmitOperand(operands[n - 1]);
    if n == k + 1 {
      OperandsSizePrefix(operands, changed, k);
      PatchImmediate(operands[k].value, v);
      PatchRight(before, last, 1, ImmBytes(v));
      SliceRight(before, last, 1, 4);
    } else {
      PatchOperands(operands, k, v, n - 1);
      PatchLeft(before, last, start, ImmBytes(v));
      SliceLeft(before, last, start, 4);
    }
  }

  lemma {:induction false} PatchEmit(instr: Instruction, k: nat, v: I32)
    requires |instr.operands| <= MAX_OPERANDS
    requires k < |instr.operands| && instr.operands[k].Imm32?
    ensures var start := 2 + OperandsSize(instr.operands, k) + 1;
            && start + 4 <= InstructionSize(instr.operands)
            && Emit(instr)[start..start + 4] == ImmBytes(instr.operands[k].value)
            && Patch(Emit(instr), start, ImmBytes(v)) == Emit(instr.(operands := instr.operands[k := Imm32(v)]))
  {
    hide EmitOperands, Patch, ImmBytes, OperandsSize;
    var n := |instr.operands|;
    var header, body := [instr.op as Byte, n as Byte], EmitOperands(instr.operands, n);
    var start := OperandsSize(instr.operands, k) + 1;
    PatchOperands(instr.operands, k, v, n);
    PatchRight(header, body, start, ImmBytes(v));
    SliceRight(header, body, start, 4);
  }

  lemma {:induction false} PatchLast(instrs: seq<Instruction>, i: nat, k: nat, v: I32)
    requires AllCountsFit(instrs) && i < |instrs|
    requires k < |instrs[i].operands| && instrs[i].operands[k].Imm32?
    ensures var start := PayloadOffset(instrs, i, k);
            && start + 4 <= ByteOffset(instrs, i + 1)
            && EmitFirst(instrs, i + 1)[start..start + 4] == ImmBytes(instrs[i].operands[k].value)
            && AllCountsFit(SetImmediate(instrs, i, k, v))
            && Patch(EmitFirst(instrs, i + 1), start, ImmBytes(v)) == EmitFirst(SetImmediate(instrs, i, k, v), i + 1)
  {
    hide Emit, Patch, ImmBytes, OperandsSize, InstructionSize;
    var changed, start := SetImmediate(instrs, i, k, v), PayloadOffset(instrs, i, k);
    var before, last := EmitFirst(instrs, i), Emit(instrs[i]);
    EmitFirstPrefix(instrs, changed, i);
    PatchEmit(instrs[i], k, v);
    PatchRight(before, last, start - |before|, ImmBytes(v));
    SliceRight(before, last, start - |before|, 4);
  }

  lemma {:induction false} PatchFirst(instrs: seq<Instruction>, i: nat, k: nat, v: I32, n: nat)
    requires AllCountsFit(instrs) && i < n <= |instrs|
    requires k < |instrs[i].operands| && instrs[i].operands[k].Imm32?
    ensures var start := PayloadOffset(instrs, i, k);
            && start + 4 <= ByteOffset(instrs, n)
            && EmitFirst(instrs, n)[start..start + 4] == ImmBytes(instrs[i].operands[k].value)
            && AllCountsFit(SetImmediate(instrs, i, k, v))
            && Patch(EmitFirst(instrs, n), start, ImmBytes(v)) == EmitFirst(SetImmediate(instrs, i, k, v), n)
  {
    hide Emit, Patch, ImmBytes, OperandsSize, InstructionSize, PayloadOffset;
    if n == i + 1 {
      PatchLast(instrs, i, k, v);
    } else {
      var start, before, last := PayloadOffset(instrs, i, k), EmitFirst(instrs, n - 1), Emit(instrs[n - 1]);
      PatchFirst(instrs, i, k, v, n - 1);
      PatchLeft(before, last, start, ImmBytes(v));
      SliceLeft(before, last, start, 4);
    }
  }

  lemma {:induction false} EmitFirstPrefix(a: seq<Instruction>, b: seq<Instruction>, n: nat)
    requires AllCountsFit(a) && AllCountsFit(b)
    requires n <= |a| && n <= |b| && (forall i :: 0 <= i < n ==> a[i] == b[i])
    ensures EmitFirst(a, n) == EmitFirst(b, n)
  {
    if n > 0 {
      EmitFirstPrefix(a, b, n - 1);
    }
  }

  // ----- The encoder -----

  datatype JumpFixup = JumpFixup(jumpIndex: nat, jumpBytePc: U32, imm32ByteOffset: U32)

  datatype EncodedFunction = EncodedFunction(code: seq<Byte>, instrToBytePc: seq<U32>)

  /** Slot `(i, k)` comes before position `(n, m)` in writing order. */
  predicate Before(slot: (nat, nat), n: nat, m: nat)
  {
    slot.0 < n || (slot.0 == n && slot.1 < m)
  }

  /** `slots` lists every branch operand written before `(n, m)`, each once, and `fixups` records where each one is. */
  ghost predicate Captured(s: Schema, instrs: seq<Instruction>, slots: seq<(nat, nat)>, fixups: seq<JumpFixup>,
                           n: nat, m: nat)
  {
    && |fixups| == |slots|
    && (forall x :: 0 <= x < |slots| ==>
          && IsSlot(s, instrs, slots[x].0, slots[x].1) && Before(slots[x], n, m)
          && fixups[x].jumpIndex == slots[x].0
          && fixups[x].jumpBytePc == ByteOffset(instrs, slots[x].0)
          && fixups[x].imm32ByteOffset == PayloadOffset(instrs, slots[x].0, slots[x].1))
    && (forall i: nat, k: nat :: IsSlot(s, instrs, i, k) && Before((i, k), n, m) ==> (i, k) in slots)
    && (forall x, y :: 0 <= x < y < |slots| ==> slots[x] != slots[y])
  }

  lemma {:induction false} CaptureNext(s: Schema, instrs: seq<Instruction>, slots: seq<(nat, nat)>,
                                       fixups: seq<JumpFixup>, i: nat, k: nat)
    requires i < |instrs| && k < |instrs[i].operands|
    requires Captured(s, instrs, slots, fixups, i, k)
    requires PayloadOffset(instrs, i, k) <= U32_MAX
    ensures if k in s.branchSlots(instrs[i].op)
            then Captured(s, instrs, slots + [(i, k)],
                          fixups + [JumpFixup(i, ByteOffset(instrs, i), PayloadOffset(instrs, i, k))], i, k + 1)
            else Captured(s, instrs, slots, fixups, i, k + 1)
  {
    hide ByteOffset, PayloadOffset;
    assert forall a: nat, b: nat :: Before((a, b), i, k + 1) ==> Before((a, b), i, k) || (a, b) == (i, k);
    assert forall x :: x in slots + [(i, k)] <==> x in slots || x == (i, k);
  }

  lemma {:induction false} CaptureRow(s: Schema, instrs: seq<Instruction>, slots: seq<(nat, nat)>,
                                      fixups: seq<JumpFixup>, i: nat)
    requires i < |instrs| && Captured(s, instrs, slots, fixups, i, |instrs[i].operands|)
    ensures Captured(s, instrs, slots, fixups, i + 1, 0)
  {
    hide ByteOffset, PayloadOffset;
  }

  method WriteOperandsCapturing(s: Schema, writer: BytecodeWriter, instrs: seq<Instruction>, i: nat, bytePc: U32,
                                fixups: seq<JumpFixup>, ghost slots: seq<(nat, nat)>)
    returns (fixups': seq<JumpFixup>, ghost slots': seq<(nat, nat)>)
    requires i < |instrs| && bytePc == ByteOffset(instrs, i) && |writer.bytes| == bytePc + 2
    requires ByteOffset(instrs, i) + InstructionSize(instrs[i].operands) <= U32_MAX
    requires Captured(s, instrs, slots, fixups, i, 0)
    modifies writer
    ensures writer.bytes == old(writer.bytes) + EmitOperands(instrs[i].operands, |instrs[i].operands|)
    ensures Captured(s, instrs, slots', fixups', i, |instrs[i].operands|)
  {
    hide Captured, EmitOperand;
    var operands := instrs[i].operands;
    fixups', slots' := fixups, slots;
    for k := 0 to |operands|
      invariant writer.bytes == old(writer.bytes) + EmitOperands(operands, k)
      invariant Captured(s, instrs, slots', fixups', i, k)
    {
      OperandsSizeMonotone(operands, k + 1, |operands|);
      var operandStart := |writer.bytes|;
      writer.WriteOperand(operands[k]);
      CaptureNext(s, instrs, slots', fixups', i, k);
      if k in s.branchSlots(instrs[i].op) {
        fixups' := fixups' + [JumpFixup(i, bytePc, operandStart + 1)];
        slots' := slots' + [(i, k)];
      }
    }
  }

  /** Write instruction `i`, recording a fixup for every branch operand. */
  method WriteCapturing(s: Schema, writer: BytecodeWriter, instrs: seq<Instruction>, i: nat,
                        fixups: seq<JumpFixup>, ghost slots: seq<(nat, nat)>)
    returns (fixups': seq<JumpFixup>, ghost slots': seq<(nat, nat)>)
    requires i < |instrs| && Linkable(s, instrs)
    requires writer.bytes == EmitFirst(instrs, i)
    requires Captured(s, instrs, slots, fixups, i, 0)
    modifies writer
    ensures writer.bytes == EmitFirst(instrs, i + 1)
    ensures Captured(s, instrs, slots', fixups', i + 1, 0)
  {
    hide Captured, EmitOperands, OperandsSize;
    var operands := instrs[i].operands;
    OffsetsIncrease(instrs, i + 1, |instrs|);
    var bytePc: U32 := |writer.bytes|;
    writer.bytes := writer.bytes + [instrs[i].op as Byte];
    writer.bytes := writer.bytes + [|operands| as Byte];
    fixups', slots' := WriteOperandsCapturing(s, writer, instrs, i, bytePc, fixups, slots);
    CaptureRow(s, instrs, slots', fixups', i);
  }

  /** Rewrite one captured payload in place, reading the instruction delta back from the bytes. */
  method ResolveJumpFixup(writer: BytecodeWriter, fixup: JumpFixup, instrToBytePc: seq<U32>, totalBytes: U32)
    requires fixup.imm32ByteOffset + 4 <= |writer.bytes|
    requires var raw := ToSigned(FromLittleEndian32(writer.bytes[fixup.imm32ByteOffset..fixup.imm32ByteOffset + 4]));
             raw != NO_HANDLER_OFFSET ==>
               && 0 <= fixup.jumpIndex + 1 + raw <= |instrToBytePc|
               && var t := fixup.jumpIndex + 1 + raw;
                  var pc: int := if t == |instrToBytePc| then totalBytes else instrToBytePc[t];
                  I32_MIN <= pc - (fixup.jumpBytePc + 1) <= I32_MAX
    modifies writer
    ensures var start := fixup.imm32ByteOffset;
            var raw := ToSigned(FromLittleEndian32(old(writer.bytes)[start..start + 4]));
            writer.bytes ==
              if raw == NO_HANDLER_OFFSET then old(writer.bytes)
              else
                var t := fixup.jumpIndex + 1 + raw;
                var pc := if t == |instrToBytePc| then totalBytes else instrToBytePc[t];
                Patch(old(writer.bytes), start, ImmBytes(pc - (fixup.jumpBytePc + 1)))
  {
    hide LittleEndian32, FromLittleEndian32;
    var start := fixup.imm32ByteOffset;
    var raw := ToSigned(FromLittleEndian32(writer.bytes[start..start + 4]));
    if raw == NO_HANDLER_OFFSET { return; }
    var target := fixup.jumpIndex + 1 + raw;
    var targetBytePc: int := if target == |instrToBytePc| then totalBytes else instrToBytePc[target];
    var byteDelta := targetBytePc - (fixup.jumpBytePc + 1);
    writer.bytes := writer.bytes[..start] + ImmBytes(byteDelta) + writer.bytes[start + 4..];
  }

  lemma {:induction false} ReadImmediate(v: I32)
    ensures ToSigned(FromLittleEndian32(ImmBytes(v))) == v
  {
    LittleEndian32RoundTrip(ToUnsigned(v));
  }

  /** A verified branch operand is an immediate: absent, or naming a position of the function. */
  lemma {:induction false} SlotIsTarget(s: Schema, instrs: seq<Instruction>, i: nat, k: nat)
    requires s.Valid() && LogicalOk(s, instrs) && IsSlot(s, instrs, i, k)
    ensures instrs[i].operands[k].Imm32?
    ensures var delta := instrs[i].operands[k].value;
            delta == NO_HANDLER_OFFSET || 0 <= i + 1 + delta <= |instrs|
  {
    var op, operands := instrs[i].op, instrs[i].operands;
    assert InstructionOk(s, op, operands, i, |instrs|);
    assert s.ValidRow(op) && s.IsTargetSlot(op, k);
    if RelativeTarget(k) in s.successors(op) {
      assert s.ValidSuccessor(op, RelativeTarget(k));
      assert operands[k].value == Immediate(s, op, operands, k);
    } else {
      var spec := OptionalRelativeTarget(k, NO_HANDLER_OFFSET);
      assert s.ValidException(op, spec);
      assert operands[k].value == Immediate(s, op, operands, k);
      assert HandlerTarget(s, op, operands, i + 1, spec).Some? ==> operands[k].value != NO_HANDLER_OFFSET;
    }
  }

  /** One fixup extends the set of rewritten operands by its slot. */
  lemma {:induction false} RelinkNext(s: Schema, instrs: seq<Instruction>, done: set<(nat, nat)>,
                                      linked: seq<Instruction>, i: nat, k: nat)
    requires RelinkedAt(s, instrs, done, linked)
    requires i < |instrs| && k < |instrs[i].operands| && (i, k) !in done
    requires RelinkOperand(instrs, i, instrs[i].operands[k]).Imm32?
    ensures RelinkedAt(s, instrs, done + {(i, k)},
              SetImmediate(linked, i, k, RelinkOperand(instrs, i, instrs[i].operands[k]).value))
  {
    hide RelinkOperand, ByteOffset;
  }

  lemma {:induction false} RelinkDone(s: Schema, instrs: seq<Instruction>, done: set<(nat, nat)>,
                                      linked: seq<Instruction>)
    requires RelinkedAt(s, instrs, done, linked)
    requires forall i: nat, k: nat :: i < |instrs| && k < |instrs[i].operands| ==>
               ((i, k) in done <==> IsSlot(s, instrs, i, k))
    ensures linked == Relink(s, instrs)
  {
    hide RelinkOperand, ByteOffset;
    forall i | 0 <= i < |instrs| ensures linked[i] == RelinkInstruction(s, instrs, i) {
      var r := RelinkInstruction(s, instrs, i);
      forall k | 0 <= k < |instrs[i].operands| ensures linked[i].operands[k] == r.operands[k] {
        assert (i, k) in done <==> IsSlot(s, instrs, i, k);
      }
      assert linked[i].operands == r.operands;
    }
  }

  /** A branch operand of a linkable function is relinked to its byte distance, or is absent and stays. */
  lemma {:induction false} RelinkSlot(s: Schema, instrs: seq<Instruction>, i: nat, k: nat)
    requires s.Valid() && LogicalOk(s, instrs) && Linkable(s, instrs) && IsSlot(s, instrs, i, k)
    ensures instrs[i].operands[k].Imm32? && RelinkOperand(instrs, i, instrs[i].operands[k]).Imm32?
    ensures var delta := instrs[i].operands[k].value;
            var linked := RelinkOperand(instrs, i, instrs[i].operands[k]).value;
            if delta == NO_HANDLER_OFFSET then linked == delta
            else 0 <= i + 1 + delta <= |instrs| && linked == ByteDistance(instrs, i, delta)
  {
    hide LogicalOk, Schema.Valid, ByteDistance;
    SlotIsTarget(s, instrs, i, k);
  }

  /** Resolve one fixup of a partly resolved stream. */
  method ResolveSlot(s: Schema, writer: BytecodeWriter, instrs: seq<Instruction>, fixup: JumpFixup,
                     layout: FunctionLayout, ghost i: nat, ghost k: nat, ghost done: set<(nat, nat)>,
                     ghost linked: seq<Instruction>) returns (ghost linked': seq<Instruction>)
    requires s.Valid() && LogicalOk(s, instrs) && Linkable(s, instrs) && IsLayout(instrs, layout)
    requires RelinkedAt(s, instrs, done, linked) && AllCountsFit(linked) && writer.bytes == EmitAll(linked)
    requires IsSlot(s, instrs, i, k) && (i, k) !in done
    requires fixup.jumpIndex == i && fixup.jumpBytePc == ByteOffset(instrs, i)
    requires fixup.imm32ByteOffset == PayloadOffset(instrs, i, k)
    modifies writer
    ensures AllCountsFit(linked') && writer.bytes == EmitAll(linked') && |writer.bytes| == old(|writer.bytes|)
    ensures RelinkedAt(s, instrs, done + {(i, k)}, linked')
  {
    hide ImmBytes, Patch, EmitFirst, RelinkedAt, LogicalOk, Schema.Valid, FromLittleEndian32, ToSigned, PayloadOffset;
    hide RelinkOperand, Linkable, ByteOffset;
    RelinkSlot(s, instrs, i, k);
    SlotUntouched(s, instrs, done, linked, i, k);
    ghost var delta := instrs[i].operands[k].value;
    ghost var byteDelta := RelinkOperand(instrs, i, instrs[i].operands[k]).value;
    PatchFirst(linked, i, k, byteDelta, |linked|);
    ReadImmediate(delta);
    OffsetsWithin(instrs);
    OffsetsIncrease(instrs, i, |instrs|);
    ResolveJumpFixup(writer, fixup, layout.instrToBytePc, layout.totalBytes);
    RelinkNext(s, instrs, done, linked, i, k);
    linked' := SetImmediate(linked, i, k, byteDelta);
    if delta == NO_HANDLER_OFFSET {
      assert linked[i].operands[k := Imm32(byteDelta)] == linked[i].operands;
      assert linked' == linked;
    }
  }

  lemma {:induction false} OffsetsWithin(instrs: seq<Instruction>)
    ensures forall i :: 0 <= i <= |instrs| ==> ByteOffset(instrs, i) <= TotalSize(instrs)
  {
    forall i | 0 <= i <= |instrs| ensures ByteOffset(instrs, i) <= TotalSize(instrs) {
      OffsetsIncrease(instrs, i, |instrs|);
    }
  }

  lemma {:induction false} SlotUntouched(s: Schema, instrs: seq<Instruction>, done: set<(nat, nat)>,
                                         linked: seq<Instruction>, i: nat, k: nat)
    requires RelinkedAt(s, instrs, done, linked)
    requires i < |instrs| && k < |instrs[i].operands| && (i, k) !in done
    ensures |linked| == |instrs| && |linked[i].operands| == |instrs[i].operands|
    ensures linked[i].operands[k] == instrs[i].operands[k]
    ensures PayloadOffset(linked, i, k) == PayloadOffset(instrs, i, k)
    ensures TotalSize(linked) == TotalSize(instrs)
  {
    RelinkedKinds(s, instrs, done, linked);
    SameOffsets(instrs, linked, i);
    SameOffsets(instrs, linked, |instrs|);
    SameOperandsSize(instrs[i].operands, linked[i].operands, k);
  }

  /** Verify and encode: write every instruction once, then patch every captured branch operand. The result is the
      serialization of the relinked list, with the byte offset of every instruction. */
  method TryEncodeFunction(s: Schema, instrs: seq<Instruction>) returns (r: Result<EncodedFunction, VerifyError>)
    requires s.Valid()
    requires VerifyLogical(s, instrs, 0).None? ==> Linkable(s, instrs)
    ensures match VerifyLogical(s, instrs, 0)
            case Some(e) => r == Err(e)
            case None =>
              && r.Ok? && |r.value.code| <= U32_MAX
              && IsLayout(instrs, FunctionLayout(|r.value.code|, r.value.instrToBytePc))
              && AllCountsFit(Relink(s, instrs)) && r.value.code == EmitAll(Relink(s, instrs))
  {
    hide VerifyLogical, EmitFirst, Captured, Schema.Valid, RelinkedAt, LogicalOk, InstructionSize;
    var verdict := VerifyLogical(s, instrs, 0);
    if verdict.Some? { return Err(verdict.value); }
    LogicalAccepted(s, instrs);
    OffsetsWithin(instrs);
    var writer := new BytecodeWriter();
    var instrToBytePc: seq<U32> := [];
    var fixups := [];
    ghost var slots := [];
    NothingWritten(s, instrs);
    for i := 0 to |instrs|
      invariant writer.bytes == EmitFirst(instrs, i)
      invariant |instrToBytePc| == i && forall j :: 0 <= j < i ==> instrToBytePc[j] == ByteOffset(instrs, j)
      invariant Captured(s, instrs, slots, fixups, i, 0)
    {
      var bytePc := writer.Pc();
      instrToBytePc := instrToBytePc + [bytePc];
      fixups, slots := WriteCapturing(s, writer, instrs, i, fixups, slots);
    }
    var layout := FunctionLayout(|writer.bytes|, instrToBytePc);
    ResolveAll(s, writer, instrs, fixups, layout, slots);
    return Ok(EncodedFunction(writer.bytes, instrToBytePc));
  }

  lemma {:induction false} LogicalAccepted(s: Schema, instrs: seq<Instruction>)
    requires s.Valid() && VerifyLogical(s, instrs, 0).None?
    ensures LogicalOk(s, instrs)
  {
    LogicalVerdict(s, instrs, 0);
  }

  lemma {:induction false} NothingWritten(s: Schema, instrs: seq<Instruction>)
    requires AllCountsFit(instrs)
    ensures EmitFirst(instrs, 0) == [] && Captured(s, instrs, [], [], 0, 0)
  {}

  /** The second pass of the encoder. */
  method ResolveAll(s: Schema, writer: BytecodeWriter, instrs: seq<Instruction>, fixups: seq<JumpFixup>,
                    layout: FunctionLayout, ghost slots: seq<(nat, nat)>)
    requires s.Valid() && LogicalOk(s, instrs) && Linkable(s, instrs) && IsLayout(instrs, layout)
    requires writer.bytes == EmitAll(instrs) && Captured(s, instrs, slots, fixups, |instrs|, 0)
    modifies writer
    ensures AllCountsFit(Relink(s, instrs)) && writer.bytes == EmitAll(Relink(s, instrs))
    ensures |writer.bytes| == old(|writer.bytes|)
  {
    hide EmitFirst, Schema.Valid, LogicalOk, RelinkOperand, PayloadOffset, ByteOffset, InstructionSize;
    ghost var linked := instrs;
    ghost var done: set<(nat, nat)> := {};
    for x := 0 to |fixups|
      invariant AllCountsFit(linked) && writer.bytes == EmitAll(linked) && |writer.bytes| == old(|writer.bytes|)
      invariant done == set y | 0 <= y < x :: slots[y]
      invariant RelinkedAt(s, instrs, done, linked)
    {
      linked := ResolveSlot(s, writer, instrs, fixups[x], layout, slots[x].0, slots[x].1, done, linked);
      done := done + {slots[x]};
    }
    RelinkDone(s, instrs, done, linked);
  }
}
