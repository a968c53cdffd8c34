/** Building wordcode from decoded instructions, and verifying and measuring wordcode directly. */
module WordcodeVerifier {
  import opened Prelude
  import opened OpcodeSchema
  import opened ControlFlow
  import opened WireFormat
  import opened Encoding
  import opened Wordcode

  function Entries(instrs: seq<Instruction>): (list: seq<Entry>)
    ensures |list| == |instrs|
  {
    seq(|instrs|, i requires 0 <= i < |instrs| => Entry(instrs[i].op, instrs[i].operands))
  }

  /** Build a body by pushing every instruction. */
  method FromDecoded(s: Schema, instrs: seq<Instruction>) returns (code: FunctionCode)
    requires AllCountsFit(instrs)
    requires forall i :: 0 <= i < |instrs| ==> s.WellShaped(instrs[i].op, instrs[i].operands)
    requires |instrs| <= U32_MAX + 1 && Addressable(Entries(instrs))
    ensures Packable(s, Entries(instrs)) && code == Pack(Entries(instrs))
  {
    hide OverflowWords, Schema.WellShaped;
    ghost var list := Entries(instrs);
    var builder := new FunctionCodeBuilder(s);
    for i := 0 to |instrs|
      invariant fresh(builder) && builder.Valid(s) && builder.Contents == list[..i]
    {
      OverflowPrefix(list, list[..i], i);
      var _ := builder.Push(s, instrs[i].op, instrs[i].operands);
    }
    assert list[..|list|] == list;
    code := builder.Finish(s);
  }

  /** All operands of one instruction of a frozen body. */
  method CollectOperands(s: Schema, code: FunctionCode, i: nat, ghost list: seq<Entry>) returns (operands: seq<Operand>)
    requires Packable(s, list) && code == Pack(list) && i < |list|
    ensures operands == list[i].operands
  {
    hide ReadOperand, OverflowWords;
    var instr := code.instructions[i];
    assert instr == PackAt(list, i);
    operands := [];
    for k := 0 to instr.operandCount
      invariant operands == list[i].operands[..k]
    {
      ReadPacked(s, list, i, k);
      operands := operands + [ReadOperand(s, instr, code.overflow, k).value];
    }
  }

  method ReadImmediateWord(s: Schema, code: FunctionCode, i: nat, index: nat, ghost list: seq<Entry>) returns (v: I32)
    requires Packable(s, list) && code == Pack(list) && i < |list|
    requires s.WellShaped(list[i].op, list[i].operands) && s.IsFixedImmediate(list[i].op, index)
    ensures v == Immediate(s, list[i].op, list[i].operands, index)
  {
    hide ReadOperand, OverflowWords;
    assert s.KindAt(list[i].op, index) == Some(list[i].operands[index].Kind());
    ReadPacked(s, list, i, index);
    v := ReadOperand(s, code.instructions[i], code.overflow, index).value.value;
  }

  /** Check one target, re-reading its operand from the body. */
  method VerifyWordTarget(s: Schema, code: FunctionCode, i: nat, operandIndex: nat, absent: Option<I32>,
                          ghost list: seq<Entry>) returns (e: Option<ControlError>)
    requires Packable(s, list) && code == Pack(list) && i < |list|
    requires s.WellShaped(list[i].op, list[i].operands) && s.IsFixedImmediate(list[i].op, operandIndex)
    ensures e == CheckTarget(InstructionSpace(|list|), i + 1, Immediate(s, list[i].op, list[i].operands, operandIndex),
                             absent)
  {
    hide OverflowWords;
    var delta := ReadImmediateWord(s, code, i, operandIndex, list);
    if absent == Some(delta) { return None; }
    var target := i + 1 + delta;
    return if 0 <= target <= |code.instructions| then None else Some(BadTarget(target));
  }

  method VerifyWordTargets(s: Schema, code: FunctionCode, i: nat, ghost list: seq<Entry>)
    returns (e: Option<ControlError>)
    requires Packable(s, list) && code == Pack(list) && i < |list|
    requires Checkable(s, list[i].op, list[i].operands)
    ensures e == CheckControl(s, list[i].op, list[i].operands, i + 1, InstructionSpace(|list|))
  {
    hide Schema.WellShaped, CheckTarget, OverflowWords, TargetSpace.Contains, ReadOperand;
    ghost var space, operands := InstructionSpace(|list|), list[i].operands;
    assert code.instructions[i] == PackAt(list, i);
    var op := code.instructions[i].op;
    var successors, exceptions := s.successors(op), s.exceptions(op);
    for k := 0 to |successors|
      invariant CheckSuccessors(s, op, operands, i + 1, space, 0) == CheckSuccessors(s, op, operands, i + 1, space, k)
    {
      assert successors[k] in successors;
      if successors[k].RelativeTarget? {
        e := VerifyWordTarget(s, code, i, successors[k].operandIndex, None, list);
        if e.Some? { return; }
      }
    }
    for k := 0 to |exceptions|
      invariant CheckExceptions(s, op, operands, i + 1, space, 0) == CheckExceptions(s, op, operands, i + 1, space, k)
    {
      assert exceptions[k] in exceptions;
      match exceptions[k]
      case OptionalRelativeTarget(index, absent) =>
        e := VerifyWordTarget(s, code, i, index, Some(absent), list);
        if e.Some? { return; }
      case RunFinallyHandlersToFloor(index) =>
        var floor := ReadImmediateWord(s, code, i, index, list);
        if floor < 0 { return Some(BadFloor(index, floor)); }
      case _ =>
    }
    return None;
  }

  /** The list form of a body, as the list verifier sees it. */
  function Instructions(list: seq<Entry>): (instrs: seq<Instruction>)
    ensures |instrs| == |list|
  {
    seq(|list|, i requires 0 <= i < |list| => Instruction(0, list[i].op, list[i].operands))
  }

  lemma {:induction false} VerifyIgnoresPc(s: Schema, a: seq<Instruction>, b: seq<Instruction>, i: nat)
    requires s.Valid() && |a| == |b| && i <= |a|
    requires forall j :: 0 <= j < |a| ==> a[j].op == b[j].op && a[j].operands == b[j].operands
    ensures VerifyLogical(s, a, i) == VerifyLogical(s, b, i)
    decreases |a| - i
  {
    hide VerifyInstruction, Schema.Valid;
    if i < |a| {
      VerifyIgnoresPc(s, a, b, i + 1);
    }
  }

  /** The wordcode built from a well-shaped list stands for a list with the same verdict and the same layout. */
  lemma {:induction false} BuiltFromList(s: Schema, instrs: seq<Instruction>)
    requires s.Valid()
    ensures VerifyLogical(s, Instructions(Entries(instrs)), 0) == VerifyLogical(s, instrs, 0)
    ensures forall i :: 0 <= i <= |instrs| ==> ByteOffset(Instructions(Entries(instrs)), i) == ByteOffset(instrs, i)
  {
    hide ByteOffset, VerifyLogical, Schema.Valid;
    VerifyIgnoresPc(s, Instructions(Entries(instrs)), instrs, 0);
    forall i | 0 <= i <= |instrs| ensures ByteOffset(Instructions(Entries(instrs)), i) == ByteOffset(instrs, i) {
      SameOffsets(Instructions(Entries(instrs)), instrs, i);
    }
  }

  /** Verifying wordcode gives the verdict, the error and the instruction index of verifying the list it was built
      from. */
  method VerifyWordcodeFunction(s: Schema, code: FunctionCode, ghost list: seq<Entry>) returns (e: Option<VerifyError>)
    requires s.Valid() && Packable(s, list) && code == Pack(list)
    ensures e == VerifyLogical(s, Instructions(list), 0)
  {
    hide CheckControl, VerifyOperandShape, OverflowWords, Packable, Schema.WellShaped, Schema.Valid, PackAt;
    ghost var instrs := Instructions(list);
    for i := 0 to |code.instructions|
      invariant VerifyLogical(s, instrs, 0) == VerifyLogical(s, instrs, i)
    {
      PackedOp(list, i);
      var operands := CollectOperands(s, code, i, list);
      var op := code.instructions[i].op;
      RowShape(s, op);
      var shape := VerifyOperandShape(s, op, operands);
      if shape.Err? { return Some(InvalidShape(i, shape.error)); }
      ShapeVerdict(s, op, operands);
      RowCheckable(s, op, operands);
      var control := VerifyWordTargets(s, code, i, list);
      if control.Some? { return Some(AtInstruction(i, control.value)); }
    }
    return None;
  }

  lemma {:induction false} PackedOp(list: seq<Entry>, i: nat)
    requires i < |list|
    ensures Pack(list).instructions[i].op == list[i].op && Pack(list).instructions[i].operandCount == |list[i].operands|
  {
    hide OverflowWords;
  }

  lemma {:induction false} RowCheckable(s: Schema, op: Op, operands: seq<Operand>)
    requires s.Valid() && s.WellShaped(op, operands)
    ensures Checkable(s, op, operands)
  {
    assert s.ValidRow(op);
  }

  /** Byte layout of a body measured through its operand views; it agrees with the list layout and with the encoder. */
  method MeasureWordcodeFunction(s: Schema, code: FunctionCode, ghost list: seq<Entry>)
    returns (r: Result<FunctionLayout, VerifyError>)
    requires Packable(s, list) && code == Pack(list)
    ensures if TotalSize(Instructions(list)) > U32_MAX then r == Err(FunctionTooLarge)
            else r.Ok? && IsLayout(Instructions(list), r.value)
  {
    hide OverflowWords, InstructionSize, Packable, PackAt;
    ghost var instrs := Instructions(list);
    var bytePc: U32 := 0;
    var instrToBytePc: seq<U32> := [];
    for i := 0 to |code.instructions|
      invariant bytePc == ByteOffset(instrs, i)
      invariant |instrToBytePc| == i
      invariant forall j :: 0 <= j < i ==> instrToBytePc[j] == ByteOffset(instrs, j)
    {
      instrToBytePc := instrToBytePc + [bytePc];
      OffsetsIncrease(instrs, i + 1, |instrs|);
      var operands := CollectOperands(s, code, i, list);
      var measured := MeasureInstruction(operands);
      if measured.None? { return Err(FunctionTooLarge); }
      var byteLen: U32 := measured.value;
      if bytePc as int + byteLen > U32_MAX { return Err(FunctionTooLarge); }
      bytePc := bytePc + byteLen;
    }
    return Ok(FunctionLayout(bytePc, instrToBytePc));
  }
}
