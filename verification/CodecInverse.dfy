/**
  * The byte form can be turned back: verified functions within the size bounds and decodable byte streams correspond
  * one to one, with the logical deltas recovered from the byte deltas.
  */
module CodecInverse {
  import opened Prelude
  import opened OpcodeSchema
  import opened ControlFlow
  import opened WireFormat
  import opened Encoding
  import opened Decoding
  import opened CodecTheorems

  /** The position at a byte offset, searching from position `from` on. */
  function PositionOf(instrs: seq<Instruction>, byte: int, from: nat): (t: Option<nat>)
    requires from <= |instrs|
    ensures t.Some? ==> t.value <= |instrs| && ByteOffset(instrs, t.value) == byte
    decreases |instrs| - from
  {
    if ByteOffset(instrs, from) == byte then Some(from)
    else if from == |instrs| then None
    else PositionOf(instrs, byte, from + 1)
  }

  /** A branch operand of instruction `i`, from byte delta back to instruction delta. */
  function UnlinkOperand(instrs: seq<Instruction>, i: nat, o: Operand): (r: Operand)
    requires i < |instrs| <= I32_MAX
  {
    if o.Imm32? && o.value != NO_HANDLER_OFFSET then
      match PositionOf(instrs, ByteOffset(instrs, i) + 1 + o.value, 0)
      case Some(t) => Imm32(t - (i + 1))
      case None => o
    else o
  }

  function UnlinkInstruction(s: Schema, instrs: seq<Instruction>, i: nat): (r: Instruction)
    requires i < |instrs| <= I32_MAX
  {
    var operands := instrs[i].operands;
    instrs[i].(operands := seq(|operands|, k requires 0 <= k < |operands| =>
      if k in s.branchSlots(instrs[i].op) then UnlinkOperand(instrs, i, operands[k]) else operands[k]))
  }

  /** Decoded instructions with byte deltas, back to instruction deltas. */
  function Unlink(s: Schema, instrs: seq<Instruction>): (r: seq<Instruction>)
    requires |instrs| <= I32_MAX
    ensures |r| == |instrs|
  {
    seq(|instrs|, i requires 0 <= i < |instrs| => UnlinkInstruction(s, instrs, i))
  }

  lemma {:induction false} CountWithin(instrs: seq<Instruction>)
    requires TotalSize(instrs) <= I32_MAX
    ensures 2 * |instrs| <= I32_MAX
  {
    OffsetsIncrease(instrs, 0, |instrs|);
  }

  lemma {:induction false} PositionFound(instrs: seq<Instruction>, t: nat, from: nat)
    requires from <= t <= |instrs|
    ensures PositionOf(instrs, ByteOffset(instrs, t), from) == Some(t)
    decreases t - from
  {
    hide ByteOffset;
    if from < t {
      OffsetsIncrease(instrs, from, t);
      PositionFound(instrs, t, from + 1);
    }
  }

  /** A position's byte delta determines its instruction delta. */
  lemma {:induction false} UnlinkRelinked(instrs: seq<Instruction>, linked: seq<Instruction>, i: nat, delta: I32)
    requires TotalSize(instrs) <= I32_MAX && i < |instrs| == |linked| <= I32_MAX
    requires forall j :: 0 <= j <= |instrs| ==> ByteOffset(linked, j) == ByteOffset(instrs, j)
    requires delta == NO_HANDLER_OFFSET || 0 <= i + 1 + delta <= |instrs|
    ensures UnlinkOperand(linked, i, RelinkOperand(instrs, i, Imm32(delta))) == Imm32(delta)
  {
    hide ByteOffset;
    RelinkFaithful(instrs, i, delta);
    if delta != NO_HANDLER_OFFSET {
      PositionFound(linked, i + 1 + delta, 0);
    }
  }

  lemma {:induction false} RecoversAt(s: Schema, instrs: seq<Instruction>, linked: seq<Instruction>, i: nat)
    requires Encodable(s, instrs) && i < |instrs| == |linked| <= I32_MAX
    requires forall j :: 0 <= j <= |instrs| ==> ByteOffset(linked, j) == ByteOffset(instrs, j)
    requires linked[i].op == instrs[i].op && RelinkedInstruction(s, instrs, i, linked[i].operands)
    ensures UnlinkInstruction(s, linked, i).operands == instrs[i].operands
  {
    hide ByteOffset, RelinkOperand, UnlinkOperand, LogicalOk, Schema.Valid;
    var operands := UnlinkInstruction(s, linked, i).operands;
    forall k | 0 <= k < |instrs[i].operands| ensures operands[k] == instrs[i].operands[k] {
      if k in s.branchSlots(instrs[i].op) {
        SlotIsTarget(s, instrs, i, k);
        UnlinkRelinked(instrs, linked, i, instrs[i].operands[k].value);
      }
    }
  }

  /** The original instruction deltas are recovered from the decoded byte deltas of an encoded function. */
  lemma {:induction false} DecodedRecovers(s: Schema, instrs: seq<Instruction>)
    requires Encodable(s, instrs)
    ensures |instrs| <= I32_MAX
    ensures Unlink(s, Linked(s, instrs)) == Placed(instrs)
  {
    hide ByteOffset, Linked, Splits, LogicalOk, Schema.Valid, RelinkedInstruction;
    CountWithin(instrs);
    LinkedSplits(s, instrs);
    var linked := Linked(s, instrs);
    forall i | 0 <= i < |instrs| ensures Unlink(s, linked)[i] == Placed(instrs)[i] {
      LinkedAt(s, instrs, i);
      RecoversAt(s, instrs, linked, i);
    }
  }

  // ----- Every decodable stream is an encoded function -----

  /** A byte stream the decoder accepts, short enough for `i32` deltas. */
  ghost predicate Decodable(s: Schema, code: seq<Byte>, decoded: seq<Instruction>)
  {
    && s.Valid() && |code| <= I32_MAX && |decoded| <= I32_MAX
    && Splits(s, decoded, code) && AllCheckable(s, decoded) && TargetsOk(s, decoded, |code|)
  }

  /** In a split stream, the legal byte targets are the offsets of positions. */
  lemma {:induction false} PositionOfTarget(s: Schema, code: seq<Byte>, decoded: seq<Instruction>, q: int)
    returns (t: nat)
    requires Splits(s, decoded, code) && ByteSpace(Boundaries(decoded), |code|).Contains(q)
    ensures t <= |decoded| && ByteOffset(decoded, t) == q
  {
    hide ByteOffset, Schema.WellShaped, EmitFirst;
    if q == |code| {
      t := |decoded|;
    } else {
      t :| 0 <= t < |decoded| && Boundaries(decoded)[t] == q;
    }
  }

  /** A legal byte delta becomes a legal instruction delta; the sentinel stays and nothing else becomes it. */
  lemma {:induction false} UnlinkFaithful(s: Schema, code: seq<Byte>, decoded: seq<Instruction>, i: nat, delta: I32)
    requires |code| <= I32_MAX && |decoded| <= I32_MAX && Splits(s, decoded, code) && i < |decoded|
    requires var space := ByteSpace(Boundaries(decoded), |code|);
            delta == NO_HANDLER_OFFSET || space.Contains(ByteOffset(decoded, i) + 1 + delta)
    ensures UnlinkOperand(decoded, i, Imm32(delta)).Imm32?
    ensures var unlinked := UnlinkOperand(decoded, i, Imm32(delta)).value;
            && (unlinked == NO_HANDLER_OFFSET <==> delta == NO_HANDLER_OFFSET)
            && (delta != NO_HANDLER_OFFSET ==>
                  && 0 <= i + 1 + unlinked <= |decoded|
                  && ByteOffset(decoded, i + 1 + unlinked) == ByteOffset(decoded, i) + 1 + delta)
  {
    hide ByteOffset, Splits, TargetSpace.Contains;
    if delta != NO_HANDLER_OFFSET {
      var t := PositionOfTarget(s, code, decoded, ByteOffset(decoded, i) + 1 + delta);
      PositionFound(decoded, t, 0);
    }
  }

  /** An ordinary branch of a decodable stream never carries the sentinel. */
  lemma {:induction false} ByteBranchIsNeverAbsent(s: Schema, code: seq<Byte>, decoded: seq<Instruction>, i: nat,
                                                   delta: I32)
    requires |code| <= I32_MAX && Splits(s, decoded, code) && i < |decoded|
    requires ByteSpace(Boundaries(decoded), |code|).Contains(ByteOffset(decoded, i) + 1 + delta)
    ensures delta != NO_HANDLER_OFFSET
  {
    hide Splits, ByteOffset, Boundaries, Occurs, Emit, EmitFirst, Schema.WellShaped;
    SplitsAt(s, decoded, code, i);
  }

  ghost predicate UnlinkedOperands(s: Schema, decoded: seq<Instruction>, i: nat, operands: seq<Operand>)
    requires i < |decoded| <= I32_MAX
  {
    && |operands| == |decoded[i].operands|
    && forall k :: 0 <= k < |operands| ==>
         operands[k] == if k in s.branchSlots(decoded[i].op) then UnlinkOperand(decoded, i, decoded[i].operands[k])
                        else decoded[i].operands[k]
  }

  lemma {:induction false} UnlinkGives(s: Schema, decoded: seq<Instruction>, i: nat)
    requires i < |decoded| <= I32_MAX
    ensures UnlinkedOperands(s, decoded, i, Unlink(s, decoded)[i].operands)
    ensures Unlink(s, decoded)[i].op == decoded[i].op
  {
    hide ByteOffset, UnlinkOperand;
  }

  /** A branch operand of a decodable stream is an immediate: absent, or naming a legal byte position. */
  lemma {:induction false} ByteSlotIsTarget(s: Schema, code: seq<Byte>, decoded: seq<Instruction>, i: nat, k: nat)
    requires Decodable(s, code, decoded) && IsSlot(s, decoded, i, k)
    ensures decoded[i].operands[k].Imm32?
    ensures var delta := decoded[i].operands[k].value;
            var space := ByteSpace(Boundaries(decoded), |code|);
            delta == NO_HANDLER_OFFSET || space.Contains(ByteOffset(decoded, i) + 1 + delta)
  {
    hide ByteOffset, EmitFirst, TargetSpace.Contains, Boundaries, Schema.WellShaped;
    var op, operands := decoded[i].op, decoded[i].operands;
    assert Checkable(s, op, operands);
    assert ControlOk(s, op, operands, decoded[i].pc + 1, ByteSpace(Boundaries(decoded), |code|));
    assert s.IsTargetSlot(op, k);
    if RelativeTarget(k) in s.successors(op) {
      assert s.ValidSuccessor(op, RelativeTarget(k));
      ImmediateAt(s, op, operands, k);
    } else {
      var spec := OptionalRelativeTarget(k, NO_HANDLER_OFFSET);
      assert s.ValidException(op, spec);
      ImmediateAt(s, op, operands, k);
      assert HandlerTarget(s, op, operands, decoded[i].pc + 1, spec).Some? <==> operands[k].value != NO_HANDLER_OFFSET;
    }
  }

  lemma {:induction false} UnlinkedShape(s: Schema, code: seq<Byte>, decoded: seq<Instruction>, i: nat,
                                         operands: seq<Operand>)
    requires Decodable(s, code, decoded) && i < |decoded| && UnlinkedOperands(s, decoded, i, operands)
    ensures s.ValidRow(decoded[i].op)
    ensures s.WellShaped(decoded[i].op, decoded[i].operands) && s.WellShaped(decoded[i].op, operands)
    ensures |operands| == |decoded[i].operands| <= MAX_OPERANDS
    ensures forall k :: 0 <= k < |operands| ==> operands[k].Kind() == decoded[i].operands[k].Kind()
  {
    hide ByteOffset, EmitFirst, PositionOf, Schema.WellShaped, ControlOk;
    assert Checkable(s, decoded[i].op, decoded[i].operands);
    ShapeKept(s, decoded[i].op, decoded[i].operands, operands);
  }

  lemma {:induction false} UnlinkedTarget(s: Schema, code: seq<Byte>, decoded: seq<Instruction>, i: nat,
                                          operands: seq<Operand>, k: nat)
    requires Decodable(s, code, decoded) && IsSlot(s, decoded, i, k) && UnlinkedOperands(s, decoded, i, operands)
    ensures operands[k].Imm32? && decoded[i].operands[k].Imm32?
    ensures operands[k].value == NO_HANDLER_OFFSET <==> decoded[i].operands[k].value == NO_HANDLER_OFFSET
    ensures operands[k].value != NO_HANDLER_OFFSET ==> 0 <= i + 1 + operands[k].value <= |decoded|
  {
    hide ByteOffset, EmitFirst, TargetSpace.Contains, Boundaries, Schema.WellShaped, ControlOk, UnlinkOperand;
    ByteSlotIsTarget(s, code, decoded, i, k);
    UnlinkFaithful(s, code, decoded, i, decoded[i].operands[k].value);
  }

  lemma {:induction false} UnlinkedBranch(s: Schema, code: seq<Byte>, decoded: seq<Instruction>, i: nat,
                                          operands: seq<Operand>,
                                          spec: SuccessorSpec)
    requires Decodable(s, code, decoded) && i < |decoded| && UnlinkedOperands(s, decoded, i, operands)
    requires Checkable(s, decoded[i].op, operands)
    requires spec in s.successors(decoded[i].op) && spec.RelativeTarget?
    ensures s.IsFixedImmediate(decoded[i].op, spec.operandIndex)
    ensures 0 <= i + 1 + Immediate(s, decoded[i].op, operands, spec.operandIndex) <= |decoded|
  {
    hide ByteOffset, EmitFirst, TargetSpace.Contains, Boundaries, Schema.WellShaped, UnlinkedOperands;
    var op, k := decoded[i].op, spec.operandIndex;
    assert Checkable(s, op, decoded[i].operands) && s.ValidSuccessor(op, spec) && s.IsTargetSlot(op, k);
    assert ControlOk(s, op, decoded[i].operands, decoded[i].pc + 1, ByteSpace(Boundaries(decoded), |code|));
    ImmediateAt(s, op, operands, k);
    ImmediateAt(s, op, decoded[i].operands, k);
    UnlinkedTarget(s, code, decoded, i, operands, k);
    ByteBranchIsNeverAbsent(s, code, decoded, i, decoded[i].operands[k].value);
  }

  lemma {:induction false} UnlinkedHandler(s: Schema, code: seq<Byte>, decoded: seq<Instruction>, i: nat,
                                           operands: seq<Operand>,
                                           spec: ExceptionSuccessorSpec)
    requires Decodable(s, code, decoded) && i < |decoded| && UnlinkedOperands(s, decoded, i, operands)
    requires Checkable(s, decoded[i].op, operands)
    requires spec in s.exceptions(decoded[i].op)
    ensures s.ValidException(decoded[i].op, spec)
    ensures var t := HandlerTarget(s, decoded[i].op, operands, i + 1, spec);
            t.Some? ==> 0 <= t.value <= |decoded|
    ensures spec.RunFinallyHandlersToFloor? ==> Immediate(s, decoded[i].op, operands, spec.floorOperandIndex) >= 0
  {
    hide ByteOffset, EmitFirst, TargetSpace.Contains, Boundaries, Schema.WellShaped, UnlinkOperand;
    var op := decoded[i].op;
    assert Checkable(s, op, decoded[i].operands) && s.ValidException(op, spec);
    if spec.OptionalRelativeTarget? {
      var k := spec.operandIndex;
      assert s.IsTargetSlot(op, k);
      ImmediateAt(s, op, operands, k);
      UnlinkedTarget(s, code, decoded, i, operands, k);
    } else if spec.RunFinallyHandlersToFloor? {
      ImmediateAt(s, op, operands, spec.floorOperandIndex);
      ImmediateAt(s, op, decoded[i].operands, spec.floorOperandIndex);
      assert ControlOk(s, op, decoded[i].operands, decoded[i].pc + 1, ByteSpace(Boundaries(decoded), |code|));
    }
  }

  lemma {:induction false} UnlinkedOk(s: Schema, code: seq<Byte>, decoded: seq<Instruction>, i: nat)
    requires Decodable(s, code, decoded) && i < |decoded|
    ensures var u := Unlink(s, decoded)[i];
            InstructionOk(s, u.op, u.operands, i, |decoded|) && |u.operands| <= MAX_OPERANDS
  {
    hide Decodable, ByteOffset, Unlink, UnlinkedOperands, Schema.WellShaped, Schema.ValidRow, Immediate;
    DecodableSplits(s, code, decoded);
    var u := Unlink(s, decoded)[i];
    UnlinkGives(s, decoded, i);
    UnlinkedShape(s, code, decoded, i, u.operands);
    forall spec | spec in s.successors(u.op) && spec.RelativeTarget?
      ensures s.IsFixedImmediate(u.op, spec.operandIndex)
      ensures 0 <= i + 1 + Immediate(s, u.op, u.operands, spec.operandIndex) <= |decoded|
    {
      UnlinkedBranch(s, code, decoded, i, u.operands, spec);
    }
    forall spec | spec in s.exceptions(u.op)
      ensures s.ValidException(u.op, spec)
      ensures var t := HandlerTarget(s, u.op, u.operands, i + 1, spec); t.Some? ==> 0 <= t.value <= |decoded|
      ensures spec.RunFinallyHandlersToFloor? ==> Immediate(s, u.op, u.operands, spec.floorOperandIndex) >= 0
    {
      UnlinkedHandler(s, code, decoded, i, u.operands, spec);
    }
  }

  lemma {:induction false} UnlinkedEncodable(s: Schema, code: seq<Byte>, decoded: seq<Instruction>)
    requires Decodable(s, code, decoded)
    ensures Encodable(s, Unlink(s, decoded))
    ensures forall j :: 0 <= j <= |decoded| ==> ByteOffset(Unlink(s, decoded), j) == ByteOffset(decoded, j)
  {
    hide ByteOffset, Unlink, InstructionOk, EmitFirst, UnlinkedOperands, TargetsOk, Schema.Valid, Schema.WellShaped;
    var u := Unlink(s, decoded);
    forall i | 0 <= i < |u|
      ensures && InstructionOk(s, u[i].op, u[i].operands, i, |u|) && |u[i].operands| <= MAX_OPERANDS
              && u[i].op == decoded[i].op && |u[i].operands| == |decoded[i].operands|
              && forall k :: 0 <= k < |u[i].operands| ==> u[i].operands[k].Kind() == decoded[i].operands[k].Kind()
    {
      UnlinkedOk(s, code, decoded, i);
      UnlinkGives(s, decoded, i);
      UnlinkedShape(s, code, decoded, i, u[i].operands);
    }
    forall j | 0 <= j <= |decoded| ensures ByteOffset(u, j) == ByteOffset(decoded, j) {
      SameOffsets(u, decoded, j);
    }
  }

  lemma {:induction false} RelinkUnlinked(s: Schema, code: seq<Byte>, decoded: seq<Instruction>, i: nat)
    requires Decodable(s, code, decoded) && i < |decoded| && TotalSize(Unlink(s, decoded)) <= I32_MAX
    requires forall j :: 0 <= j <= |decoded| ==> ByteOffset(Unlink(s, decoded), j) == ByteOffset(decoded, j)
    ensures Relink(s, Unlink(s, decoded))[i].operands == decoded[i].operands
  {
    hide Decodable, ByteOffset, Unlink, UnlinkOperand, Relink, Boundaries, TargetSpace.Contains, Splits, Schema.Valid;
    DecodableSplits(s, code, decoded);
    var u := Unlink(s, decoded);
    var back := Relink(s, u)[i].operands;
    UnlinkGives(s, decoded, i);
    RelinkGives(s, u, i);
    forall k | 0 <= k < |back| ensures back[k] == decoded[i].operands[k] {
      if k in s.branchSlots(decoded[i].op) {
        ByteSlotIsTarget(s, code, decoded, i, k);
        UnlinkFaithful(s, code, decoded, i, decoded[i].operands[k].value);
      }
    }
  }

  lemma {:induction false} DecodableSplits(s: Schema, code: seq<Byte>, decoded: seq<Instruction>)
    requires Decodable(s, code, decoded)
    ensures s.Valid() && |code| <= I32_MAX && |decoded| <= I32_MAX && Splits(s, decoded, code)
  {}

  /** Every byte stream the decoder accepts is, byte for byte, the encoding of the verified function recovered from
      it. */
  lemma {:induction false} DecodableIsEncoded(s: Schema, code: seq<Byte>, decoded: seq<Instruction>)
    requires s.Valid() && |code| <= I32_MAX && Decode(s, code) == Ok(decoded)
    ensures |decoded| <= I32_MAX && Encodable(s, Unlink(s, decoded))
    ensures Encoded(s, Unlink(s, decoded)) == code
  {
    hide ByteOffset, Unlink, LogicalOk, EmitFirst, TargetsOk, Schema.Valid, Schema.WellShaped, Relink, AllCheckable;
    hide Decode;
    DecodeVerdict(s, code, decoded);
    CountWithin(decoded);
    UnlinkedEncodable(s, code, decoded);
    var u := Unlink(s, decoded);
    LinkedSplits(s, u);
    forall i | 0 <= i < |decoded|
      ensures Relink(s, u)[i].op == decoded[i].op && Relink(s, u)[i].operands == decoded[i].operands
    {
      RelinkUnlinked(s, code, decoded, i);
      RelinkGives(s, u, i);
      UnlinkGives(s, decoded, i);
    }
    EmitIgnoresPc(Relink(s, u), decoded, |decoded|);
  }
}
