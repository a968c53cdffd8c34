/**
  * What encoding preserves. A verified function and its byte stream have the same control-flow graph under the map from
  * instruction index to byte offset, every encoded function decodes, and verified functions and decodable streams
  * correspond one to one.
  */
module CodecTheorems {
  import opened Prelude
  import opened OpcodeSchema
  import opened ControlFlow
  import opened WireFormat
  import opened Encoding
  import opened Decoding

  /** A function the encoder accepts. */
  ghost predicate Encodable(s: Schema, instrs: seq<Instruction>)
  {
    s.Valid() && LogicalOk(s, instrs) && WithinBounds(instrs)
  }

  /** The same instructions, each carrying its byte offset. */
  function Placed(instrs: seq<Instruction>): (placed: seq<Instruction>)
    requires TotalSize(instrs) <= I32_MAX
    ensures |placed| == |instrs|
  {
    OffsetsWithin(instrs);
    seq(|instrs|, i requires 0 <= i < |instrs| => instrs[i].(pc := ByteOffset(instrs, i)))
  }

  lemma {:induction false} EmitIgnoresPc(a: seq<Instruction>, b: seq<Instruction>, n: nat)
    requires AllCountsFit(a) && |a| == |b| && n <= |a|
    requires forall i :: 0 <= i < |a| ==> a[i].op == b[i].op && a[i].operands == b[i].operands
    ensures AllCountsFit(b) && EmitFirst(a, n) == EmitFirst(b, n)
  {
    if n > 0 {
      EmitIgnoresPc(a, b, n - 1);
    }
  }

  // ----- Relinked operands -----

  /** Relinking an instruction: branch operands are rewritten, everything else stays. */
  ghost predicate RelinkedInstruction(s: Schema, instrs: seq<Instruction>, i: nat, operands: seq<Operand>)
    requires i < |instrs| && TotalSize(instrs) <= I32_MAX
  {
    && |operands| == |instrs[i].operands|
    && forall k :: 0 <= k < |operands| ==>
         operands[k] == if k in s.branchSlots(instrs[i].op) then RelinkOperand(instrs, i, instrs[i].operands[k])
                        else instrs[i].operands[k]
  }

  lemma {:induction false} RelinkSameKinds(s: Schema, instrs: seq<Instruction>)
    requires TotalSize(instrs) <= I32_MAX
    ensures SameKinds(instrs, Relink(s, instrs))
  {
    hide ByteOffset;
  }

  /** `b` differs from `a` at most in the values of branch operands. */
  ghost predicate SameExceptBranches(s: Schema, op: Op, a: seq<Operand>, b: seq<Operand>)
  {
    && |a| == |b|
    && forall k :: 0 <= k < |a| ==>
         a[k].Kind() == b[k].Kind() && (k !in s.branchSlots(op) ==> a[k] == b[k])
  }

  /** Only fixed-shape instructions have branch operands, so counted tails keep their count. */
  lemma {:induction false} ShapeKept(s: Schema, op: Op, a: seq<Operand>, b: seq<Operand>)
    requires s.ValidRow(op) && s.WellShaped(op, a) && SameExceptBranches(s, op, a, b)
    ensures s.WellShaped(op, b)
  {
    if s.shape(op).Variadic? {
      forall k: nat ensures k !in s.branchSlots(op) {
        if s.IsTargetSlot(op, k) {
          assert s.IsFixedImmediate(op, k) by {
            if RelativeTarget(k) in s.successors(op) {
              assert s.ValidSuccessor(op, RelativeTarget(k));
            } else {
              assert s.ValidException(op, OptionalRelativeTarget(k, NO_HANDLER_OFFSET));
            }
          }
        }
      }
      assert a == b;
    }
  }

  lemma {:induction false} RelinkShape(s: Schema, instrs: seq<Instruction>, i: nat, operands: seq<Operand>)
    requires s.Valid() && TotalSize(instrs) <= I32_MAX && i < |instrs|
    requires s.WellShaped(instrs[i].op, instrs[i].operands)
    requires RelinkedInstruction(s, instrs, i, operands)
    ensures s.WellShaped(instrs[i].op, operands)
  {
    hide ByteOffset, Schema.WellShaped;
    assert s.ValidRow(instrs[i].op);
    ShapeKept(s, instrs[i].op, instrs[i].operands, operands);
  }

  /** A present target rewrites to the byte distance of its image; the sentinel is rewritten to itself and nothing else
      is rewritten to the sentinel. */
  lemma {:induction false} RelinkFaithful(instrs: seq<Instruction>, i: nat, delta: I32)
    requires TotalSize(instrs) <= I32_MAX && i < |instrs|
    requires delta == NO_HANDLER_OFFSET || 0 <= i + 1 + delta <= |instrs|
    ensures RelinkOperand(instrs, i, Imm32(delta)).Imm32?
    ensures var byteDelta := RelinkOperand(instrs, i, Imm32(delta)).value;
            && (byteDelta == NO_HANDLER_OFFSET <==> delta == NO_HANDLER_OFFSET)
            && (delta != NO_HANDLER_OFFSET ==>
                  ByteOffset(instrs, i) + 1 + byteDelta == ByteOffset(instrs, i + 1 + delta))
  {
    hide ByteOffset;
    if delta != NO_HANDLER_OFFSET {
      DistanceWithin(instrs, i, delta);
    }
  }

  /** In a function of any encodable size a present target becomes the sentinel only at a distance of exactly
      `i32::MIN`, which takes more than `i32::MAX` bytes. */
  lemma {:induction false} SentinelExact(instrs: seq<Instruction>, i: nat, delta: I32)
    requires i < |instrs| && (delta == NO_HANDLER_OFFSET || 0 <= i + 1 + delta <= |instrs|)
    requires delta != NO_HANDLER_OFFSET ==> I32_MIN <= ByteDistance(instrs, i, delta) <= I32_MAX
    ensures RelinkOperand(instrs, i, Imm32(delta)) == Imm32(NO_HANDLER_OFFSET) <==>
            delta == NO_HANDLER_OFFSET || ByteDistance(instrs, i, delta) == I32_MIN
    ensures delta != NO_HANDLER_OFFSET && ByteDistance(instrs, i, delta) == I32_MIN ==> TotalSize(instrs) > I32_MAX
  {
    hide ByteOffset;
    if delta != NO_HANDLER_OFFSET && TotalSize(instrs) <= I32_MAX {
      DistanceWithin(instrs, i, delta);
    }
  }

  /** An ordinary branch that verifies cannot carry the absent-handler sentinel: every instruction takes at least two
      bytes, so no function within the bounds is long enough to make it a legal delta. */
  lemma {:induction false} BranchIsNeverAbsent(instrs: seq<Instruction>, i: nat, delta: I32)
    requires TotalSize(instrs) <= I32_MAX && i < |instrs|
    requires InstructionSpace(|instrs|).Contains(i + 1 + delta)
    ensures delta != NO_HANDLER_OFFSET
  {
    OffsetsIncrease(instrs, 0, |instrs|);
  }

  // ----- One instruction's edges -----

  /** Byte image of an instruction-index target. */
  function Image(instrs: seq<Instruction>, t: Option<int>): (image: Option<int>)
    requires t.Some? ==> 0 <= t.value <= |instrs|
  {
    match t
    case Some(j) => Some(ByteOffset(instrs, j))
    case None => None
  }

  lemma {:induction false} NormalImage(s: Schema, instrs: seq<Instruction>, i: nat, operands: seq<Operand>,
                                       spec: SuccessorSpec)
    requires Encodable(s, instrs) && i < |instrs| && RelinkedInstruction(s, instrs, i, operands)
    requires spec in s.successors(instrs[i].op)
    ensures s.ValidSuccessor(instrs[i].op, spec)
    ensures s.WellShaped(instrs[i].op, instrs[i].operands) && s.WellShaped(instrs[i].op, operands)
    ensures var op := instrs[i].op;
            var logical := NormalTarget(s, op, instrs[i].operands, i + 1, i + 1, spec);
            && (logical.Some? ==> 0 <= logical.value <= |instrs|)
            && NormalTarget(s, op, operands, ByteOffset(instrs, i) + 1, ByteOffset(instrs, i + 1), spec)
               == Image(instrs, logical)
  {
    hide ByteOffset, RelinkOperand, Schema.WellShaped;
    var op := instrs[i].op;
    assert InstructionOk(s, op, instrs[i].operands, i, |instrs|);
    RelinkShape(s, instrs, i, operands);
    if spec.RelativeTarget? {
      var k := spec.operandIndex;
      var delta := Immediate(s, op, instrs[i].operands, k);
      assert s.IsTargetSlot(op, k) && k in s.branchSlots(op);
      BranchIsNeverAbsent(instrs, i, delta);
      RelinkFaithful(instrs, i, delta);
      ImmediateAt(s, op, instrs[i].operands, k);
      ImmediateAt(s, op, operands, k);
    }
  }

  lemma {:induction false} ImmediateAt(s: Schema, op: Op, operands: seq<Operand>, k: nat)
    requires s.IsFixedImmediate(op, k) && s.WellShaped(op, operands)
    ensures k < |operands| && operands[k] == Imm32(Immediate(s, op, operands, k))
  {
    assert s.KindAt(op, k) == Some(operands[k].Kind());
  }

  lemma {:induction false} HandlerImage(s: Schema, instrs: seq<Instruction>, i: nat, operands: seq<Operand>,
                                        spec: ExceptionSuccessorSpec)
    requires Encodable(s, instrs) && i < |instrs| && RelinkedInstruction(s, instrs, i, operands)
    requires spec in s.exceptions(instrs[i].op)
    ensures s.ValidException(instrs[i].op, spec)
    ensures s.WellShaped(instrs[i].op, instrs[i].operands) && s.WellShaped(instrs[i].op, operands)
    ensures var op := instrs[i].op;
            var logical := HandlerTarget(s, op, instrs[i].operands, i + 1, spec);
            && (logical.Some? ==> 0 <= logical.value <= |instrs|)
            && HandlerTarget(s, op, operands, ByteOffset(instrs, i) + 1, spec) == Image(instrs, logical)
  {
    hide ByteOffset, RelinkOperand, Schema.WellShaped;
    var op := instrs[i].op;
    assert InstructionOk(s, op, instrs[i].operands, i, |instrs|);
    RelinkShape(s, instrs, i, operands);
    if spec.OptionalRelativeTarget? {
      var k := spec.operandIndex;
      var delta := Immediate(s, op, instrs[i].operands, k);
      assert s.IsTargetSlot(op, k) && k in s.branchSlots(op);
      assert HandlerTarget(s, op, instrs[i].operands, i + 1, spec).Some? <==> delta != NO_HANDLER_OFFSET;
      RelinkFaithful(instrs, i, delta);
      ImmediateAt(s, op, instrs[i].operands, k);
      ImmediateAt(s, op, operands, k);
    }
  }

  /** A finally floor is not a branch operand and keeps its value. */
  lemma {:induction false} FloorKept(s: Schema, instrs: seq<Instruction>, i: nat, operands: seq<Operand>,
                                     spec: ExceptionSuccessorSpec)
    requires Encodable(s, instrs) && i < |instrs| && RelinkedInstruction(s, instrs, i, operands)
    requires spec in s.exceptions(instrs[i].op) && spec.RunFinallyHandlersToFloor?
    ensures s.IsFixedImmediate(instrs[i].op, spec.floorOperandIndex)
    ensures s.WellShaped(instrs[i].op, instrs[i].operands) && s.WellShaped(instrs[i].op, operands)
    ensures Immediate(s, instrs[i].op, operands, spec.floorOperandIndex) ==
            Immediate(s, instrs[i].op, instrs[i].operands, spec.floorOperandIndex) >= 0
  {
    hide ByteOffset, RelinkOperand, Schema.WellShaped;
    var op, k := instrs[i].op, spec.floorOperandIndex;
    assert InstructionOk(s, op, instrs[i].operands, i, |instrs|);
    RelinkShape(s, instrs, i, operands);
    assert s.ValidException(op, spec);
    ImmediateAt(s, op, instrs[i].operands, k);
    ImmediateAt(s, op, operands, k);
  }

  // ----- Encoded functions decode -----

  lemma {:induction false} RelinkGives(s: Schema, instrs: seq<Instruction>, i: nat)
    requires TotalSize(instrs) <= I32_MAX && i < |instrs|
    ensures RelinkedInstruction(s, instrs, i, Relink(s, instrs)[i].operands)
    ensures Relink(s, instrs)[i].op == instrs[i].op
  {
    hide ByteOffset, RelinkOperand;
  }

  /** What the decoder should return for an encoded function. */
  function Linked(s: Schema, instrs: seq<Instruction>): (linked: seq<Instruction>)
    requires TotalSize(instrs) <= I32_MAX
    ensures |linked| == |instrs|
  {
    RelinkSameKinds(s, instrs);
    SameOffsets(instrs, Relink(s, instrs), |instrs|);
    Placed(Relink(s, instrs))
  }

  lemma {:induction false} LinkedAt(s: Schema, instrs: seq<Instruction>, i: nat)
    requires Encodable(s, instrs) && i < |instrs|
    ensures var l := Linked(s, instrs)[i];
            && l.op == instrs[i].op && l.pc == ByteOffset(instrs, i)
            && RelinkedInstruction(s, instrs, i, l.operands)
            && s.WellShaped(l.op, l.operands) && |l.operands| <= MAX_OPERANDS
  {
    hide ByteOffset, RelinkOperand, Schema.WellShaped;
    RelinkSameKinds(s, instrs);
    SameOffsets(instrs, Relink(s, instrs), i);
    SameOffsets(instrs, Relink(s, instrs), |instrs|);
    RelinkGives(s, instrs, i);
    assert InstructionOk(s, instrs[i].op, instrs[i].operands, i, |instrs|);
    RelinkShape(s, instrs, i, Relink(s, instrs)[i].operands);
  }

  lemma {:induction false} LinkedSplits(s: Schema, instrs: seq<Instruction>)
    requires Encodable(s, instrs)
    ensures AllCountsFit(Relink(s, instrs)) && TotalSize(Relink(s, instrs)) == TotalSize(instrs)
    ensures Splits(s, Linked(s, instrs), EmitAll(Relink(s, instrs)))
    ensures forall i :: 0 <= i <= |instrs| ==> ByteOffset(Linked(s, instrs), i) == ByteOffset(instrs, i)
  {
    hide RelinkOperand, Schema.WellShaped, EmitFirst, ByteOffset;
    var linked := Linked(s, instrs);
    RelinkSameKinds(s, instrs);
    SameOffsets(instrs, Relink(s, instrs), |instrs|);
    forall i | 0 <= i < |instrs|
      ensures && s.WellShaped(linked[i].op, linked[i].operands)
              && linked[i].pc == ByteOffset(instrs, i)
              && |Relink(s, instrs)[i].operands| <= MAX_OPERANDS
    {
      LinkedAt(s, instrs, i);
    }
    forall i | 0 <= i <= |instrs| ensures ByteOffset(linked, i) == ByteOffset(instrs, i) {
      SameOffsets(instrs, Relink(s, instrs), i);
      SameOffsets(Relink(s, instrs), linked, i);
    }
    EmitIgnoresPc(Relink(s, instrs), linked, |instrs|);
  }

  /** The bytes the encoder produces (see `Encoding.TryEncodeFunction`). */
  function Encoded(s: Schema, instrs: seq<Instruction>): (code: seq<Byte>)
    requires Encodable(s, instrs)
    ensures |code| == TotalSize(instrs) <= I32_MAX
  {
    LinkedSplits(s, instrs);
    EmitAll(Relink(s, instrs))
  }

  lemma {:induction false} OffsetIsPosition(instrs: seq<Instruction>, placed: seq<Instruction>, t: nat)
    requires t <= |instrs| == |placed|
    requires forall i :: 0 <= i < |instrs| ==> placed[i].pc == ByteOffset(instrs, i)
    ensures ByteSpace(Boundaries(placed), TotalSize(instrs)).Contains(ByteOffset(instrs, t))
  {
    if t < |instrs| {
      OffsetsIncrease(instrs, t, |instrs|);
      assert Boundaries(placed)[t] == ByteOffset(instrs, t);
    }
  }

  lemma {:induction false} RelinkedControl(s: Schema, instrs: seq<Instruction>, i: nat, operands: seq<Operand>,
                                           space: TargetSpace)
    requires Encodable(s, instrs) && i < |instrs| && RelinkedInstruction(s, instrs, i, operands)
    requires Checkable(s, instrs[i].op, operands)
    requires forall t :: 0 <= t <= |instrs| ==> space.Contains(ByteOffset(instrs, t))
    ensures ControlOk(s, instrs[i].op, operands, ByteOffset(instrs, i) + 1, space)
  {
    hide ByteOffset, RelinkOperand, Schema.WellShaped, TargetSpace.Contains, RelinkedInstruction, Encodable,
      Immediate, Schema.IsFixedImmediate, Schema.IsTargetSlot;
    var op, base := instrs[i].op, ByteOffset(instrs, i) + 1;
    forall spec | spec in s.successors(op) && spec.RelativeTarget?
      ensures space.Contains(base + Immediate(s, op, operands, spec.operandIndex))
    {
      NormalImage(s, instrs, i, operands, spec);
    }
    forall spec | spec in s.exceptions(op) && HandlerTarget(s, op, operands, base, spec).Some?
      ensures space.Contains(HandlerTarget(s, op, operands, base, spec).value)
    {
      HandlerImage(s, instrs, i, operands, spec);
    }
    forall spec | spec in s.exceptions(op) && spec.RunFinallyHandlersToFloor?
      ensures Immediate(s, op, operands, spec.floorOperandIndex) >= 0
    {
      FloorKept(s, instrs, i, operands, spec);
    }
  }

  lemma {:induction false} LinkedTargets(s: Schema, instrs: seq<Instruction>, i: nat)
    requires Encodable(s, instrs) && i < |instrs|
    ensures var linked := Linked(s, instrs);
            && Checkable(s, linked[i].op, linked[i].operands)
            && ControlOk(s, linked[i].op, linked[i].operands, linked[i].pc + 1,
                         ByteSpace(Boundaries(linked), TotalSize(instrs)))
  {
    hide ByteOffset, RelinkedInstruction, Schema.WellShaped, TargetSpace.Contains, Boundaries, Linked, ControlOk,
      Schema.ValidRow;
    var linked := Linked(s, instrs);
    var space := ByteSpace(Boundaries(linked), TotalSize(instrs));
    forall j | 0 <= j < |instrs| ensures linked[j].pc == ByteOffset(instrs, j) {
      LinkedAt(s, instrs, j);
    }
    forall t | 0 <= t <= |instrs| ensures space.Contains(ByteOffset(instrs, t)) {
      OffsetIsPosition(instrs, linked, t);
    }
    LinkedAt(s, instrs, i);
    assert s.ValidRow(instrs[i].op);
    RelinkedControl(s, instrs, i, linked[i].operands, space);
  }

  /** Encoding then decoding always succeeds, and gives back every opcode, every non-branch operand, and every
      instruction at its offset. */
  lemma {:induction false} EncodedDecodes(s: Schema, instrs: seq<Instruction>)
    requires Encodable(s, instrs)
    ensures Decode(s, Encoded(s, instrs)) == Ok(Linked(s, instrs))
    ensures forall i :: 0 <= i < |instrs| ==>
              var l := Linked(s, instrs)[i];
              l.op == instrs[i].op && l.pc == ByteOffset(instrs, i) && RelinkedInstruction(s, instrs, i, l.operands)
  {
    hide ByteOffset, RelinkedInstruction, ControlOk, Decode, Splits, Linked, EmitFirst, Relink, Checkable;
    LinkedSplits(s, instrs);
    forall i | 0 <= i < |instrs|
      ensures var l := Linked(s, instrs)[i];
              && l.op == instrs[i].op && l.pc == ByteOffset(instrs, i)
              && RelinkedInstruction(s, instrs, i, l.operands)
              && Checkable(s, l.op, l.operands)
              && ControlOk(s, l.op, l.operands, l.pc + 1, ByteSpace(Boundaries(Linked(s, instrs)), TotalSize(instrs)))
    {
      LinkedAt(s, instrs, i);
      LinkedTargets(s, instrs, i);
    }
    DecodeVerdict(s, Encoded(s, instrs), Linked(s, instrs));
  }

  // ----- Control flow is preserved -----

  datatype EdgeKind = Normal | Handler

  /** The instruction has an edge of this kind to position `t`. */
  ghost predicate HasEdge(s: Schema, op: Op, operands: seq<Operand>, base: int, next: int, kind: EdgeKind, t: int)
    requires Checkable(s, op, operands)
  {
    match kind
    case Normal => exists spec :: spec in s.successors(op) && NormalTarget(s, op, operands, base, next, spec) == Some(t)
    case Handler => exists spec :: spec in s.exceptions(op) && HandlerTarget(s, op, operands, base, spec) == Some(t)
  }

  /** An edge of the compiler's graph, between instruction indices. */
  ghost predicate LogicalEdge(s: Schema, instrs: seq<Instruction>, i: nat, kind: EdgeKind, j: int)
  {
    && i < |instrs| && Checkable(s, instrs[i].op, instrs[i].operands)
    && HasEdge(s, instrs[i].op, instrs[i].operands, i + 1, i + 1, kind, j)
  }

  /** An edge of the byte stream, read off the instruction that starts at `p`. */
  ghost predicate ByteEdge(s: Schema, code: seq<Byte>, p: nat, kind: EdgeKind, q: int)
    requires s.Valid() && |code| <= MAX_CODE
  {
    && p < |code| && ParseInstruction(s, code, p).Ok?
    && var (instr, next) := ParseInstruction(s, code, p).value;
       && Checkable(s, instr.op, instr.operands)
       && HasEdge(s, instr.op, instr.operands, p + 1, next, kind, q)
  }

  lemma {:induction false} ParseEncoded(s: Schema, instrs: seq<Instruction>, i: nat)
    requires Encodable(s, instrs) && i < |instrs|
    ensures ByteOffset(instrs, i) < TotalSize(instrs)
    ensures ParseInstruction(s, Encoded(s, instrs), ByteOffset(instrs, i))
            == Ok((Linked(s, instrs)[i], ByteOffset(instrs, i + 1)))
  {
    hide RelinkedInstruction, ParseInstruction, EmitFirst, Splits, Linked, Relink, ByteOffset, InstructionSize, Emit,
      Occurs, Schema.WellShaped, Schema.Valid, LogicalOk;
    LinkedSplits(s, instrs);
    SplitsAt(s, Linked(s, instrs), Encoded(s, instrs), i);
    ReadWritten(s, Encoded(s, instrs), ByteOffset(instrs, i), Linked(s, instrs)[i]);
  }

  lemma {:induction false} EdgeForward(s: Schema, instrs: seq<Instruction>, i: nat, operands: seq<Operand>,
                                       kind: EdgeKind, j: int)
    requires Encodable(s, instrs) && i < |instrs| && RelinkedInstruction(s, instrs, i, operands)
    requires Checkable(s, instrs[i].op, instrs[i].operands) && Checkable(s, instrs[i].op, operands)
    requires HasEdge(s, instrs[i].op, instrs[i].operands, i + 1, i + 1, kind, j)
    ensures 0 <= j <= |instrs|
    ensures HasEdge(s, instrs[i].op, operands, ByteOffset(instrs, i) + 1, ByteOffset(instrs, i + 1), kind,
                    ByteOffset(instrs, j))
  {
    hide RelinkedInstruction, ByteOffset, LogicalOk, Schema.Valid;
    var op := instrs[i].op;
    if kind == Normal {
      var spec :| spec in s.successors(op) && NormalTarget(s, op, instrs[i].operands, i + 1, i + 1, spec) == Some(j);
      NormalImage(s, instrs, i, operands, spec);
    } else {
      var spec :| spec in s.exceptions(op) && HandlerTarget(s, op, instrs[i].operands, i + 1, spec) == Some(j);
      HandlerImage(s, instrs, i, operands, spec);
    }
  }

  lemma {:induction false} EdgeBackward(s: Schema, instrs: seq<Instruction>, i: nat, operands: seq<Operand>,
                                        kind: EdgeKind, q: int)
    returns (j: int)
    requires Encodable(s, instrs) && i < |instrs| && RelinkedInstruction(s, instrs, i, operands)
    requires Checkable(s, instrs[i].op, instrs[i].operands) && Checkable(s, instrs[i].op, operands)
    requires HasEdge(s, instrs[i].op, operands, ByteOffset(instrs, i) + 1, ByteOffset(instrs, i + 1), kind, q)
    ensures 0 <= j <= |instrs| && ByteOffset(instrs, j) == q
    ensures HasEdge(s, instrs[i].op, instrs[i].operands, i + 1, i + 1, kind, j)
  {
    hide RelinkedInstruction, ByteOffset, LogicalOk, Schema.Valid;
    var op, base, next := instrs[i].op, ByteOffset(instrs, i) + 1, ByteOffset(instrs, i + 1);
    if kind == Normal {
      var spec :| spec in s.successors(op) && NormalTarget(s, op, operands, base, next, spec) == Some(q);
      NormalImage(s, instrs, i, operands, spec);
      j := NormalTarget(s, op, instrs[i].operands, i + 1, i + 1, spec).value;
    } else {
      var spec :| spec in s.exceptions(op) && HandlerTarget(s, op, operands, base, spec) == Some(q);
      HandlerImage(s, instrs, i, operands, spec);
      j := HandlerTarget(s, op, instrs[i].operands, i + 1, spec).value;
    }
  }

  lemma {:induction false} EdgeImage(s: Schema, instrs: seq<Instruction>, i: nat, operands: seq<Operand>,
                                     kind: EdgeKind, q: int)
    requires Encodable(s, instrs) && i < |instrs| && RelinkedInstruction(s, instrs, i, operands)
    requires Checkable(s, instrs[i].op, instrs[i].operands) && Checkable(s, instrs[i].op, operands)
    ensures HasEdge(s, instrs[i].op, operands, ByteOffset(instrs, i) + 1, ByteOffset(instrs, i + 1), kind, q) <==>
            exists j :: 0 <= j <= |instrs| && ByteOffset(instrs, j) == q
              && HasEdge(s, instrs[i].op, instrs[i].operands, i + 1, i + 1, kind, j)
  {
    hide *;
    if HasEdge(s, instrs[i].op, operands, ByteOffset(instrs, i) + 1, ByteOffset(instrs, i + 1), kind, q) {
      var j := EdgeBackward(s, instrs, i, operands, kind, q);
    }
    forall j | HasEdge(s, instrs[i].op, instrs[i].operands, i + 1, i + 1, kind, j)
      ensures 0 <= j <= |instrs|
      ensures HasEdge(s, instrs[i].op, operands, ByteOffset(instrs, i) + 1, ByteOffset(instrs, i + 1), kind,
                      ByteOffset(instrs, j))
    {
      EdgeForward(s, instrs, i, operands, kind, j);
    }
  }

  lemma {:induction false} EdgesAt(s: Schema, instrs: seq<Instruction>, i: nat, kind: EdgeKind, q: int)
    requires Encodable(s, instrs) && i < |instrs|
    requires Checkable(s, instrs[i].op, instrs[i].operands)
    ensures ByteEdge(s, Encoded(s, instrs), ByteOffset(instrs, i), kind, q) <==>
            exists j :: 0 <= j <= |instrs| && ByteOffset(instrs, j) == q
              && HasEdge(s, instrs[i].op, instrs[i].operands, i + 1, i + 1, kind, j)
  {
    hide RelinkedInstruction, ByteOffset, HasEdge, Schema.WellShaped, LogicalOk, Encoded, Linked,
      ParseInstruction, Schema.ValidRow, Schema.Valid;
    ParseEncoded(s, instrs, i);
    LinkedAt(s, instrs, i);
    EdgeImage(s, instrs, i, Linked(s, instrs)[i].operands, kind, q);
  }

  /** The byte stream of an encoded function has exactly the edges of the function, moved along the byte-offset map. */
  lemma {:induction false} EdgesPreserved(s: Schema, instrs: seq<Instruction>, i: nat, kind: EdgeKind, q: int)
    requires Encodable(s, instrs) && i <= |instrs|
    ensures ByteEdge(s, Encoded(s, instrs), ByteOffset(instrs, i), kind, q) <==>
            exists j :: 0 <= j <= |instrs| && ByteOffset(instrs, j) == q && LogicalEdge(s, instrs, i, kind, j)
  {
    hide ByteOffset, HasEdge, Schema.WellShaped, Encoded, Schema.ValidRow, ControlOk, ParseInstruction;
    if i < |instrs| {
      assert s.ValidRow(instrs[i].op);
      assert InstructionOk(s, instrs[i].op, instrs[i].operands, i, |instrs|);
      hide ByteEdge;
      EdgesAt(s, instrs, i, kind, q);
    }
  }

  /** Follow `steps` from instruction `start`. */
  ghost predicate LogicalPath(s: Schema, instrs: seq<Instruction>, start: nat, steps: seq<(EdgeKind, nat)>)
    decreases |steps|
  {
    steps != [] ==>
      LogicalEdge(s, instrs, start, steps[0].0, steps[0].1) && LogicalPath(s, instrs, steps[0].1, steps[1..])
  }

  /** Follow `steps` from byte offset `start`. */
  ghost predicate BytePath(s: Schema, code: seq<Byte>, start: nat, steps: seq<(EdgeKind, nat)>)
    requires s.Valid() && |code| <= MAX_CODE
    decreases |steps|
  {
    steps != [] ==>
      ByteEdge(s, code, start, steps[0].0, steps[0].1) && BytePath(s, code, steps[0].1, steps[1..])
  }

  /** `there` visits the byte offsets of the positions `here` visits, along the same kinds of edge. */
  ghost predicate SameRoute(instrs: seq<Instruction>, here: seq<(EdgeKind, nat)>, there: seq<(EdgeKind, nat)>)
  {
    && |here| == |there|
    && forall x :: 0 <= x < |here| ==>
         here[x].1 <= |instrs| && there[x].0 == here[x].0 && there[x].1 == ByteOffset(instrs, here[x].1)
  }

  /** Every path through the function is a path through the bytes, of any length and along handler edges too. */
  lemma {:induction false} PathsForward(s: Schema, instrs: seq<Instruction>, start: nat, steps: seq<(EdgeKind, nat)>)
    requires Encodable(s, instrs) && start <= |instrs| && LogicalPath(s, instrs, start, steps)
    ensures exists bytes :: SameRoute(instrs, steps, bytes)
              && BytePath(s, Encoded(s, instrs), ByteOffset(instrs, start), bytes)
    decreases |steps|
  {
    hide ByteOffset, Encoded, ByteEdge, LogicalEdge, Schema.Valid, LogicalOk;
    if steps == [] {
      assert SameRoute(instrs, steps, []);
      assert BytePath(s, Encoded(s, instrs), ByteOffset(instrs, start), []);
    } else {
      var (kind, next) := steps[0];
      LogicalEdgeInside(s, instrs, start, kind, next);
      EdgesPreserved(s, instrs, start, kind, ByteOffset(instrs, next));
      PathsForward(s, instrs, next, steps[1..]);
      var rest :| SameRoute(instrs, steps[1..], rest)
        && BytePath(s, Encoded(s, instrs), ByteOffset(instrs, next), rest);
      var bytes := [(kind, ByteOffset(instrs, next))] + rest;
      assert bytes[1..] == rest;
      assert forall x :: 0 < x < |steps| ==> steps[x] == steps[1..][x - 1];
      assert SameRoute(instrs, steps, bytes);
      assert BytePath(s, Encoded(s, instrs), ByteOffset(instrs, start), bytes);
    }
  }

  lemma {:induction false} LogicalEdgeInside(s: Schema, instrs: seq<Instruction>, i: nat, kind: EdgeKind, j: int)
    requires Encodable(s, instrs) && LogicalEdge(s, instrs, i, kind, j)
    ensures 0 <= j <= |instrs|
  {
    LinkedAt(s, instrs, i);
    assert s.ValidRow(instrs[i].op);
    EdgeForward(s, instrs, i, Linked(s, instrs)[i].operands, kind, j);
  }

  /** Every path through the bytes that starts at an instruction stays on instruction boundaries and is the image of a
      path through the function. */
  lemma {:induction false} PathsBackward(s: Schema, instrs: seq<Instruction>, start: nat, bytes: seq<(EdgeKind, nat)>)
    requires Encodable(s, instrs) && start <= |instrs|
    requires BytePath(s, Encoded(s, instrs), ByteOffset(instrs, start), bytes)
    ensures exists steps :: SameRoute(instrs, steps, bytes) && LogicalPath(s, instrs, start, steps)
    decreases |bytes|
  {
    hide ByteOffset, Encoded, ByteEdge, LogicalEdge, Schema.Valid, LogicalOk;
    if bytes == [] {
      assert SameRoute(instrs, [], bytes);
      assert LogicalPath(s, instrs, start, []);
    } else {
      var (kind, q) := bytes[0];
      EdgesPreserved(s, instrs, start, kind, q);
      var next :| 0 <= next <= |instrs| && ByteOffset(instrs, next) == q && LogicalEdge(s, instrs, start, kind, next);
      PathsBackward(s, instrs, next, bytes[1..]);
      var rest :| SameRoute(instrs, rest, bytes[1..]) && LogicalPath(s, instrs, next, rest);
      var steps := [(kind, next as nat)] + rest;
      assert steps[1..] == rest;
      assert forall x :: 0 < x < |bytes| ==> bytes[x] == bytes[1..][x - 1];
      assert SameRoute(instrs, steps, bytes);
      assert LogicalPath(s, instrs, start, steps);
    }
  }
}
