/**
  * Control-flow operands of one instruction: which positions they may name, how the checkers walk them, and the edges
  * they denote. The same code checks instruction-index deltas before encoding and byte deltas after decoding; only the
  * space of legal positions and the base of a delta differ.
  */
module ControlFlow {
  import opened Prelude
  import opened OpcodeSchema

  /** Positions a relative target may name. The end of the function is always one. */
  datatype TargetSpace =
    | InstructionSpace(count: nat)
    | ByteSpace(boundaries: seq<U32>, length: nat)
  {
    predicate Contains(target: int)
    {
      match this
      case InstructionSpace(count) => 0 <= target <= count
      case ByteSpace(boundaries, length) => target == length || (0 <= target < length && target in boundaries)
    }
  }

  datatype ControlError =
    | BadTarget(target: int)
    | BadFloor(operandIndex: nat, value: I32)

  function Immediate(s: Schema, op: Op, operands: seq<Operand>, i: nat): (v: I32)
    requires s.IsFixedImmediate(op, i) && s.WellShaped(op, operands)
  {
    assert s.KindAt(op, i) == Some(operands[i].Kind());
    operands[i].value
  }

  /** An instruction whose operands match its schema row. */
  ghost predicate Checkable(s: Schema, op: Op, operands: seq<Operand>)
  {
    s.ValidRow(op) && s.WellShaped(op, operands)
  }

  function CheckTarget(space: TargetSpace, base: int, delta: I32, absent: Option<I32>): (e: Option<ControlError>)
  {
    if absent == Some(delta) || space.Contains(base + delta) then None else Some(BadTarget(base + delta))
  }

  function CheckSuccessor(s: Schema, op: Op, operands: seq<Operand>, base: int, space: TargetSpace, spec: SuccessorSpec)
    : (e: Option<ControlError>)
    requires s.WellShaped(op, operands) && s.ValidSuccessor(op, spec)
  {
    match spec
    case RelativeTarget(i) => CheckTarget(space, base, Immediate(s, op, operands, i), None)
    case _ => None
  }

  function CheckException(s: Schema, op: Op, operands: seq<Operand>, base: int, space: TargetSpace,
                          spec: ExceptionSuccessorSpec): (e: Option<ControlError>)
    requires s.WellShaped(op, operands) && s.ValidException(op, spec)
  {
    match spec
    case OptionalRelativeTarget(i, absent) => CheckTarget(space, base, Immediate(s, op, operands, i), Some(absent))
    case RunFinallyHandlersToFloor(i) =>
      var floor := Immediate(s, op, operands, i);
      if floor < 0 then Some(BadFloor(i, floor)) else None
    case _ => None
  }

  /** First error among the normal successors from position `k` on. */
  function CheckSuccessors(s: Schema, op: Op, operands: seq<Operand>, base: int, space: TargetSpace, k: nat)
    : (e: Option<ControlError>)
    requires Checkable(s, op, operands) && k <= |s.successors(op)|
    decreases |s.successors(op)| - k
  {
    if k == |s.successors(op)| then None
    else
      var e := CheckSuccessor(s, op, operands, base, space, s.successors(op)[k]);
      if e.Some? then e else CheckSuccessors(s, op, operands, base, space, k + 1)
  }

  /** First error among the exception successors from position `k` on. */
  function CheckExceptions(s: Schema, op: Op, operands: seq<Operand>, base: int, space: TargetSpace, k: nat)
    : (e: Option<ControlError>)
    requires Checkable(s, op, operands) && k <= |s.exceptions(op)|
    decreases |s.exceptions(op)| - k
  {
    if k == |s.exceptions(op)| then None
    else
      var e := CheckException(s, op, operands, base, space, s.exceptions(op)[k]);
      if e.Some? then e else CheckExceptions(s, op, operands, base, space, k + 1)
  }

  /** All control-flow operands of one instruction: normal successors first, then exception successors. */
  function CheckControl(s: Schema, op: Op, operands: seq<Operand>, base: int, space: TargetSpace)
    : (e: Option<ControlError>)
    requires Checkable(s, op, operands)
  {
    var e := CheckSuccessors(s, op, operands, base, space, 0);
    if e.Some? then e else CheckExceptions(s, op, operands, base, space, 0)
  }

  // ----- What the checks mean -----

  /** The target of one normal successor, if it names a position: `next` follows the instruction in its space. */
  function NormalTarget(s: Schema, op: Op, operands: seq<Operand>, base: int, next: int, spec: SuccessorSpec)
    : (t: Option<int>)
    requires s.WellShaped(op, operands) && s.ValidSuccessor(op, spec)
  {
    match spec
    case Fallthrough => Some(next)
    case RelativeTarget(i) => Some(base + Immediate(s, op, operands, i))
    case FrameReturn => None
  }

  /** The handler named by one exception successor; the sentinel names none. */
  function HandlerTarget(s: Schema, op: Op, operands: seq<Operand>, base: int, spec: ExceptionSuccessorSpec)
    : (t: Option<int>)
    requires s.WellShaped(op, operands) && s.ValidException(op, spec)
  {
    match spec
    case OptionalRelativeTarget(i, absent) =>
      var delta := Immediate(s, op, operands, i);
      if delta == absent then None else Some(base + delta)
    case _ => None
  }

  /** Every encoded target is a legal position, and every finally floor is non-negative. */
  ghost predicate ControlOk(s: Schema, op: Op, operands: seq<Operand>, base: int, space: TargetSpace)
    requires Checkable(s, op, operands)
  {
    && (forall spec :: spec in s.successors(op) && spec.RelativeTarget? ==>
          space.Contains(base + Immediate(s, op, operands, spec.operandIndex)))
    && (forall spec :: spec in s.exceptions(op) && HandlerTarget(s, op, operands, base, spec).Some? ==>
          space.Contains(HandlerTarget(s, op, operands, base, spec).value))
    && (forall spec :: spec in s.exceptions(op) && spec.RunFinallyHandlersToFloor? ==>
          Immediate(s, op, operands, spec.floorOperandIndex) >= 0)
  }

  lemma {:induction false} SuccessorsVerdict(s: Schema, op: Op, operands: seq<Operand>, base: int,
                                             space: TargetSpace, k: nat)
    requires Checkable(s, op, operands) && k <= |s.successors(op)|
    ensures CheckSuccessors(s, op, operands, base, space, k).None? <==>
            forall j :: k <= j < |s.successors(op)| ==>
              CheckSuccessor(s, op, operands, base, space, s.successors(op)[j]).None?
    decreases |s.successors(op)| - k
  {
    if k < |s.successors(op)| {
      SuccessorsVerdict(s, op, operands, base, space, k + 1);
    }
  }

  lemma {:induction false} ExceptionsVerdict(s: Schema, op: Op, operands: seq<Operand>, base: int,
                                             space: TargetSpace, k: nat)
    requires Checkable(s, op, operands) && k <= |s.exceptions(op)|
    ensures CheckExceptions(s, op, operands, base, space, k).None? <==>
            forall j :: k <= j < |s.exceptions(op)| ==>
              CheckException(s, op, operands, base, space, s.exceptions(op)[j]).None?
    decreases |s.exceptions(op)| - k
  {
    if k < |s.exceptions(op)| {
      ExceptionsVerdict(s, op, operands, base, space, k + 1);
    }
  }

  /** The walk over the successor columns reports no error exactly when all targets and floors are legal. */
  lemma {:induction false} ControlVerdict(s: Schema, op: Op, operands: seq<Operand>, base: int, space: TargetSpace)
    requires Checkable(s, op, operands)
    ensures CheckControl(s, op, operands, base, space).None? <==> ControlOk(s, op, operands, base, space)
  {
    SuccessorsVerdict(s, op, operands, base, space, 0);
    ExceptionsVerdict(s, op, operands, base, space, 0);
    hide Schema.WellShaped, TargetSpace.Contains, Schema.IsTargetSlot, CheckSuccessors, CheckExceptions;
    var normal, handlers := s.successors(op), s.exceptions(op);
    assert forall j :: 0 <= j < |normal| ==> normal[j] in normal;
    assert forall j :: 0 <= j < |handlers| ==> handlers[j] in handlers;
    assert forall spec :: spec in normal ==>
        (CheckSuccessor(s, op, operands, base, space, spec).None? <==>
         (spec.RelativeTarget? ==> space.Contains(base + Immediate(s, op, operands, spec.operandIndex))));
  }

  // ----- What an error says -----

  /** The immediate `v` is operand `i`. */
  predicate IsImmediate(operands: seq<Operand>, i: nat, v: I32)
  {
    i < |operands| && operands[i] == Imm32(v)
  }

  /** `e` is what is wrong with one normal successor: its target, which is no legal position. */
  ghost predicate SuccessorFault(operands: seq<Operand>, base: int, space: TargetSpace, spec: SuccessorSpec,
                                 e: ControlError)
  {
    && spec.RelativeTarget? && e.BadTarget? && !space.Contains(e.target)
    && exists v :: IsImmediate(operands, spec.operandIndex, v) && e.target == base + v
  }

  /** `e` is what is wrong with one exception successor: the target of a present handler, or a negative floor. */
  ghost predicate ExceptionFault(operands: seq<Operand>, base: int, space: TargetSpace, spec: ExceptionSuccessorSpec,
                                 e: ControlError)
  {
    match spec
    case OptionalRelativeTarget(i, absent) =>
      && e.BadTarget? && !space.Contains(e.target)
      && exists v :: IsImmediate(operands, i, v) && v != absent && e.target == base + v
    case RunFinallyHandlersToFloor(i) =>
      e.BadFloor? && e.operandIndex == i && e.value < 0 && IsImmediate(operands, i, e.value)
    case _ => false
  }

  /** Normal successor `k` has fault `e`, and none before it has any. */
  ghost predicate FirstSuccessorFault(s: Schema, op: Op, operands: seq<Operand>, base: int, space: TargetSpace, k: nat,
                                      e: ControlError)
  {
    && k < |s.successors(op)| && SuccessorFault(operands, base, space, s.successors(op)[k], e)
    && forall j, e' :: 0 <= j < k ==> !SuccessorFault(operands, base, space, s.successors(op)[j], e')
  }

  /** No normal successor has a fault, exception successor `k` has fault `e`, and none before it has any. */
  ghost predicate FirstExceptionFault(s: Schema, op: Op, operands: seq<Operand>, base: int, space: TargetSpace, k: nat,
                                      e: ControlError)
  {
    && (forall j, e' :: 0 <= j < |s.successors(op)| ==>
          !SuccessorFault(operands, base, space, s.successors(op)[j], e'))
    && k < |s.exceptions(op)| && ExceptionFault(operands, base, space, s.exceptions(op)[k], e)
    && forall j, e' :: 0 <= j < k ==> !ExceptionFault(operands, base, space, s.exceptions(op)[j], e')
  }

  /** `e` is the first fault of the instruction, normal successors before exception successors. */
  ghost predicate FirstFault(s: Schema, op: Op, operands: seq<Operand>, base: int, space: TargetSpace, e: ControlError)
  {
    exists k: nat :: FirstSuccessorFault(s, op, operands, base, space, k, e)
                     || FirstExceptionFault(s, op, operands, base, space, k, e)
  }

  lemma {:induction false} SuccessorBlamed(s: Schema, op: Op, operands: seq<Operand>, base: int, space: TargetSpace,
                                           spec: SuccessorSpec)
    requires s.WellShaped(op, operands) && s.ValidSuccessor(op, spec)
    ensures forall e :: CheckSuccessor(s, op, operands, base, space, spec) == Some(e) <==>
                        SuccessorFault(operands, base, space, spec, e)
  {
    hide TargetSpace.Contains;
    if spec.RelativeTarget? {
      assert IsImmediate(operands, spec.operandIndex, Immediate(s, op, operands, spec.operandIndex));
    }
  }

  lemma {:induction false} ExceptionBlamed(s: Schema, op: Op, operands: seq<Operand>, base: int, space: TargetSpace,
                                           spec: ExceptionSuccessorSpec)
    requires s.WellShaped(op, operands) && s.ValidException(op, spec)
    ensures forall e :: CheckException(s, op, operands, base, space, spec) == Some(e) <==>
                        ExceptionFault(operands, base, space, spec, e)
  {
    hide TargetSpace.Contains, Schema.IsTargetSlot;
    if spec.OptionalRelativeTarget? {
      assert IsImmediate(operands, spec.operandIndex, Immediate(s, op, operands, spec.operandIndex));
    } else if spec.RunFinallyHandlersToFloor? {
      assert IsImmediate(operands, spec.floorOperandIndex, Immediate(s, op, operands, spec.floorOperandIndex));
    }
  }

  /** Walking the normal successors from `k` on finds the first fault among them. */
  lemma {:induction false} SuccessorsBlamed(s: Schema, op: Op, operands: seq<Operand>, base: int, space: TargetSpace,
                                            k: nat) returns (at: nat)
    requires Checkable(s, op, operands) && k <= |s.successors(op)|
    requires forall j, e' :: 0 <= j < k ==> !SuccessorFault(operands, base, space, s.successors(op)[j], e')
    ensures match CheckSuccessors(s, op, operands, base, space, k)
            case Some(e) => FirstSuccessorFault(s, op, operands, base, space, at, e)
            case None => forall j, e' :: 0 <= j < |s.successors(op)| ==>
                           !SuccessorFault(operands, base, space, s.successors(op)[j], e')
    decreases |s.successors(op)| - k
  {
    hide SuccessorFault, CheckSuccessor, Schema.WellShaped;
    at := k;
    if k < |s.successors(op)| {
      assert s.successors(op)[k] in s.successors(op);
      SuccessorBlamed(s, op, operands, base, space, s.successors(op)[k]);
      if CheckSuccessor(s, op, operands, base, space, s.successors(op)[k]).None? {
        at := SuccessorsBlamed(s, op, operands, base, space, k + 1);
      }
    }
  }

  lemma {:induction false} ExceptionsBlamed(s: Schema, op: Op, operands: seq<Operand>, base: int, space: TargetSpace,
                                            k: nat) returns (at: nat)
    requires Checkable(s, op, operands) && k <= |s.exceptions(op)|
    requires forall j, e' :: 0 <= j < |s.successors(op)| ==>
               !SuccessorFault(operands, base, space, s.successors(op)[j], e')
    requires forall j, e' :: 0 <= j < k ==> !ExceptionFault(operands, base, space, s.exceptions(op)[j], e')
    ensures match CheckExceptions(s, op, operands, base, space, k)
            case Some(e) => FirstExceptionFault(s, op, operands, base, space, at, e)
            case None => true
    decreases |s.exceptions(op)| - k
  {
    hide SuccessorFault, ExceptionFault, CheckException, Schema.WellShaped;
    at := k;
    if k < |s.exceptions(op)| {
      assert s.exceptions(op)[k] in s.exceptions(op);
      ExceptionBlamed(s, op, operands, base, space, s.exceptions(op)[k]);
      if CheckException(s, op, operands, base, space, s.exceptions(op)[k]).None? {
        at := ExceptionsBlamed(s, op, operands, base, space, k + 1);
      }
    }
  }

  /** An error names the first illegal target or negative floor of the instruction. */
  lemma {:induction false} ControlBlamed(s: Schema, op: Op, operands: seq<Operand>, base: int, space: TargetSpace)
    requires Checkable(s, op, operands) && CheckControl(s, op, operands, base, space).Some?
    ensures FirstFault(s, op, operands, base, space, CheckControl(s, op, operands, base, space).value)
  {
    hide FirstSuccessorFault, FirstExceptionFault, SuccessorFault, ExceptionFault, Checkable, CheckSuccessors;
    hide CheckExceptions;
    var at := SuccessorsBlamed(s, op, operands, base, space, 0);
    if CheckSuccessors(s, op, operands, base, space, 0).None? {
      at := ExceptionsBlamed(s, op, operands, base, space, 0);
    }
  }
}
