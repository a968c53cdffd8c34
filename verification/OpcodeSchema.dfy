/**
  * Operands, operand shapes and control-flow metadata of one opcode, and what it means for a table of such
  * metadata to be usable by the encoder, the decoder and the wordcode store.
  *
  * Everything downstream is proved for an arbitrary valid `Schema`; the table shipped with the engine is one
  * (see `OpcodeTable`).
  */
module OpcodeSchema {
  import opened Prelude

  /** Opcodes are identified by their wire byte, their row in the dense schema table. */
  const OPCODE_COUNT: int := 178
  type Op = b: int | 0 <= b < OPCODE_COUNT

  function OpFromByte(b: Byte): (op: Option<Op>)
  {
    if b as int < OPCODE_COUNT then Some(b as int) else None
  }

  /** Offset meaning "no catch (or finally) clause". */
  const NO_HANDLER_OFFSET: I32 := I32_MIN

  datatype OperandKind = RegisterKind | ConstIndexKind | Imm32Kind

  datatype Operand = Register(reg: U16) | ConstIndex(index: U32) | Imm32(value: I32) {
    function Kind(): OperandKind
    {
      match this
      case Register(_) => RegisterKind
      case ConstIndex(_) => ConstIndexKind
      case Imm32(_) => Imm32Kind
    }
  }

  /** One decoded instruction; `pc` is only meaningful after decoding. */
  datatype Instruction = Instruction(pc: U32, op: Op, operands: seq<Operand>)

  datatype OperandShape =
    | Fixed(prefix: seq<OperandKind>)
    | Variadic(prefix: seq<OperandKind>, countIndex: nat, tail: OperandKind)
  {
    /** The counted tail's length sits in an unsigned prefix operand. */
    predicate Valid()
    {
      Variadic? ==> countIndex < |prefix| && prefix[countIndex] == ConstIndexKind
    }
  }

  datatype SuccessorSpec = Fallthrough | RelativeTarget(operandIndex: nat) | FrameReturn

  datatype ExceptionSuccessorSpec =
    | OptionalRelativeTarget(operandIndex: nat, absentValue: I32)
    | DynamicFrameHandlerOrCaller
    | ResumeParkedAbruptCompletion
    | RunFinallyHandlersToFloor(floorOperandIndex: nat)

  datatype OperandShapeError =
    | CountMismatch(expected: nat, actual: nat)
    | KindMismatch(index: nat, expectedKind: OperandKind, actualKind: OperandKind)

  /** A table of opcode metadata, one entry per opcode in each column. */
  datatype Schema = Schema(
    shape: Op -> OperandShape,
    successors: Op -> seq<SuccessorSpec>,
    exceptions: Op -> seq<ExceptionSuccessorSpec>,
    branchSlots: Op -> seq<nat>)
  {
    /** Operand `i` of `op` holds a relative target according to the successor columns. */
    predicate IsTargetSlot(op: Op, i: nat)
    {
      || RelativeTarget(i) in successors(op)
      || OptionalRelativeTarget(i, NO_HANDLER_OFFSET) in exceptions(op)
    }

    /** Operand `i` of `op` is a signed immediate in a fixed shape. */
    predicate IsFixedImmediate(op: Op, i: nat)
    {
      shape(op).Fixed? && i < |shape(op).prefix| && shape(op).prefix[i] == Imm32Kind
    }

    predicate ValidSuccessor(op: Op, spec: SuccessorSpec)
    {
      spec.RelativeTarget? ==> IsFixedImmediate(op, spec.operandIndex)
    }

    predicate ValidException(op: Op, spec: ExceptionSuccessorSpec)
    {
      && (spec.OptionalRelativeTarget? ==>
            IsFixedImmediate(op, spec.operandIndex) && spec.absentValue == NO_HANDLER_OFFSET)
      && (spec.RunFinallyHandlersToFloor? ==>
            IsFixedImmediate(op, spec.floorOperandIndex) && !IsTargetSlot(op, spec.floorOperandIndex))
    }

    /** One row is usable: every control-flow operand exists with the right kind, and the encoder's own
        list of operands to rewrite is the list the successor columns declare. */
    ghost predicate ValidRow(op: Op)
    {
      && shape(op).Valid()
      && (forall spec :: spec in successors(op) ==> ValidSuccessor(op, spec))
      && (forall spec :: spec in exceptions(op) ==> ValidException(op, spec))
      && (forall i: nat :: i in branchSlots(op) <==> IsTargetSlot(op, i))
    }

    ghost predicate Valid()
    {
      forall op :: ValidRow(op)
    }

    /** The kind the schema declares for one operand position. */
    function KindAt(op: Op, index: nat): (kind: Option<OperandKind>)
    {
      var s := shape(op);
      if index < |s.prefix| then Some(s.prefix[index])
      else if s.Variadic? then Some(s.tail) else None
    }

    /** Operands agree with the schema: every kind is the declared one and the length is the declared one. */
    predicate WellShaped(op: Op, operands: seq<Operand>)
    {
      && |shape(op).prefix| <= |operands|
      && (forall i :: 0 <= i < |operands| ==> KindAt(op, i) == Some(operands[i].Kind()))
      && (shape(op).Fixed? ==> |operands| == |shape(op).prefix|)
      && (shape(op).Variadic? && shape(op).countIndex < |operands| && operands[shape(op).countIndex].ConstIndex? ==>
            |operands| == |shape(op).prefix| + operands[shape(op).countIndex].index)
    }
  }

  lemma {:induction false} RowShape(s: Schema, op: Op)
    requires s.Valid()
    ensures s.shape(op).Valid()
  {
    assert s.ValidRow(op);
  }

  /** Compare operand kinds with the declared ones on positions `at` to `to`, reporting the first mismatch.
      The prefix is compared position by position and the tail against one repeated kind, which is `KindAt`. */
  function VerifyOperandSpecs(s: Schema, op: Op, operands: seq<Operand>, at: nat, to: nat)
    : (r: Result<(), OperandShapeError>)
    requires at <= to <= |operands|
    requires to <= |s.shape(op).prefix| || s.shape(op).Variadic?
    decreases |operands| - at
  {
    if at == to then Ok(())
    else
      var want, actual := s.KindAt(op, at).value, operands[at].Kind();
      if actual != want then Err(KindMismatch(at, want, actual))
      else VerifyOperandSpecs(s, op, operands, at + 1, to)
  }

  /** `r` reports the first operand at or after `from` whose kind is not the one the schema declares, or none. */
  predicate ReportsFirstMismatch(s: Schema, op: Op, operands: seq<Operand>, from: nat, to: nat,
                                 r: Result<(), OperandShapeError>)
    requires from <= to <= |operands|
  {
    match r
    case Ok(_) => forall i :: from <= i < to ==> s.KindAt(op, i) == Some(operands[i].Kind())
    case Err(KindMismatch(at, want, actual)) =>
      && from <= at < to && s.KindAt(op, at) == Some(want) && want != operands[at].Kind() == actual
      && forall i :: from <= i < at ==> s.KindAt(op, i) == Some(operands[i].Kind())
    case Err(_) => false
  }

  lemma {:induction false} SpecsVerdict(s: Schema, op: Op, operands: seq<Operand>, at: nat, to: nat)
    requires at <= to <= |operands|
    requires to <= |s.shape(op).prefix| || s.shape(op).Variadic?
    ensures ReportsFirstMismatch(s, op, operands, at, to, VerifyOperandSpecs(s, op, operands, at, to))
    decreases |operands| - at
  {
    if at < to && s.KindAt(op, at) == Some(operands[at].Kind()) {
      SpecsVerdict(s, op, operands, at + 1, to);
    }
  }

  /** Check one instruction's operands, reporting the first violation in the order count, prefix kinds,
      tail length, tail kinds. */
  function VerifyOperandShape(s: Schema, op: Op, operands: seq<Operand>): (r: Result<(), OperandShapeError>)
    requires s.shape(op).Valid()
  {
    var shape := s.shape(op);
    var n := |shape.prefix|;
    if |operands| < n then Err(CountMismatch(n, |operands|))
    else
      var prefix := VerifyOperandSpecs(s, op, operands, 0, n);
      if prefix.Err? then prefix
      else if shape.Fixed? then
        if |operands| != n then Err(CountMismatch(n, |operands|)) else Ok(())
      else
        SpecsVerdict(s, op, operands, 0, n);
        assert s.KindAt(op, shape.countIndex) == Some(ConstIndexKind);
        var count := operands[shape.countIndex].index;
        if |operands| != n + count then Err(CountMismatch(n + count, |operands|))
        else VerifyOperandSpecs(s, op, operands, n, |operands|)
  }

  /** The checker accepts exactly the well-shaped operand lists. */
  lemma {:induction false} ShapeVerdict(s: Schema, op: Op, operands: seq<Operand>)
    requires s.shape(op).Valid()
    ensures VerifyOperandShape(s, op, operands).Ok? <==> s.WellShaped(op, operands)
  {
    var shape := s.shape(op);
    var n := |shape.prefix|;
    if n <= |operands| {
      SpecsVerdict(s, op, operands, 0, n);
      if shape.Variadic? {
        SpecsVerdict(s, op, operands, n, |operands|);
        assert s.KindAt(op, shape.countIndex) == Some(ConstIndexKind);
      }
    }
  }

  /** A kind error names the first operand whose kind is not the declared one. */
  lemma {:induction false} KindErrorIsFirst(s: Schema, op: Op, operands: seq<Operand>, at: nat, want: OperandKind,
                                            actual: OperandKind)
    requires s.shape(op).Valid()
    requires VerifyOperandShape(s, op, operands) == Err(KindMismatch(at, want, actual))
    ensures at < |operands| && s.KindAt(op, at) == Some(want) && want != operands[at].Kind() == actual
    ensures forall i :: 0 <= i < at ==> s.KindAt(op, i) == Some(operands[i].Kind())
  {
    var n := |s.shape(op).prefix|;
    SpecsVerdict(s, op, operands, 0, n);
    if VerifyOperandSpecs(s, op, operands, 0, n).Ok? {
      SpecsVerdict(s, op, operands, n, |operands|);
    }
  }

  /** A count error gives the actual number of operands and the number the row asks for: the prefix, or the prefix
      and as many as its count operand says. */
  lemma {:induction false} CountErrorIsExact(s: Schema, op: Op, operands: seq<Operand>, expected: nat, actual: nat)
    requires s.shape(op).Valid()
    requires VerifyOperandShape(s, op, operands) == Err(CountMismatch(expected, actual))
    ensures actual == |operands| != expected
    ensures var n := |s.shape(op).prefix|;
            if s.shape(op).Fixed? || actual < n then expected == n
            else
              var count := operands[s.shape(op).countIndex];
              count.ConstIndex? && expected == n + count.index
    ensures forall i :: 0 <= i < |s.shape(op).prefix| <= actual ==> s.KindAt(op, i) == Some(operands[i].Kind())
  {
    var n := |s.shape(op).prefix|;
    if n <= |operands| {
      SpecsVerdict(s, op, operands, 0, n);
      if s.shape(op).Variadic? {
        assert s.KindAt(op, s.shape(op).countIndex) == Some(ConstIndexKind);
        SpecsVerdict(s, op, operands, n, |operands|);
      }
    }
  }
}
