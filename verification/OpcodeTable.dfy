/** The schema table shipped with the engine: operand shape and control-flow successors of every opcode. */
module OpcodeTable {
  import opened Prelude
  import opened OpcodeSchema

  /** Operand kinds and count of each opcode; register data-flow roles are not represented. */
  function OperandShapeOf(op: Op): (shape: OperandShape)
  {
    match op
    // Nop LeaveTry EndFinally ReturnUndefined GeneratorStart
    case 0x00 | 0x3B | 0x3C | 0x49 | 0x7E =>
      Fixed([])
    // LoadUndefined LoadHole Return LoadTrue LoadFalse LoadNull LoadThis LoadNewTarget Throw CollectRest
    // ReturnValue NewObject LoadGlobalThis CollectArguments IteratorClose IteratorCloseStart IteratorCloseEnd
    // BindThisValue
    case 0x01 | 0x02 | 0x03 | 0x0C | 0x0D | 0x26 | 0x37 | 0x38 | 0x39 | 0x47 | 0x48 | 0x4A | 0x58 | 0x5A |
         0x7B | 0x7C | 0x7D | 0x80 =>
      Fixed([RegisterKind])
    // LoadString LoadNumber LoadBigInt LoadRegExp MakeFunction MathLoad LoadGlobalOrThrow
    // LoadGlobalOrUndefined ImportNamespace TemporalLoad SymbolLoad LoadBuiltinError ImportNamespaceDeferred
    // EvaluateModule ModuleNamespaceObject LoadDynamic StoreDynamic TypeofDynamic InitGlobalLex
    // GetTemplateObject DeleteDynamic NewPrivateName GlobalBindingExists
    case 0x04 | 0x05 | 0x07 | 0x08 | 0x30 | 0x46 | 0x59 | 0x5B | 0x5F | 0x61 | 0x65 | 0x6E | 0x87 | 0x88 |
         0x8B | 0x8F | 0x90 | 0x91 | 0x95 | 0xA3 | 0xA4 | 0xA5 | 0xAA =>
      Fixed([RegisterKind, ConstIndexKind])
    // LoadInt32 LoadLocal StoreLocal LoadUpvalue StoreUpvalue StoreUpvalueChecked
    case 0x06 | 0x2D | 0x2E | 0x32 | 0x33 | 0x8D =>
      Fixed([RegisterKind, Imm32Kind])
    // QueueMicrotask NewArray NewFunction ArrayConstruct ArrayFrom ArrayOf
    case 0x09 | 0x50 | 0x57 | 0x70 | 0x71 | 0x72 =>
      Variadic([RegisterKind, ConstIndexKind], 1, RegisterKind)
    // PromiseNew GetStringIndex Add Sub Mul Div Rem Pow BitwiseAnd BitwiseOr BitwiseXor Shl Shr Ushr Equal
    // NotEqual LessThan LessEq GreaterThan GreaterEq IteratorNext NewSpread SuperConstructSpread LoadElement
    // StoreElement HasProperty Instanceof DeleteElement SameValue LooseEqual LooseNotEqual DefineOwnProperty
    // LoadSuperElement SetSuperElement PrivateGet PrivateSet YieldDelegate DefineDataProperty
    case 0x0A | 0x0F | 0x11 | 0x12 | 0x13 | 0x14 | 0x15 | 0x17 | 0x18 | 0x19 | 0x1A | 0x1C | 0x1D | 0x1E |
         0x20 | 0x21 | 0x22 | 0x23 | 0x24 | 0x25 | 0x3F | 0x43 | 0x44 | 0x51 | 0x52 | 0x54 | 0x55 | 0x67 |
         0x69 | 0x6B | 0x6C | 0x7A | 0x82 | 0x84 | 0x99 | 0x9A | 0x9B | 0x9C =>
      Fixed([RegisterKind, RegisterKind, RegisterKind])
    // PromiseCall BigIntCall ArrayBufferCall DataViewCall SharedArrayBufferCall MathCall
    case 0x0B | 0x6F | 0x73 | 0x74 | 0x76 | 0xA6 =>
      Variadic([RegisterKind, ConstIndexKind, ConstIndexKind], 2, RegisterKind)
    // LoadLength Neg BitwiseNot ToNumber LogicalNot ToBoolean NewError GetIterator ArrayPush GetPrototype
    // SetPrototype ArrayLength ImportMetaResolve ImportNamespaceDynamic PromiseFulfilledOf NewWeakRef
    // NewFinalizationRegistry TypeOf Await IsArray Yield ForInKeys CopyDataProperties GetAsyncIterator
    // StarReexport ToObject ToNumeric ToPropertyKey PrivateBrandCheck IsEvalIntrinsic
    case 0x0E | 0x16 | 0x1B | 0x1F | 0x27 | 0x28 | 0x3D | 0x3E | 0x40 | 0x4E | 0x4F | 0x53 | 0x5D | 0x5E |
         0x60 | 0x63 | 0x64 | 0x66 | 0x68 | 0x6A | 0x75 | 0x78 | 0x79 | 0x7F | 0x8A | 0x97 | 0x98 | 0x9F |
         0xA1 | 0xA8 =>
      Fixed([RegisterKind, RegisterKind])
    // CallMethodValue
    case 0x10 =>
      Variadic([RegisterKind, RegisterKind, ConstIndexKind, ConstIndexKind], 3, RegisterKind)
    // Jump TdzError FreshUpvalue PopParkedFinally
    case 0x29 | 0x2F | 0x86 | 0xA9 =>
      Fixed([Imm32Kind])
    // JumpIfTrue JumpIfFalse JumpIfNullish ClassCheck
    case 0x2A | 0x2B | 0x2C | 0x9E =>
      Fixed([Imm32Kind, RegisterKind])
    // MakeClosure
    case 0x31 =>
      Variadic([RegisterKind, ConstIndexKind, ConstIndexKind], 2, Imm32Kind)
    // Call New TailCall
    case 0x34 | 0x42 | 0xA7 =>
      Variadic([RegisterKind, RegisterKind, ConstIndexKind], 2, RegisterKind)
    // CallWithThis BindFunction
    case 0x35 | 0x36 =>
      Variadic([RegisterKind, RegisterKind, RegisterKind, ConstIndexKind], 3, RegisterKind)
    // EnterTry
    case 0x3A =>
      Fixed([Imm32Kind, Imm32Kind, RegisterKind])
    // CallSpread
    case 0x41 =>
      Fixed([RegisterKind, RegisterKind, RegisterKind, RegisterKind])
    // MakeClass
    case 0x45 =>
      Fixed([RegisterKind, RegisterKind, RegisterKind, RegisterKind, RegisterKind])
    // LoadProperty DeleteProperty ToPrimitive LoadSuperProperty SetFunctionName
    case 0x4B | 0x4D | 0x77 | 0x81 | 0x9D =>
      Fixed([RegisterKind, RegisterKind, ConstIndexKind])
    // StoreProperty
    case 0x4C =>
      Fixed([RegisterKind, ConstIndexKind, RegisterKind, RegisterKind])
    // Eval Increment AddImm SubImm BitwiseAndImm LessThanImm EqualImm NotEqualImm
    case 0x56 | 0xA0 | 0xAC | 0xAD | 0xAE | 0xAF | 0xB0 | 0xB1 =>
      Fixed([RegisterKind, RegisterKind, Imm32Kind])
    // DefineGlobalVar
    case 0x5C =>
      Fixed([ConstIndexKind, RegisterKind])
    // NewCollection NewBuiltinError SetSuperProperty StoreGlobalChecked
    case 0x62 | 0x6D | 0x83 | 0xAB =>
      Fixed([RegisterKind, ConstIndexKind, RegisterKind])
    // JumpViaFinally
    case 0x85 =>
      Fixed([Imm32Kind, Imm32Kind])
    // MarkModuleEvaluated
    case 0x89 =>
      Fixed([ConstIndexKind])
    // LoadImportBinding
    case 0x8C =>
      Fixed([RegisterKind, ConstIndexKind, ConstIndexKind])
    // DeclareGlobalVar DeclareGlobalLex ValidateGlobalDecl
    case 0x8E | 0x93 | 0x96 =>
      Fixed([ConstIndexKind, Imm32Kind])
    // DefineGlobalFunction
    case 0x92 =>
      Fixed([ConstIndexKind, RegisterKind, Imm32Kind])
    // StoreGlobalBinding LoadShadowedUpvalue
    case _ =>
      Fixed([RegisterKind, ConstIndexKind, Imm32Kind])
  }

  function SuccessorsOf(op: Op): (successors: seq<SuccessorSpec>)
  {
    match op
    // Jump JumpViaFinally
    case 0x29 | 0x85 =>
      [RelativeTarget(0)]
    // JumpIfTrue JumpIfFalse JumpIfNullish
    case 0x2A | 0x2B | 0x2C =>
      [RelativeTarget(0), Fallthrough]
    // Return ReturnValue ReturnUndefined
    case 0x03 | 0x48 | 0x49 =>
      [FrameReturn]
    // TailCall
    case 0xA7 =>
      [FrameReturn, Fallthrough]
    // Throw
    case 0x39 =>
      []
    case _ => [Fallthrough]
  }

  /** Exception edges: try handlers, explicit unwinding, and the generic edge of every opcode that may throw. */
  function ExceptionSuccessorsOf(op: Op): (successors: seq<ExceptionSuccessorSpec>)
  {
    match op
    // EnterTry
    case 0x3A =>
      [OptionalRelativeTarget(0, NO_HANDLER_OFFSET), OptionalRelativeTarget(1, NO_HANDLER_OFFSET)]
    // EndFinally
    case 0x3C =>
      [ResumeParkedAbruptCompletion]
    // JumpViaFinally
    case 0x85 =>
      [RunFinallyHandlersToFloor(1)]
    // PopParkedFinally Nop LoadUndefined LoadHole LoadTrue LoadFalse LoadNull LoadLocal StoreLocal LoadThis
    // LoadNewTarget Jump JumpIfTrue JumpIfFalse JumpIfNullish LeaveTry Return ReturnValue ReturnUndefined
    case 0xA9 | 0x00 | 0x01 | 0x02 | 0x0C | 0x0D | 0x26 | 0x2D | 0x2E | 0x37 | 0x38 | 0x29 | 0x2A | 0x2B |
         0x2C | 0x3B | 0x03 | 0x48 | 0x49 =>
      []
    case _ => [DynamicFrameHandlerOrCaller]
  }

  /** The operand slots the encoder rewrites from instruction deltas to byte deltas. */
  function BranchSlotsOf(op: Op): (slots: seq<nat>)
  {
    match op
    // Jump JumpIfTrue JumpIfFalse JumpIfNullish JumpViaFinally
    case 0x29 | 0x2A | 0x2B | 0x2C | 0x85 =>
      [0]
    // EnterTry
    case 0x3A =>
      [0, 1]
    case _ => []
  }

  const OTTER: Schema := Schema(OperandShapeOf, SuccessorsOf, ExceptionSuccessorsOf, BranchSlotsOf)

  lemma {:induction false} ShapeIsValid(op: Op)
    ensures OperandShapeOf(op).Valid()
  {
  }

  lemma {:induction false} BranchRow(s: Schema, op: Op)
    requires s.shape(op).Fixed? && |s.shape(op).prefix| > 0 && s.shape(op).prefix[0] == Imm32Kind
    requires s.successors(op) == [RelativeTarget(0)] || s.successors(op) == [RelativeTarget(0), Fallthrough]
    requires s.exceptions(op) == [] && s.branchSlots(op) == [0]
    ensures s.ValidRow(op)
  {
  }

  lemma {:induction false} PlainRow(s: Schema, op: Op)
    requires s.shape(op).Valid() && s.branchSlots(op) == []
    requires forall spec :: spec in s.successors(op) ==> !spec.RelativeTarget?
    requires forall spec :: spec in s.exceptions(op) ==>
               !spec.OptionalRelativeTarget? && !spec.RunFinallyHandlersToFloor?
    ensures s.ValidRow(op)
  {
  }

  lemma {:induction false} EnterTryRow(s: Schema, op: Op)
    requires s.shape(op).Fixed? && |s.shape(op).prefix| > 1
    requires s.shape(op).prefix[0] == s.shape(op).prefix[1] == Imm32Kind
    requires s.successors(op) == [Fallthrough] && s.branchSlots(op) == [0, 1]
    requires s.exceptions(op) ==
      [OptionalRelativeTarget(0, NO_HANDLER_OFFSET), OptionalRelativeTarget(1, NO_HANDLER_OFFSET)]
    ensures s.ValidRow(op)
  {
  }

  lemma {:induction false} JumpViaFinallyRow(s: Schema, op: Op)
    requires s.shape(op).Fixed? && |s.shape(op).prefix| > 1
    requires s.shape(op).prefix[0] == s.shape(op).prefix[1] == Imm32Kind
    requires s.successors(op) == [RelativeTarget(0)] && s.branchSlots(op) == [0]
    requires s.exceptions(op) == [RunFinallyHandlersToFloor(1)]
    ensures s.ValidRow(op)
  {
  }

  lemma {:induction false} JumpRowIsValid()
    ensures OTTER.ValidRow(0x29)
  {
    assert OperandShapeOf(0x29) == Fixed([Imm32Kind]);
    BranchRow(OTTER, 0x29);
  }

  lemma {:induction false} ConditionalRowIsValid(op: Op)
    requires 0x2A <= op <= 0x2C
    ensures OTTER.ValidRow(op)
  {
    hide OperandShapeOf, SuccessorsOf, ExceptionSuccessorsOf, BranchSlotsOf;
    ConditionalShape(op);
    ConditionalFlow(op);
    BranchRow(OTTER, op);
  }

  lemma {:induction false} ConditionalShape(op: Op)
    requires 0x2A <= op <= 0x2C
    ensures OperandShapeOf(op) == Fixed([Imm32Kind, RegisterKind])
  {}

  lemma {:induction false} ConditionalFlow(op: Op)
    requires 0x2A <= op <= 0x2C
    ensures SuccessorsOf(op) == [RelativeTarget(0), Fallthrough]
    ensures ExceptionSuccessorsOf(op) == [] && BranchSlotsOf(op) == [0]
  {}

  lemma {:induction false} EnterTryRowIsValid()
    ensures OTTER.ValidRow(0x3A)
  {
    assert OperandShapeOf(0x3A) == Fixed([Imm32Kind, Imm32Kind, RegisterKind]);
    EnterTryRow(OTTER, 0x3A);
  }

  lemma {:induction false} JumpViaFinallyRowIsValid()
    ensures OTTER.ValidRow(0x85)
  {
    assert OperandShapeOf(0x85) == Fixed([Imm32Kind, Imm32Kind]);
    JumpViaFinallyRow(OTTER, 0x85);
  }

  lemma {:induction false} PlainRowIsValid(op: Op)
    requires op !in {0x29, 0x2A, 0x2B, 0x2C, 0x3A, 0x85}
    ensures OTTER.ValidRow(op)
  {
    ShapeIsValid(op);
    PlainRow(OTTER, op);
  }

  /** The shipped table is usable: every control-flow operand exists with the right kind, and the encoder's
      hard-coded branch slots are exactly the relative targets the successor columns declare. */
  lemma {:induction false} OtterIsValid()
    ensures OTTER.Valid()
  {
    forall op ensures OTTER.ValidRow(op) {
      if op == 0x29 {
        JumpRowIsValid();
      } else if 0x2A <= op <= 0x2C {
        ConditionalRowIsValid(op);
      } else if op == 0x3A {
        EnterTryRowIsValid();
      } else if op == 0x85 {
        JumpViaFinallyRowIsValid();
      } else {
        PlainRowIsValid(op);
      }
    }
  }

  // ----- Where control goes -----

  const RETURN: Op := 0x03
  const JUMP: Op := 0x29
  const JUMP_IF_TRUE: Op := 0x2A
  const JUMP_IF_FALSE: Op := 0x2B
  const JUMP_IF_NULLISH: Op := 0x2C
  const THROW: Op := 0x39
  const ENTER_TRY: Op := 0x3A
  const END_FINALLY: Op := 0x3C
  const RETURN_VALUE: Op := 0x48
  const RETURN_UNDEFINED: Op := 0x49
  const JUMP_VIA_FINALLY: Op := 0x85
  const TAIL_CALL: Op := 0xA7

  /** The five jumps take their target from operand 0; everything but an unconditional jump, a return and a throw
      goes on to the next instruction; only returns and tail calls leave the frame. */
  lemma {:induction false} OtterSuccessors(op: Op)
    ensures forall i: nat :: RelativeTarget(i) in SuccessorsOf(op) <==>
              i == 0 && op in {JUMP, JUMP_IF_TRUE, JUMP_IF_FALSE, JUMP_IF_NULLISH, JUMP_VIA_FINALLY}
    ensures Fallthrough in SuccessorsOf(op) <==>
            op !in {JUMP, JUMP_VIA_FINALLY, RETURN, RETURN_VALUE, RETURN_UNDEFINED, THROW}
    ensures FrameReturn in SuccessorsOf(op) <==> op in {RETURN, RETURN_VALUE, RETURN_UNDEFINED, TAIL_CALL}
  {}

  /** Only entering a try block names handlers, in operands 0 and 1, absent at the sentinel; only a jump through finally
      blocks has a floor, in operand 1. */
  lemma {:induction false} OtterHandlers(op: Op)
    ensures forall i: nat, absent :: OptionalRelativeTarget(i, absent) in ExceptionSuccessorsOf(op) <==>
              op == ENTER_TRY && i < 2 && absent == NO_HANDLER_OFFSET
    ensures forall i: nat :: RunFinallyHandlersToFloor(i) in ExceptionSuccessorsOf(op) <==>
              op == JUMP_VIA_FINALLY && i == 1
    ensures ResumeParkedAbruptCompletion in ExceptionSuccessorsOf(op) <==> op == END_FINALLY
  {}
}
