/**
  * Decoding a byte stream back into instructions, and checking every byte target against the instruction boundaries.
  */
module Decoding {
  import opened Prelude
  import opened OpcodeSchema
  import opened ControlFlow
  import opened WireFormat
  import opened Encoding

  /** Instruction offsets are `u32`. */
  const MAX_CODE: int := 0x1_0000_0000

  /** The decode loop from offset `pc` on, having collected `out`. */
  function ParseInto(s: Schema, code: seq<Byte>, pc: nat, out: seq<Instruction>)
    : (r: Result<seq<Instruction>, DecodeError>)
    requires s.Valid() && pc <= |code| <= MAX_CODE
    decreases |code| - pc
  {
    if pc == |code| then Ok(out)
    else
      match ParseInstruction(s, code, pc)
      case Err(e) => Err(e)
      case Ok((instr, next)) =>
        WrittenIfRead(s, code, pc);
        ParseInto(s, code, next, out + [instr])
  }

  function Boundaries(instrs: seq<Instruction>): (boundaries: seq<U32>)
  {
    seq(|instrs|, i requires 0 <= i < |instrs| => instrs[i].pc)
  }

  function AtOffset(offset: nat, e: ControlError): (d: DecodeError)
  {
    match e
    case BadTarget(target) => DecodeError.InvalidTarget(offset, target)
    case BadFloor(operandIndex, value) => InvalidControlOperand(offset, operandIndex, value)
  }

  ghost predicate AllCheckable(s: Schema, instrs: seq<Instruction>)
  {
    forall i :: 0 <= i < |instrs| ==> Checkable(s, instrs[i].op, instrs[i].operands)
  }

  /** The first target error among instructions from `i` on, in a stream of `length` bytes. */
  function CheckBytes(s: Schema, instrs: seq<Instruction>, length: nat, i: nat): (e: Option<DecodeError>)
    requires AllCheckable(s, instrs) && i <= |instrs|
    decreases |instrs| - i
  {
    if i == |instrs| then None
    else
      var instr := instrs[i];
      match CheckControl(s, instr.op, instr.operands, instr.pc + 1, ByteSpace(Boundaries(instrs), length))
      case Some(e) => Some(AtOffset(instr.pc, e))
      case None => CheckBytes(s, instrs, length, i + 1)
  }

  /** `instrs` is the one way to read `code` as consecutive instructions. */
  ghost predicate Splits(s: Schema, instrs: seq<Instruction>, code: seq<Byte>)
  {
    && AllCountsFit(instrs)
    && (forall i :: 0 <= i < |instrs| ==> s.WellShaped(instrs[i].op, instrs[i].operands))
    && (forall i :: 0 <= i < |instrs| ==> instrs[i].pc == ByteOffset(instrs, i))
    && EmitAll(instrs) == code
  }

  ghost predicate TargetsOk(s: Schema, instrs: seq<Instruction>, length: nat)
    requires AllCheckable(s, instrs)
  {
    forall i :: 0 <= i < |instrs| ==>
      ControlOk(s, instrs[i].op, instrs[i].operands, instrs[i].pc + 1, ByteSpace(Boundaries(instrs), length))
  }

  lemma {:induction false} SplitsCheckable(s: Schema, instrs: seq<Instruction>, code: seq<Byte>)
    requires s.Valid() && Splits(s, instrs, code)
    ensures AllCheckable(s, instrs)
  {
    hide Schema.WellShaped, Schema.ValidRow, EmitFirst, ByteOffset;
    forall i | 0 <= i < |instrs| ensures Checkable(s, instrs[i].op, instrs[i].operands) {
      assert s.ValidRow(instrs[i].op);
    }
  }

  // ----- The parse loop splits the stream -----

  lemma {:induction false} ByteOffsetPrefix(a: seq<Instruction>, b: seq<Instruction>, i: nat)
    requires i <= |a| && i <= |b| && (forall j :: 0 <= j < i ==> a[j] == b[j])
    ensures ByteOffset(a, i) == ByteOffset(b, i)
  {
    if i > 0 {
      ByteOffsetPrefix(a, b, i - 1);
    }
  }

  lemma {:induction false} SplitsAppend(s: Schema, instrs: seq<Instruction>, code: seq<Byte>, instr: Instruction)
    requires Splits(s, instrs, code)
    requires |instr.operands| <= MAX_OPERANDS && s.WellShaped(instr.op, instr.operands) && instr.pc == |code|
    ensures Splits(s, instrs + [instr], code + Emit(instr))
  {
    hide Schema.WellShaped, Emit, InstructionSize, ByteOffset;
    var all := instrs + [instr];
    EmitFirstPrefix(instrs, all, |instrs|);
    assert EmitAll(all) == EmitFirst(all, |instrs|) + Emit(instr);
    forall i | 0 <= i < |all| ensures all[i].pc == ByteOffset(all, i) {
      ByteOffsetPrefix(instrs, all, i);
    }
  }

  /** Whatever the loop accepts is a split of the whole stream. */
  lemma {:induction false} ParseSplits(s: Schema, code: seq<Byte>, pc: nat, out: seq<Instruction>)
    requires s.Valid() && pc <= |code| <= MAX_CODE && Splits(s, out, code[..pc])
    requires ParseInto(s, code, pc, out).Ok?
    ensures Splits(s, ParseInto(s, code, pc, out).value, code)
    decreases |code| - pc
  {
    hide Splits, ParseInstruction, Emit, Schema.Valid, Schema.WellShaped;
    if pc == |code| {
      assert code[..pc] == code;
    } else {
      WrittenIfRead(s, code, pc);
      var (instr, next) := ParseInstruction(s, code, pc).value;
      SplitsAppend(s, out, code[..pc], instr);
      assert code[..pc] + Emit(instr) == code[..next];
      ParseSplits(s, code, next, out + [instr]);
    }
  }

  lemma {:induction false} EmitOccurs(instrs: seq<Instruction>, i: nat, n: nat)
    requires AllCountsFit(instrs) && i < n <= |instrs|
    ensures Occurs(EmitFirst(instrs, n), ByteOffset(instrs, i), Emit(instrs[i]))
  {
    hide Emit, InstructionSize;
    var before, last := EmitFirst(instrs, n - 1), Emit(instrs[n - 1]);
    if i < n - 1 {
      EmitOccurs(instrs, i, n - 1);
      SliceLeft(before, last, ByteOffset(instrs, i), |Emit(instrs[i])|);
    }
  }

  /** Instruction `n` of a split sits at its offset. */
  lemma {:induction false} SplitsAt(s: Schema, instrs: seq<Instruction>, code: seq<Byte>, n: nat)
    requires Splits(s, instrs, code) && n < |instrs|
    ensures |instrs[n].operands| <= MAX_OPERANDS && s.WellShaped(instrs[n].op, instrs[n].operands)
    ensures instrs[n].pc == ByteOffset(instrs, n)
    ensures ByteOffset(instrs, n + 1) == ByteOffset(instrs, n) + InstructionSize(instrs[n].operands) <= |code|
    ensures Occurs(code, ByteOffset(instrs, n), Emit(instrs[n]))
  {
    hide Emit, Schema.WellShaped, EmitFirst, Occurs;
    OffsetsIncrease(instrs, n + 1, |instrs|);
    EmitOccurs(instrs, n, |instrs|);
  }

  lemma {:induction false} ParseStep(s: Schema, code: seq<Byte>, pc: U32, out: seq<Instruction>, instr: Instruction,
                                     next: nat)
    requires s.Valid() && pc < |code| <= MAX_CODE && ParseInstruction(s, code, pc) == Ok((instr, next))
    ensures next <= |code| && ParseInto(s, code, pc, out) == ParseInto(s, code, next, out + [instr])
  {
    WrittenIfRead(s, code, pc);
    hide ParseInstruction, Schema.Valid, Emit;
  }

  lemma {:induction false} ParseEnd(s: Schema, instrs: seq<Instruction>, code: seq<Byte>)
    requires s.Valid() && |code| <= MAX_CODE && Splits(s, instrs, code)
    ensures ByteOffset(instrs, |instrs|) == |code|
    ensures ParseInto(s, code, |code|, instrs) == Ok(instrs)
  {
    hide ByteOffset, EmitFirst;
  }

  /** The loop finds every split of the stream. */
  lemma {:induction false} SplitParses(s: Schema, instrs: seq<Instruction>, code: seq<Byte>, n: nat)
    requires s.Valid() && |code| <= MAX_CODE && Splits(s, instrs, code) && n <= |instrs|
    ensures ByteOffset(instrs, n) <= |code|
    ensures ParseInto(s, code, ByteOffset(instrs, n), instrs[..n]) == Ok(instrs)
    decreases |instrs| - n
  {
    hide *;
    if n == |instrs| {
      assert instrs[..n] == instrs;
      ParseEnd(s, instrs, code);
    } else {
      SplitsAt(s, instrs, code, n);
      ReadWritten(s, code, ByteOffset(instrs, n), instrs[n]);
      ParseStep(s, code, ByteOffset(instrs, n), instrs[..n], instrs[n], ByteOffset(instrs, n + 1));
      assert instrs[..n] + [instrs[n]] == instrs[..n + 1];
      SplitParses(s, instrs, code, n + 1);
    }
  }

  lemma {:induction false} ParseVerdict(s: Schema, code: seq<Byte>)
    requires s.Valid() && |code| <= MAX_CODE
    ensures forall instrs :: ParseInto(s, code, 0, []) == Ok(instrs) <==> Splits(s, instrs, code)
  {
    hide ParseInto, Schema.Valid;
    if ParseInto(s, code, 0, []).Ok? {
      assert Splits(s, [], code[..0]);
      ParseSplits(s, code, 0, []);
    }
    forall instrs | Splits(s, instrs, code) ensures ParseInto(s, code, 0, []) == Ok(instrs) {
      SplitParses(s, instrs, code, 0);
      assert instrs[..0] == [];
    }
  }

  // ----- Decoding a function -----

  function Decode(s: Schema, code: seq<Byte>): (r: Result<seq<Instruction>, DecodeError>)
    requires s.Valid() && |code| <= MAX_CODE
  {
    match ParseInto(s, code, 0, [])
    case Err(e) => Err(e)
    case Ok(instrs) =>
      ParseVerdict(s, code);
      SplitsCheckable(s, instrs, code);
      match CheckBytes(s, instrs, |code|, 0)
      case Some(e) => Err(e)
      case None => Ok(instrs)
  }

  lemma {:induction false} BytesVerdict(s: Schema, instrs: seq<Instruction>, length: nat, i: nat)
    requires AllCheckable(s, instrs) && i <= |instrs|
    ensures CheckBytes(s, instrs, length, i).None? <==>
            forall j :: i <= j < |instrs| ==>
              ControlOk(s, instrs[j].op, instrs[j].operands, instrs[j].pc + 1, ByteSpace(Boundaries(instrs), length))
    decreases |instrs| - i
  {
    hide CheckControl, ControlOk, Boundaries, Checkable;
    if i < |instrs| {
      var instr := instrs[i];
      assert Checkable(s, instr.op, instr.operands);
      ControlVerdict(s, instr.op, instr.operands, instr.pc + 1, ByteSpace(Boundaries(instrs), length));
      BytesVerdict(s, instrs, length, i + 1);
    }
  }

  /** The error names the offset of instruction `j` and its first illegal target or negative floor. */
  ghost predicate ExplainsBytes(s: Schema, instrs: seq<Instruction>, length: nat, j: nat, e: DecodeError)
    requires j < |instrs|
  {
    var op, operands, space := instrs[j].op, instrs[j].operands, ByteSpace(Boundaries(instrs), length);
    match e
    case InvalidTarget(offset, target) =>
      offset == instrs[j].pc && FirstFault(s, op, operands, instrs[j].pc + 1, space, BadTarget(target))
    case InvalidControlOperand(offset, operandIndex, value) =>
      && offset == instrs[j].pc
      && FirstFault(s, op, operands, instrs[j].pc + 1, space, BadFloor(operandIndex, value))
    case _ => false
  }

  lemma {:induction false} BytesBlamed(s: Schema, instrs: seq<Instruction>, length: nat, i: nat) returns (j: nat)
    requires AllCheckable(s, instrs) && i <= |instrs| && CheckBytes(s, instrs, length, i).Some?
    ensures i <= j < |instrs| && ExplainsBytes(s, instrs, length, j, CheckBytes(s, instrs, length, i).value)
    ensures forall k :: i <= k < j ==>
              ControlOk(s, instrs[k].op, instrs[k].operands, instrs[k].pc + 1, ByteSpace(Boundaries(instrs), length))
    decreases |instrs| - i
  {
    hide CheckControl, ControlOk, Boundaries, Checkable, FirstFault;
    var instr, space := instrs[i], ByteSpace(Boundaries(instrs), length);
    assert Checkable(s, instr.op, instr.operands);
    ControlVerdict(s, instr.op, instr.operands, instr.pc + 1, space);
    if CheckControl(s, instr.op, instr.operands, instr.pc + 1, space).Some? {
      ControlBlamed(s, instr.op, instr.operands, instr.pc + 1, space);
      j := i;
    } else {
      j := BytesBlamed(s, instrs, length, i + 1);
    }
  }

  /** A stream that splits into instructions but is rejected is rejected for the first instruction, in order, with an
      illegal target or a negative floor, by its offset and with that target or floor. */
  lemma {:induction false} DecodeBlames(s: Schema, code: seq<Byte>, instrs: seq<Instruction>) returns (j: nat)
    requires s.Valid() && |code| <= MAX_CODE && Splits(s, instrs, code) && Decode(s, code).Err?
    ensures j < |instrs| && ExplainsBytes(s, instrs, |code|, j, Decode(s, code).error)
    ensures AllCheckable(s, instrs)
    ensures forall k :: 0 <= k < j ==>
              ControlOk(s, instrs[k].op, instrs[k].operands, instrs[k].pc + 1, ByteSpace(Boundaries(instrs), |code|))
  {
    hide ParseInto, CheckBytes, Splits, ControlOk, AllCheckable, Schema.Valid, ExplainsBytes;
    ParseVerdict(s, code);
    SplitsCheckable(s, instrs, code);
    j := BytesBlamed(s, instrs, |code|, 0);
  }

  /** A byte string decodes to `instrs` exactly when `instrs` serializes to it byte for byte, every instruction is
      well-shaped, every branch or present handler names an instruction start or the end, and every finally floor is
      non-negative. */
  lemma {:induction false} DecodeVerdict(s: Schema, code: seq<Byte>, instrs: seq<Instruction>)
    requires s.Valid() && |code| <= MAX_CODE
    ensures Decode(s, code) == Ok(instrs) <==>
            Splits(s, instrs, code) && AllCheckable(s, instrs) && TargetsOk(s, instrs, |code|)
  {
    ParseVerdict(s, code);
    hide ParseInto, CheckBytes, Splits, ControlOk, AllCheckable, Schema.Valid;
    if Splits(s, instrs, code) {
      SplitsCheckable(s, instrs, code);
      BytesVerdict(s, instrs, |code|, 0);
    }
  }

  ghost predicate StrictlySorted(a: seq<U32>)
  {
    forall i, j :: 0 <= i < j < |a| ==> a[i] < a[j]
  }

  method BinarySearch(a: seq<U32>, key: int) returns (found: bool)
    requires StrictlySorted(a)
    ensures found <==> key in a
  {
    var low, high := 0, |a|;
    while low < high
      invariant 0 <= low <= high <= |a|
      invariant forall i :: 0 <= i < low ==> a[i] < key
      invariant forall i :: high <= i < |a| ==> a[i] > key
    {
      var mid := (low + high) / 2;
      if a[mid] == key { return true; }
      if a[mid] < key { low := mid + 1; } else { high := mid; }
    }
    return false;
  }

  /** One target check: position tests plus a binary search over the collected boundaries. */
  method VerifyRelativeTarget(base: int, delta: I32, absent: Option<I32>, boundaries: seq<U32>, length: nat)
    returns (e: Option<ControlError>)
    requires StrictlySorted(boundaries)
    ensures e == CheckTarget(ByteSpace(boundaries, length), base, delta, absent)
  {
    if absent == Some(delta) { return None; }
    var target := base + delta;
    var valid := target == length;
    if !valid && 0 <= target < length {
      valid := BinarySearch(boundaries, target);
    }
    return if valid then None else Some(BadTarget(target));
  }

  method VerifyInstructionTargets(s: Schema, instr: Instruction, boundaries: seq<U32>, length: nat)
    returns (e: Option<ControlError>)
    requires StrictlySorted(boundaries) && Checkable(s, instr.op, instr.operands)
    ensures e == CheckControl(s, instr.op, instr.operands, instr.pc + 1, ByteSpace(boundaries, length))
  {
    hide Schema.WellShaped, CheckTarget, TargetSpace.Contains, Schema.IsFixedImmediate;
    ghost var space := ByteSpace(boundaries, length);
    var base := instr.pc + 1;
    var successors, exceptions := s.successors(instr.op), s.exceptions(instr.op);
    for k := 0 to |successors|
      invariant CheckSuccessors(s, instr.op, instr.operands, base, space, 0) ==
                CheckSuccessors(s, instr.op, instr.operands, base, space, k)
    {
      assert successors[k] in successors;
      if successors[k].RelativeTarget? {
        var delta := Immediate(s, instr.op, instr.operands, successors[k].operandIndex);
        e := VerifyRelativeTarget(base, delta, None, boundaries, length);
        if e.Some? { return; }
      }
    }
    for k := 0 to |exceptions|
      invariant CheckExceptions(s, instr.op, instr.operands, base, space, 0) ==
                CheckExceptions(s, instr.op, instr.operands, base, space, k)
    {
      assert exceptions[k] in exceptions;
      match exceptions[k]
      case OptionalRelativeTarget(i, absent) =>
        var delta := Immediate(s, instr.op, instr.operands, i);
        e := VerifyRelativeTarget(base, delta, Some(absent), boundaries, length);
        if e.Some? { return; }
      case RunFinallyHandlersToFloor(i) =>
        var floor := Immediate(s, instr.op, instr.operands, i);
        if floor < 0 { return Some(BadFloor(i, floor)); }
      case _ =>
    }
    return None;
  }

  lemma {:induction false} SplitsSorted(s: Schema, instrs: seq<Instruction>, code: seq<Byte>)
    requires Splits(s, instrs, code)
    ensures StrictlySorted(Boundaries(instrs))
  {
    hide Schema.WellShaped, EmitFirst;
    var boundaries := Boundaries(instrs);
    forall i, j | 0 <= i < j < |boundaries| ensures boundaries[i] < boundaries[j] {
      OffsetsIncrease(instrs, i, j);
    }
  }

  /** Decode a whole stream: the walk over the bytes, then the walk over the decoded targets. */
  method DecodeFunction(s: Schema, code: seq<Byte>) returns (r: Result<seq<Instruction>, DecodeError>)
    requires s.Valid() && |code| <= MAX_CODE
    ensures r == Decode(s, code)
  {
    hide Splits, ControlOk, CheckControl, Checkable, Schema.Valid, ParseInstruction, Emit;
    var out := [];
    var pc := 0;
    while pc < |code|
      invariant pc <= |code|
      invariant ParseInto(s, code, 0, []) == ParseInto(s, code, pc, out)
      decreases |code| - pc
    {
      var decoded := DecodeInstruction(s, code, pc);
      if decoded.Err? { return Err(decoded.error); }
      WrittenIfRead(s, code, pc);
      out := out + [decoded.value.0];
      pc := decoded.value.1;
    }
    ParseVerdict(s, code);
    SplitsCheckable(s, out, code);
    SplitsSorted(s, out, code);
    var boundaries := Boundaries(out);
    hide ParseInto;
    for i := 0 to |out|
      invariant CheckBytes(s, out, |code|, 0) == CheckBytes(s, out, |code|, i)
    {
      assert Checkable(s, out[i].op, out[i].operands);
      var e := VerifyInstructionTargets(s, out[i], boundaries, |code|);
      if e.Some? { return Err(AtOffset(out[i].pc, e.value)); }
    }
    return Ok(out);
  }
}
