/**
  * The compiler's instruction store: up to four operand words inside the instruction record, longer operand lists in
  * one table shared by the whole function. Operand kinds are not stored; they come from the opcode schema.
  *
  * The store refines a plain list of opcodes and operands, and its layout is a function of that list.
  */
module Wordcode {
  import opened Prelude
  import opened OpcodeSchema
  import opened WireFormat

  const INLINE_OPERAND_WORDS: nat := 4
  const NO_OVERFLOW_OPERANDS: nat := 0xFFFF_FFFF

  // ----- Operand words -----

  function EncodeWord(o: Operand): (w: U32)
  {
    match o
    case Register(r) => r
    case ConstIndex(i) => i
    case Imm32(v) => ToUnsigned(v)
  }

  function DecodeWord(kind: OperandKind, w: U32): (o: Option<Operand>)
  {
    match kind
    case RegisterKind => if w < 0x1_0000 then Some(Register(w)) else None
    case ConstIndexKind => Some(ConstIndex(w))
    case Imm32Kind => Some(Imm32(ToSigned(w)))
  }

  /** The word of an operand: a register or index as it is, an immediate modulo 2^32. */
  lemma {:induction false} WordValue(o: Operand)
    ensures match o
            case Register(r) => EncodeWord(o) == r
            case ConstIndex(i) => EncodeWord(o) == i
            case Imm32(v) => EncodeWord(o) == v % 0x1_0000_0000
  {}

  /** A word decodes under its own kind to the operand it encodes, and an encoded operand determines its word. */
  lemma {:induction false} WordRoundTrip(o: Operand, kind: OperandKind, w: U32)
    ensures DecodeWord(o.Kind(), EncodeWord(o)) == Some(o)
    ensures DecodeWord(kind, w).Some? ==>
              EncodeWord(DecodeWord(kind, w).value) == w && DecodeWord(kind, w).value.Kind() == kind
  {}

  // ----- Storage -----

  datatype WordInstruction = WordInstruction(op: Op, operandCount: nat, inlineWords: seq<U32>, overflowOffset: nat)
  {
    predicate IsInline()
    {
      overflowOffset == NO_OVERFLOW_OPERANDS
    }

    function OperandWord(overflow: seq<U32>, index: nat): (w: Option<U32>)
    {
      if index >= operandCount then None
      else if IsInline() then
        if index < |inlineWords| then Some(inlineWords[index]) else None
      else if overflowOffset + index < |overflow| then Some(overflow[overflowOffset + index])
      else None
    }
  }

  /** A frozen function body. */
  datatype FunctionCode = FunctionCode(instructions: seq<WordInstruction>, overflow: seq<U32>)

  /** One operand of an instruction record, typed by the schema. */
  function ReadOperand(s: Schema, instr: WordInstruction, overflow: seq<U32>, index: nat): (o: Option<Operand>)
  {
    match instr.OperandWord(overflow, index)
    case None => None
    case Some(w) =>
      match s.KindAt(instr.op, index)
      case None => None
      case Some(kind) => DecodeWord(kind, w)
  }

  // ----- The list a body stands for, and its one layout -----

  datatype Entry = Entry(op: Op, operands: seq<Operand>) {
    predicate IsLong()
    {
      |operands| > INLINE_OPERAND_WORDS
    }
  }

  /** Operand kinds are the declared ones and the count fits a byte; the declared count may be violated. */
  predicate KindsOk(s: Schema, e: Entry)
  {
    && |e.operands| <= MAX_OPERANDS
    && forall k :: 0 <= k < |e.operands| ==> s.KindAt(e.op, k) == Some(e.operands[k].Kind())
  }

  function Words(operands: seq<Operand>): (words: seq<U32>)
    ensures |words| == |operands|
  {
    seq(|operands|, k requires 0 <= k < |operands| => EncodeWord(operands[k]))
  }

  function Zeros(n: nat): (words: seq<U32>)
    ensures |words| == n
  {
    seq(n, _ => 0)
  }

  /** The overflow table of the first `n` entries: the words of the long ones, in order. */
  function OverflowWords(list: seq<Entry>, n: nat): (words: seq<U32>)
    requires n <= |list|
  {
    if n == 0 then []
    else OverflowWords(list, n - 1) + if list[n - 1].IsLong() then Words(list[n - 1].operands) else []
  }

  function PackEntry(e: Entry, offset: nat): (instr: WordInstruction)
  {
    if e.IsLong() then WordInstruction(e.op, |e.operands|, Zeros(INLINE_OPERAND_WORDS), offset)
    else WordInstruction(e.op, |e.operands|, Words(e.operands) + Zeros(INLINE_OPERAND_WORDS - |e.operands|),
                         NO_OVERFLOW_OPERANDS)
  }

  function PackAt(list: seq<Entry>, i: nat): (instr: WordInstruction)
    requires i < |list|
  {
    PackEntry(list[i], |OverflowWords(list, i)|)
  }

  /** The canonical body of a list: unused inline slots are zero, and the table is the concatenation of the long
      lists. */
  function Pack(list: seq<Entry>): (code: FunctionCode)
  {
    FunctionCode(seq(|list|, i requires 0 <= i < |list| => PackAt(list, i)), OverflowWords(list, |list|))
  }

  ghost predicate Packable(s: Schema, list: seq<Entry>)
  {
    && (forall i :: 0 <= i < |list| ==> KindsOk(s, list[i]))
    && |list| <= U32_MAX + 1
    && Addressable(list)
  }

  /** Every long entry starts at an offset that is a `u32` other than the inline marker. */
  ghost predicate Addressable(list: seq<Entry>)
  {
    forall i :: 0 <= i < |list| && list[i].IsLong() ==> |OverflowWords(list, i)| < NO_OVERFLOW_OPERANDS
  }

  // ----- Reading -----

  lemma {:induction false} OverflowPrefix(a: seq<Entry>, b: seq<Entry>, n: nat)
    requires n <= |a| && n <= |b| && (forall i :: 0 <= i < n ==> a[i] == b[i])
    ensures OverflowWords(a, n) == OverflowWords(b, n)
  {
    if n > 0 {
      OverflowPrefix(a, b, n - 1);
    }
  }

  /** A long entry's words sit at its offset, whatever follows. */
  lemma {:induction false} OverflowAt(list: seq<Entry>, i: nat, n: nat)
    requires i < n <= |list| && list[i].IsLong()
    ensures var offset := |OverflowWords(list, i)|;
            && offset + |list[i].operands| <= |OverflowWords(list, n)|
            && forall k :: 0 <= k < |list[i].operands| ==>
                 OverflowWords(list, n)[offset + k] == EncodeWord(list[i].operands[k])
  {
    hide EncodeWord;
    if i < n - 1 {
      OverflowAt(list, i, n - 1);
    }
  }

  /** Reading any operand of a packed body gives the operand of the list, and reading past the end gives nothing. */
  lemma {:induction false} ReadPacked(s: Schema, list: seq<Entry>, i: nat, k: nat)
    requires Packable(s, list) && i < |list|
    ensures ReadOperand(s, Pack(list).instructions[i], Pack(list).overflow, k)
            == if k < |list[i].operands| then Some(list[i].operands[k]) else None
  {
    if k < |list[i].operands| {
      WordRoundTrip(list[i].operands[k], RegisterKind, 0);
      hide EncodeWord, DecodeWord;
      if list[i].IsLong() {
        OverflowAt(list, i, |list|);
      }
    }
  }

  /** Two frozen bodies are equal exactly when the lists they stand for are. */
  lemma {:induction false} PackIsInjective(s: Schema, a: seq<Entry>, b: seq<Entry>)
    requires Packable(s, a) && Packable(s, b)
    ensures Pack(a) == Pack(b) <==> a == b
  {
    if Pack(a) == Pack(b) {
      assert |a| == |Pack(a).instructions| == |b|;
      forall i | 0 <= i < |a| ensures a[i] == b[i] {
        assert Pack(a).instructions[i] == PackAt(a, i) && Pack(b).instructions[i] == PackAt(b, i);
        forall k | 0 <= k < |a[i].operands| ensures a[i].operands[k] == b[i].operands[k] {
          ReadPacked(s, a, i, k);
          ReadPacked(s, b, i, k);
        }
      }
    }
  }

  // ----- In-place updates -----

  function SetEntry(list: seq<Entry>, i: nat, k: nat, o: Operand): (r: seq<Entry>)
    requires i < |list| && k < |list[i].operands|
  {
    list[i := list[i].(operands := list[i].operands[k := o])]
  }

  lemma {:induction false} WordsUpdate(operands: seq<Operand>, k: nat, o: Operand)
    requires k < |operands|
    ensures Words(operands[k := o]) == Words(operands)[k := EncodeWord(o)]
  {
    hide EncodeWord;
  }

  lemma {:induction false} OverflowSame(list: seq<Entry>, i: nat, k: nat, o: Operand, n: nat)
    requires i < |list| && k < |list[i].operands| && n <= |list| && (n <= i || !list[i].IsLong())
    ensures OverflowWords(SetEntry(list, i, k, o), n) == OverflowWords(list, n)
  {
    hide Words;
    if n > 0 {
      OverflowSame(list, i, k, o, n - 1);
    }
  }

  lemma {:induction false} OverflowUpdate(list: seq<Entry>, i: nat, k: nat, o: Operand, n: nat)
    requires i < n <= |list| && k < |list[i].operands| && list[i].IsLong()
    ensures |OverflowWords(list, i)| + k < |OverflowWords(list, n)|
    ensures OverflowWords(SetEntry(list, i, k, o), n) ==
            OverflowWords(list, n)[|OverflowWords(list, i)| + k := EncodeWord(o)]
  {
    hide Words, EncodeWord;
    if n == i + 1 {
      OverflowSame(list, i, k, o, i);
      WordsUpdate(list[i].operands, k, o);
    } else {
      OverflowUpdate(list, i, k, o, n - 1);
    }
  }

  lemma {:induction false} OverflowSameLength(list: seq<Entry>, i: nat, k: nat, o: Operand, n: nat)
    requires i < |list| && k < |list[i].operands| && n <= |list|
    ensures |OverflowWords(SetEntry(list, i, k, o), n)| == |OverflowWords(list, n)|
  {
    hide OverflowWords;
    if i < n && list[i].IsLong() {
      OverflowUpdate(list, i, k, o, n);
    } else {
      OverflowSame(list, i, k, o, n);
    }
  }

  /** Changing one operand changes one word: in its own record when inline, in the shared table when long. */
  lemma {:induction false} PackUpdate(list: seq<Entry>, i: nat, k: nat, o: Operand)
    requires i < |list| && k < |list[i].operands|
    ensures var code, changed := Pack(list), Pack(SetEntry(list, i, k, o));
            if list[i].IsLong() then
              && |OverflowWords(list, i)| + k < |code.overflow|
              && changed.instructions == code.instructions
              && changed.overflow == code.overflow[|OverflowWords(list, i)| + k := EncodeWord(o)]
            else
              && changed.overflow == code.overflow
              && changed.instructions == code.instructions[i := code.instructions[i].(
                   inlineWords := code.instructions[i].inlineWords[k := EncodeWord(o)])]
  {
    hide EncodeWord, OverflowWords;
    var changed := SetEntry(list, i, k, o);
    if list[i].IsLong() {
      OverflowUpdate(list, i, k, o, |list|);
    } else {
      OverflowSame(list, i, k, o, |list|);
    }
    forall j | 0 <= j < |list| ensures |OverflowWords(changed, j)| == |OverflowWords(list, j)| {
      OverflowSameLength(list, i, k, o, j);
    }
    assert forall j :: 0 <= j < |list| && j != i ==> PackAt(changed, j) == PackAt(list, j);
    if !list[i].IsLong() {
      var pad := Zeros(INLINE_OPERAND_WORDS - |list[i].operands|);
      assert Words(changed[i].operands) == Words(list[i].operands)[k := EncodeWord(o)];
      assert Words(changed[i].operands) + pad == (Words(list[i].operands) + pad)[k := EncodeWord(o)];
    }
  }

  lemma {:induction false} PackAppend(list: seq<Entry>, e: Entry)
    ensures Pack(list + [e]) == FunctionCode(
              Pack(list).instructions + [PackEntry(e, |Pack(list).overflow|)],
              Pack(list).overflow + if e.IsLong() then Words(e.operands) else [])
  {
    hide EncodeWord, OverflowWords;
    var all := list + [e];
    forall i | 0 <= i <= |list| ensures OverflowWords(all, i) == OverflowWords(list, i) {
      OverflowPrefix(list, all, i);
    }
    OverflowLast(all);
    assert Pack(all).instructions == Pack(list).instructions + [PackEntry(e, |Pack(list).overflow|)];
  }

  lemma {:induction false} OverflowLast(list: seq<Entry>)
    requires list != []
    ensures var n := |list| - 1;
            OverflowWords(list, |list|) ==
              OverflowWords(list, n) + if list[n].IsLong() then Words(list[n].operands) else []
  {}

  // ----- The builder -----

  lemma {:induction false} PackableAppend(s: Schema, list: seq<Entry>, e: Entry)
    requires Packable(s, list) && KindsOk(s, e) && |list| <= U32_MAX
    requires e.IsLong() ==> |Pack(list).overflow| < NO_OVERFLOW_OPERANDS
    ensures Packable(s, list + [e])
  {
    hide OverflowWords, KindsOk;
    forall i | 0 <= i <= |list| ensures OverflowWords(list + [e], i) == OverflowWords(list, i) {
      OverflowPrefix(list, list + [e], i);
    }
  }

  lemma {:induction false} PackableUpdate(s: Schema, list: seq<Entry>, i: nat, k: nat, o: Operand)
    requires Packable(s, list) && i < |list| && k < |list[i].operands| && o.Kind() == list[i].operands[k].Kind()
    ensures Packable(s, SetEntry(list, i, k, o))
  {
    hide OverflowWords;
    forall j | 0 <= j < |list| ensures |OverflowWords(SetEntry(list, i, k, o), j)| == |OverflowWords(list, j)| {
      OverflowSameLength(list, i, k, o, j);
    }
  }

  lemma {:induction false} KindsCount(s: Schema, e: Entry)
    requires KindsOk(s, e)
    ensures |e.operands| <= MAX_OPERANDS
  {}

  /** Overwriting one operand of a well-shaped instruction keeps its shape, except that a counted list must keep its
      count: changing the count operand leaves an instruction that can no longer be re-pushed. */
  lemma {:induction false} ShapeAfterUpdate(s: Schema, op: Op, operands: seq<Operand>, k: nat, o: Operand)
    requires s.shape(op).Valid() && s.WellShaped(op, operands)
    requires k < |operands| && o.Kind() == operands[k].Kind()
    ensures s.WellShaped(op, operands[k := o]) <==>
            (s.shape(op).Variadic? && k == s.shape(op).countIndex ==> o == operands[k])
  {
    var changed := operands[k := o];
    if s.shape(op).Variadic? {
      var c := s.shape(op).countIndex;
      assert s.KindAt(op, c) == Some(operands[c].Kind());
    }
  }

  /** Mutable construction of a function body. `Contents` is the list the storage stands for. */
  class FunctionCodeBuilder {
    var instructions: seq<WordInstruction>
    var overflow: seq<U32>
    ghost var Contents: seq<Entry>

    ghost predicate Valid(s: Schema)
      reads this
    {
      Packable(s, Contents) && FunctionCode(instructions, overflow) == Pack(Contents)
    }

    constructor (ghost s: Schema)
      ensures Valid(s) && Contents == []
    {
      instructions, overflow, Contents := [], [], [];
    }

    /** Re-open a frozen body. */
    constructor Reopen(ghost s: Schema, code: FunctionCode, ghost list: seq<Entry>)
      requires Packable(s, list) && code == Pack(list)
      ensures Valid(s) && Contents == list
    {
      instructions, overflow, Contents := code.instructions, code.overflow, list;
    }

    /** Append one well-shaped instruction and return its index. */
    method Push(ghost s: Schema, op: Op, operands: seq<Operand>) returns (pc: U32)
      requires Valid(s) && s.WellShaped(op, operands) && |operands| <= MAX_OPERANDS
      requires |Contents| <= U32_MAX
      requires |operands| > INLINE_OPERAND_WORDS ==> |overflow| < NO_OVERFLOW_OPERANDS
      modifies this
      ensures Valid(s) && Contents == old(Contents) + [Entry(op, operands)] && pc == old(|Contents|)
      ensures |overflow| == old(|overflow|) + if |operands| > INLINE_OPERAND_WORDS then |operands| else 0
    {
      hide EncodeWord, OverflowWords, Packable;
      ghost var e := Entry(op, operands);
      assert |Contents| == |instructions|;
      assert KindsOk(s, e);
      PackableAppend(s, Contents, e);
      PackAppend(Contents, e);
      pc := |instructions|;
      var inlineWords := Zeros(INLINE_OPERAND_WORDS);
      var offset: nat := NO_OVERFLOW_OPERANDS;
      if |operands| <= INLINE_OPERAND_WORDS {
        for k := 0 to |operands|
          invariant inlineWords == Words(operands[..k]) + Zeros(INLINE_OPERAND_WORDS - k)
        {
          inlineWords := inlineWords[k := EncodeWord(operands[k])];
        }
        assert operands[..|operands|] == operands;
      } else {
        offset := |overflow|;
        overflow := overflow + Words(operands);
      }
      instructions := instructions + [WordInstruction(op, |operands|, inlineWords, offset)];
      Contents := Contents + [e];
    }

    /** One operand of the body under construction, or nothing past the end. */
    method Operand(s: Schema, pc: nat, index: nat) returns (o: Option<Operand>)
      requires Valid(s)
      ensures o == (if pc < |Contents| && index < |Contents[pc].operands| then Some(Contents[pc].operands[index])
                    else None)
    {
      hide ReadOperand, OverflowWords;
      if pc >= |instructions| { return None; }
      ReadPacked(s, Contents, pc, index);
      return ReadOperand(s, instructions[pc], overflow, index);
    }

    /** Overwrite one operand by another of the same kind. Exactly that operand of that instruction changes. */
    method SetOperand(s: Schema, pc: nat, index: nat, operand: Operand) returns (ok: bool)
      requires Valid(s)
      modifies this
      ensures Valid(s)
      ensures ok <==> pc < |old(Contents)| && index < |old(Contents)[pc].operands|
                      && operand.Kind() == old(Contents)[pc].operands[index].Kind()
      ensures Contents == if ok then SetEntry(old(Contents), pc, index, operand) else old(Contents)
    {
      hide EncodeWord, OverflowWords;
      if pc >= |instructions| { return false; }
      var instr := instructions[pc];
      assert instr == PackAt(Contents, pc) && KindsOk(s, Contents[pc]);
      if index >= instr.operandCount { return false; }
      var expected := s.KindAt(instr.op, index);
      if expected.None? || operand.Kind() != expected.value { return false; }
      PackUpdate(Contents, pc, index, operand);
      PackableUpdate(s, Contents, pc, index, operand);
      if Contents[pc].IsLong() { OverflowAt(Contents, pc, |Contents|); }
      var word := EncodeWord(operand);
      if instr.IsInline() {
        instructions := instructions[pc := instr.(inlineWords := instr.inlineWords[index := word])];
      } else {
        overflow := overflow[instr.overflowOffset + index := word];
      }
      Contents := SetEntry(Contents, pc, index, operand);
      return true;
    }

    /** All operands of one instruction, read back through the schema. */
    method DecodeOperands(s: Schema, pc: nat) returns (operands: seq<Operand>)
      requires Valid(s) && pc < |Contents|
      ensures operands == Contents[pc].operands
    {
      hide ReadOperand, OverflowWords;
      assert instructions[pc] == PackAt(Contents, pc);
      operands := [];
      for k := 0 to instructions[pc].operandCount
        invariant operands == Contents[pc].operands[..k]
      {
        ReadPacked(s, Contents, pc, k);
        operands := operands + [ReadOperand(s, instructions[pc], overflow, k).value];
      }
    }

    /** Replace one instruction by rebuilding the whole body, so the storage class may change. Rebuilding re-pushes
        every other instruction, so each must still have its declared shape. */
    method Replace(s: Schema, pc: nat, op: Op, operands: seq<Operand>) returns (ok: bool)
      requires Valid(s)
      requires pc < |Contents| ==>
                 && s.WellShaped(op, operands) && |operands| <= MAX_OPERANDS
                 && (forall i :: 0 <= i < |Contents| && i != pc ==> s.WellShaped(Contents[i].op, Contents[i].operands))
                 && Addressable(Contents[pc := Entry(op, operands)])
      modifies this
      ensures Valid(s) && (ok <==> pc < |old(Contents)|)
      ensures Contents == if ok then old(Contents)[pc := Entry(op, operands)] else old(Contents)
    {
      hide OverflowWords, Schema.WellShaped, KindsOk;
      if pc >= |instructions| { return false; }
      ghost var target := Contents[pc := Entry(op, operands)];
      var rebuilt := new FunctionCodeBuilder(s);
      for current := 0 to |instructions|
        invariant fresh(rebuilt) && rebuilt.Valid(s) && rebuilt.Contents == target[..current]
        invariant unchanged(this)
      {
        assert instructions[current] == PackAt(Contents, current) && KindsOk(s, Contents[current]);
        OverflowPrefix(target, target[..current], current);
        if current == pc {
          var _ := rebuilt.Push(s, op, operands);
        } else {
          var decoded := DecodeOperands(s, current);
          KindsCount(s, Contents[current]);
          var _ := rebuilt.Push(s, instructions[current].op, decoded);
        }
        assert target[..current + 1] == target[..current] + [target[current]];
      }
      assert target[..|target|] == target;
      instructions, overflow, Contents := rebuilt.instructions, rebuilt.overflow, target;
      return true;
    }

    /** Freeze the body. */
    method Finish(ghost s: Schema) returns (code: FunctionCode)
      requires Valid(s)
      ensures code == Pack(Contents)
    {
      return FunctionCode(instructions, overflow);
    }
  }
}
