/** Cutting a serialized stream: a cut inside an instruction is always noticed, a cut between instructions never is. */
module Truncation {
  import opened Prelude
  import opened OpcodeSchema
  import opened WireFormat
  import opened Encoding
  import opened Decoding

  /** Reading stopped for lack of bytes, after `pc` and no later than the cut. */
  predicate RanOut<T>(r: Result<T, DecodeError>, pc: nat, cut: nat)
  {
    r.Err? && r.error.UnexpectedEnd? && pc <= r.error.offset <= cut
  }

  lemma {:induction false} CutOperand(code: seq<Byte>, pc: nat, cut: nat)
    requires pc <= cut <= |code| && ParseOperand(code, pc).Ok?
    ensures if ParseOperand(code, pc).value.1 <= cut then ParseOperand(code[..cut], pc) == ParseOperand(code, pc)
            else RanOut(ParseOperand(code[..cut], pc), pc, cut)
  {
    hide FromLittleEndian16, FromLittleEndian32, ToSigned;
    if pc < cut {
      assert code[..cut][pc] == code[pc];
      if pc + 3 <= cut {
        assert code[..cut][pc + 1..pc + 3] == code[pc + 1..pc + 3];
      }
      if pc + 5 <= cut {
        assert code[..cut][pc + 1..pc + 5] == code[pc + 1..pc + 5];
      }
    }
  }

  lemma {:induction false} CutOperands(code: seq<Byte>, pc: nat, n: nat, cut: nat)
    requires pc <= cut <= |code| && ParseOperands(code, pc, n).Ok?
    ensures if ParseOperands(code, pc, n).value.1 <= cut
            then ParseOperands(code[..cut], pc, n) == ParseOperands(code, pc, n)
            else RanOut(ParseOperands(code[..cut], pc, n), pc, cut)
  {
    hide ParseOperand;
    if n > 0 {
      CutOperands(code, pc, n - 1, cut);
      var (init, cursor) := ParseOperands(code, pc, n - 1).value;
      WrittenIfReadOperands(code, pc, n - 1);
      WrittenIfReadOperand(code, cursor);
      if cursor <= cut {
        CutOperand(code, cursor, cut);
      }
    }
  }

  lemma {:induction false} CutInstruction(s: Schema, code: seq<Byte>, pc: U32, cut: nat)
    requires s.Valid() && pc < cut <= |code| && ParseInstruction(s, code, pc).Ok?
    ensures if ParseInstruction(s, code, pc).value.1 <= cut
            then ParseInstruction(s, code[..cut], pc) == ParseInstruction(s, code, pc)
            else RanOut(ParseInstruction(s, code[..cut], pc), pc + 1, cut)
  {
    hide ParseOperands, VerifyOperandShape, Schema.Valid;
    WrittenIfRead(s, code, pc);
    assert code[..cut][pc] == code[pc];
    if pc + 1 < cut {
      assert code[..cut][pc + 1] == code[pc + 1];
      CutOperands(code, pc + 2, code[pc + 1] as nat, cut);
    }
  }

  lemma {:induction false} CutPrefix(s: Schema, instrs: seq<Instruction>, code: seq<Byte>, i: nat, n: nat, cut: nat)
    requires s.Valid() && |code| <= MAX_CODE && Splits(s, instrs, code) && n <= i <= |instrs|
    requires ByteOffset(instrs, i) <= cut <= |code|
    ensures ByteOffset(instrs, n) <= cut
    ensures ParseInto(s, code[..cut], ByteOffset(instrs, n), instrs[..n])
            == ParseInto(s, code[..cut], ByteOffset(instrs, i), instrs[..i])
    decreases i - n
  {
    hide *;
    OffsetsIncrease(instrs, n, i);
    if n < i {
      OffsetsIncrease(instrs, n + 1, i);
      SplitsAt(s, instrs, code, n);
      ReadWritten(s, code, ByteOffset(instrs, n), instrs[n]);
      CutInstruction(s, code, ByteOffset(instrs, n), cut);
      ParseStep(s, code[..cut], ByteOffset(instrs, n), instrs[..n], instrs[n], ByteOffset(instrs, n + 1));
      assert instrs[..n] + [instrs[n]] == instrs[..n + 1];
      CutPrefix(s, instrs, code, i, n + 1, cut);
    }
  }

  lemma {:induction false} CutParse(s: Schema, instrs: seq<Instruction>, code: seq<Byte>, i: nat, cut: nat)
    requires s.Valid() && |code| <= MAX_CODE && Splits(s, instrs, code) && i <= |instrs|
    requires ByteOffset(instrs, i) <= cut <= |code|
    ensures ParseInto(s, code[..cut], 0, []) == ParseInto(s, code[..cut], ByteOffset(instrs, i), instrs[..i])
  {
    CutPrefix(s, instrs, code, i, 0, cut);
    assert instrs[..0] == [];
    assert ByteOffset(instrs, 0) == 0;
    hide *;
  }

  /** A stream cut between two instructions parses to the instructions before the cut. */
  lemma {:induction false} CutBetween(s: Schema, instrs: seq<Instruction>, code: seq<Byte>, i: nat)
    requires s.Valid() && |code| <= MAX_CODE && Splits(s, instrs, code) && i <= |instrs|
    ensures ByteOffset(instrs, i) <= |code|
    ensures ParseInto(s, code[..ByteOffset(instrs, i)], 0, []) == Ok(instrs[..i])
  {
    hide ByteOffset, ParseInstruction, Schema.Valid, Schema.WellShaped, EmitFirst;
    OffsetsIncrease(instrs, i, |instrs|);
    CutParse(s, instrs, code, i, ByteOffset(instrs, i));
  }

  lemma {:induction false} ParseStuck(s: Schema, code: seq<Byte>, pc: U32, out: seq<Instruction>)
    requires s.Valid() && pc < |code| <= MAX_CODE && ParseInstruction(s, code, pc).Err?
    ensures ParseInto(s, code, pc, out) == Err(ParseInstruction(s, code, pc).error)
  {
    hide ParseInstruction, Schema.Valid;
  }

  lemma {:induction false} DecodeStuck(s: Schema, code: seq<Byte>)
    requires s.Valid() && |code| <= MAX_CODE && ParseInto(s, code, 0, []).Err?
    ensures Decode(s, code) == Err(ParseInto(s, code, 0, []).error)
  {
    hide ParseInto, Schema.Valid;
  }

  /** A stream cut strictly inside an instruction is rejected for running out of bytes in that instruction; it never
      decodes to anything else. */
  lemma {:induction false} CutInside(s: Schema, instrs: seq<Instruction>, code: seq<Byte>, i: nat, cut: nat)
    requires s.Valid() && |code| <= MAX_CODE && Splits(s, instrs, code)
    requires i < |instrs| && ByteOffset(instrs, i) < cut < ByteOffset(instrs, i + 1)
    ensures cut <= |code|
    ensures RanOut(Decode(s, code[..cut]), ByteOffset(instrs, i) + 1, cut)
  {
    hide ByteOffset, ParseInstruction, ParseInto, Decode, Schema.Valid, Schema.WellShaped, Splits, Occurs, Emit;
    hide EmitAll;
    SplitsAt(s, instrs, code, i);
    CutParse(s, instrs, code, i, cut);
    ReadWritten(s, code, ByteOffset(instrs, i), instrs[i]);
    CutInstruction(s, code, ByteOffset(instrs, i), cut);
    ParseStuck(s, code[..cut], ByteOffset(instrs, i), instrs[..i]);
    DecodeStuck(s, code[..cut]);
  }
}
