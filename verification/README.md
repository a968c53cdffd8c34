# Otter bytecode and compiler: a Dafny model

This project models the hard core of Otter, a JavaScript engine: the bytecode container (`otter-bytecode`), the lowerings
of `otter-compiler` that build control flow, its Annex B analysis, and two small pieces of the command line and the
compiler front end.

- **Bytecode codec** (`Prelude`, `OpcodeSchema`, `OpcodeTable`, `ControlFlow`, `WireFormat`, `Encoding`, `Decoding`,
  `CodecTheorems`, `CodecInverse`, `Truncation`). Functions whose branches count instructions are laid out as bytes, with
  branch operands patched to byte distances. The results: encoding preserves the control-flow graph and all its paths,
  encoding and decoding are inverse to each other in both directions, the wire format is canonical and prefix-free, and
  the decoder accepts exactly the well-formed streams. The codec is proved for every valid schema; `OtterIsValid` shows
  that the 178-row table of the repository is one.
- **Wordcode** (`Wordcode`, `WordcodeVerifier`). The packed executable form with inline words and one shared overflow
  table refines a plain list of instructions under push, patch and replace, and its verifier agrees with the list
  verifier.
- **Lowerings** (`Machine`, `Lowering`, `LoweringProof`, `LoweringFrames`, `LoweringPrivacy`, `LoweringTheorems`,
  `NestedPatterns`, `Emitter`). `Lowering` gives the emitted code of logical assignment, destructuring defaults, array
  assignment patterns and spread arguments, and their source meaning (sections 13.15.2 and 13.15.5 of ECMA-262).
  `LoweringProof` shows that running the code is that meaning, however constructs nest. `Emitter` is the compiler as it
  works, with placeholders patched in place, and produces that code. `LoweringFrames`, `LoweringPrivacy`,
  `LoweringTheorems` and `NestedPatterns` derive what programs rely on.
- **Annex B** (`AnnexB`, `AnnexBTheorems`). The scope walk that finds block-level functions with a var binding is sound
  and complete for a path-based definition.
- **CPU profile** (`CpuProfile`, `FoldedLines`) and **lone surrogates** (`Surrogates`).

User code (expressions outside the modelled constructs, getters, setters, opening an iterable, the values it yields and the
error it may end with, the `return` method) is a parameter, `Machine.Host`, shared by the machine and the source meaning.
An expression outside the model is one instruction, `Perform`, with the contract of `compile_expr`: it writes its result
register, may assign local variables, leaves live registers alone, and falls through or throws. Iterator handles are
internal to a frame, so user code does not change the ones that are open (`Machine.After`). Only the spread results assume
anything else of user code: that it cannot get at an array to which nothing it can see refers
(`LoweringPrivacy.Discreet`).

## Notes on the source

- Where the source panics (more than 255 operands, byte offsets beyond `u32`, a branch distance beyond `i32`) the model has
  a precondition. The codec results are stated for functions of at most `i32::MAX` bytes: beyond that a branch distance of
  exactly `i32::MIN` would be written as the absent-handler value (`SentinelExact`).
- The test at `crates/otter-bytecode/src/encoding.rs:1484` expects 172 opcodes; the table has 178, and the model follows
  the table.
- The Annex B leaf collector skips an identifier directly under a default. For declarations the hoisting collector makes
  up for it (`DeclarationNamesComplete`); for catch parameters it does not, against the comment at
  `crates/otter-compiler/src/annex_b.rs:216-218`. `DefaultedCatchNameEscapes` gives a program that the early error at
  `crates/otter-compiler/src/strict_validation.rs:1470-1499` allows, and `CatchWalkExact` the exact condition.
- Folding stacks into lines escapes semicolons but not backslashes, so some lines stand for several stacks
  (`FoldedCollision`); `FoldedExactly` says which do not.
- `set_operand` may change the count of a counted tail and so break the shape; `ShapeAfterUpdate` says exactly when, and
  `Replace` needs the other instructions to be well-shaped.

## Model

| member | source | states |
|---|---|---|
| OpcodeSchema.ShapeVerdict | crates/otter-bytecode/src/opcode_schema.rs:699-755 | operand verification accepts exactly the lists that have the declared kinds and, for counted tails, the declared count |
| OpcodeSchema.SpecsVerdict | crates/otter-bytecode/src/opcode_schema.rs:736-755 | the kind check reports the first operand of the wrong kind, with expected and actual kind, or nothing if all match |
| OpcodeSchema.KindErrorIsFirst | crates/otter-bytecode/src/opcode_schema.rs:699-755 | a kind error names the first operand whose kind differs from the schema; all before it match |
| OpcodeSchema.CountErrorIsExact | crates/otter-bytecode/src/opcode_schema.rs:699-755 | a count error gives the actual number of operands and the number the row asks for: the prefix, or the prefix and as many as its count operand says |
| OpcodeTable.OtterIsValid | crates/otter-bytecode/src/opcode_schema.rs:1292-1318 | in all 178 rows every successor, handler and branch-patch slot is an immediate of a fixed-shape instruction, and the slots the encoder patches are exactly the ones the schema calls targets |
| OpcodeTable.OtterSuccessors | crates/otter-bytecode/src/opcode_schema.rs:1004-1034 | which opcodes branch and through which operand, which fall through, and which leave the frame |
| OpcodeTable.OtterHandlers | crates/otter-bytecode/src/opcode_schema.rs:1036-1068 | which opcodes name handlers or a finally floor, through which operands, and with which absent value |
| ControlFlow.ControlVerdict | crates/otter-bytecode/src/encoding.rs:272-321 | the target checks pass exactly when every branch and every present handler names a legal position and every finally floor is non-negative |
| ControlFlow.ControlBlamed | crates/otter-bytecode/src/encoding.rs:272-321 | an error of the target checks names the first illegal target or negative floor of the instruction, normal successors before handlers |
| WireFormat.BytecodeWriter.Write | crates/otter-bytecode/src/encoding.rs:457-468 | appends exactly the wire bytes of the instruction; at the old end stand the opcode number, the operand count and each operand: its tag 0, 1 or 2, then two bytes of a register or four of an index or immediate, low byte first, negative immediates modulo 2^32 |
| WireFormat.BytecodeWriter.WriteOperand | crates/otter-bytecode/src/encoding.rs:470-486 | appends exactly the tagged wire form of one operand; its bytes are given one by one |
| WireFormat.DecodeOperand | crates/otter-bytecode/src/encoding.rs:832-854 | returns an operand exactly when its tag and payload bytes stand at the position, and the offset after them; otherwise the error says that bytes ran out or names the unknown tag |
| WireFormat.EmittedAt | crates/otter-bytecode/src/encoding.rs:457-486 | the written form of an instruction, byte by byte |
| WireFormat.StreamAt | crates/otter-bytecode/src/encoding.rs:440-492 | in the stream of a function every instruction stands, byte by byte, at its offset |
| WireFormat.DecodeInstruction | crates/otter-bytecode/src/encoding.rs:804-830 | reads one instruction, whose bytes stand at the position; unknown opcode, truncation and shape errors in the order of the source |
| WireFormat.ReadWritten | crates/otter-bytecode/src/encoding.rs:440-492 | reading what was written gives the same opcode and operands and ends right after it |
| WireFormat.WrittenIfRead | crates/otter-bytecode/src/encoding.rs:804-863 | whatever is read is, byte for byte, the written form of the instruction returned (the format is canonical) |
| Encoding.LogicalVerdict | crates/otter-bytecode/src/encoding.rs:272-321 | verification succeeds exactly when every instruction is well-shaped with legal targets; otherwise the error carries the index of the first offending instruction and its first fault |
| Encoding.OffsetsIncrease | crates/otter-bytecode/src/encoding.rs:338-363 | byte offsets grow by at least two per instruction |
| Encoding.LayoutFunction | crates/otter-bytecode/src/encoding.rs:338-363 | the layout has the exact offset of every instruction and the exact total; FunctionTooLarge exactly when the total exceeds 32 bits; verification errors are passed on |
| Encoding.MeasureInstruction | crates/otter-bytecode/src/encoding.rs:338-363 | the size of one instruction, or failure exactly when it exceeds 32 bits |
| Encoding.TranslateSpans | crates/otter-bytecode/src/encoding.rs:672-690 | each span keeps its source range and moves to the byte offset of its instruction, or to the end of the stream |
| Encoding.SpansStaySorted | crates/otter-bytecode/src/encoding.rs:672-690 | translating a span table sorted by instruction leaves it sorted, strictly where instructions differ |
| Encoding.WriteCapturing | crates/otter-bytecode/src/encoding.rs:581-609 | writes the instruction and records one fixup per branch slot, at the position of its immediate |
| Encoding.ResolveJumpFixup | crates/otter-bytecode/src/encoding.rs:615-648 | patches exactly the four bytes of one immediate with the byte distance from one past the opcode, or leaves the absent-handler sentinel |
| Encoding.TryEncodeFunction | crates/otter-bytecode/src/encoding.rs:539-648 | fails exactly as verification does; otherwise the bytes are those of the function with every branch slot relinked to byte distances, and the offset table is its layout; defined for every function on which the source does not panic |
| Encoding.SmallIsLinkable | crates/otter-bytecode/src/encoding.rs:645-646 | every function of at most i32::MAX bytes can be encoded: all its branch distances fit |
| Decoding.BinarySearch | crates/otter-bytecode/src/encoding.rs:765-794 | binary search over the boundaries agrees with membership |
| Decoding.VerifyRelativeTarget | crates/otter-bytecode/src/encoding.rs:765-794 | one target check: an absent sentinel passes, otherwise the position must be a boundary or the end |
| Decoding.DecodeFunction | crates/otter-bytecode/src/encoding.rs:699-763 | the decoding loop followed by the target loop computes Decode, with its first error |
| Decoding.ParseSplits | crates/otter-bytecode/src/encoding.rs:699-709 | whatever the loop accepts splits the whole stream into consecutive written instructions |
| Decoding.SplitParses | crates/otter-bytecode/src/encoding.rs:699-709 | the loop finds every such split, so a stream has at most one |
| Decoding.DecodeVerdict | crates/otter-bytecode/src/encoding.rs:699-794 | a byte string decodes to a list exactly when the list writes to it byte for byte, is well-shaped, has only boundary targets and non-negative floors |
| Decoding.DecodeBlames | crates/otter-bytecode/src/encoding.rs:699-794 | a stream of well-shaped instructions that is rejected is rejected for the first instruction with an illegal target or a negative floor, by its offset and with that target or floor |
| Truncation.CutInside | crates/otter-bytecode/src/encoding.rs:699-709 | a stream cut strictly inside an instruction is rejected for running out of bytes within that instruction, never decoded differently |
| Truncation.CutBetween | crates/otter-bytecode/src/encoding.rs:699-709 | a stream cut between instructions reads as the instructions before the cut |
| CodecTheorems.RelinkFaithful | crates/otter-bytecode/src/encoding.rs:615-648 | a present target becomes the byte distance of its image and never the sentinel; the sentinel becomes itself |
| CodecTheorems.SentinelExact | crates/otter-bytecode/src/encoding.rs:615-648 | for a function of any encodable size, a branch operand is written as the absent-handler value exactly when it is absent or its distance is i32::MIN |
| CodecTheorems.BranchIsNeverAbsent | crates/otter-bytecode/src/lib.rs:53-59 | no verified ordinary branch carries the absent-handler value |
| CodecTheorems.NormalImage | crates/otter-bytecode/src/encoding.rs:539-648 | a normal successor of the encoded instruction is the image of the logical successor |
| CodecTheorems.HandlerImage | crates/otter-bytecode/src/encoding.rs:539-648 | a handler of the encoded instruction is present exactly when the logical one is, at its image |
| CodecTheorems.FloorKept | crates/otter-bytecode/src/encoding.rs:539-648 | relinking does not touch a finally floor |
| CodecTheorems.EncodedDecodes | crates/otter-bytecode/src/encoding.rs:699-830 | encode then decode always succeeds, with the same opcodes and non-branch operands and each pc equal to its offset-table entry |
| CodecTheorems.EdgesPreserved | crates/otter-bytecode/src/encoding.rs:539-661 | the byte stream has an edge of a kind from an instruction exactly when the function has that edge, with both ends moved along the offset table |
| CodecTheorems.PathsForward | crates/otter-bytecode/src/encoding.rs:539-661 | every control-flow path of the function, of any length and through handlers, is a path through the bytes |
| CodecTheorems.PathsBackward | crates/otter-bytecode/src/encoding.rs:539-661 | every path through the bytes from an instruction start is the image of a path of the function |
| CodecInverse.DecodedRecovers | crates/otter-bytecode/src/encoding.rs:539-566 | the original instruction deltas can be recovered from the decoded byte deltas |
| CodecInverse.UnlinkFaithful | crates/otter-bytecode/src/encoding.rs:765-794 | a legal byte delta stands for a legal instruction delta; the sentinel for itself only |
| CodecInverse.ByteBranchIsNeverAbsent | crates/otter-bytecode/src/lib.rs:53-59 | no ordinary branch of an accepted stream carries the absent-handler value |
| CodecInverse.DecodableIsEncoded | crates/otter-bytecode/src/encoding.rs:539-566 | every stream the decoder accepts is, byte for byte, the encoding of a verified function recovered from it |
| Wordcode.WordRoundTrip | crates/otter-bytecode/src/opcode_schema.rs:675-692 | an operand survives its 32-bit word, and a word that decodes for a kind encodes back to itself |
| Wordcode.WordValue | crates/otter-bytecode/src/opcode_schema.rs:675-683 | the word of an operand: a register or index as it is, an immediate modulo 2^32 |
| Wordcode.ReadPacked | crates/otter-bytecode/src/wordcode.rs:60-129 | reading operand k of a packed instruction gives that operand, inline or from the overflow table, and nothing past the end |
| Wordcode.PackIsInjective | crates/otter-bytecode/src/wordcode.rs:194-225 | two frozen bodies are equal exactly when their instruction lists are |
| Wordcode.PackUpdate | crates/otter-bytecode/src/wordcode.rs:253-281 | changing one operand of the list is changing one word: of the inline slots, or of the shared overflow table |
| Wordcode.ShapeAfterUpdate | crates/otter-bytecode/src/wordcode.rs:253-281 | a kind-preserving update keeps the shape exactly unless it changes the count of a counted tail |
| Wordcode.FunctionCodeBuilder.Reopen | crates/otter-bytecode/src/wordcode.rs:123-129 | re-opening a frozen body gives a builder with its list |
| Wordcode.FunctionCodeBuilder.Push | crates/otter-bytecode/src/wordcode.rs:194-225 | appends one entry to the list; the body stays the canonical packing of the list |
| Wordcode.FunctionCodeBuilder.Operand | crates/otter-bytecode/src/wordcode.rs:245-251 | the operand of the list, or nothing out of range |
| Wordcode.FunctionCodeBuilder.SetOperand | crates/otter-bytecode/src/wordcode.rs:253-281 | succeeds exactly for an operand in range of the same kind, and then changes that operand and nothing else |
| Wordcode.FunctionCodeBuilder.DecodeOperands | crates/otter-bytecode/src/wordcode.rs:354-359 | reads back all operands of an instruction; no read fails |
| Wordcode.FunctionCodeBuilder.Replace | crates/otter-bytecode/src/wordcode.rs:283-310 | replaces one entry and keeps all others, also when the storage class changes; false exactly out of range |
| Wordcode.FunctionCodeBuilder.Finish | crates/otter-bytecode/src/wordcode.rs:319-324 | freezing gives the canonical packing of the list |
| WordcodeVerifier.FromDecoded | crates/otter-bytecode/src/wordcode.rs:139-147 | building from a well-shaped list packs exactly that list |
| WordcodeVerifier.VerifyWordTargets | crates/otter-bytecode/src/encoding.rs:41-115 | checks the targets of one packed instruction with the result of the list check |
| WordcodeVerifier.VerifyWordcodeFunction | crates/otter-bytecode/src/encoding.rs:41-115 | verifying wordcode returns the verdict, error and index of verifying its list |
| WordcodeVerifier.BuiltFromList | crates/otter-bytecode/src/encoding.rs:41-115 | the wordcode built from a list has the verdict and the byte offsets of that list |
| WordcodeVerifier.MeasureWordcodeFunction | crates/otter-bytecode/src/encoding.rs:384-407 | measuring wordcode gives the list layout, or FunctionTooLarge exactly when the total exceeds 32 bits |
| Machine.RunsUnique | crates/otter-bytecode/src/lib.rs:236-253 | execution is deterministic: a run ends in one place |
| Machine.TruthValues | crates/otter-compiler/src/assignment.rs:753-819 | the falsy and the nullish values, listed |
| LoweringProof.DrainRuns | crates/otter-compiler/src/assignment.rs:1233-1251 | the drain loop ends, appends every pending value in order, and leaves the iterator exhausted and deregistered, or throws what the iterator throws |
| LoweringProof.StepRuns | crates/otter-vm/src/interp/dispatch.rs:629-656 | one step yields a value, reports done and deregisters, or throws and deregisters |
| LoweringProof.FinishRuns | crates/otter-vm/src/interp/dispatch.rs:657-700 | closing deregisters the iterator before its return method runs, and passes on what that throws |
| LoweringProof.CoercibleRuns | crates/otter-compiler/src/destructuring.rs:67-95 | null and undefined throw a TypeError before anything else happens; other values pass with the state unchanged |
| LoweringProof.TestRuns | crates/otter-compiler/src/assignment.rs:753-819 | the test register is truthy exactly when the operator assigns |
| LoweringProof.NullishRuns | crates/otter-compiler/src/assignment.rs:778-817 | the nullish test is true for null and undefined only |
| LoweringProof.PrepareRuns | crates/otter-compiler/src/assignment.rs:992-1059 | the prepared registers hold the reference the target evaluates to |
| LoweringProof.AssignRuns | crates/otter-compiler/src/assignment.rs:1061-1124 | storing through a prepared target is PutValue on that reference, or nested destructuring; what both mean is fixed by LogicalRun and DestructureByPosition |
| LoweringProof.LogicalRuns | crates/otter-compiler/src/assignment.rs:625-877 | running a logical assignment does what it means |
| LoweringProof.ShortCircuitRuns | crates/otter-compiler/src/assignment.rs:820-876 | the assignment is skipped exactly when the test fails, with the current value as result |
| LoweringProof.DefaultRuns | crates/otter-compiler/src/assignment.rs:1405-1449 | the initializer runs exactly when the value is undefined |
| LoweringProof.ElementRuns | crates/otter-compiler/src/assignment.rs:1202-1222 | one element: reference first, then the iterator step, then default and store |
| LoweringProof.ElementsRuns | crates/otter-compiler/src/assignment.rs:1201-1222 | all elements in order, with the last done flag |
| LoweringProof.RestRuns | crates/otter-compiler/src/assignment.rs:1223-1256 | a rest target gets a new array of what the iterator still has |
| LoweringProof.CloseRuns | crates/otter-compiler/src/assignment.rs:1257-1265 | the iterator is closed unless its last step was done, then deregistered; a throwing close ends the pattern |
| LoweringProof.PatternRuns | crates/otter-compiler/src/assignment.rs:1186-1267 | running an array pattern does what destructuring assignment means |
| LoweringProof.ArgsRuns | crates/otter-compiler/src/calls.rs:1036-1064 | running the argument code does what evaluating the arguments means |
| LoweringProof.SpreadRuns | crates/otter-compiler/src/calls.rs:1070-1105 | running a spread opens the iterable and drains it into the array, or throws if it is not iterable |
| LoweringProof.ExprRuns | crates/otter-compiler/src/assignment.rs:625-877 | for every nesting of the modelled constructs, at any code position and scratch mark: the emitted code ends after itself with the value of the source expression, or throws the same error, with the same variables, heap, registrations and effects, and disturbs no live scratch register |
| LoweringProof.RunsAreFaithful | crates/otter-compiler/src/assignment.rs:1186-1267 | a complete run of an expression ends only where its meaning says |
| LoweringFrames.EvalFrame | crates/otter-compiler/src/assignment.rs:1186-1267 | whatever user code does, evaluation leaves alone every iterator that was open, balances registrations for abrupt close, and only extends the log |
| LoweringFrames.DrainDoes | crates/otter-compiler/src/calls.rs:1085-1103 | draining moves all pending values into the array in order, exhausts the iterator and touches nothing else; it fails exactly if the iterator throws |
| LoweringFrames.BodyFrame | crates/otter-compiler/src/assignment.rs:1201-1265 | how often a pattern steps and closes its iterator; when it throws, the iterator is registered exactly if it was neither closed nor stepped past its values |
| LoweringPrivacy.EvalHides | crates/otter-compiler/src/calls.rs:1036-1105 | no evaluation changes an array that nothing refers to, or makes anything refer to it |
| LoweringPrivacy.PushingIsDiscreet | crates/otter-compiler/src/calls.rs:1036-1064 | the assumption on user code admits code that changes the arrays it holds |
| LoweringTheorems.PatternByPosition | crates/otter-compiler/src/assignment.rs:1186-1267 | destructuring through the iterator equals destructuring the list of its values by position, nested patterns included: target i gets value i or its default, a rest target a new array of the remaining suffix, a throwing iterator throws at its position, one close exactly when not exhausted |
| LoweringTheorems.DestructureByPosition | crates/otter-compiler/src/assignment.rs:1144-1267 | the same for any value, at every nesting: null and undefined throw, a value that is not iterable throws, and a nested pattern destructures the value at its position |
| LoweringTheorems.VariablePattern | crates/otter-compiler/src/assignment.rs:1186-1267 | for a pattern of variables: it completes exactly if neither next nor return throws, and then the final value of every variable, the contents of the rest array, and that nothing else changed |
| NestedPatterns.NestedPattern | crates/otter-compiler/src/assignment.rs:1144-1267 | for any nesting of variables, members and patterns: a completed pattern has assigned its targets once each in pattern order, each variable holds the value at its position in the source of its own pattern, the properties stored are those of the pattern with those values and no others, no other variable changed, and every iterator was stepped and closed as often as its pattern asks |
| NestedPatterns.DestructureCovers | crates/otter-compiler/src/assignment.rs:1202-1256 | every position of every nested pattern got its value: a variable set, a property stored, or a nested pattern iterating that value |
| NestedPatterns.DestructureSettles | crates/otter-compiler/src/assignment.rs:1257-1265 | every iterator opened for a pattern or a pattern inside it is stepped as often as that pattern asks and closed once if not exhausted, else never |
| NestedPatterns.DestructureShows | crates/otter-compiler/src/assignment.rs:1061-1124 | variables change and properties are stored exactly as the targets say, also when the pattern fails on the way |
| NestedPatterns.PatternRun | crates/otter-compiler/src/assignment.rs:1186-1267 | running the code of any pattern assignment ends as its parts say: value, variables, heap, registrations, log and error |
| LoweringTheorems.PatternRunSettles | crates/otter-compiler/src/assignment.rs:1186-1267 | a completed run has closed the iterator exactly once if it was not exhausted, else never, and stepped it as often as the pattern asks; a throwing run has closed it at most once and leaves it registered exactly if it was neither closed nor stepped past its values |
| LoweringTheorems.RunsBalance | crates/otter-bytecode/src/lib.rs:393-398 | registrations balance over every completed run; a throwing run only adds iterators it opened |
| LoweringTheorems.SpreadConcatenates | crates/otter-compiler/src/calls.rs:1036-1105 | the argument array is the source-order concatenation of plain arguments and whole spreads, for all user code that cannot get at an array nothing refers to |
| LoweringTheorems.SpreadRun | crates/otter-compiler/src/calls.rs:1036-1105 | running the emitted code leaves that array in the result register |
| LoweringTheorems.LogicalRun | crates/otter-compiler/src/assignment.rs:625-877 | for every target and right-hand side: object and key are evaluated first and once, the value is read once, the right-hand side runs and the store happens exactly when the test says; the whole final state is given, a variable set to the value or the property store, and it throws exactly when a part does |
| LoweringTheorems.LogicalMeans | crates/otter-compiler/src/assignment.rs:625-877 | logical assignment from its parts, for a variable, a named member and a computed member, with the values each operator keeps listed |
| LoweringTheorems.LogicalEval | crates/otter-compiler/src/assignment.rs:625-877 | the exact sequence of events of any logical assignment |
| Emitter.Compiler.AllocScratch | crates/otter-compiler/src/function_context.rs:268-285 | hands out the watermark; at the last register the overflow flag is set and the watermark stays |
| Emitter.Compiler.EmitBranchPlaceholder | crates/otter-compiler/src/function_context.rs:615-630 | appends a branch with offset zero and returns its index |
| Emitter.Compiler.PatchBranch | crates/otter-compiler/src/function_context.rs:640-647 | changes the offset of one branch to lead to the target, and nothing else |
| Emitter.Compiler.LogicalAssignment | crates/otter-compiler/src/assignment.rs:625-877 | emits exactly the logical assignment code after what was there, or reports register overflow exactly when the registers do not suffice |
| Emitter.Compiler.EmitTest | crates/otter-compiler/src/assignment.rs:753-819 | emits exactly the test code and returns its register |
| Emitter.Compiler.PrepareAssignmentTarget | crates/otter-compiler/src/assignment.rs:992-1059 | emits exactly the reference evaluation and returns its registers |
| Emitter.Compiler.AssignPreparedTarget | crates/otter-compiler/src/assignment.rs:1061-1124 | emits exactly the store, or the code of a nested pattern |
| Emitter.Compiler.ApplyDefaultWithName | crates/otter-compiler/src/assignment.rs:1405-1449 | emits exactly the default code; both placeholders end up at the right targets |
| Emitter.Compiler.AssignMaybeDefault | crates/otter-compiler/src/assignment.rs:1144-1179 | emits exactly the default, if any, and the store |
| Emitter.Compiler.AssignElements | crates/otter-compiler/src/assignment.rs:1201-1222 | the loop over the elements emits exactly the code of all of them and returns the last done register |
| Emitter.Compiler.AssignRest | crates/otter-compiler/src/assignment.rs:1223-1256 | emits exactly the rest code |
| Emitter.Compiler.AssignArrayPattern | crates/otter-compiler/src/assignment.rs:1186-1267 | emits exactly the array pattern code |
| Emitter.Compiler.EmitDrain | crates/otter-compiler/src/assignment.rs:1233-1251 | the back branch and the exit branch of the drain loop are patched to the loop top and to its end |
| Emitter.Compiler.EmitRequireObjectCoercible | crates/otter-compiler/src/destructuring.rs:67-95 | emits exactly the null check |
| Emitter.Compiler.SpreadIntoArray | crates/otter-compiler/src/calls.rs:1070-1105 | emits exactly the spread loop |
| Emitter.Compiler.SpreadCallArgs | crates/otter-compiler/src/calls.rs:1036-1064 | emits exactly the code that builds the argument array and returns its register |
| Emitter.Compiler.Arguments | crates/otter-compiler/src/calls.rs:1047-1062 | the loop over plain and spread arguments emits exactly their code, in order |
| Emitter.EmittedRuns | crates/otter-compiler/src/assignment.rs:625-877 | code the compiler emitted into any surroundings, run with the registers it counted, does what the source means |
| AnnexB.Collector.RecordFunction | crates/otter-compiler/src/annex_b.rs:123-140 | adds the name of a plain, unblocked, unseen function |
| AnnexB.Collector.WalkBlock | crates/otter-compiler/src/annex_b.rs:146-164 | adds the candidates of a block, its own functions first |
| AnnexB.Collector.WalkBranch | crates/otter-compiler/src/annex_b.rs:265-276 | adds the candidates of a branch, loop or label body |
| AnnexB.Collector.WalkSwitch | crates/otter-compiler/src/annex_b.rs:236-258 | adds the candidates of a case block as one scope |
| AnnexB.Collector.WalkTry | crates/otter-compiler/src/annex_b.rs:213-235 | adds the candidates of try, catch and finally blocks |
| AnnexB.Collector.WalkStatement | crates/otter-compiler/src/annex_b.rs:166-261 | adds the candidates of a statement |
| AnnexB.CollectAnnexBCandidates | crates/otter-compiler/src/annex_b.rs:35-45 | the walk with its shared output and seen set computes Candidates |
| AnnexBTheorems.CandidatesAreReachable | crates/otter-compiler/src/annex_b.rs:35-306 | a name is returned exactly when it is not blocked and some path of scopes reaches a plain function of that name with no scope on the path declaring it; what a scope declares is defined by its declarations, not by the walk; no name twice |
| AnnexBTheorems.LexicalNamesExact | crates/otter-compiler/src/annex_b.rs:47-82 | the names collected from a statement list are exactly those its let, const and class declarations bind and, where asked for, its functions |
| AnnexBTheorems.HeadNamesExact | crates/otter-compiler/src/annex_b.rs:278-306 | the names collected from a for head are exactly those of its let or const declaration |
| AnnexBTheorems.BlockingIsLocal | crates/otter-compiler/src/annex_b.rs:123-164 | blocking further names removes exactly those names and keeps the order |
| AnnexBTheorems.DescribesPattern | crates/otter-compiler/src/annex_b.rs:84-120 | the leaf collectors return the bound names except identifiers directly under a default |
| AnnexBTheorems.DeclarationNamesComplete | crates/otter-compiler/src/hoist.rs:292-314 | together with the hoisting collector every name a declaration binds is found |
| AnnexBTheorems.CatchNamesExact | crates/otter-compiler/src/annex_b.rs:213-230 | a destructuring catch parameter blocks all its names exactly when no identifier sits directly under a default |
| AnnexBTheorems.CatchWalkExact | crates/otter-compiler/src/annex_b.rs:213-230 | over all catch blocks the early errors allow, no name of a destructuring parameter becomes a candidate exactly when no identifier sits directly under a default |
| AnnexBTheorems.DefaultedCatchNameEscapes | crates/otter-compiler/src/annex_b.rs:90-91 | a function a in a nested block under catch ({ a = 1 }) is a candidate, although the early errors allow the program and the parameter declares a |
| CpuProfile.ProfileBuilder.Child | crates/otter-cli/src/main.rs:893-907 | returns the node for the extended path, adding exactly one node if there was none |
| CpuProfile.ProfileBuilder.AddSample | crates/otter-cli/src/main.rs:884-910 | adds exactly the missing prefixes of the stack and one hit at its end; following children from the root along the frames of the sample, outermost first, leads to the node whose id is recorded |
| CpuProfile.BuildProfile | crates/otter-cli/src/main.rs:872-911 | one node per distinct stack prefix, linked as a tree; hits of a node are the samples that end there; the frames of every sample, outermost first, lead from the root to the node of its id |
| CpuProfile.HitsCountIds | crates/otter-cli/src/main.rs:909-910 | the hits of a node are the number of samples with its id, up to 32 bits |
| CpuProfile.HitsAreSamples | crates/otter-cli/src/main.rs:909-910 | hits add up to the number of samples exactly when no count exceeds 32 bits |
| CpuProfile.SameIdSameStack | crates/otter-cli/src/main.rs:884-911 | while node ids fit 32 bits, two samples share an id exactly when their frame keys agree |
| CpuProfile.IdsIdentifyNodes | crates/otter-cli/src/main.rs:896-897 | ids are distinct exactly while there are at most 2^32 - 1 nodes |
| CpuProfile.FoldProfile | crates/otter-cli/src/main.rs:958-971 | the folded map has exactly the occurring stacks with their counts |
| CpuProfile.FoldedTotal | crates/otter-cli/src/main.rs:958-971 | the counts add up to the number of samples |
| FoldedLines.FoldedExactly | crates/otter-cli/src/main.rs:958-987 | a folded line identifies the frame names of its sample exactly when the sample is neither empty nor the single frame (idle), no name contains a semicolon, and no frame but the innermost has a label ending in a backslash |
| FoldedLines.FoldedCollision | crates/otter-cli/src/main.rs:979-987 | two different stacks that fold to the same line |
| FoldedLines.JoinedIsJoin | crates/otter-cli/src/main.rs:960-969 | the line is the frame names joined from the outermost inward |
| FoldedLines.FoldedText | crates/otter-cli/src/main.rs:958-987 | the text of a line without escapes: function names, modules in brackets, outermost first, semicolons between; (idle) for no frames |
| Surrogates.DecodeLoneSurrogateString | crates/otter-compiler/src/synthetic.rs:41-79 | the decoder loop computes Decode on every text |
| Surrogates.DecodeEncode | crates/otter-compiler/src/synthetic.rs:34-40 | decoding the documented encoding of any sequence of 16-bit units returns it |
| Surrogates.PlainExactly | crates/otter-compiler/src/synthetic.rs:41-79 | text is taken as it stands exactly when no escape occurs in it; a stray U+FFFD stands for itself |
| Surrogates.DecodeEscape | crates/otter-compiler/src/synthetic.rs:45-70 | an escape gives its unit; fewer than four digits stand for themselves |

## Left out

- Object patterns: key extraction and rest objects run through helpers outside the modelled files.
- Assignment targets other than local variables, named members, computed members and nested array patterns: captured
  variables, globals, `super`, private fields, `with` and temporal-dead-zone checks.
- Name inference for anonymous functions in defaults and logical assignment.
- Iterators: the values and the final error are fixed when the iterator is opened, and `next` has no effect on the heap.
- The handler stack and unwinding: a throw ends the run of the fragment. What unwinding would close is the list of
  registrations, which is modelled.
- The mapping of `Machine.Instr` to opcode bytes and operand lists: constants are loaded by one instruction whatever their
  type, so emitted fragments are not fed to the codec.
- Branch offsets of emitted code are unbounded integers; the source panics beyond `i32`.
- Emitter.Compiler.Emit: does not record source spans.
- Encoding.TryEncodeFunction: requires operand counts, byte offsets and branch distances to fit, because the source panics
  otherwise.
- Decoding.DecodeFunction: requires a stream of at most 2^32 bytes, because decoded offsets are `u32`.
- Wordcode.FunctionCodeBuilder.Push: requires a well-shaped operand list and a position that fits `u32`, because the source
  panics otherwise, and for a long list an overflow offset below `u32::MAX`, because that offset is the inline marker.
- CpuProfile.FoldProfile: counts are unbounded; the source uses 64 bits.
- Register access roles, effects, feedback kinds, tier support and mnemonics of the opcode table: tables read by code that
  is not modelled.
- `check_call_arity` and the dense call forms: one comparison each.
- Time deltas and the JSON and text output of profiles.
- Scope resolution, class and module lowering, generators, promises, the interpreter loop and the compiled tiers.
