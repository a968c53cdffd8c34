/**
  * The compiler as it works: emit instructions, take scratch registers, leave branch placeholders and patch them once
  * their target is known. Every lowering is shown to produce the code of the corresponding `Lowering` function, unless
  * registers run out, which is reported.
  */
module Emitter {
  import opened Prelude
  import opened Machine
  import opened Lowering
  import opened LoweringProof

  const REGISTER_MAX: nat := 0xFFFF

  predicate IsBranch(i: Instr)
  {
    i.Jump? || i.JumpIfTrue? || i.JumpIfFalse? || i.JumpIfNullish?
  }

  function WithDelta(i: Instr, delta: int): (r: Instr)
    requires IsBranch(i)
    ensures IsBranch(r) && r.delta == delta
  {
    i.(delta := delta)
  }

  /** From code `c0` with overflow flag `o0`, a lowering that should emit `frag` and leave the mark at `mark` did so, or
      ran out of registers, which it does exactly when the mark would not fit. Earlier code is never disturbed. */
  predicate Grown(c0: seq<Instr>, o0: bool, c1: seq<Instr>, m1: Reg, o1: bool, frag: seq<Instr>, mark: Reg)
  {
    && c0 <= c1
    && (o1 <==> o0 || mark > REGISTER_MAX)
    && (!o1 ==> c1 == c0 + frag && m1 == mark)
  }

  lemma {:induction false} PatchMiddle(before: seq<Instr>, i: Instr, after: seq<Instr>, j: Instr)
    ensures (before + [i] + after)[|before| := j] == before + [j] + after
  {}

  /** Two placeholders patched: the first to just before `last`, the second to just after it. */
  lemma {:induction false} DefaultPatched(c1: seq<Instr>, branch: Instr, body: seq<Instr>, last: Instr,
                                          patched: Instr, c3: seq<Instr>, end: seq<Instr>)
    requires c3 == c1 + [branch] + body
    requires end == ((c3 + [Jump(0)])[|c1| := patched] + [last])[|c3| := Jump(1)]
    ensures end == c1 + ([patched] + (body + [Jump(1), last]))
  {}

  lemma {:induction false} ElementsSnoc(es: seq<Element>, k: nat, iter: Reg, m: Reg, last: Reg)
    requires k < |es|
    ensures var before := CompileElements(es[..k], iter, m, last);
            var e := CompileElement(es[k], iter, before.mark);
            CompileElements(es[..k + 1], iter, m, last) == Frag(before.code + e.code, e.result, e.mark)
    decreases k
  {
    hide CompileElement;
    if k == 0 {
      var e := CompileElement(es[0], iter, m);
      assert es[..1] == [es[0]];
      assert e.code + [] == e.code && [] + e.code == e.code;
    } else {
      var first := CompileElement(es[0], iter, m);
      assert es[..k][1..] == es[1..][..k - 1] && es[..k + 1][1..] == es[1..][..k];
      ElementsSnoc(es[1..], k - 1, iter, first.mark, first.result);
      var mid := CompileElements(es[1..][..k - 1], iter, first.mark, first.result);
      var e := CompileElement(es[k], iter, mid.mark);
      assert first.code + (mid.code + e.code) == (first.code + mid.code) + e.code;
    }
  }

  lemma {:induction false} ArgsSnoc(args: seq<Argument>, k: nat, dst: Reg, m: Reg)
    requires k < |args|
    ensures var before := CompileArgs(args[..k], dst, m);
            var a := CompileArg(args[k], dst, before.mark);
            CompileArgs(args[..k + 1], dst, m) == Block(before.code + a.code, a.mark)
    decreases k
  {
    hide CompileArg;
    if k == 0 {
      var a := CompileArg(args[0], dst, m);
      assert args[..1] == [args[0]];
      assert a.code + [] == a.code && [] + a.code == a.code;
    } else {
      var first := CompileArg(args[0], dst, m);
      assert args[..k][1..] == args[1..][..k - 1] && args[..k + 1][1..] == args[1..][..k];
      ArgsSnoc(args[1..], k - 1, dst, first.mark);
      var mid := CompileArgs(args[1..][..k - 1], dst, first.mark);
      var a := CompileArg(args[k], dst, mid.mark);
      assert first.code + (mid.code + a.code) == (first.code + mid.code) + a.code;
    }
  }

  /** Code emitted by the compiler into any surroundings, run with at least the registers it counted, does what the
      source means. */
  lemma {:induction false} EmittedRuns(h: Host, e: Expr, c0: seq<Instr>, m0: Reg, c1: seq<Instr>, m1: Reg,
                                       later: seq<Instr>, s: State)
    returns (c: Config)
    requires Grown(c0, false, c1, m1, false, CompileExpr(e, m0).code, CompileExpr(e, m0).mark)
    requires Scoped(e, h.base) && h.base <= m0 && m1 <= |s.regs|
    ensures Runs(h, c1 + later, Running(|c0|, s), c)
    ensures ExprPost(h, CompileExpr(e, m0), m0, |c0|, s, Eval(h, e, StoreOf(h, s)), c)
  {
    hide Runs, CompileExpr, Eval, Scoped;
    assert (c1 + later)[|c0|..|c1|] == CompileExpr(e, m0).code;
    c := ExprRuns(h, e, m0, c1 + later, |c0|, s);
  }

  class Compiler {
    var code: seq<Instr>
    var scratch: nat
    var scratchPeak: nat
    var registerOverflow: bool

    ghost predicate Valid()
      reads this
    {
      scratch <= scratchPeak <= REGISTER_MAX
    }

    constructor (locals: nat)
      requires locals <= REGISTER_MAX
      ensures Valid() && code == [] && scratch == locals && !registerOverflow
    {
      code, scratch, scratchPeak, registerOverflow := [], locals, locals, false;
    }

    // ----- Primitives -----

    /** The next register. At the last one the watermark stays and the overflow is noted. */
    method AllocScratch() returns (r: Reg)
      requires Valid()
      modifies this
      ensures Valid() && code == old(code) && r == old(scratch)
      ensures registerOverflow == (old(registerOverflow) || old(scratch) == REGISTER_MAX)
      ensures scratch == if old(scratch) < REGISTER_MAX then old(scratch) + 1 else old(scratch)
    {
      r := scratch;
      if scratch < REGISTER_MAX {
        scratch := scratch + 1;
        if scratch > scratchPeak {
          scratchPeak := scratch;
        }
      } else {
        registerOverflow := true;
      }
    }

    method Emit(i: Instr)
      requires Valid()
      modifies this`code
      ensures Valid() && code == old(code) + [i]
    {
      code := code + [i];
    }

    method EmitBranchPlaceholder(i: Instr) returns (pc: nat)
      requires Valid() && IsBranch(i) && i.delta == 0
      modifies this`code
      ensures Valid() && code == old(code) + [i] && pc == |old(code)|
    {
      pc := |code|;
      code := code + [i];
    }

    /** Make the branch at `at` lead to `target`. */
    method PatchBranch(at: nat, target: nat)
      requires Valid() && at < |code| && IsBranch(code[at])
      modifies this`code
      ensures Valid() && code == old(code)[at := WithDelta(old(code)[at], target - (at + 1))]
    {
      code := code[at := WithDelta(code[at], target - (at + 1))];
    }

    method PatchBranchToHere(at: nat)
      requires Valid() && at < |code| && IsBranch(code[at])
      modifies this`code
      ensures Valid() && code == old(code)[at := WithDelta(old(code)[at], |old(code)| - (at + 1))]
    {
      PatchBranch(at, |code|);
    }

    // ----- Straight-line and looping helpers -----

    method EmitRequireObjectCoercible(value: Reg)
      requires Valid()
      modifies this
      ensures Valid() && Grown(old(code), old(registerOverflow), code, scratch, registerOverflow,
                               RequireCoercible(value, old(scratch)), old(scratch) + 2)
    {
      ghost var c0 := code;
      var toThrow := EmitBranchPlaceholder(JumpIfNullish(0, value));
      var toBody := EmitBranchPlaceholder(Jump(0));
      PatchBranchToHere(toThrow);
      assert code == c0 + [JumpIfNullish(1, value), Jump(0)];
      var message := AllocScratch();
      Emit(LoadConst(message, DESTRUCTURE_MESSAGE));
      var error := AllocScratch();
      Emit(NewError(error, TYPE_ERROR, message));
      Emit(Throw(error));
      PatchBranchToHere(toBody);
      assert code == c0 + [JumpIfNullish(1, value), Jump(3), LoadConst(message, DESTRUCTURE_MESSAGE),
                           NewError(error, TYPE_ERROR, message), Throw(error)];
    }

    /** The loop that drains an iterator into an array. */
    method EmitDrain(arr: Reg, value: Reg, done: Reg, iter: Reg)
      requires Valid()
      modifies this`code
      ensures Valid() && code == old(code) + DrainLoop(arr, value, done, iter)
    {
      ghost var c0 := code;
      var loopTop := |code|;
      Emit(IteratorNext(value, done, iter));
      var exit := EmitBranchPlaceholder(JumpIfTrue(0, done));
      Emit(ArrayPush(arr, value));
      var back := EmitBranchPlaceholder(Jump(0));
      PatchBranch(back, loopTop);
      assert code == c0 + [IteratorNext(value, done, iter), JumpIfTrue(0, done), ArrayPush(arr, value), Jump(-4)];
      PatchBranchToHere(exit);
    }

    /** The test of a logical assignment. */
    method EmitTest(op: LogicalOp, cur: Reg) returns (test: Reg)
      requires Valid()
      modifies this
      ensures Valid() && Grown(old(code), old(registerOverflow), code, scratch, registerOverflow,
                               TestCode(op, cur, old(scratch)), TestRegister(op, old(scratch)) + 1)
      ensures !registerOverflow ==> test == TestRegister(op, old(scratch))
    {
      ghost var c0 := code;
      match op
      case And =>
        test := AllocScratch();
        Emit(ToBoolean(test, cur));
      case Or =>
        var b := AllocScratch();
        Emit(ToBoolean(b, cur));
        test := AllocScratch();
        Emit(LogicalNot(test, b));
        assert code == c0 + [ToBoolean(b, cur), LogicalNot(test, b)];
      case Nullish =>
        test := EmitNullishTest(cur);
    }

    method EmitNullishTest(cur: Reg) returns (test: Reg)
      requires Valid()
      modifies this
      ensures Valid() && Grown(old(code), old(registerOverflow), code, scratch, registerOverflow,
                               TestCode(Nullish, cur, old(scratch)), old(scratch) + 5)
      ensures !registerOverflow ==> test == old(scratch) + 4
    {
      ghost var c0 := code;
      var u := AllocScratch();
      Emit(LoadUndefined(u));
      var n := AllocScratch();
      Emit(LoadNull(n));
      var isUndefined := AllocScratch();
      Emit(Equal(isUndefined, cur, u));
      var isNull := AllocScratch();
      Emit(Equal(isNull, cur, n));
      test := AllocScratch();
      Emit(ToBoolean(test, isUndefined));
      ghost var c1 := [LoadUndefined(u), LoadNull(n), Equal(isUndefined, cur, u), Equal(isNull, cur, n),
                       ToBoolean(test, isUndefined)];
      assert code == c0 + c1;
      var toEnd := EmitBranchPlaceholder(JumpIfTrue(0, test));
      Emit(StoreLocal(isNull, test));
      PatchBranchToHere(toEnd);
      assert code == c0 + (c1 + [JumpIfTrue(1, test), StoreLocal(isNull, test)]);
    }

    method EmitLoad(pr: Prepared, dst: Reg)
      requires Valid()
      modifies this`code
      ensures Valid() && code == old(code) + LoadTarget(pr, dst)
    {
      match pr
      case InLocal(local) => Emit(LoadLocal(dst, local));
      case InMember(obj, name) => Emit(LoadMember(dst, obj, name));
      case InElement(obj, key) => Emit(LoadElement(dst, obj, key));
      case NotPrepared =>
    }

    // ----- Lowerings -----

    method Expression(e: Expr) returns (r: Reg)
      requires Valid()
      modifies this
      ensures Valid() && Grown(old(code), old(registerOverflow), code, scratch, registerOverflow,
                               CompileExpr(e, old(scratch)).code, CompileExpr(e, old(scratch)).mark)
      ensures !registerOverflow ==> r == CompileExpr(e, old(scratch)).result
      decreases e, 3
    {
      match e
      case Literal(v) =>
        r := AllocScratch();
        Emit(LoadConst(r, v));
      case ReadLocal(local) =>
        r := AllocScratch();
        Emit(LoadLocal(r, local));
      case Opaque(k) =>
        r := AllocScratch();
        Emit(Perform(r, k));
      case LogicalAssign(_, _, _) =>
        r := LogicalAssignment(e);
      case ArrayAssign(pattern, source) =>
        r := Expression(source);
        AssignArrayPattern(pattern, r);
      case ArgumentArray(args) =>
        r := SpreadCallArgs(args);
    }

    method LogicalAssignment(e: Expr) returns (result: Reg)
      requires Valid() && e.LogicalAssign?
      modifies this
      ensures Valid() && Grown(old(code), old(registerOverflow), code, scratch, registerOverflow,
                               CompileExpr(e, old(scratch)).code, CompileExpr(e, old(scratch)).mark)
      ensures !registerOverflow ==> result == CompileExpr(e, old(scratch)).result
      decreases e, 2
    {
      hide PrepareTarget, CompileShortCircuit;
      ghost var c0, t := code, PrepareTarget(e.target, scratch);
      var pr := PrepareAssignmentTarget(e.target);
      var cur := AllocScratch();
      EmitLoad(pr, cur);
      ghost var load := LoadTarget(t.prepared, t.mark);
      assert !registerOverflow ==> code == c0 + (t.code + load);
      result := ShortCircuit(e, pr, cur);
      ghost var body := CompileShortCircuit(e, t.prepared, t.mark, t.mark + 1);
      assert c0 + (t.code + load) + body.code == c0 + (t.code + (load + body.code));
    }

    /** Test the current value and branch over the assignment. */
    method ShortCircuit(e: Expr, pr: Prepared, cur: Reg) returns (result: Reg)
      requires Valid() && e.LogicalAssign?
      modifies this
      ensures Valid() && Grown(old(code), old(registerOverflow), code, scratch, registerOverflow,
                               CompileShortCircuit(e, pr, cur, old(scratch)).code,
                               CompileShortCircuit(e, pr, cur, old(scratch)).mark)
      ensures !registerOverflow ==> result == CompileShortCircuit(e, pr, cur, old(scratch)).result
      decreases e, 1
    {
      hide TestCode, CompileRhs;
      ghost var c0, m := code, scratch;
      var test := EmitTest(e.op, cur);
      result := AllocScratch();
      Emit(StoreLocal(cur, result));
      ghost var before := code;
      var skip := EmitBranchPlaceholder(JumpIfFalse(0, test));
      ghost var c1 := code;
      Rhs(e, pr, result);
      assert code[skip] == c1[skip];
      ghost var c2 := code;
      PatchBranchToHere(skip);
      ghost var store := CompileRhs(e, pr, result, result + 1);
      if !registerOverflow {
        assert c2 == before + [JumpIfFalse(0, test)] + store.code;
        PatchMiddle(before, JumpIfFalse(0, test), store.code, JumpIfFalse(|store.code|, test));
        assert code == before + [JumpIfFalse(|store.code|, test)] + store.code;
        assert before == c0 + TestCode(e.op, cur, m) + [StoreLocal(cur, result)];
      }
    }

    method Rhs(e: Expr, pr: Prepared, result: Reg)
      requires Valid() && e.LogicalAssign?
      modifies this
      ensures Valid() && Grown(old(code), old(registerOverflow), code, scratch, registerOverflow,
                               CompileRhs(e, pr, result, old(scratch)).code,
                               CompileRhs(e, pr, result, old(scratch)).mark)
      decreases e, 0
    {
      hide CompileExpr, AssignPrepared;
      ghost var c0, r := code, CompileExpr(e.rhs, scratch);
      var v := Expression(e.rhs);
      AssignPreparedTarget(e.target, pr, v);
      Emit(StoreLocal(v, result));
      ghost var put := AssignPrepared(e.target, pr, r.result, r.mark);
      assert c0 + r.code + put.code + [StoreLocal(v, result)] == c0 + (r.code + (put.code + [StoreLocal(v, result)]));
    }

    /** Evaluate a target reference into registers; a nested pattern has none. */
    method PrepareAssignmentTarget(t: Target) returns (pr: Prepared)
      requires Valid()
      modifies this
      ensures Valid() && Grown(old(code), old(registerOverflow), code, scratch, registerOverflow,
                               PrepareTarget(t, old(scratch)).code, PrepareTarget(t, old(scratch)).mark)
      ensures !registerOverflow ==> pr == PrepareTarget(t, old(scratch)).prepared
      decreases t, 0
    {
      hide CompileExpr;
      match t
      case Variable(local) =>
        pr := InLocal(local);
      case StaticMember(obj, name) =>
        var o := Expression(obj);
        pr := InMember(o, name);
      case ComputedMember(obj, key) =>
        var o := Expression(obj);
        var k := Expression(key);
        pr := InElement(o, k);
      case ArrayTarget(_) =>
        pr := NotPrepared;
    }

    method AssignPreparedTarget(t: Target, pr: Prepared, v: Reg)
      requires Valid()
      modifies this
      ensures Valid() && Grown(old(code), old(registerOverflow), code, scratch, registerOverflow,
                               AssignPrepared(t, pr, v, old(scratch)).code, AssignPrepared(t, pr, v, old(scratch)).mark)
      decreases t, 1
    {
      hide CompilePattern;
      match pr
      case InLocal(local) =>
        Emit(StoreLocal(v, local));
      case InMember(obj, name) =>
        var r := AllocScratch();
        Emit(StoreMember(obj, name, v, r));
      case InElement(obj, key) =>
        Emit(StoreElement(obj, key, v));
      case NotPrepared =>
        if t.ArrayTarget? {
          AssignArrayPattern(t.pattern, v);
        }
    }

    method EmitUndefinedTest(value: Reg) returns (isUndefined: Reg, result: Reg)
      requires Valid()
      modifies this
      ensures Valid() && Grown(old(code), old(registerOverflow), code, scratch, registerOverflow,
                               [LoadUndefined(old(scratch)),
                                Equal(old(scratch) + 1, value, old(scratch))], old(scratch) + 3)
      ensures !registerOverflow ==> isUndefined == old(scratch) + 1 && result == old(scratch) + 2
    {
      ghost var c0 := code;
      var u := AllocScratch();
      Emit(LoadUndefined(u));
      isUndefined := AllocScratch();
      Emit(Equal(isUndefined, value, u));
      result := AllocScratch();
      assert code == c0 + [LoadUndefined(u), Equal(isUndefined, value, u)];
    }

    method ApplyDefaultWithName(value: Reg, init: Expr) returns (result: Reg)
      requires Valid()
      modifies this
      ensures Valid() && Grown(old(code), old(registerOverflow), code, scratch, registerOverflow,
                               ApplyDefault(value, init, old(scratch)).code,
                               ApplyDefault(value, init, old(scratch)).mark)
      ensures !registerOverflow ==> result == ApplyDefault(value, init, old(scratch)).result
      decreases init, 4
    {
      hide CompileExpr;
      ghost var m := scratch;
      var isUndefined;
      isUndefined, result := EmitUndefinedTest(value);
      ghost var c1 := code;
      var toUseValue := EmitBranchPlaceholder(JumpIfFalse(0, isUndefined));
      ghost var c2 := code;
      var v := Expression(init);
      Emit(StoreLocal(v, result));
      ghost var c3 := code;
      var toEnd := EmitBranchPlaceholder(Jump(0));
      assert code[toUseValue] == c2[toUseValue];
      PatchBranchToHere(toUseValue);
      Emit(StoreLocal(value, result));
      assert code[toEnd] == Jump(0);
      PatchBranchToHere(toEnd);
      if !registerOverflow {
        ghost var i := CompileExpr(init, m + 3);
        DefaultPatched(c1, JumpIfFalse(0, isUndefined), i.code + [StoreLocal(v, result)], StoreLocal(value, result),
                       JumpIfFalse(|i.code| + 2, isUndefined), c3, code);
      }
    }

    /** One binding of a pattern element: the default, then the store. */
    method AssignMaybeDefault(e: Element, pr: Prepared, value: Reg)
      requires Valid() && e.Item?
      modifies this
      ensures Valid() && Grown(old(code), old(registerOverflow), code, scratch, registerOverflow,
                               CompileBinding(e, pr, value, old(scratch)).code,
                               CompileBinding(e, pr, value, old(scratch)).mark)
      decreases e, 0
    {
      hide ApplyDefault, AssignPrepared;
      if e.init.Some? {
        var resolved := ApplyDefaultWithName(value, e.init.value);
        AssignPreparedTarget(e.target, pr, resolved);
      } else {
        AssignPreparedTarget(e.target, pr, value);
      }
    }

    /** One element of an array pattern; `done` is the iterator's flag. */
    method AssignElement(e: Element, iter: Reg) returns (done: Reg)
      requires Valid()
      modifies this
      ensures Valid() && Grown(old(code), old(registerOverflow), code, scratch, registerOverflow,
                               CompileElement(e, iter, old(scratch)).code, CompileElement(e, iter, old(scratch)).mark)
      ensures !registerOverflow ==> done == CompileElement(e, iter, old(scratch)).result
      decreases e, 1
    {
      hide PrepareTarget, CompileBinding;
      ghost var c0, m := code, scratch;
      var pr := NotPrepared;
      if e.Item? {
        pr := PrepareAssignmentTarget(e.target);
      }
      var value := AllocScratch();
      done := AllocScratch();
      Emit(IteratorNext(value, done, iter));
      if e.Item? {
        AssignMaybeDefault(e, pr, value);
        ghost var t := PrepareTarget(e.target, m);
        ghost var bind := CompileBinding(e, t.prepared, t.mark, t.mark + 2);
        ghost var next := [IteratorNext(value, done, iter)];
        assert c0 + t.code + next + bind.code == c0 + (t.code + (next + bind.code));
      }
    }

    method AssignElements(es: seq<Element>, iter: Reg, last: Reg) returns (done: Reg)
      requires Valid()
      modifies this
      ensures Valid() && Grown(old(code), old(registerOverflow), code, scratch, registerOverflow,
                               CompileElements(es, iter, old(scratch), last).code,
                               CompileElements(es, iter, old(scratch), last).mark)
      ensures !registerOverflow ==> done == CompileElements(es, iter, old(scratch), last).result
      decreases es, 0
    {
      hide CompileElement;
      ghost var c0, m, o := code, scratch, registerOverflow;
      done := last;
      var k := 0;
      while k < |es|
        invariant k <= |es| && Valid()
        invariant Grown(c0, o, code, scratch, registerOverflow,
                        CompileElements(es[..k], iter, m, last).code, CompileElements(es[..k], iter, m, last).mark)
        invariant !registerOverflow ==> done == CompileElements(es[..k], iter, m, last).result
      {
        ElementsSnoc(es, k, iter, m, last);
        done := AssignElement(es[k], iter);
        k := k + 1;
      }
      assert es[..|es|] == es;
    }

    method AssignRest(t: Target, iter: Reg)
      requires Valid()
      modifies this
      ensures Valid() && Grown(old(code), old(registerOverflow), code, scratch, registerOverflow,
                               CompileRest(t, iter, old(scratch)).code, CompileRest(t, iter, old(scratch)).mark)
      decreases t, 2
    {
      hide PrepareTarget, AssignPrepared, DrainLoop;
      ghost var c0, p := code, PrepareTarget(t, scratch);
      var pr := PrepareAssignmentTarget(t);
      var arr := AllocScratch();
      Emit(NewArray(arr));
      var value := AllocScratch();
      var done := AllocScratch();
      EmitDrain(arr, value, done, iter);
      AssignPreparedTarget(t, pr, arr);
      Emit(IteratorCloseEnd(iter));
      if !registerOverflow {
        ghost var put := AssignPrepared(t, p.prepared, arr, arr + 3);
        ghost var loop := DrainLoop(arr, arr + 1, arr + 2, iter);
        assert c0 + p.code + [NewArray(arr)] + loop + put.code + [IteratorCloseEnd(iter)]
            == c0 + (p.code + ([NewArray(arr)] + (loop + (put.code + [IteratorCloseEnd(iter)]))));
      }
    }

    method EmitCloseTail(es: seq<Element>, done: Reg, iter: Reg)
      requires Valid()
      modifies this`code
      ensures Valid() && code == old(code) + CloseTail(es, done, iter)
    {
      if es != [] {
        var skip := EmitBranchPlaceholder(JumpIfTrue(0, done));
        Emit(IteratorClose(iter));
        PatchBranchToHere(skip);
        Emit(IteratorCloseEnd(iter));
      } else {
        Emit(IteratorClose(iter));
        Emit(IteratorCloseEnd(iter));
      }
    }

    method OpenIterator(value: Reg) returns (iter: Reg)
      requires Valid()
      modifies this
      ensures Valid() && Grown(old(code), old(registerOverflow), code, scratch, registerOverflow,
                               RequireCoercible(value, old(scratch))
                               + [GetIterator(old(scratch) + 2, value),
                                  IteratorCloseStart(old(scratch) + 2)], old(scratch) + 3)
      ensures !registerOverflow ==> iter == old(scratch) + 2
    {
      hide RequireCoercible;
      EmitRequireObjectCoercible(value);
      iter := AllocScratch();
      Emit(GetIterator(iter, value));
      Emit(IteratorCloseStart(iter));
    }

    method AssignArrayPattern(p: Pattern, value: Reg)
      requires Valid()
      modifies this
      ensures Valid() && Grown(old(code), old(registerOverflow), code, scratch, registerOverflow,
                               CompilePattern(p, value, old(scratch)).code, CompilePattern(p, value, old(scratch)).mark)
      decreases p, 0
    {
      hide CompileElements, CompileRest, RequireCoercible, CloseTail;
      ghost var c0, m := code, scratch;
      var iter := OpenIterator(value);
      var done := AssignElements(p.elements, iter, 0);
      ghost var es := CompileElements(p.elements, m + 2, m + 3, 0);
      if p.rest.Some? {
        AssignRest(p.rest.value, iter);
      } else {
        EmitCloseTail(p.elements, done, iter);
      }
      if !registerOverflow {
        ghost var open := [GetIterator(iter, value), IteratorCloseStart(iter)];
        ghost var tail := if p.rest.Some? then CompileRest(p.rest.value, iter, es.mark).code
                          else CloseTail(p.elements, done, iter);
        ghost var check := RequireCoercible(value, m);
        assert c0 + check + open + es.code + tail == c0 + (check + (open + (es.code + tail)));
      }
    }

    method SpreadIntoArray(dst: Reg, iterable: Expr)
      requires Valid()
      modifies this
      ensures Valid() && Grown(old(code), old(registerOverflow), code, scratch, registerOverflow,
                               CompileArg(Spread(iterable), dst, old(scratch)).code,
                               CompileArg(Spread(iterable), dst, old(scratch)).mark)
      decreases iterable, 4
    {
      hide CompileExpr, DrainLoop;
      ghost var c0, f := code, CompileExpr(iterable, scratch);
      var v := Expression(iterable);
      var iter := AllocScratch();
      Emit(GetIterator(iter, v));
      var value := AllocScratch();
      var done := AllocScratch();
      EmitDrain(dst, value, done, iter);
      if !registerOverflow {
        ghost var loop := DrainLoop(dst, f.mark + 1, f.mark + 2, f.mark);
        assert c0 + f.code + [GetIterator(iter, v)] + loop == c0 + (f.code + ([GetIterator(iter, v)] + loop));
      }
    }

    method SpreadCallArgs(args: seq<Argument>) returns (dst: Reg)
      requires Valid()
      modifies this
      ensures Valid() && Grown(old(code), old(registerOverflow), code, scratch, registerOverflow,
                               CompileExpr(ArgumentArray(args), old(scratch)).code,
                               CompileExpr(ArgumentArray(args), old(scratch)).mark)
      ensures !registerOverflow ==> dst == CompileExpr(ArgumentArray(args), old(scratch)).result
      decreases args, 1
    {
      hide CompileArgs;
      ghost var c0, m := code, scratch;
      dst := AllocScratch();
      Emit(NewArray(dst));
      Arguments(args, dst);
      if !registerOverflow {
        ghost var body := CompileArgs(args, m, m + 1);
        assert c0 + [NewArray(dst)] + body.code == c0 + ([NewArray(dst)] + body.code);
      }
    }

    method Arguments(args: seq<Argument>, dst: Reg)
      requires Valid()
      modifies this
      ensures Valid() && Grown(old(code), old(registerOverflow), code, scratch, registerOverflow,
                               CompileArgs(args, dst, old(scratch)).code, CompileArgs(args, dst, old(scratch)).mark)
      decreases args, 0
    {
      hide CompileArg;
      ghost var c0, m, o := code, scratch, registerOverflow;
      var k := 0;
      while k < |args|
        invariant k <= |args| && Valid()
        invariant Grown(c0, o, code, scratch, registerOverflow,
                        CompileArgs(args[..k], dst, m).code, CompileArgs(args[..k], dst, m).mark)
      {
        ArgsSnoc(args, k, dst, m);
        Argument(args[k], dst);
        k := k + 1;
      }
      assert args[..|args|] == args;
    }

    method Argument(a: Argument, dst: Reg)
      requires Valid()
      modifies this
      ensures Valid() && Grown(old(code), old(registerOverflow), code, scratch, registerOverflow,
                               CompileArg(a, dst, old(scratch)).code, CompileArg(a, dst, old(scratch)).mark)
      decreases a, 0
    {
      match a
      case Spread(e) =>
        SpreadIntoArray(dst, e);
      case Plain(e) =>
        hide CompileExpr;
        var r := Expression(e);
        Emit(ArrayPush(dst, r));
    }
  }
}
