/**
  * Running lowered code does what the source means: same result, same variables, same world, same registered iterators,
  * for normal and abrupt completion, wherever the code is placed and however constructs nest.
  */
module LoweringProof {
  import opened Prelude
  import opened Machine
  import opened Lowering

  function StoreOf(h: Host, s: State): (st: Store)
    requires h.base <= |s.regs|
  {
    Store(s.regs[..h.base], s.world, s.closers, s.log)
  }

  /** Scratch registers below `m` are as before. */
  ghost predicate Kept(h: Host, s: State, s': State, m: Reg)
  {
    && |s'.regs| == |s.regs|
    && forall r :: h.base <= r < m && r < |s.regs| ==> s'.regs[r] == s.regs[r]
  }

  /** The machine stopped by throwing `error`, in a state that shows `st`. */
  ghost predicate Stopped(h: Host, c: Config, error: Value, st: Store)
  {
    c.Thrown? && c.v == error && h.base <= |c.s.regs| && StoreOf(h, c.s) == st
  }

  /** The machine reached `q`, showing `st`, with the scratch registers below `m` unchanged since `s`. */
  ghost predicate Reached(h: Host, c: Config, q: int, s: State, m: Reg, st: Store)
  {
    c.Running? && c.pc == q && h.base <= |c.s.regs| && Kept(h, s, c.s, m) && StoreOf(h, c.s) == st
  }

  /** Outcome of running the code of an expression from `p`. */
  ghost predicate ExprPost(h: Host, f: Frag, m: Reg, p: int, s: State, r: EvalResult, c: Config)
  {
    match r
    case Returned(v, st) => Reached(h, c, p + |f.code|, s, m, st) && c.s.Get(f.result) == v
    case Threw(error, st) => Stopped(h, c, error, st)
  }

  /** Outcome of running code that only has an effect. */
  ghost predicate BlockPost(h: Host, size: nat, m: Reg, p: int, s: State, r: Completion, c: Config)
  {
    match r
    case Done(st) => Reached(h, c, p + size, s, m, st)
    case Failed(error, st) => Stopped(h, c, error, st)
  }

  /** The registers a fragment needs: room up to `mark`, scratch from `m`. */
  ghost predicate Ready(h: Host, s: State, m: Reg, mark: Reg)
  {
    h.base <= m && mark <= |s.regs| && h.base <= |s.regs|
  }

  lemma {:induction false} SetScratch(h: Host, s: State, r: Reg, v: Value, m: Reg)
    requires h.base <= m <= r < |s.regs|
    ensures Kept(h, s, s.Set(r, v), m) && StoreOf(h, s.Set(r, v)) == StoreOf(h, s) && s.Set(r, v).Get(r) == v
  {}

  lemma {:induction false} KeptTrans(h: Host, a: State, b: State, c: State, m: Reg, m': Reg)
    requires Kept(h, a, b, m) && Kept(h, b, c, m') && m <= m'
    ensures Kept(h, a, c, m)
  {}

  // ----- Draining -----

  /** One iteration of the drain loop: it stops with the iterator's error, leaves through the exit when the iterator is
      done, else appends one value and is back at the top. */
  lemma {:induction false} DrainOnce(h: Host, code: seq<Instr>, p: nat, arr: Reg, value: Reg, iter: Reg, s: State)
    returns (c: Config)
    requires CodeAt(code, p, DrainLoop(arr, value, value + 1, iter)) && Ready(h, s, h.base, value + 2)
    requires h.base <= arr < value && h.base <= iter < value
    requires s.Get(iter).IteratorRef? && s.Get(arr).ArrayRef?
    ensures Runs(h, code, Running(p, s), c)
    ensures match StepIterator(StoreOf(h, s), s.Get(iter).handle)
            case StepThrew(error, st) => Stopped(h, c, error, st)
            case Step(v, done, st) =>
              if done then Reached(h, c, p + 4, s, value, st)
              else Reached(h, c, p, s, value, st.(world := Pushed(st.world, s.Get(arr).slot, v)))
  {
    hide Runs, CodeAt, Stepping, Pushed, Deregister;
    var it, start := s.Get(iter).handle, Running(p, s);
    var loop := DrainLoop(arr, value, value + 1, iter);
    RunsNone(h, code, start);
    RunNext(h, code, start, p, loop, 0, s);
    c := Apply(h, loop[0], p, s);
    var step := StepIterator(StoreOf(h, s), it);
    if step.Step? {
      var s1 := c.s;
      RunNext(h, code, start, p, loop, 1, s1);
      if step.done {
        c := Running(p + 4, s1);
      } else {
        RunNext(h, code, start, p, loop, 2, s1);
        var s2 := Apply(h, loop[2], p + 2, s1).s;
        RunNext(h, code, start, p, loop, 3, s2);
        c := Running(p, s2);
      }
    }
  }

  /** The drain loop ends: it appends every pending value and leaves the iterator exhausted and deregistered, or throws
      what the iterator throws. */
  lemma {:induction false} DrainRuns(h: Host, code: seq<Instr>, p: nat, arr: Reg, value: Reg, iter: Reg, s: State)
    returns (c: Config)
    requires CodeAt(code, p, DrainLoop(arr, value, value + 1, iter)) && Ready(h, s, h.base, value + 2)
    requires h.base <= arr < value && h.base <= iter < value
    requires s.Get(iter).IteratorRef? && s.Get(arr).ArrayRef?
    ensures Runs(h, code, Running(p, s), c)
    ensures BlockPost(h, 4, value, p, s, Drain(StoreOf(h, s), s.Get(iter).handle, s.Get(arr).slot), c)
    decreases |Pending(s.world, s.Get(iter).handle).values|
  {
    hide Runs, CodeAt, Deregister;
    c := DrainOnce(h, code, p, arr, value, iter, s);
    if Pending(s.world, s.Get(iter).handle).values != [] {
      var s1 := c.s;
      c := DrainRuns(h, code, p, arr, value, iter, s1);
      RunsTrans(h, code, Running(p, s), Running(p, s1), c);
      if c.Running? {
        KeptTrans(h, s, s1, c.s, value, value);
      }
    }
  }

  // ----- Checks and tests -----

  /** A destructured value must not be `null` or `undefined`; otherwise a TypeError is thrown before anything else. */
  lemma {:induction false} CoercibleRuns(h: Host, code: seq<Instr>, p: nat, value: Reg, s: State, m: Reg)
    returns (c: Config)
    requires CodeAt(code, p, RequireCoercible(value, m)) && Ready(h, s, m, m + 2)
    ensures Runs(h, code, Running(p, s), c)
    ensures if s.Get(value).Nullish() then Stopped(h, c, ErrorObject(TYPE_ERROR, DESTRUCTURE_MESSAGE), StoreOf(h, s))
            else c == Running(p + 5, s)
  {
    var start, frag := Running(p, s), RequireCoercible(value, m);
    hide Runs, CodeAt;
    RunsNone(h, code, start);
    RunNext(h, code, start, p, frag, 0, s);
    if s.Get(value).Nullish() {
      RunNext(h, code, start, p, frag, 2, s);
      var s1 := s.Set(m, DESTRUCTURE_MESSAGE);
      SetScratch(h, s, m, DESTRUCTURE_MESSAGE, m);
      RunNext(h, code, start, p, frag, 3, s1);
      var s2 := s1.Set(m + 1, ErrorObject(TYPE_ERROR, DESTRUCTURE_MESSAGE));
      SetScratch(h, s1, m + 1, ErrorObject(TYPE_ERROR, DESTRUCTURE_MESSAGE), m);
      RunNext(h, code, start, p, frag, 4, s2);
      c := Thrown(ErrorObject(TYPE_ERROR, DESTRUCTURE_MESSAGE), s2);
    } else {
      RunNext(h, code, start, p, frag, 1, s);
      c := Running(p + 5, s);
    }
  }

  /** The test register ends up truthy exactly when the logical assignment should assign. */
  lemma {:induction false} TestRuns(h: Host, code: seq<Instr>, p: nat, op: LogicalOp, cur: Reg, s: State, m: Reg)
    returns (c: Config)
    requires CodeAt(code, p, TestCode(op, cur, m)) && Ready(h, s, m, TestRegister(op, m) + 1) && h.base <= cur < m
    ensures Runs(h, code, Running(p, s), c)
    ensures Reached(h, c, p + |TestCode(op, cur, m)|, s, m, StoreOf(h, s))
    ensures c.s.Get(TestRegister(op, m)).Truthy() <==> Assigns(op, s.Get(cur))
  {
    var start, frag := Running(p, s), TestCode(op, cur, m);
    hide Runs, CodeAt;
    RunsNone(h, code, start);
    RunNext(h, code, start, p, frag, 0, s);
    var s1 := Apply(h, frag[0], p, s).s;
    if op == And {
      c := Running(p + 1, s1);
    } else if op == Or {
      RunNext(h, code, start, p, frag, 1, s1);
      c := Apply(h, frag[1], p + 1, s1);
    } else {
      c := NullishRuns(h, code, p, cur, s, m);
    }
  }

  lemma {:induction false} NullishLoads(h: Host, code: seq<Instr>, p: nat, cur: Reg, s: State, m: Reg)
    returns (s': State)
    requires CodeAt(code, p, TestCode(Nullish, cur, m)) && Ready(h, s, m, m + 5)
    ensures Runs(h, code, Running(p, s), Running(p + 2, s'))
    ensures Kept(h, s, s', m) && StoreOf(h, s') == StoreOf(h, s) && s'.Get(m) == Undefined && s'.Get(m + 1) == Null
  {
    hide Runs, CodeAt;
    var start, frag := Running(p, s), TestCode(Nullish, cur, m);
    RunsNone(h, code, start);
    RunNext(h, code, start, p, frag, 0, s);
    var s1 := s.Set(m, Undefined);
    RunNext(h, code, start, p, frag, 1, s1);
    s' := s1.Set(m + 1, Null);
  }

  lemma {:induction false} NullishCompares(h: Host, code: seq<Instr>, p: nat, cur: Reg, s: State, m: Reg)
    returns (s': State)
    requires CodeAt(code, p, TestCode(Nullish, cur, m)) && Ready(h, s, m, m + 5) && h.base <= cur < m
    ensures Runs(h, code, Running(p, s), Running(p + 5, s'))
    ensures Kept(h, s, s', m) && StoreOf(h, s') == StoreOf(h, s)
    ensures s'.Get(m + 3) == Boolean(s.Get(cur) == Null) && s'.Get(m + 4) == Boolean(s.Get(cur) == Undefined)
  {
    hide Runs, CodeAt;
    var start, frag, v := Running(p, s), TestCode(Nullish, cur, m), s.Get(cur);
    var s2 := NullishLoads(h, code, p, cur, s, m);
    RunNext(h, code, start, p, frag, 2, s2);
    var s3 := s2.Set(m + 2, Boolean(v == Undefined));
    RunNext(h, code, start, p, frag, 3, s3);
    var s4 := s3.Set(m + 3, Boolean(v == Null));
    RunNext(h, code, start, p, frag, 4, s4);
    s' := s4.Set(m + 4, Boolean(v == Undefined));
  }

  lemma {:induction false} NullishRuns(h: Host, code: seq<Instr>, p: nat, cur: Reg, s: State, m: Reg)
    returns (c: Config)
    requires CodeAt(code, p, TestCode(Nullish, cur, m)) && Ready(h, s, m, m + 5) && h.base <= cur < m
    ensures Runs(h, code, Running(p, s), c)
    ensures Reached(h, c, p + 7, s, m, StoreOf(h, s))
    ensures c.s.Get(m + 4).Truthy() <==> s.Get(cur).Nullish()
  {
    hide Runs, CodeAt;
    var start, frag := Running(p, s), TestCode(Nullish, cur, m);
    var s1 := NullishCompares(h, code, p, cur, s, m);
    RunNext(h, code, start, p, frag, 5, s1);
    c := Running(p + 7, s1);
    if s.Get(cur) != Undefined {
      RunNext(h, code, start, p, frag, 6, s1);
      c := Running(p + 7, s1.Set(m + 4, s1.Get(m + 3)));
    }
  }

  // ----- Combining fragments -----

  /** The registers of a prepared target hold the reference it stands for. */
  predicate Holds(s: State, p: Prepared, ref: Reference)
  {
    match p
    case InLocal(local) => ref == ToLocal(local)
    case InMember(obj, name) => ref == ToProperty(s.Get(obj), Name(name))
    case InElement(obj, key) => ref == ToProperty(s.Get(obj), Computed(s.Get(key)))
    case NotPrepared => ref == ToPattern
  }

  /** A prepared target usable from mark `m`: its registers are scratch below `m`, or it names a local. */
  predicate Usable(h: Host, t: Target, p: Prepared, m: Reg)
  {
    && PreparedWithin(p, h.base, m)
    && (p.InLocal? ==> p.local < h.base)
    && (p.NotPrepared? ==> t.ArrayTarget?)
  }

  lemma {:induction false} HoldsKept(h: Host, t: Target, s: State, s': State, p: Prepared, ref: Reference, m: Reg)
    requires Holds(s, p, ref) && Usable(h, t, p, m) && Kept(h, s, s', m)
    ensures Holds(s', p, ref)
  {}

  lemma {:induction false} GetKept(h: Host, s: State, s': State, r: Reg, m: Reg)
    requires Kept(h, s, s', m) && h.base <= r < m
    ensures s'.Get(r) == s.Get(r)
  {}

  /** A second fragment after a first that reached its end. */
  lemma {:induction false} ReachedTrans(h: Host, code: seq<Instr>, start: Config, s: State, mid: Config, m: Reg,
                                        q: int, st: Store,
                                        c: Config, m': Reg, q': int, st': Store)
    requires Runs(h, code, start, mid) && Reached(h, mid, q, s, m, st)
    requires Runs(h, code, mid, c) && m <= m'
    ensures Runs(h, code, start, c)
    ensures Reached(h, c, q', mid.s, m', st') ==> Reached(h, c, q', s, m, st')
  {
    RunsTrans(h, code, start, mid, c);
  }

  lemma {:induction false} LeafRuns(h: Host, e: Expr, m: Reg, code: seq<Instr>, p: nat, s: State) returns (c: Config)
    requires e.Literal? || e.ReadLocal? || e.Opaque?
    requires CodeAt(code, p, CompileExpr(e, m).code) && Ready(h, s, m, CompileExpr(e, m).mark) && Scoped(e, h.base)
    ensures Runs(h, code, Running(p, s), c)
    ensures ExprPost(h, CompileExpr(e, m), m, p, s, Eval(h, e, StoreOf(h, s)), c)
  {
    hide Runs, CodeAt;
    var f := CompileExpr(e, m);
    RunsNone(h, code, Running(p, s));
    RunNext(h, code, Running(p, s), p, f.code, 0, s);
    c := Apply(h, f.code[0], p, s);
  }

  /** Load the current value of a prepared target. */
  lemma {:induction false} LoadRuns(h: Host, t: Target, pr: Prepared, ref: Reference, m: Reg, code: seq<Instr>,
                                    p: nat, s: State)
    returns (c: Config)
    requires CodeAt(code, p, LoadTarget(pr, m)) && Ready(h, s, m, m + 1)
    requires Usable(h, t, pr, m) && Holds(s, pr, ref) && !pr.NotPrepared?
    ensures Runs(h, code, Running(p, s), c)
    ensures ExprPost(h, Frag(LoadTarget(pr, m), m, m + 1), m, p, s, GetReference(h, ref, StoreOf(h, s)), c)
  {
    hide Runs, CodeAt;
    RunsNone(h, code, Running(p, s));
    RunNext(h, code, Running(p, s), p, LoadTarget(pr, m), 0, s);
    c := Apply(h, LoadTarget(pr, m)[0], p, s);
  }

  lemma {:induction false} PrepareRuns(h: Host, t: Target, m: Reg, code: seq<Instr>, p: nat, s: State)
    returns (c: Config)
    requires CodeAt(code, p, PrepareTarget(t, m).code) && Ready(h, s, m, PrepareTarget(t, m).mark)
    requires ScopedTarget(t, h.base)
    ensures Runs(h, code, Running(p, s), c)
    ensures Usable(h, t, PrepareTarget(t, m).prepared, PrepareTarget(t, m).mark)
    ensures match Resolve(h, t, StoreOf(h, s))
            case Resolved(ref, st) =>
              Reached(h, c, p + |PrepareTarget(t, m).code|, s, m, st) && Holds(c.s, PrepareTarget(t, m).prepared, ref)
            case RefFailed(error, st) => Stopped(h, c, error, st)
    decreases t, 0
  {
    hide Runs, CodeAt, Scoped, CompileExpr, Eval;
    match t
    case Variable(_) =>
      RunsNone(h, code, Running(p, s));
      c := Running(p, s);
    case StaticMember(obj, _) =>
      c := ExprRuns(h, obj, m, code, p, s);
    case ComputedMember(obj, key) =>
      var o := CompileExpr(obj, m);
      var k := CompileExpr(key, o.mark);
      CodeSplit(code, p, o.code, k.code);
      c := ExprRuns(h, obj, m, code, p, s);
      var first := Eval(h, obj, StoreOf(h, s));
      if first.Returned? {
        var mid := c;
        c := ExprRuns(h, key, o.mark, code, p + |o.code|, mid.s);
        var second := Eval(h, key, first.st);
        ReachedTrans(h, code, Running(p, s), s, mid, m, p + |o.code|, first.st, c, o.mark, p + |o.code| + |k.code|,
                     second.st);
        if second.Returned? {
          GetKept(h, mid.s, c.s, o.result, o.mark);
        }
      }
    case ArrayTarget(_) =>
      RunsNone(h, code, Running(p, s));
      c := Running(p, s);
  }

  /** Storing through a prepared target is the source's PutValue, or a nested destructuring. */
  lemma {:induction false} AssignRuns(h: Host, t: Target, pr: Prepared, ref: Reference, v: Reg, m: Reg,
                                      code: seq<Instr>, p: nat, s: State)
    returns (c: Config)
    requires CodeAt(code, p, AssignPrepared(t, pr, v, m).code) && Ready(h, s, m, AssignPrepared(t, pr, v, m).mark)
    requires ScopedTarget(t, h.base) && Usable(h, t, pr, m) && Holds(s, pr, ref) && h.base <= v < m
    ensures Runs(h, code, Running(p, s), c)
    ensures BlockPost(h, |AssignPrepared(t, pr, v, m).code|, m, p, s, Put(h, t, ref, s.Get(v), StoreOf(h, s)), c)
    decreases t, 1
  {
    hide Runs, CodeAt, CompilePattern, Destructure, ScopedPattern;
    if pr.NotPrepared? {
      c := PatternRuns(h, t.pattern, v, m, code, p, s);
    } else {
      var put := AssignPrepared(t, pr, v, m).code;
      RunsNone(h, code, Running(p, s));
      RunNext(h, code, Running(p, s), p, put, 0, s);
      c := Apply(h, put[0], p, s);
    }
  }

  // ----- Logical assignment -----

  lemma {:induction false} RhsRuns(h: Host, e: Expr, pr: Prepared, ref: Reference, result: Reg, m: Reg,
                                   code: seq<Instr>, p: nat, s: State)
    returns (c: Config)
    requires e.LogicalAssign? && Scoped(e, h.base)
    requires CodeAt(code, p, CompileRhs(e, pr, result, m).code) && Ready(h, s, m, CompileRhs(e, pr, result, m).mark)
    requires Usable(h, e.target, pr, result) && Holds(s, pr, ref) && h.base <= result < m
    ensures Runs(h, code, Running(p, s), c)
    ensures ExprPost(h, Frag(CompileRhs(e, pr, result, m).code, result, m), result, p, s,
                     EvalRhs(h, e, ref, StoreOf(h, s)), c)
    decreases e, 0
  {
    hide Runs, CodeAt, CompileExpr, AssignPrepared, Eval, Put;
    var r := CompileExpr(e.rhs, m);
    var put := AssignPrepared(e.target, pr, r.result, r.mark);
    var move := [StoreLocal(r.result, result)];
    CodeSplit(code, p, r.code, put.code + move);
    CodeSplit(code, p + |r.code|, put.code, move);
    c := ExprRuns(h, e.rhs, m, code, p, s);
    var first := Eval(h, e.rhs, StoreOf(h, s));
    if first.Returned? {
      var s1 := c.s;
      HoldsKept(h, e.target, s, s1, pr, ref, result);
      c := AssignRuns(h, e.target, pr, ref, r.result, r.mark, code, p + |r.code|, s1);
      var second := Put(h, e.target, ref, first.v, first.st);
      ReachedTrans(h, code, Running(p, s), s, Running(p + |r.code|, s1), m, p + |r.code|, first.st,
                   c, r.mark, p + |r.code| + |put.code|, second.st);
      if second.Done? {
        GetKept(h, s1, c.s, r.result, r.mark);
        RunNext(h, code, Running(p, s), p + |r.code| + |put.code|, move, 0, c.s);
        c := Apply(h, move[0], p + |r.code| + |put.code|, c.s);
      }
    }
  }

  lemma {:induction false} ShortCircuitRuns(h: Host, e: Expr, pr: Prepared, ref: Reference, cur: Reg,
                                            code: seq<Instr>, p: nat, s: State)
    returns (c: Config)
    requires e.LogicalAssign? && Scoped(e, h.base)
    requires CodeAt(code, p, CompileShortCircuit(e, pr, cur, cur + 1).code)
    requires Ready(h, s, cur + 1, CompileShortCircuit(e, pr, cur, cur + 1).mark)
    requires Usable(h, e.target, pr, cur) && Holds(s, pr, ref) && h.base <= cur
    ensures Runs(h, code, Running(p, s), c)
    ensures var r := if Assigns(e.op, s.Get(cur)) then EvalRhs(h, e, ref, StoreOf(h, s))
                     else Returned(s.Get(cur), StoreOf(h, s));
            ExprPost(h, CompileShortCircuit(e, pr, cur, cur + 1), cur + 1, p, s, r, c)
    decreases e, 1
  {
    hide Runs, CodeAt, CompileRhs, EvalRhs, Assigns, Scoped, TestCode;
    var test := TestRegister(e.op, cur + 1);
    var result := test + 1;
    var store := CompileRhs(e, pr, result, result + 1);
    var check := TestCode(e.op, cur, cur + 1);
    var skip := [StoreLocal(cur, result), JumpIfFalse(|store.code|, test)];
    var q := p + |check|;
    CodeSplit(code, p, check, skip + store.code);
    CodeSplit(code, q, skip, store.code);
    c := TestRuns(h, code, p, e.op, cur, s, cur + 1);
    var s1 := c.s;
    GetKept(h, s, s1, cur, cur + 1);
    RunNext(h, code, Running(p, s), q, skip, 0, s1);
    var s2 := s1.Set(result, s1.Get(cur));
    SetScratch(h, s1, result, s1.Get(cur), result);
    KeptTrans(h, s, s1, s2, cur + 1, result);
    RunNext(h, code, Running(p, s), q, skip, 1, s2);
    GetKept(h, s1, s2, test, result);
    if Assigns(e.op, s.Get(cur)) {
      HoldsKept(h, e.target, s, s2, pr, ref, cur);
      c := RhsRuns(h, e, pr, ref, result, result + 1, code, q + 2, s2);
      var st := StoreOf(h, s);
      ReachedTrans(h, code, Running(p, s), s, Running(q + 2, s2), cur + 1, q + 2, st, c, result, q + 2 + |store.code|,
                   EvalRhs(h, e, ref, st).st);
    } else {
      c := Running(q + 2 + |store.code|, s2);
    }
  }

  lemma {:induction false} LogicalRuns(h: Host, e: Expr, m: Reg, code: seq<Instr>, p: nat, s: State) returns (c: Config)
    requires e.LogicalAssign?
    requires CodeAt(code, p, CompileExpr(e, m).code) && Ready(h, s, m, CompileExpr(e, m).mark) && Scoped(e, h.base)
    ensures Runs(h, code, Running(p, s), c)
    ensures ExprPost(h, CompileExpr(e, m), m, p, s, Eval(h, e, StoreOf(h, s)), c)
    decreases e, 2
  {
    hide Runs, CodeAt, CompileShortCircuit, PrepareTarget, EvalRhs, Resolve, GetReference, Assigns;
    var t := PrepareTarget(e.target, m);
    var load := LoadTarget(t.prepared, t.mark);
    var body := CompileShortCircuit(e, t.prepared, t.mark, t.mark + 1);
    var q := p + |t.code|;
    CodeSplit(code, p, t.code, load + body.code);
    CodeSplit(code, q, load, body.code);
    c := PrepareRuns(h, e.target, m, code, p, s);
    var start, r := Running(p, s), Resolve(h, e.target, StoreOf(h, s));
    if r.Resolved? {
      var s1 := c.s;
      c := LoadRuns(h, e.target, t.prepared, r.ref, t.mark, code, q, s1);
      var current := GetReference(h, r.ref, r.st);
      ReachedTrans(h, code, start, s, Running(q, s1), m, q, r.st, c, t.mark, q + |load|, current.st);
      if current.Returned? {
        var s2 := c.s;
        HoldsKept(h, e.target, s1, s2, t.prepared, r.ref, t.mark);
        c := ShortCircuitRuns(h, e, t.prepared, r.ref, t.mark, code, q + |load|, s2);
        ReachedTrans(h, code, start, s, Running(q + |load|, s2), m, q + |load|, current.st, c, t.mark + 1,
                     q + |load| + |body.code|, Eval(h, e, StoreOf(h, s)).st);
      }
    }
  }

  // ----- Array patterns -----

  lemma {:induction false} DefaultTests(h: Host, code: seq<Instr>, p: nat, value: Reg, m: Reg, delta: nat, s: State)
    returns (c: Config)
    requires CodeAt(code, p, [LoadUndefined(m), Equal(m + 1, value, m), JumpIfFalse(delta, m + 1)])
    requires Ready(h, s, m, m + 2) && h.base <= value < m
    ensures Runs(h, code, Running(p, s), c)
    ensures Reached(h, c, if s.Get(value) == Undefined then p + 3 else p + 3 + delta, s, m, StoreOf(h, s))
  {
    hide Runs, CodeAt;
    var start, frag := Running(p, s), [LoadUndefined(m), Equal(m + 1, value, m), JumpIfFalse(delta, m + 1)];
    RunsNone(h, code, start);
    RunNext(h, code, start, p, frag, 0, s);
    var s1 := s.Set(m, Undefined);
    RunNext(h, code, start, p, frag, 1, s1);
    var s2 := s1.Set(m + 1, Boolean(s.Get(value) == Undefined));
    RunNext(h, code, start, p, frag, 2, s2);
    c := Apply(h, frag[2], p + 2, s2);
  }

  lemma {:induction false} DefaultRuns(h: Host, value: Reg, init: Expr, m: Reg, code: seq<Instr>, p: nat, s: State)
    returns (c: Config)
    requires CodeAt(code, p, ApplyDefault(value, init, m).code) && Ready(h, s, m, ApplyDefault(value, init, m).mark)
    requires Scoped(init, h.base) && h.base <= value < m
    ensures Runs(h, code, Running(p, s), c)
    ensures ExprPost(h, ApplyDefault(value, init, m), m, p, s, EvalDefault(h, s.Get(value), Some(init), StoreOf(h, s)),
                     c)
    decreases init, 4
  {
    hide Runs, CodeAt, CompileExpr, Eval, Scoped;
    var i := CompileExpr(init, m + 3);
    var test := [LoadUndefined(m), Equal(m + 1, value, m), JumpIfFalse(|i.code| + 2, m + 1)];
    var join := [StoreLocal(i.result, m + 2), Jump(1), StoreLocal(value, m + 2)];
    var q := p + 3 + |i.code|;
    var start := Running(p, s);
    CodeSplit(code, p, test, i.code + join);
    CodeSplit(code, p + 3, i.code, join);
    c := DefaultTests(h, code, p, value, m, |i.code| + 2, s);
    var s1, st := c.s, StoreOf(h, s);
    if s.Get(value) == Undefined {
      var r := Eval(h, init, st);
      c := ExprRuns(h, init, m + 3, code, p + 3, s1);
      ReachedTrans(h, code, start, s, Running(p + 3, s1), m, p + 3, st, c, m + 3, q, r.st);
      if r.Returned? {
        RunNext(h, code, start, q, join, 0, c.s);
        RunNext(h, code, start, q, join, 1, c.s.Set(m + 2, r.v));
        SetScratch(h, c.s, m + 2, r.v, m);
        KeptTrans(h, s, c.s, c.s.Set(m + 2, r.v), m, m);
        c := Running(q + 3, c.s.Set(m + 2, r.v));
      }
    } else {
      RunNext(h, code, start, q, join, 2, s1);
      SetScratch(h, s1, m + 2, s1.Get(value), m);
      KeptTrans(h, s, s1, s1.Set(m + 2, s1.Get(value)), m, m);
      c := Running(q + 3, s1.Set(m + 2, s1.Get(value)));
    }
  }

  lemma {:induction false} StepRuns(h: Host, code: seq<Instr>, p: nat, value: Reg, iter: Reg, s: State)
    returns (c: Config)
    requires CodeAt(code, p, [IteratorNext(value, value + 1, iter)]) && Ready(h, s, value, value + 2)
    requires s.Get(iter).IteratorRef?
    ensures Runs(h, code, Running(p, s), c)
    ensures match StepIterator(StoreOf(h, s), s.Get(iter).handle)
            case StepThrew(error, st) => Stopped(h, c, error, st)
            case Step(v, done, st) =>
              Reached(h, c, p + 1, s, value, st) && c.s.Get(value) == v && c.s.Get(value + 1) == Boolean(done)
  {
    hide Runs, CodeAt, Stepping, Deregister;
    RunsNone(h, code, Running(p, s));
    RunNext(h, code, Running(p, s), p, [IteratorNext(value, value + 1, iter)], 0, s);
    c := Apply(h, IteratorNext(value, value + 1, iter), p, s);
  }

  lemma {:induction false} BindingRuns(h: Host, e: Element, pr: Prepared, ref: Reference, value: Reg, m: Reg,
                                       code: seq<Instr>, p: nat, s: State)
    returns (c: Config)
    requires e.Item? && ScopedElement(e, h.base)
    requires CodeAt(code, p, CompileBinding(e, pr, value, m).code)
    requires Ready(h, s, m, CompileBinding(e, pr, value, m).mark)
    requires Usable(h, e.target, pr, m) && Holds(s, pr, ref) && h.base <= value < m
    ensures Runs(h, code, Running(p, s), c)
    ensures BlockPost(h, |CompileBinding(e, pr, value, m).code|, m, p, s,
                      EvalBinding(h, e, ref, s.Get(value), StoreOf(h, s)), c)
    decreases e, 0
  {
    hide Runs, CodeAt, AssignPrepared, ApplyDefault, Put, ScopedTarget, Scoped, Eval;
    if e.init.None? {
      c := AssignRuns(h, e.target, pr, ref, value, m, code, p, s);
    } else {
      var d := ApplyDefault(value, e.init.value, m);
      var put := AssignPrepared(e.target, pr, d.result, d.mark);
      CodeSplit(code, p, d.code, put.code);
      c := DefaultRuns(h, value, e.init.value, m, code, p, s);
      assert e.init == Some(e.init.value);
      var r := EvalDefault(h, s.Get(value), e.init, StoreOf(h, s));
      if r.Returned? {
        var s1 := c.s;
        HoldsKept(h, e.target, s, s1, pr, ref, m);
        c := AssignRuns(h, e.target, pr, ref, d.result, d.mark, code, p + |d.code|, s1);
        ReachedTrans(h, code, Running(p, s), s, Running(p + |d.code|, s1), m, p + |d.code|, r.st,
                     c, d.mark, p + |d.code| + |put.code|, Put(h, e.target, ref, r.v, r.st).st);
      }
    }
  }

  /** Outcome of running the code of pattern elements. */
  ghost predicate ElementPost(h: Host, f: Frag, m: Reg, p: int, s: State, r: ElementResult, c: Config)
  {
    match r
    case Bound(_, st) => Reached(h, c, p + |f.code|, s, m, st)
    case NotBound(error, st) => Stopped(h, c, error, st)
  }

  /** The flag register of pattern elements says whether the last step was past the end. */
  ghost predicate FlagPost(f: Frag, r: ElementResult, c: Config)
  {
    r.Bound? ==> c.s.Get(f.result) == Boolean(r.done)
  }

  lemma {:induction false} ElementRuns(h: Host, e: Element, iter: Reg, m: Reg, code: seq<Instr>, p: nat, s: State)
    returns (c: Config)
    requires CodeAt(code, p, CompileElement(e, iter, m).code) && Ready(h, s, m, CompileElement(e, iter, m).mark)
    requires ScopedElement(e, h.base) && h.base <= iter < m && s.Get(iter).IteratorRef?
    ensures Runs(h, code, Running(p, s), c)
    ensures var r := EvalElement(h, e, s.Get(iter).handle, StoreOf(h, s));
            ElementPost(h, CompileElement(e, iter, m), m, p, s, r, c) && FlagPost(CompileElement(e, iter, m), r, c)
    decreases e, 1
  {
    hide Runs, CodeAt, CompileBinding, EvalBinding, PrepareTarget, Resolve, StepIterator, ScopedTarget, Scoped;
    var it := s.Get(iter).handle;
    if e.Elision? {
      c := StepRuns(h, code, p, m, iter, s);
    } else {
      var t := PrepareTarget(e.target, m);
      var value := t.mark;
      var next := [IteratorNext(value, value + 1, iter)];
      var bind := CompileBinding(e, t.prepared, value, value + 2);
      var q, start := p + |t.code|, Running(p, s);
      CodeSplit(code, p, t.code, next + bind.code);
      CodeSplit(code, q, next, bind.code);
      c := PrepareRuns(h, e.target, m, code, p, s);
      var r := Resolve(h, e.target, StoreOf(h, s));
      if r.Resolved? {
        var s1, step := c.s, StepIterator(r.st, it);
        GetKept(h, s, s1, iter, m);
        c := StepRuns(h, code, q, value, iter, s1);
        ReachedTrans(h, code, start, s, Running(q, s1), m, q, r.st, c, value, q + 1, step.st);
        if step.Step? {
          var s2 := c.s;
          HoldsKept(h, e.target, s1, s2, t.prepared, r.ref, value);
          c := BindingRuns(h, e, t.prepared, r.ref, value, value + 2, code, q + 1, s2);
          var bound := EvalBinding(h, e, r.ref, step.v, step.st);
          ReachedTrans(h, code, start, s, Running(q + 1, s2), m, q + 1, step.st, c, value + 2, q + 1 + |bind.code|,
                       bound.st);
          if bound.Done? {
            GetKept(h, s2, c.s, value + 1, value + 2);
          }
        }
      }
    }
  }

  lemma {:induction false} ElementsRuns(h: Host, es: seq<Element>, iter: Reg, m: Reg, last: Reg, lastDone: bool,
                                        code: seq<Instr>, p: nat, s: State)
    returns (c: Config)
    requires CodeAt(code, p, CompileElements(es, iter, m, last).code)
    requires Ready(h, s, m, CompileElements(es, iter, m, last).mark)
    requires (forall e :: e in es ==> ScopedElement(e, h.base)) && h.base <= iter < m && s.Get(iter).IteratorRef?
    ensures Runs(h, code, Running(p, s), c)
    ensures var r := EvalElements(h, es, s.Get(iter).handle, StoreOf(h, s), lastDone);
            && ElementPost(h, CompileElements(es, iter, m, last), m, p, s, r, c)
            && (es != [] || s.Get(last) == Boolean(lastDone) ==> FlagPost(CompileElements(es, iter, m, last), r, c))
    decreases es, 0
  {
    hide Runs, CodeAt, CompileElement, EvalElement, ScopedElement;
    var it := s.Get(iter).handle;
    if es == [] {
      RunsNone(h, code, Running(p, s));
      c := Running(p, s);
    } else {
      var first := CompileElement(es[0], iter, m);
      var others := CompileElements(es[1..], iter, first.mark, first.result);
      CodeSplit(code, p, first.code, others.code);
      c := ElementRuns(h, es[0], iter, m, code, p, s);
      var r := EvalElement(h, es[0], it, StoreOf(h, s));
      if r.Bound? {
        var s1 := c.s;
        GetKept(h, s, s1, iter, m);
        c := ElementsRuns(h, es[1..], iter, first.mark, first.result, r.done, code, p + |first.code|, s1);
        ReachedTrans(h, code, Running(p, s), s, Running(p + |first.code|, s1), m, p + |first.code|, r.st,
                     c, first.mark, p + |first.code| + |others.code|, EvalElements(h, es[1..], it, r.st, r.done).st);
      }
    }
  }

  lemma {:induction false} RestRuns(h: Host, t: Target, iter: Reg, m: Reg, code: seq<Instr>, p: nat, s: State)
    returns (c: Config)
    requires CodeAt(code, p, CompileRest(t, iter, m).code) && Ready(h, s, m, CompileRest(t, iter, m).mark)
    requires ScopedTarget(t, h.base) && h.base <= iter < m && s.Get(iter).IteratorRef?
    ensures Runs(h, code, Running(p, s), c)
    ensures BlockPost(h, |CompileRest(t, iter, m).code|, m, p, s, EvalRest(h, t, s.Get(iter).handle, StoreOf(h, s)), c)
    decreases t, 2
  {
    hide Runs, CodeAt, PrepareTarget, Resolve, AssignPrepared, Put, ScopedTarget, Drain, Deregister;
    var it, start := s.Get(iter).handle, Running(p, s);
    var t' := PrepareTarget(t, m);
    var arr := t'.mark;
    var store := AssignPrepared(t, t'.prepared, arr, arr + 3);
    var alloc, loop, end := [NewArray(arr)], DrainLoop(arr, arr + 1, arr + 2, iter), [IteratorCloseEnd(iter)];
    var q := p + |t'.code|;
    var e := q + 5 + |store.code|;
    CodeSplit(code, p, t'.code, alloc + (loop + (store.code + end)));
    CodeSplit(code, q, alloc, loop + (store.code + end));
    CodeSplit(code, q + 1, loop, store.code + end);
    CodeSplit(code, q + 5, store.code, end);
    c := PrepareRuns(h, t, m, code, p, s);
    var r := Resolve(h, t, StoreOf(h, s));
    if r.Resolved? {
      var s1 := c.s;
      GetKept(h, s, s1, iter, m);
      c := CollectRuns(h, code, q, arr, iter, s1);
      var drained := Drain(r.st.(world := Allocated(r.st.world)), it, |r.st.world.arrays|);
      ReachedTrans(h, code, start, s, Running(q, s1), m, q, r.st, c, arr, q + 5, drained.st);
      if drained.Done? {
        var s2 := c.s;
        HoldsKept(h, t, s1, s2, t'.prepared, r.ref, arr);
        GetKept(h, s1, s2, iter, arr);
        c := AssignRuns(h, t, t'.prepared, r.ref, arr, arr + 3, code, q + 5, s2);
        var put := Put(h, t, r.ref, s2.Get(arr), drained.st);
        ReachedTrans(h, code, start, s, Running(q + 5, s2), m, q + 5, drained.st, c, arr + 3, e, put.st);
        if put.Done? {
          var s3 := c.s;
          GetKept(h, s2, s3, iter, arr + 3);
          c := EndRuns(h, code, e, iter, s3);
          ReachedTrans(h, code, start, s, Running(e, s3), m, e, put.st,
                       c, |s3.regs|, e + 1, put.st.(closers := Deregister(put.st.closers, it)));
        }
      }
    }
  }

  lemma {:induction false} EndRuns(h: Host, code: seq<Instr>, p: nat, iter: Reg, s: State) returns (c: Config)
    requires CodeAt(code, p, [IteratorCloseEnd(iter)]) && h.base <= |s.regs| && s.Get(iter).IteratorRef?
    ensures Runs(h, code, Running(p, s), c)
    ensures Reached(h, c, p + 1, s, |s.regs|, StoreOf(h, s).(closers := Deregister(s.closers, s.Get(iter).handle)))
  {
    hide Runs, CodeAt, Deregister;
    RunsNone(h, code, Running(p, s));
    RunNext(h, code, Running(p, s), p, [IteratorCloseEnd(iter)], 0, s);
    c := Apply(h, IteratorCloseEnd(iter), p, s);
  }

  /** A fresh array takes everything the iterator still has. */
  lemma {:induction false} CollectRuns(h: Host, code: seq<Instr>, p: nat, arr: Reg, iter: Reg, s: State)
    returns (c: Config)
    requires CodeAt(code, p, [NewArray(arr)]) && CodeAt(code, p + 1, DrainLoop(arr, arr + 1, arr + 2, iter))
    requires Ready(h, s, arr, arr + 3) && h.base <= iter < arr && s.Get(iter).IteratorRef?
    ensures Runs(h, code, Running(p, s), c)
    ensures var st := StoreOf(h, s);
            var r := Drain(st.(world := Allocated(st.world)), s.Get(iter).handle, |st.world.arrays|);
            BlockPost(h, 5, arr, p, s, r, c) && (c.Running? ==> c.s.Get(arr) == ArrayRef(|s.world.arrays|))
  {
    hide Runs, CodeAt, Drain;
    RunsNone(h, code, Running(p, s));
    RunNext(h, code, Running(p, s), p, [NewArray(arr)], 0, s);
    var s1 := Apply(h, NewArray(arr), p, s).s;
    c := DrainRuns(h, code, p + 1, arr, arr + 1, iter, s1);
    RunsTrans(h, code, Running(p, s), Running(p + 1, s1), c);
  }

  /** Open the iterator of the destructured value and register it for abrupt close. */
  lemma {:induction false} OpenRuns(h: Host, code: seq<Instr>, p: nat, v: Reg, iter: Reg, s: State) returns (c: Config)
    requires CodeAt(code, p, [GetIterator(iter, v), IteratorCloseStart(iter)]) && Ready(h, s, iter, iter + 1)
    ensures Runs(h, code, Running(p, s), c)
    ensures var o := h.iterate(s.Get(v), s.world);
            var st := StoreOf(h, s).(world := After(s.world, o.w));
            if o.Refuses? then Stopped(h, c, o.error, st)
            else
              && c.Running? && c.s.Get(iter) == IteratorRef(|st.world.iterators|)
              && Reached(h, c, p + 2, s, iter, OpenPattern(st, o.source))
  {
    hide Runs, CodeAt, After;
    var start, open := Running(p, s), [GetIterator(iter, v), IteratorCloseStart(iter)];
    RunsNone(h, code, start);
    RunNext(h, code, start, p, open, 0, s);
    c := Apply(h, open[0], p, s);
    if h.iterate(s.Get(v), s.world).Opens? {
      var s1 := c.s;
      RunNext(h, code, start, p, open, 1, s1);
      c := Apply(h, open[1], p + 1, s1);
    }
  }

  lemma {:induction false} FinishRuns(h: Host, code: seq<Instr>, p: nat, iter: Reg, s: State) returns (c: Config)
    requires CodeAt(code, p, [IteratorClose(iter)]) && h.base <= |s.regs| && s.Get(iter).IteratorRef?
    ensures Runs(h, code, Running(p, s), c)
    ensures var it, st := s.Get(iter).handle, StoreOf(h, s);
            var closing := st.(closers := Deregister(st.closers, it)).Logged(Closed(it));
            BlockPost(h, 1, |s.regs|, p, s, CompletionOf(h.finish(it, st.world), closing), c)
  {
    hide Runs, CodeAt, Deregister, After;
    RunsNone(h, code, Running(p, s));
    RunNext(h, code, Running(p, s), p, [IteratorClose(iter)], 0, s);
    c := Apply(h, IteratorClose(iter), p, s);
  }

  lemma {:induction false} CloseRuns(h: Host, code: seq<Instr>, p: nat, es: seq<Element>, flag: Reg, done: bool,
                                     iter: Reg,
                                     s: State)
    returns (c: Config)
    requires CodeAt(code, p, CloseTail(es, flag, iter)) && h.base <= iter < |s.regs| && s.Get(iter).IteratorRef?
    requires if es == [] then !done else s.Get(flag) == Boolean(done)
    ensures Runs(h, code, Running(p, s), c)
    ensures BlockPost(h, |CloseTail(es, flag, iter)|, |s.regs|, p, s,
                      CloseUnlessDone(h, StoreOf(h, s), s.Get(iter).handle, done), c)
  {
    hide Runs, CodeAt, Deregister, After, Apply, CompletionOf;
    var start, n, it, test := Running(p, s), |s.regs|, s.Get(iter).handle, [JumpIfTrue(1, flag)];
    var skip := if es == [] then [] else test;
    var q := p + |skip|;
    assert CloseTail(es, flag, iter) == skip + ([IteratorClose(iter)] + [IteratorCloseEnd(iter)]);
    CodeSplit(code, p, skip, [IteratorClose(iter)] + [IteratorCloseEnd(iter)]);
    CodeSplit(code, q, [IteratorClose(iter)], [IteratorCloseEnd(iter)]);
    RunsNone(h, code, start);
    if es != [] {
      RunNext(h, code, start, p, test, 0, s);
      SkipClose(h, p, s, flag, done);
    }
    if done {
      c := EndRuns(h, code, q + 1, iter, s);
      RunsTrans(h, code, start, Running(q + 1, s), c);
    } else {
      c := FinishRuns(h, code, q, iter, s);
      RunsTrans(h, code, start, Running(q, s), c);
      if c.Running? {
        var s1 := c.s;
        GetKept(h, s, s1, iter, n);
        c := EndRuns(h, code, q + 1, iter, s1);
        RunsTrans(h, code, start, Running(q + 1, s1), c);
        KeptTrans(h, s, s1, c.s, n, n);
      }
    }
  }

  lemma {:induction false} SkipClose(h: Host, p: nat, s: State, flag: Reg, done: bool)
    requires h.base <= |s.regs| && s.Get(flag) == Boolean(done)
    ensures Apply(h, JumpIfTrue(1, flag), p, s) == Running(if done then p + 2 else p + 1, s)
  {}

  /** The elements and the end of a pattern, from the open iterator on. */
  lemma {:induction false} BodyRuns(h: Host, pat: Pattern, iter: Reg, code: seq<Instr>, p: nat, s: State)
    returns (c: Config)
    requires CodeAt(code, p, CompileBody(pat, iter).code) && Ready(h, s, iter, CompileBody(pat, iter).mark)
    requires ScopedPattern(pat, h.base) && s.Get(iter).IteratorRef?
    ensures Runs(h, code, Running(p, s), c)
    ensures BlockPost(h, |CompileBody(pat, iter).code|, iter, p, s,
                      EvalBody(h, pat, s.Get(iter).handle, StoreOf(h, s)), c)
    decreases pat, 0
  {
    hide Runs, CodeAt, CompileElements, EvalElements, CompileRest, EvalRest, CloseTail, CloseUnlessDone;
    hide ScopedElement, ScopedTarget;
    var it, start := s.Get(iter).handle, Running(p, s);
    var es := CompileElements(pat.elements, iter, iter + 1, 0);
    var tail := if pat.rest.Some? then CompileRest(pat.rest.value, iter, es.mark)
                else Block(CloseTail(pat.elements, es.result, iter), es.mark);
    CodeSplit(code, p, es.code, tail.code);
    c := ElementsRuns(h, pat.elements, iter, iter + 1, 0, false, code, p, s);
    var r := EvalElements(h, pat.elements, it, StoreOf(h, s), false);
    if r.Bound? {
      var s1, q := c.s, p + |es.code|;
      GetKept(h, s, s1, iter, iter + 1);
      if pat.rest.Some? {
        c := RestRuns(h, pat.rest.value, iter, es.mark, code, q, s1);
        var end := EvalRest(h, pat.rest.value, it, r.st);
        ReachedTrans(h, code, start, s, Running(q, s1), iter, q, r.st, c, es.mark, q + |tail.code|, end.st);
      } else {
        EmptyIsNotDone(h, pat.elements, it, StoreOf(h, s));
        c := CloseRuns(h, code, q, pat.elements, es.result, r.done, iter, s1);
        var end := CloseUnlessDone(h, r.st, it, r.done);
        ReachedTrans(h, code, start, s, Running(q, s1), iter, q, r.st, c, |s1.regs|, q + |tail.code|, end.st);
      }
    }
  }

  lemma {:induction false} EmptyIsNotDone(h: Host, es: seq<Element>, it: nat, st: Store)
    ensures es == [] ==> EvalElements(h, es, it, st, false) == Bound(false, st)
  {}

  lemma {:induction false} PatternRuns(h: Host, pat: Pattern, v: Reg, m: Reg, code: seq<Instr>, p: nat, s: State)
    returns (c: Config)
    requires CodeAt(code, p, CompilePattern(pat, v, m).code) && Ready(h, s, m, CompilePattern(pat, v, m).mark)
    requires ScopedPattern(pat, h.base) && h.base <= v < m
    ensures Runs(h, code, Running(p, s), c)
    ensures BlockPost(h, |CompilePattern(pat, v, m).code|, m, p, s, Destructure(h, pat, s.Get(v), StoreOf(h, s)), c)
    decreases pat, 1
  {
    hide Runs, CodeAt, CompileBody, EvalBody, ScopedPattern;
    var start, iter := Running(p, s), m + 2;
    var check, open, body := RequireCoercible(v, m), [GetIterator(iter, v),
                                              IteratorCloseStart(iter)], CompileBody(pat, iter);
    CodeSplit(code, p, check, open + body.code);
    CodeSplit(code, p + 5, open, body.code);
    c := CoercibleRuns(h, code, p, v, s, m);
    if !s.Get(v).Nullish() {
      c := OpenRuns(h, code, p + 5, v, iter, s);
      RunsTrans(h, code, start, Running(p + 5, s), c);
      if h.iterate(s.Get(v), s.world).Opens? {
        var s1, st := c.s, StoreOf(h, c.s);
        c := BodyRuns(h, pat, iter, code, p + 7, s1);
        ReachedTrans(h, code, start, s, Running(p + 7, s1), m, p + 7, st, c, iter, p + 7 + |body.code|,
                     EvalBody(h, pat, s1.Get(iter).handle, st).st);
      }
    }
  }

  // ----- Spread arguments -----

  lemma {:induction false} ArgRuns(h: Host, a: Argument, dst: Reg, m: Reg, code: seq<Instr>, p: nat, s: State)
    returns (c: Config)
    requires CodeAt(code, p, CompileArg(a, dst, m).code) && Ready(h, s, m, CompileArg(a, dst, m).mark)
    requires ScopedArgument(a, h.base) && h.base <= dst < m && s.Get(dst).ArrayRef?
    ensures Runs(h, code, Running(p, s), c)
    ensures BlockPost(h, |CompileArg(a, dst, m).code|, m, p, s, EvalArg(h, a, s.Get(dst).slot, StoreOf(h, s)), c)
    decreases a, 0
  {
    hide Runs, CodeAt, CompileExpr, Eval, Scoped, Drain;
    var f, start := CompileExpr(a.e, m), Running(p, s);
    var tail := CompileArg(a, dst, m).code[|f.code|..];
    assert CompileArg(a, dst, m).code == f.code + tail;
    CodeSplit(code, p, f.code, tail);
    c := ExprRuns(h, a.e, m, code, p, s);
    var r := Eval(h, a.e, StoreOf(h, s));
    if r.Returned? {
      var s1, q := c.s, p + |f.code|;
      GetKept(h, s, s1, dst, m);
      if a.Plain? {
        assert tail == [ArrayPush(dst, f.result)];
        RunNext(h, code, start, q, tail, 0, s1);
        c := Apply(h, tail[0], q, s1);
      } else {
        assert tail == [GetIterator(f.mark, f.result)] + DrainLoop(dst, f.mark + 1, f.mark + 2, f.mark);
        c := SpreadRuns(h, code, q, dst, f.result, f.mark, s1);
        RunsTrans(h, code, start, Running(q, s1), c);
      }
    }
  }

  lemma {:induction false} SpreadRuns(h: Host, code: seq<Instr>, p: nat, dst: Reg, v: Reg, iter: Reg, s: State)
    returns (c: Config)
    requires CodeAt(code, p, [GetIterator(iter, v)] + DrainLoop(dst, iter + 1, iter + 2, iter))
    requires Ready(h, s, iter, iter + 3) && h.base <= dst < iter && h.base <= v < iter && s.Get(dst).ArrayRef?
    ensures Runs(h, code, Running(p, s), c)
    ensures var o := h.iterate(s.Get(v), s.world);
            var st := StoreOf(h, s).(world := After(s.world, o.w));
            if o.Refuses? then Stopped(h, c, o.error, st)
            else BlockPost(h, 5, iter, p, s,
                           Drain(st.(world := Opened(st.world, o.source)), |st.world.iterators|, s.Get(dst).slot), c)
  {
    hide Runs, CodeAt, Drain, After;
    var start, open := Running(p, s), [GetIterator(iter, v)];
    CodeSplit(code, p, open, DrainLoop(dst, iter + 1, iter + 2, iter));
    RunsNone(h, code, start);
    RunNext(h, code, start, p, open, 0, s);
    c := Apply(h, open[0], p, s);
    if h.iterate(s.Get(v), s.world).Opens? {
      var s1 := c.s;
      c := DrainRuns(h, code, p + 1, dst, iter + 1, iter, s1);
      RunsTrans(h, code, start, Running(p + 1, s1), c);
    }
  }

  lemma {:induction false} ArgsRuns(h: Host, args: seq<Argument>, dst: Reg, m: Reg, code: seq<Instr>, p: nat, s: State)
    returns (c: Config)
    requires CodeAt(code, p, CompileArgs(args, dst, m).code) && Ready(h, s, m, CompileArgs(args, dst, m).mark)
    requires (forall a :: a in args ==> ScopedArgument(a, h.base)) && h.base <= dst < m && s.Get(dst).ArrayRef?
    ensures Runs(h, code, Running(p, s), c)
    ensures BlockPost(h, |CompileArgs(args, dst, m).code|, m, p, s, EvalArgs(h, args, s.Get(dst).slot, StoreOf(h, s)),
                      c)
    decreases args, 0
  {
    hide Runs, CodeAt, CompileArg, EvalArg, ScopedArgument;
    if args == [] {
      RunsNone(h, code, Running(p, s));
      c := Running(p, s);
    } else {
      var first := CompileArg(args[0], dst, m);
      var others := CompileArgs(args[1..], dst, first.mark);
      var q, arr := p + |first.code|, s.Get(dst).slot;
      CodeSplit(code, p, first.code, others.code);
      c := ArgRuns(h, args[0], dst, m, code, p, s);
      var r := EvalArg(h, args[0], arr, StoreOf(h, s));
      if r.Done? {
        var s1 := c.s;
        GetKept(h, s, s1, dst, m);
        c := ArgsRuns(h, args[1..], dst, first.mark, code, q, s1);
        ReachedTrans(h, code, Running(p, s), s, Running(q, s1), m, q, r.st, c, first.mark, q + |others.code|,
                     EvalArgs(h, args[1..], arr, r.st).st);
      }
    }
  }

  // ----- Every expression -----

  lemma {:induction false} ArrayAssignRuns(h: Host, e: Expr, m: Reg, code: seq<Instr>, p: nat, s: State)
    returns (c: Config)
    requires e.ArrayAssign?
    requires CodeAt(code, p, CompileExpr(e, m).code) && Ready(h, s, m, CompileExpr(e, m).mark) && Scoped(e, h.base)
    ensures Runs(h, code, Running(p, s), c)
    ensures ExprPost(h, CompileExpr(e, m), m, p, s, Eval(h, e, StoreOf(h, s)), c)
    decreases e, 2
  {
    hide Runs, CodeAt, CompilePattern, Destructure, ScopedPattern;
    var v := CompileExpr(e.source, m);
    var body := CompilePattern(e.pattern, v.result, v.mark);
    CodeSplit(code, p, v.code, body.code);
    c := ExprRuns(h, e.source, m, code, p, s);
    var r := Eval(h, e.source, StoreOf(h, s));
    if r.Returned? {
      var s1, q := c.s, p + |v.code|;
      c := PatternRuns(h, e.pattern, v.result, v.mark, code, q, s1);
      var end := Destructure(h, e.pattern, r.v, r.st);
      ReachedTrans(h, code, Running(p, s), s, Running(q, s1), m, q, r.st, c, v.mark, q + |body.code|, end.st);
      if end.Done? {
        GetKept(h, s1, c.s, v.result, v.mark);
      }
    }
  }

  lemma {:induction false} ArgumentArrayRuns(h: Host, e: Expr, m: Reg, code: seq<Instr>, p: nat, s: State)
    returns (c: Config)
    requires e.ArgumentArray?
    requires CodeAt(code, p, CompileExpr(e, m).code) && Ready(h, s, m, CompileExpr(e, m).mark) && Scoped(e, h.base)
    ensures Runs(h, code, Running(p, s), c)
    ensures ExprPost(h, CompileExpr(e, m), m, p, s, Eval(h, e, StoreOf(h, s)), c)
    decreases e, 2
  {
    hide Runs, CodeAt, CompileArgs, EvalArgs, ScopedArgument;
    var start, alloc, body := Running(p, s), [NewArray(m)], CompileArgs(e.args, m, m + 1);
    CodeSplit(code, p, alloc, body.code);
    RunsNone(h, code, start);
    RunNext(h, code, start, p, alloc, 0, s);
    var s1 := Apply(h, alloc[0], p, s).s;
    c := ArgsRuns(h, e.args, m, m + 1, code, p + 1, s1);
    var end := EvalArgs(h, e.args, |s.world.arrays|, StoreOf(h, s1));
    ReachedTrans(h, code, start, s, Running(p + 1, s1), m, p + 1, StoreOf(h, s1), c, m + 1, p + 1 + |body.code|,
                 end.st);
    if end.Done? {
      GetKept(h, s1, c.s, m, m + 1);
    }
  }

  /** Running the code of any expression from any position and any scratch mark ends where its meaning says: after the
      code with the value in the result register, or thrown with the same error; the same variables, world and
      registered iterators either way, and no scratch register below the mark disturbed. */
  lemma {:induction false} ExprRuns(h: Host, e: Expr, m: Reg, code: seq<Instr>, p: nat, s: State) returns (c: Config)
    requires CodeAt(code, p, CompileExpr(e, m).code) && Ready(h, s, m, CompileExpr(e, m).mark) && Scoped(e, h.base)
    ensures Runs(h, code, Running(p, s), c)
    ensures ExprPost(h, CompileExpr(e, m), m, p, s, Eval(h, e, StoreOf(h, s)), c)
    decreases e, 3
  {
    hide *;
    if e.LogicalAssign? {
      c := LogicalRuns(h, e, m, code, p, s);
    } else if e.ArrayAssign? {
      c := ArrayAssignRuns(h, e, m, code, p, s);
    } else if e.ArgumentArray? {
      c := ArgumentArrayRuns(h, e, m, code, p, s);
    } else {
      c := LeafRuns(h, e, m, code, p, s);
    }
  }

  /** A complete run of an expression's code, on its own, can only end where the meaning says. */
  lemma {:induction false} RunsAreFaithful(h: Host, e: Expr, s: State, end: Config)
    requires Ready(h, s, h.base, CompileExpr(e, h.base).mark) && Scoped(e, h.base)
    requires var code := CompileExpr(e, h.base).code; Runs(h, code, Running(0, s), end) && Exec(h, code, end) == end
    ensures ExprPost(h, CompileExpr(e, h.base), h.base, 0, s, Eval(h, e, StoreOf(h, s)), end)
  {
    hide Runs, CompileExpr, Eval, Scoped;
    var code := CompileExpr(e, h.base).code;
    assert CodeAt(code, 0, code);
    var c := ExprRuns(h, e, h.base, code, 0, s);
    assert Exec(h, code, c) == c;
    RunsUnique(h, code, Running(0, s), c, end);
  }
}
