/**
  * Lowering of logical assignment, destructuring defaults, array assignment patterns and spread arguments to register
  * code, and the source meaning of the same constructs (sections 13.15.2 and 13.15.5 of ECMA-262).
  *
  * `Compile…` functions give the emitted code with resolved branch deltas; registers are allocated by bumping a mark.
  */
module Lowering {
  import opened Prelude
  import opened Machine

  // ----- Source -----

  datatype LogicalOp = And | Or | Nullish

  /** `Opaque(k)` is any other expression; what it does is the host's `perform(k)`. */
  datatype Expr =
    | Literal(v: Value)
    | ReadLocal(local: Reg)
    | Opaque(k: nat)
    | LogicalAssign(op: LogicalOp, target: Target, rhs: Expr)
    | ArrayAssign(pattern: Pattern, source: Expr)
    | ArgumentArray(args: seq<Argument>)

  datatype Argument = Plain(e: Expr) | Spread(e: Expr)

  datatype Target =
    | Variable(local: Reg)
    | StaticMember(obj: Expr, name: nat)
    | ComputedMember(obj: Expr, key: Expr)
    | ArrayTarget(pattern: Pattern)

  datatype Element = Elision | Item(target: Target, init: Option<Expr>)

  datatype Pattern = Pattern(elements: seq<Element>, rest: Option<Target>)

  const DESTRUCTURE_MESSAGE: Value := Text("Cannot destructure null or undefined")
  const TYPE_ERROR: nat := 0

  // ----- Emitted code -----

  datatype Frag = Frag(code: seq<Instr>, result: Reg, mark: Reg)
  datatype Block = Block(code: seq<Instr>, mark: Reg)

  /** A target whose reference has been evaluated into registers. */
  datatype Prepared =
    | InLocal(local: Reg)
    | InMember(obj: Reg, name: nat)
    | InElement(obj: Reg, key: Reg)
    | NotPrepared

  datatype PreparedFrag = PreparedFrag(code: seq<Instr>, prepared: Prepared, mark: Reg)

  /** Drain an iterator into an array. */
  function DrainLoop(arr: Reg, value: Reg, done: Reg, iter: Reg): (code: seq<Instr>)
  {
    [IteratorNext(value, done, iter), JumpIfTrue(2, done), ArrayPush(arr, value), Jump(-4)]
  }

  function RequireCoercible(value: Reg, m: Reg): (code: seq<Instr>)
  {
    [JumpIfNullish(1, value), Jump(3), LoadConst(m, DESTRUCTURE_MESSAGE), NewError(m + 1, TYPE_ERROR, m), Throw(m + 1)]
  }

  function LoadTarget(p: Prepared, dst: Reg): (code: seq<Instr>)
  {
    match p
    case InLocal(local) => [LoadLocal(dst, local)]
    case InMember(obj, name) => [LoadMember(dst, obj, name)]
    case InElement(obj, key) => [LoadElement(dst, obj, key)]
    case NotPrepared => []
  }

  /** Decide whether to assign: the register `TestRegister(op, m)` ends up truthy exactly when the assignment runs. */
  function TestCode(op: LogicalOp, cur: Reg, m: Reg): (code: seq<Instr>)
  {
    match op
    case And => [ToBoolean(m, cur)]
    case Or => [ToBoolean(m, cur), LogicalNot(m + 1, m)]
    case Nullish =>
      [LoadUndefined(m), LoadNull(m + 1), Equal(m + 2, cur, m), Equal(m + 3, cur, m + 1), ToBoolean(m + 4, m + 2),
       JumpIfTrue(1, m + 4), StoreLocal(m + 3, m + 4)]
  }

  function TestRegister(op: LogicalOp, m: Reg): (r: Reg)
  {
    match op
    case And => m
    case Or => m + 1
    case Nullish => m + 4
  }

  /** Registers of a prepared target lie in the range allocated for it. */
  predicate PreparedWithin(p: Prepared, low: Reg, high: Reg)
  {
    match p
    case InMember(obj, _) => low <= obj < high
    case InElement(obj, key) => low <= obj < high && low <= key < high
    case _ => true
  }

  /** Code for an expression allocates scratch registers from `m` up and leaves its value in one of them. */
  function CompileExpr(e: Expr, m: Reg): (f: Frag)
    ensures m <= f.result < f.mark
    decreases e, 2
  {
    match e
    case Literal(v) => Frag([LoadConst(m, v)], m, m + 1)
    case ReadLocal(local) => Frag([LoadLocal(m, local)], m, m + 1)
    case Opaque(k) => Frag([Perform(m, k)], m, m + 1)
    case LogicalAssign(op, target, _) =>
      var t := PrepareTarget(target, m);
      var body := CompileShortCircuit(e, t.prepared, t.mark, t.mark + 1);
      Frag(t.code + (LoadTarget(t.prepared, t.mark) + body.code), body.result, body.mark)
    case ArrayAssign(pattern, source) =>
      var v := CompileExpr(source, m);
      var body := CompilePattern(pattern, v.result, v.mark);
      Frag(v.code + body.code, v.result, body.mark)
    case ArgumentArray(args) =>
      var body := CompileArgs(args, m, m + 1);
      Frag([NewArray(m)] + body.code, m, body.mark)
  }

  /** Test the current value in `cur`; the result register starts as that value and skips over the assignment. */
  function CompileShortCircuit(e: Expr, p: Prepared, cur: Reg, m: Reg): (f: Frag)
    requires e.LogicalAssign?
    ensures m <= f.result < f.mark
    decreases e, 1
  {
    var test := TestRegister(e.op, m);
    var result := test + 1;
    var store := CompileRhs(e, p, result, result + 1);
    Frag(TestCode(e.op, cur, m) + ([StoreLocal(cur, result), JumpIfFalse(|store.code|, test)] + store.code), result,
         store.mark)
  }

  /** Evaluate the right-hand side, store it through the target, and make it the result. */
  function CompileRhs(e: Expr, p: Prepared, result: Reg, m: Reg): (b: Block)
    requires e.LogicalAssign?
    ensures m <= b.mark
    decreases e, 0
  {
    var r := CompileExpr(e.rhs, m);
    var put := AssignPrepared(e.target, p, r.result, r.mark);
    Block(r.code + (put.code + [StoreLocal(r.result, result)]), put.mark)
  }

  function CompileArg(a: Argument, dst: Reg, m: Reg): (b: Block)
    ensures m <= b.mark
    decreases a, 0
  {
    var f := CompileExpr(a.e, m);
    if a.Plain? then Block(f.code + [ArrayPush(dst, f.result)], f.mark)
    else
      Block(f.code + ([GetIterator(f.mark, f.result)] + DrainLoop(dst, f.mark + 1, f.mark + 2, f.mark)), f.mark + 3)
  }

  function CompileArgs(args: seq<Argument>, dst: Reg, m: Reg): (b: Block)
    ensures m <= b.mark
    decreases args, 0
  {
    if args == [] then Block([], m)
    else
      var first := CompileArg(args[0], dst, m);
      var others := CompileArgs(args[1..], dst, first.mark);
      Block(first.code + others.code, others.mark)
  }

  function PrepareTarget(t: Target, m: Reg): (p: PreparedFrag)
    ensures m <= p.mark && PreparedWithin(p.prepared, m, p.mark)
    decreases t, 0
  {
    match t
    case Variable(local) => PreparedFrag([], InLocal(local), m)
    case StaticMember(obj, name) =>
      var o := CompileExpr(obj, m);
      PreparedFrag(o.code, InMember(o.result, name), o.mark)
    case ComputedMember(obj, key) =>
      var o := CompileExpr(obj, m);
      var k := CompileExpr(key, o.mark);
      PreparedFrag(o.code + k.code, InElement(o.result, k.result), k.mark)
    case ArrayTarget(_) => PreparedFrag([], NotPrepared, m)
  }

  /** Store register `v` through a prepared target; a nested pattern is destructured instead. */
  function AssignPrepared(t: Target, p: Prepared, v: Reg, m: Reg): (b: Block)
    ensures m <= b.mark
    decreases t, 1
  {
    match p
    case InLocal(local) => Block([StoreLocal(v, local)], m)
    case InMember(obj, name) => Block([StoreMember(obj, name, v, m)], m + 1)
    case InElement(obj, key) => Block([StoreElement(obj, key, v)], m)
    case NotPrepared => if t.ArrayTarget? then CompilePattern(t.pattern, v, m) else Block([], m)
  }

  /** Use `value` unless it is `undefined`. */
  function ApplyDefault(value: Reg, init: Expr, m: Reg): (f: Frag)
    ensures m <= f.result < f.mark
    decreases init, 3
  {
    var i := CompileExpr(init, m + 3);
    Frag([LoadUndefined(m), Equal(m + 1, value, m), JumpIfFalse(|i.code| + 2, m + 1)]
         + (i.code + [StoreLocal(i.result, m + 2), Jump(1), StoreLocal(value, m + 2)]),
         m + 2, i.mark)
  }

  /** Bind a stepped value: apply the default, then store. */
  function CompileBinding(e: Element, p: Prepared, value: Reg, m: Reg): (b: Block)
    requires e.Item?
    ensures m <= b.mark
    decreases e, 0
  {
    if e.init.Some? then
      var d := ApplyDefault(value, e.init.value, m);
      var put := AssignPrepared(e.target, p, d.result, d.mark);
      Block(d.code + put.code, put.mark)
    else AssignPrepared(e.target, p, value, m)
  }

  /** One element: evaluate the target reference, step the iterator, bind. `result` is the register holding the
      iterator's done flag. */
  function CompileElement(e: Element, iter: Reg, m: Reg): (f: Frag)
    ensures m <= f.result < f.mark
    decreases e, 1
  {
    match e
    case Elision => Frag([IteratorNext(m, m + 1, iter)], m + 1, m + 2)
    case Item(target, _) =>
      var t := PrepareTarget(target, m);
      var value, done := t.mark, t.mark + 1;
      var bind := CompileBinding(e, t.prepared, value, done + 1);
      Frag(t.code + ([IteratorNext(value, done, iter)] + bind.code), done, bind.mark)
  }

  /** All elements; `result` is the last done flag, or `last` when there are none. */
  function CompileElements(es: seq<Element>, iter: Reg, m: Reg, last: Reg): (f: Frag)
    ensures m <= f.mark && (if es == [] then f.result == last else m <= f.result < f.mark)
    decreases es, 0
  {
    if es == [] then Frag([], last, m)
    else
      var first := CompileElement(es[0], iter, m);
      var others := CompileElements(es[1..], iter, first.mark, first.result);
      Frag(first.code + others.code, others.result, others.mark)
  }

  function CompileRest(t: Target, iter: Reg, m: Reg): (b: Block)
    ensures m <= b.mark
    decreases t, 2
  {
    var p := PrepareTarget(t, m);
    var arr := p.mark;
    var put := AssignPrepared(t, p.prepared, arr, arr + 3);
    Block(p.code + ([NewArray(arr)] + (DrainLoop(arr, arr + 1, arr + 2, iter) + (put.code + [IteratorCloseEnd(iter)]))),
          put.mark)
  }

  /** Without a rest element the iterator is closed unless the last step said it was done. */
  function CloseTail(es: seq<Element>, done: Reg, iter: Reg): (code: seq<Instr>)
  {
    if es == [] then [IteratorClose(iter), IteratorCloseEnd(iter)]
    else [JumpIfTrue(1, done), IteratorClose(iter), IteratorCloseEnd(iter)]
  }

  function CompilePattern(p: Pattern, value: Reg, m: Reg): (b: Block)
    ensures m <= b.mark
    decreases p, 1
  {
    var iter := m + 2;
    var body := CompileBody(p, iter);
    Block(RequireCoercible(value, m) + ([GetIterator(iter, value), IteratorCloseStart(iter)] + body.code), body.mark)
  }

  /** The elements of a pattern and what ends it, once its iterator is open in `iter`. */
  function CompileBody(p: Pattern, iter: Reg): (b: Block)
    ensures iter < b.mark
    decreases p, 0
  {
    var es := CompileElements(p.elements, iter, iter + 1, 0);
    var tail := if p.rest.Some? then CompileRest(p.rest.value, iter, es.mark)
                else Block(CloseTail(p.elements, es.result, iter), es.mark);
    Block(es.code + tail.code, tail.mark)
  }

  // ----- Source meaning -----

  /** What shows of a frame: its variables, the world, the iterators registered for abrupt close, and the log. */
  datatype Store = Store(locals: seq<Value>, world: World, closers: seq<nat>, log: seq<Event>)
  {
    function Logged(e: Event): (st: Store)
    {
      this.(log := log + [e])
    }
  }

  datatype EvalResult = Returned(v: Value, st: Store) | Threw(error: Value, st: Store)

  datatype Completion = Done(st: Store) | Failed(error: Value, st: Store)

  datatype Reference = ToLocal(local: Reg) | ToProperty(obj: Value, key: Key) | ToPattern

  datatype RefResult = Resolved(ref: Reference, st: Store) | RefFailed(error: Value, st: Store)

  function FromOutcome(o: Outcome, st: Store): (r: EvalResult)
  {
    var st' := st.(world := After(st.world, o.w));
    if o.Normal? then Returned(o.v, st') else Threw(o.v, st')
  }

  function CompletionOf(o: Outcome, st: Store): (c: Completion)
  {
    var st' := st.(world := After(st.world, o.w));
    if o.Normal? then Done(st') else Failed(o.v, st')
  }

  function GetReference(h: Host, ref: Reference, st: Store): (r: EvalResult)
  {
    match ref
    case ToLocal(local) => Returned(if local < |st.locals| then st.locals[local] else Undefined, st)
    case ToProperty(obj, key) => FromOutcome(h.load(obj, key, st.world), st.Logged(Loaded(obj, key)))
    case ToPattern => Returned(Undefined, st)
  }

  /** Short-circuit test of a logical assignment. */
  predicate Assigns(op: LogicalOp, current: Value)
  {
    match op
    case And => current.Truthy()
    case Or => !current.Truthy()
    case Nullish => current.Nullish()
  }

  datatype StepResult = Step(v: Value, done: bool, st: Store) | StepThrew(error: Value, st: Store)

  /** One step of an iterator. Past its values it is done or throws, which both end its registration. */
  function StepIterator(st: Store, it: nat): (r: StepResult)
  {
    var source := Pending(st.world, it);
    var stepped := st.(world := Stepping(st.world, it)).Logged(Stepped(it));
    var ended := stepped.(closers := Deregister(st.closers, it));
    if source.values != [] then Step(source.values[0], false, stepped)
    else if source.ending.Some? then StepThrew(source.ending.value, ended)
    else Step(Undefined, true, ended)
  }

  /** Values drained from an iterator are appended to an array until it reports done or throws. */
  function Drain(st: Store, it: nat, arr: nat): (c: Completion)
    decreases |Pending(st.world, it).values|
  {
    match StepIterator(st, it)
    case StepThrew(error, st1) => Failed(error, st1)
    case Step(v, done, st1) =>
      if done then Done(st1) else Drain(st1.(world := Pushed(st1.world, arr, v)), it, arr)
  }

  function Eval(h: Host, e: Expr, st: Store): (r: EvalResult)
    decreases e, 1
  {
    match e
    case Literal(v) => Returned(v, st)
    case ReadLocal(local) => GetReference(h, ToLocal(local), st)
    case Opaque(k) =>
      var updated := st.(locals := Overlay(st.locals, h.assign(k, st.locals, st.world)));
      FromOutcome(h.perform(k, st.locals, st.world), updated.Logged(Performed(k)))
    case LogicalAssign(op, target, _) =>
      (match Resolve(h, target, st)
       case RefFailed(error, st1) => Threw(error, st1)
       case Resolved(ref, st1) =>
         match GetReference(h, ref, st1)
         case Threw(error, st2) => Threw(error, st2)
         case Returned(current, st2) =>
           if Assigns(op, current) then EvalRhs(h, e, ref, st2) else Returned(current, st2))
    case ArrayAssign(pattern, source) =>
      (match Eval(h, source, st)
       case Threw(error, st1) => Threw(error, st1)
       case Returned(v, st1) =>
         match Destructure(h, pattern, v, st1)
         case Failed(error, st2) => Threw(error, st2)
         case Done(st2) => Returned(v, st2))
    case ArgumentArray(args) =>
      var arr := |st.world.arrays|;
      match EvalArgs(h, args, arr, st.(world := Allocated(st.world)))
      case Failed(error, st1) => Threw(error, st1)
      case Done(st1) => Returned(ArrayRef(arr), st1)
  }

  function EvalRhs(h: Host, e: Expr, ref: Reference, st: Store): (r: EvalResult)
    requires e.LogicalAssign?
    decreases e, 0
  {
    match Eval(h, e.rhs, st)
    case Threw(error, st1) => Threw(error, st1)
    case Returned(v, st1) =>
      match Put(h, e.target, ref, v, st1)
      case Failed(error, st2) => Threw(error, st2)
      case Done(st2) => Returned(v, st2)
  }

  function EvalArg(h: Host, a: Argument, arr: nat, st: Store): (c: Completion)
    decreases a, 0
  {
    match Eval(h, a.e, st)
    case Threw(error, st1) => Failed(error, st1)
    case Returned(v, st1) =>
      if a.Plain? then Done(st1.(world := Pushed(st1.world, arr, v)))
      else
        var o := h.iterate(v, st1.world);
        var w := After(st1.world, o.w);
        if o.Refuses? then Failed(o.error, st1.(world := w))
        else Drain(st1.(world := Opened(w, o.source)), |w.iterators|, arr)
  }

  function EvalArgs(h: Host, args: seq<Argument>, arr: nat, st: Store): (c: Completion)
    decreases args, 0
  {
    if args == [] then Done(st)
    else
      match EvalArg(h, args[0], arr, st)
      case Failed(error, st1) => Failed(error, st1)
      case Done(st1) => EvalArgs(h, args[1..], arr, st1)
  }

  /** Evaluate a target reference once; a nested pattern has none. */
  function Resolve(h: Host, t: Target, st: Store): (r: RefResult)
    decreases t, 0
  {
    match t
    case Variable(local) => Resolved(ToLocal(local), st)
    case StaticMember(obj, name) =>
      (match Eval(h, obj, st)
       case Threw(error, st1) => RefFailed(error, st1)
       case Returned(o, st1) => Resolved(ToProperty(o, Name(name)), st1))
    case ComputedMember(obj, key) =>
      (match Eval(h, obj, st)
       case Threw(error, st1) => RefFailed(error, st1)
       case Returned(o, st1) =>
         match Eval(h, key, st1)
         case Threw(error, st2) => RefFailed(error, st2)
         case Returned(k, st2) => Resolved(ToProperty(o, Computed(k)), st2))
    case ArrayTarget(_) => Resolved(ToPattern, st)
  }

  function Put(h: Host, t: Target, ref: Reference, v: Value, st: Store): (c: Completion)
    decreases t, 1
  {
    match ref
    case ToLocal(local) => Done(if local < |st.locals| then st.(locals := st.locals[local := v]) else st)
    case ToProperty(obj, key) => CompletionOf(h.store(obj, key, v, st.world), st.Logged(Stored(obj, key, v)))
    case ToPattern => if t.ArrayTarget? then Destructure(h, t.pattern, v, st) else Done(st)
  }

  /** The value, or the default when the value is `undefined`. */
  function EvalDefault(h: Host, v: Value, init: Option<Expr>, st: Store): (r: EvalResult)
    decreases init, 1
  {
    if init.Some? && v == Undefined then Eval(h, init.value, st) else Returned(v, st)
  }

  datatype ElementResult = Bound(done: bool, st: Store) | NotBound(error: Value, st: Store)

  function EvalBinding(h: Host, e: Element, ref: Reference, v: Value, st: Store): (c: Completion)
    requires e.Item?
    decreases e, 0
  {
    match EvalDefault(h, v, e.init, st)
    case Threw(error, st1) => Failed(error, st1)
    case Returned(v1, st1) => Put(h, e.target, ref, v1, st1)
  }

  function EvalElement(h: Host, e: Element, it: nat, st: Store): (r: ElementResult)
    decreases e, 1
  {
    match e
    case Elision =>
      var step := StepIterator(st, it);
      if step.Step? then Bound(step.done, step.st) else NotBound(step.error, step.st)
    case Item(target, _) =>
      match Resolve(h, target, st)
      case RefFailed(error, st1) => NotBound(error, st1)
      case Resolved(ref, st1) =>
        match StepIterator(st1, it)
        case StepThrew(error, st2) => NotBound(error, st2)
        case Step(v, done, st2) =>
          match EvalBinding(h, e, ref, v, st2)
          case Failed(error, st3) => NotBound(error, st3)
          case Done(st3) => Bound(done, st3)
  }

  function EvalElements(h: Host, es: seq<Element>, it: nat, st: Store, last: bool): (r: ElementResult)
    decreases es, 0
  {
    if es == [] then Bound(last, st)
    else
      match EvalElement(h, es[0], it, st)
      case NotBound(error, st1) => NotBound(error, st1)
      case Bound(done, st1) => EvalElements(h, es[1..], it, st1, done)
  }

  function EvalRest(h: Host, t: Target, it: nat, st: Store): (c: Completion)
    decreases t, 2
  {
    match Resolve(h, t, st)
    case RefFailed(error, st1) => Failed(error, st1)
    case Resolved(ref, st1) =>
      var arr := |st1.world.arrays|;
      match Drain(st1.(world := Allocated(st1.world)), it, arr)
      case Failed(error, st2) => Failed(error, st2)
      case Done(st2) =>
        match Put(h, t, ref, ArrayRef(arr), st2)
        case Failed(error, st3) => Failed(error, st3)
        case Done(st3) => Done(st3.(closers := Deregister(st3.closers, it)))
  }

  /** Close the iterator unless it reported done, then end its registration. It is deregistered before its `return`
      runs. */
  function CloseUnlessDone(h: Host, st: Store, it: nat, done: bool): (c: Completion)
  {
    var closing := st.(closers := Deregister(st.closers, it)).Logged(Closed(it));
    match if done then Done(st) else CompletionOf(h.finish(it, st.world), closing)
    case Failed(error, st1) => Failed(error, st1)
    case Done(st1) => Done(st1.(closers := Deregister(st1.closers, it)))
  }

  function Destructure(h: Host, p: Pattern, v: Value, st: Store): (c: Completion)
    decreases p, 1
  {
    if v.Nullish() then Failed(ErrorObject(TYPE_ERROR, DESTRUCTURE_MESSAGE), st)
    else
      var o := h.iterate(v, st.world);
      var w := After(st.world, o.w);
      if o.Refuses? then Failed(o.error, st.(world := w))
      else EvalBody(h, p, |w.iterators|, OpenPattern(st.(world := w), o.source))
  }

  /** A new iterator, registered for abrupt close. */
  function OpenPattern(st: Store, source: Source): (st': Store)
  {
    st.(world := Opened(st.world, source), closers := st.closers + [|st.world.iterators|])
  }

  function EvalBody(h: Host, p: Pattern, it: nat, st: Store): (c: Completion)
    decreases p, 0
  {
    match EvalElements(h, p.elements, it, st, false)
    case NotBound(error, st1) => Failed(error, st1)
    case Bound(done, st1) =>
      if p.rest.Some? then EvalRest(h, p.rest.value, it, st1) else CloseUnlessDone(h, st1, it, done)
  }

  // ----- Scoping -----

  /** Literals are primitive, variables are locals of the frame, and only single references are assigned logically. */
  predicate Scoped(e: Expr, base: nat)
    decreases e
  {
    match e
    case Literal(v) => v.Primitive()
    case ReadLocal(local) => local < base
    case Opaque(_) => true
    case LogicalAssign(_, target, rhs) => !target.ArrayTarget? && ScopedTarget(target, base) && Scoped(rhs, base)
    case ArrayAssign(pattern, source) => ScopedPattern(pattern, base) && Scoped(source, base)
    case ArgumentArray(args) => forall a :: a in args ==> ScopedArgument(a, base)
  }

  predicate ScopedArgument(a: Argument, base: nat)
    decreases a
  {
    Scoped(a.e, base)
  }

  predicate ScopedTarget(t: Target, base: nat)
    decreases t
  {
    match t
    case Variable(local) => local < base
    case StaticMember(obj, _) => Scoped(obj, base)
    case ComputedMember(obj, key) => Scoped(obj, base) && Scoped(key, base)
    case ArrayTarget(pattern) => ScopedPattern(pattern, base)
  }

  predicate ScopedElement(e: Element, base: nat)
    decreases e
  {
    e.Item? ==> ScopedTarget(e.target, base) && (e.init.Some? ==> Scoped(e.init.value, base))
  }

  predicate ScopedPattern(p: Pattern, base: nat)
    decreases p
  {
    && (forall e :: e in p.elements ==> ScopedElement(e, base))
    && (p.rest.Some? ==> ScopedTarget(p.rest.value, base))
  }
}
