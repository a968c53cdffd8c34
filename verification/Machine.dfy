/**
  * The register machine that runs lowered code, restricted to the opcodes the modelled lowerings emit. One function's
  * registers hold its local variables below `base` and scratch values above.
  *
  * Everything user code can do (evaluate an arbitrary expression and assign variables in it, run a getter or a setter,
  * open an iterable, throw from `next`, run `return`) is a parameter: the machine and the source semantics are given
  * the same `Host`.
  */
module Machine {
  import opened Prelude

  type Reg = nat

  datatype Value =
    | Undefined | Null | Boolean(b: bool) | Number(n: int) | NaN | Text(text: string) | HtmlDda
    | Object(id: nat) | ArrayRef(slot: nat) | IteratorRef(handle: nat) | ErrorObject(kind: nat, message: Value)
  {
    predicate Nullish()
    {
      Undefined? || Null?
    }

    /** ToBoolean; the host's undetectable object is falsy. */
    predicate Truthy()
    {
      match this
      case Undefined | Null | NaN | HtmlDda => false
      case Boolean(b) => b
      case Number(n) => n != 0
      case Text(t) => t != ""
      case _ => true
    }

    predicate Primitive()
    {
      !Object? && !ArrayRef? && !IteratorRef? && !ErrorObject?
    }

    /** The value refers to the array in `slot`, other than through the rest of the heap. */
    predicate Mentions(arr: nat)
    {
      match this
      case ArrayRef(s) => s == arr
      case ErrorObject(_, m) => m.Mentions(arr)
      case _ => false
    }

    /** Strict equality. */
    predicate StrictlyEquals(other: Value)
    {
      this == other && !NaN?
    }
  }

  /** The falsy values and the nullish ones. */
  lemma {:induction false} TruthValues(v: Value)
    ensures !v.Truthy() <==> v in {Undefined, Null, NaN, HtmlDda, Boolean(false), Number(0), Text("")}
    ensures v.Nullish() <==> v in {Undefined, Null}
  {}

  /** Where a property is stored: a constant name or a computed key. */
  datatype Key = Name(index: nat) | Computed(key: Value)

  /** An open iterator: the values still to come, and the error its `next` throws after them, if it does. */
  datatype Source = Source(values: seq<Value>, ending: Option<Value>)

  const EXHAUSTED := Source([], None)

  /** Everything outside the registers. */
  datatype World = World(arrays: seq<seq<Value>>, iterators: seq<Source>, rest: nat)

  /** What a frame does to the outside, in order. */
  datatype Event =
    | Performed(k: nat) | Loaded(obj: Value, key: Key) | Stored(obj: Value, key: Key, v: Value)
    | Stepped(handle: nat) | Closed(handle: nat)

  datatype Outcome = Normal(v: Value, w: World) | Abrupt(v: Value, w: World)

  datatype Opening = Opens(source: Source, w: World) | Refuses(error: Value, w: World)

  /** What user code does. `base` is the number of registers that hold local variables; `assign` gives their values
      after `perform`; `finish` is the `return` method of an iterator; `mismatch` is the error for an operand of the
      wrong type. */
  datatype Host = Host(
    base: nat,
    perform: (nat, seq<Value>, World) -> Outcome,
    assign: (nat, seq<Value>, World) -> seq<Value>,
    load: (Value, Key, World) -> Outcome,
    store: (Value, Key, Value, World) -> Outcome,
    iterate: (Value, World) -> Opening,
    finish: (nat, World) -> Outcome,
    mismatch: Value)

  /** The world after user code ran in `w` and left `w'`: it cannot reach the iterators the frame has open, and arrays
      do not disappear. */
  function After(w: World, w': World): (r: World)
    ensures |w.iterators| <= |r.iterators| && r.iterators[..|w.iterators|] == w.iterators
    ensures |w.arrays| <= |r.arrays|
  {
    var added := if |w.iterators| <= |w'.iterators| then w'.iterators[|w.iterators|..] else [];
    var kept := if |w'.arrays| < |w.arrays| then w.arrays[|w'.arrays|..] else [];
    w'.(iterators := w.iterators + added, arrays := w'.arrays + kept)
  }

  /** Local variables after user code assigned some of them. */
  function Overlay(locals: seq<Value>, changed: seq<Value>): (r: seq<Value>)
    ensures |r| == |locals|
  {
    seq(|locals|, i requires 0 <= i < |locals| => if i < |changed| then changed[i] else locals[i])
  }

  // ----- Instructions -----

  /** `Perform(dst, k)` stands for the code of the expression numbered `k`: it leaves the result in `dst`, may assign
      local variables, touches no other register below its own scratch range, and falls through unless it throws. */
  datatype Instr =
    | LoadUndefined(dst: Reg) | LoadNull(dst: Reg) | LoadConst(dst: Reg, v: Value)
    | LoadLocal(dst: Reg, local: Reg) | StoreLocal(src: Reg, local: Reg)
    | Equal(dst: Reg, a: Reg, b: Reg) | ToBoolean(dst: Reg, src: Reg) | LogicalNot(dst: Reg, src: Reg)
    | Jump(delta: int) | JumpIfTrue(delta: int, cond: Reg) | JumpIfFalse(delta: int, cond: Reg)
    | JumpIfNullish(delta: int, cond: Reg)
    | LoadMember(dst: Reg, obj: Reg, name: nat) | StoreMember(obj: Reg, name: nat, src: Reg, scratch: Reg)
    | LoadElement(dst: Reg, obj: Reg, key: Reg) | StoreElement(obj: Reg, key: Reg, src: Reg)
    | NewArray(dst: Reg) | ArrayPush(arr: Reg, value: Reg)
    | GetIterator(dst: Reg, src: Reg) | IteratorNext(value: Reg, done: Reg, iter: Reg)
    | IteratorClose(iter: Reg) | IteratorCloseStart(iter: Reg) | IteratorCloseEnd(iter: Reg)
    | NewError(dst: Reg, kind: nat, message: Reg) | Throw(src: Reg)
    | Perform(dst: Reg, k: nat)

  /** `closers` lists the iterators to close if the frame is left abruptly, innermost last. `log` is not something the
      machine has: it records what happened. */
  datatype State = State(regs: seq<Value>, world: World, closers: seq<nat>, log: seq<Event>)
  {
    function Get(r: Reg): (v: Value)
    {
      if r < |regs| then regs[r] else Undefined
    }

    function Logged(e: Event): (s: State)
    {
      this.(log := log + [e])
    }

    function Set(r: Reg, v: Value): (s: State)
      ensures |s.regs| == |regs|
    {
      if r < |regs| then this.(regs := regs[r := v]) else this
    }
  }

  datatype Config = Running(pc: int, s: State) | Thrown(v: Value, s: State)

  // ----- Iterators and arrays -----

  function Pending(w: World, it: nat): (source: Source)
  {
    if it < |w.iterators| then w.iterators[it] else EXHAUSTED
  }

  /** The world after one step of an iterator. One that threw is exhausted. */
  function Stepping(w: World, it: nat): (w': World)
  {
    var source := Pending(w, it);
    if it >= |w.iterators| then w
    else if source.values == [] then w.(iterators := w.iterators[it := EXHAUSTED])
    else w.(iterators := w.iterators[it := source.(values := source.values[1..])])
  }

  function Opened(w: World, source: Source): (w': World)
  {
    w.(iterators := w.iterators + [source])
  }

  function Allocated(w: World): (w': World)
  {
    w.(arrays := w.arrays + [[]])
  }

  function Pushed(w: World, arr: nat, v: Value): (w': World)
  {
    if arr < |w.arrays| then w.(arrays := w.arrays[arr := w.arrays[arr] + [v]]) else w
  }

  /** Drop the last registration of an iterator, if there is one. */
  function Deregister(closers: seq<nat>, it: nat): (r: seq<nat>)
  {
    if closers == [] then []
    else if closers[|closers| - 1] == it then closers[..|closers| - 1]
    else Deregister(closers[..|closers| - 1], it) + [closers[|closers| - 1]]
  }

  // ----- One step -----

  function Finish(pc: int, s: State, dst: Reg, o: Outcome): (c: Config)
  {
    var s' := s.(world := After(s.world, o.w));
    if o.Normal? then Running(pc + 1, s'.Set(dst, o.v)) else Thrown(o.v, s')
  }

  /** An operation without a result register. */
  function Complete(pc: int, s: State, o: Outcome): (c: Config)
  {
    var s' := s.(world := After(s.world, o.w));
    if o.Normal? then Running(pc + 1, s') else Thrown(o.v, s')
  }

  function Branch(pc: int, s: State, delta: int, taken: bool): (c: Config)
  {
    Running(if taken then pc + 1 + delta else pc + 1, s)
  }

  function Apply(h: Host, instr: Instr, pc: int, s: State): (c: Config)
    requires h.base <= |s.regs|
  {
    match instr
    case LoadUndefined(dst) => Running(pc + 1, s.Set(dst, Undefined))
    case LoadNull(dst) => Running(pc + 1, s.Set(dst, Null))
    case LoadConst(dst, v) => Running(pc + 1, s.Set(dst, v))
    case LoadLocal(dst, local) => Running(pc + 1, s.Set(dst, s.Get(local)))
    case StoreLocal(src, local) => Running(pc + 1, s.Set(local, s.Get(src)))
    case Equal(dst, a, b) => Running(pc + 1, s.Set(dst, Boolean(s.Get(a).StrictlyEquals(s.Get(b)))))
    case ToBoolean(dst, src) => Running(pc + 1, s.Set(dst, Boolean(s.Get(src).Truthy())))
    case LogicalNot(dst, src) => Running(pc + 1, s.Set(dst, Boolean(!s.Get(src).Truthy())))
    case Jump(delta) => Branch(pc, s, delta, true)
    case JumpIfTrue(delta, cond) => Branch(pc, s, delta, s.Get(cond).Truthy())
    case JumpIfFalse(delta, cond) => Branch(pc, s, delta, !s.Get(cond).Truthy())
    case JumpIfNullish(delta, cond) => Branch(pc, s, delta, s.Get(cond).Nullish())
    case LoadMember(dst, obj, name) =>
      Finish(pc, s.Logged(Loaded(s.Get(obj), Name(name))), dst, h.load(s.Get(obj), Name(name), s.world))
    case StoreMember(obj, name, src, scratch) =>
      Finish(pc, s.Logged(Stored(s.Get(obj), Name(name), s.Get(src))), scratch,
             h.store(s.Get(obj), Name(name), s.Get(src), s.world))
    case LoadElement(dst, obj, key) =>
      Finish(pc, s.Logged(Loaded(s.Get(obj), Computed(s.Get(key)))), dst,
             h.load(s.Get(obj), Computed(s.Get(key)), s.world))
    case StoreElement(obj, key, src) =>
      var o := h.store(s.Get(obj), Computed(s.Get(key)), s.Get(src), s.world);
      Complete(pc, s.Logged(Stored(s.Get(obj), Computed(s.Get(key)), s.Get(src))), o)
    case NewArray(dst) => Running(pc + 1, s.(world := Allocated(s.world)).Set(dst, ArrayRef(|s.world.arrays|)))
    case ArrayPush(arr, value) =>
      if s.Get(arr).ArrayRef? then Running(pc + 1, s.(world := Pushed(s.world, s.Get(arr).slot, s.Get(value))))
      else Thrown(h.mismatch, s)
    case GetIterator(dst, src) =>
      var o := h.iterate(s.Get(src), s.world);
      var w := After(s.world, o.w);
      if o.Refuses? then Thrown(o.error, s.(world := w))
      else Running(pc + 1, s.(world := Opened(w, o.source)).Set(dst, IteratorRef(|w.iterators|)))
    case IteratorNext(value, done, iter) =>
      if !s.Get(iter).IteratorRef? then Thrown(h.mismatch, s)
      else
        var it := s.Get(iter).handle;
        var source := Pending(s.world, it);
        var stepped := s.(world := Stepping(s.world, it)).Logged(Stepped(it));
        var ended := stepped.(closers := Deregister(s.closers, it));
        if source.values != [] then Running(pc + 1, stepped.Set(value, source.values[0]).Set(done, Boolean(false)))
        else if source.ending.Some? then Thrown(source.ending.value, ended)
        else Running(pc + 1, ended.Set(value, Undefined).Set(done, Boolean(true)))
    case IteratorClose(iter) =>
      if !s.Get(iter).IteratorRef? then Thrown(h.mismatch, s)
      else
        var it := s.Get(iter).handle;
        Complete(pc, s.(closers := Deregister(s.closers, it)).Logged(Closed(it)), h.finish(it, s.world))
    case IteratorCloseStart(iter) =>
      if !s.Get(iter).IteratorRef? then Thrown(h.mismatch, s)
      else Running(pc + 1, s.(closers := s.closers + [s.Get(iter).handle]))
    case IteratorCloseEnd(iter) =>
      if !s.Get(iter).IteratorRef? then Thrown(h.mismatch, s)
      else Running(pc + 1, s.(closers := Deregister(s.closers, s.Get(iter).handle)))
    case NewError(dst, kind, message) => Running(pc + 1, s.Set(dst, ErrorObject(kind, s.Get(message))))
    case Throw(src) => Thrown(s.Get(src), s)
    case Perform(dst, k) =>
      var locals := s.regs[..h.base];
      var updated := s.(regs := Overlay(locals, h.assign(k, locals, s.world)) + s.regs[h.base..]);
      Finish(pc, updated.Logged(Performed(k)), dst, h.perform(k, locals, s.world))
  }

  /** A configuration that has thrown, or left the code, stays as it is. */
  function Exec(h: Host, code: seq<Instr>, c: Config): (d: Config)
  {
    if c.Running? && 0 <= c.pc < |code| && h.base <= |c.s.regs| then Apply(h, code[c.pc], c.pc, c.s) else c
  }

  function StepN(h: Host, code: seq<Instr>, n: nat, c: Config): (d: Config)
  {
    if n == 0 then c else StepN(h, code, n - 1, Exec(h, code, c))
  }

  /** Some number of steps leads from `c` to `d`. */
  ghost predicate Runs(h: Host, code: seq<Instr>, c: Config, d: Config)
  {
    exists n: nat :: StepN(h, code, n, c) == d
  }

  lemma {:induction false} StepNAdd(h: Host, code: seq<Instr>, m: nat, n: nat, c: Config)
    ensures StepN(h, code, m + n, c) == StepN(h, code, n, StepN(h, code, m, c))
    decreases m
  {
    hide Exec;
    if m > 0 {
      StepNAdd(h, code, m - 1, n, Exec(h, code, c));
    }
  }

  lemma {:induction false} RunsTrans(h: Host, code: seq<Instr>, a: Config, b: Config, c: Config)
    requires Runs(h, code, a, b) && Runs(h, code, b, c)
    ensures Runs(h, code, a, c)
  {
    hide StepN;
    var m: nat :| StepN(h, code, m, a) == b;
    var n: nat :| StepN(h, code, n, b) == c;
    StepNAdd(h, code, m, n, a);
  }

  lemma {:induction false} RunsNone(h: Host, code: seq<Instr>, c: Config)
    ensures Runs(h, code, c, c)
  {
    assert StepN(h, code, 0, c) == c;
  }

  /** Execution is deterministic: a run that has stopped has stopped for good. */
  lemma {:induction false} RunsUnique(h: Host, code: seq<Instr>, a: Config, b: Config, c: Config)
    requires Runs(h, code, a, b) && Runs(h, code, a, c)
    requires Exec(h, code, b) == b && Exec(h, code, c) == c
    ensures b == c
  {
    hide Exec;
    var m: nat :| StepN(h, code, m, a) == b;
    var n: nat :| StepN(h, code, n, a) == c;
    StepNAdd(h, code, m, n, a);
    StepNAdd(h, code, n, m, a);
    Stuck(h, code, n, b);
    Stuck(h, code, m, c);
  }

  lemma {:induction false} Stuck(h: Host, code: seq<Instr>, n: nat, c: Config)
    requires Exec(h, code, c) == c
    ensures StepN(h, code, n, c) == c
  {
    hide Exec;
    if n > 0 {
      Stuck(h, code, n - 1, c);
    }
  }

  // ----- Code fragments -----

  predicate CodeAt(code: seq<Instr>, p: nat, frag: seq<Instr>)
  {
    p + |frag| <= |code| && code[p..p + |frag|] == frag
  }

  lemma {:induction false} CodeSplit(code: seq<Instr>, p: nat, a: seq<Instr>, b: seq<Instr>)
    requires CodeAt(code, p, a + b)
    ensures CodeAt(code, p, a) && CodeAt(code, p + |a|, b)
  {
    var both := code[p..p + |a| + |b|];
    assert both[..|a|] == code[p..p + |a|] && both[|a|..] == code[p + |a|..p + |a| + |b|];
  }

  lemma {:induction false} OneStep(h: Host, code: seq<Instr>, c: Config)
    ensures Runs(h, code, c, Exec(h, code, c))
  {
    hide Exec;
    assert StepN(h, code, 1, c) == StepN(h, code, 0, Exec(h, code, c));
  }

  lemma {:induction false} Fetch(h: Host, code: seq<Instr>, p: nat, frag: seq<Instr>, k: nat, s: State)
    requires CodeAt(code, p, frag) && k < |frag| && h.base <= |s.regs|
    ensures Exec(h, code, Running(p + k, s)) == Apply(h, frag[k], p + k, s)
  {
    hide Apply;
    assert code[p..p + |frag|][k] == code[p + k];
  }

  /** Extend a run by instruction `k` of a fragment. */
  lemma {:induction false} RunNext(h: Host, code: seq<Instr>, c: Config, p: nat, frag: seq<Instr>, k: nat, s: State)
    requires CodeAt(code, p, frag) && k < |frag| && h.base <= |s.regs|
    requires Runs(h, code, c, Running(p + k, s))
    ensures Runs(h, code, c, Apply(h, frag[k], p + k, s))
  {
    hide *;
    Fetch(h, code, p, frag, k, s);
    OneStep(h, code, Running(p + k, s));
    RunsTrans(h, code, c, Running(p + k, s), Apply(h, frag[k], p + k, s));
  }
}
