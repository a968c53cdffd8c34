/**
  * What evaluating any modelled construct leaves alone, whatever user code does: iterators that were open are neither
  * changed nor stepped nor closed, registrations for abrupt close balance, and the log only grows.
  */
module LoweringFrames {
  import opened Prelude
  import opened Machine
  import opened Lowering

  // ----- Frames -----

  function Count(log: seq<Event>, e: Event): (n: nat)
  {
    multiset(log)[e]
  }

  /** Only iterators that exist are registered or logged. */
  ghost predicate Tidy(st: Store)
  {
    && (forall i :: 0 <= i < |st.closers| ==> st.closers[i] < |st.world.iterators|)
    && (forall it: nat :: it >= |st.world.iterators| ==> Stepped(it) !in st.log && Closed(it) !in st.log)
  }

  /** Iterators below `n` were neither changed nor stepped nor closed. */
  ghost predicate Frame(st: Store, st': Store, n: nat)
  {
    && n <= |st.world.iterators| <= |st'.world.iterators|
    && st'.world.iterators[..n] == st.world.iterators[..n]
    && |st.world.arrays| <= |st'.world.arrays| && |st'.locals| == |st.locals| && st.log <= st'.log
    && (forall it: nat :: it < n ==> Count(st'.log, Stepped(it)) == Count(st.log, Stepped(it)))
    && (forall it: nat :: it < n ==> Count(st'.log, Closed(it)) == Count(st.log, Closed(it)))
  }

  /** What holds before evaluation. */
  ghost predicate Sound(st: Store, n: nat)
  {
    Tidy(st) && n <= |st.world.iterators|
  }

  ghost predicate Framed(st: Store, st': Store, n: nat)
  {
    Frame(st, st', n) && Sound(st', n)
  }

  ghost predicate Settled(st: Store, st': Store, n: nat)
  {
    Framed(st, st', n) && st'.closers == st.closers
  }

  predicate Extends(closers: seq<nat>, closers': seq<nat>, n: nat)
  {
    closers <= closers' && forall i :: |closers| <= i < |closers'| ==> closers'[i] >= n
  }

  /** An abrupt completion may leave further iterators registered, none of them below `n`. */
  ghost predicate Broken(st: Store, st': Store, n: nat)
  {
    Framed(st, st', n) && Extends(st.closers, st'.closers, n)
  }

  ghost predicate ResultFrame(st: Store, r: EvalResult, n: nat)
  {
    if r.Returned? then Settled(st, r.st, n) else Broken(st, r.st, n)
  }

  ghost predicate CompletionFrame(st: Store, c: Completion, n: nat)
  {
    if c.Done? then Settled(st, c.st, n) else Broken(st, c.st, n)
  }

  ghost predicate ReferenceFrame(st: Store, r: RefResult, n: nat)
  {
    if r.Resolved? then Settled(st, r.st, n) else Broken(st, r.st, n)
  }

  lemma {:induction false} FramedTrans(a: Store, b: Store, c: Store, n: nat)
    requires Framed(a, b, n) && Framed(b, c, n)
    ensures Framed(a, c, n)
  {
    hide Count, Sound;
  }

  lemma {:induction false} Follow(a: Store, b: Store, c: Store, n: nat)
    requires Settled(a, b, n)
    ensures Settled(b, c, n) ==> Settled(a, c, n)
    ensures Broken(b, c, n) ==> Broken(a, c, n)
  {
    hide Framed;
    if Framed(b, c, n) {
      FramedTrans(a, b, c, n);
    }
  }

  lemma {:induction false} SettledIsBroken(a: Store, b: Store, n: nat)
    requires Settled(a, b, n)
    ensures Broken(a, b, n)
  {
    hide Framed;
  }

  lemma {:induction false} SettledSound(st: Store, st': Store, n: nat)
    requires Settled(st, st', n)
    ensures Sound(st', n) && |st.world.arrays| <= |st'.world.arrays|
  {}

  lemma {:induction false} Nothing(st: Store, n: nat)
    requires Sound(st, n)
    ensures Settled(st, st, n)
  {}

  /** A frame at `n` is a frame at anything smaller. */
  lemma {:induction false} Lower(a: Store, b: Store, n: nat, n': nat)
    requires n' <= n && Framed(a, b, n)
    ensures Framed(a, b, n')
  {
    hide Count, Tidy;
    assert a.world.iterators[..n][..n'] == a.world.iterators[..n'];
    assert b.world.iterators[..n][..n'] == b.world.iterators[..n'];
  }

  /** User code ran and left `w`, and perhaps assigned variables. */
  lemma {:induction false} AfterFrame(st: Store, locals: seq<Value>, w: World, n: nat)
    requires Sound(st, n) && |locals| == |st.locals|
    ensures Settled(st, st.(world := After(st.world, w), locals := locals), n)
  {
    hide After;
    assert After(st.world, w).iterators[..n] == After(st.world, w).iterators[..|st.world.iterators|][..n];
  }

  lemma {:induction false} LogFrame(st: Store, e: Event, n: nat)
    requires Sound(st, n) && !e.Stepped? && !e.Closed?
    ensures Settled(st, st.Logged(e), n)
  {}

  /** One recorded call into user code. */
  lemma {:induction false} CallFrame(st: Store, e: Event, locals: seq<Value>, w: World, n: nat)
    requires Sound(st, n) && !e.Stepped? && !e.Closed? && |locals| == |st.locals|
    ensures var st' := st.Logged(e).(world := After(st.world, w), locals := locals);
            Settled(st, st', n) && Broken(st, st', n)
  {
    hide Settled, Broken, Sound, After;
    var st' := st.Logged(e).(world := After(st.world, w), locals := locals);
    LogFrame(st, e, n);
    SettledSound(st, st.Logged(e), n);
    AfterFrame(st.Logged(e), locals, w, n);
    Follow(st, st.Logged(e), st', n);
    SettledIsBroken(st, st', n);
  }

  // ----- Draining -----

  function Steps(it: nat, n: nat): (log: seq<Event>)
    ensures |log| == n
  {
    seq(n, _ => Stepped(it))
  }

  lemma {:induction false} CountSteps(log: seq<Event>, it: nat, n: nat, e: Event)
    ensures Count(log + Steps(it, n), e) == Count(log, e) + if e == Stepped(it) then n else 0
  {
    if n == 0 {
      assert log + Steps(it, 0) == log;
    } else {
      CountSteps(log, it, n - 1, e);
      assert log + Steps(it, n) == (log + Steps(it, n - 1)) + [Stepped(it)];
    }
  }

  /** Draining hands every pending value to the array in order, exhausts the iterator, and touches nothing else; it
      fails exactly if the iterator throws after its values. */
  lemma {:induction false} DrainDoes(st: Store, it: nat, arr: nat)
    requires it < |st.world.iterators| && arr < |st.world.arrays|
    ensures var source, r := st.world.iterators[it], Drain(st, it, arr);
            && r.st == Drained(st, it, arr)
            && (if source.ending.None? then r.Done? else r == Failed(source.ending.value, r.st))
    decreases |st.world.iterators[it].values|
  {
    hide Deregister;
    var source := st.world.iterators[it];
    if source.values == [] {
      assert Steps(it, 1) == [Stepped(it)];
      assert st.world.arrays[arr] + [] == st.world.arrays[arr];
    } else {
      var st1 := StepIterator(st, it).st;
      var st2 := st1.(world := Pushed(st1.world, arr, source.values[0]));
      DrainDoes(st2, it, arr);
      DrainedNext(st, it, arr, st2);
    }
  }

  function Drained(st: Store, it: nat, arr: nat): (st': Store)
    requires it < |st.world.iterators| && arr < |st.world.arrays|
  {
    var source := st.world.iterators[it];
    var w := st.world.(iterators := st.world.iterators[it := EXHAUSTED],
                       arrays := st.world.arrays[arr := st.world.arrays[arr] + source.values]);
    st.(world := w, closers := Deregister(st.closers, it), log := st.log + Steps(it, |source.values| + 1))
  }

  lemma {:induction false} DrainedNext(st: Store, it: nat, arr: nat, st2: Store)
    requires it < |st.world.iterators| && arr < |st.world.arrays| && st.world.iterators[it].values != []
    requires var st1 := StepIterator(st, it).st;
             st2 == st1.(world := Pushed(st1.world, arr, st.world.iterators[it].values[0]))
    ensures Drained(st2, it, arr) == Drained(st, it, arr)
  {
    hide Deregister;
    var values, before := st.world.iterators[it].values, st.world.arrays[arr];
    assert before + [values[0]] + values[1..] == before + values;
    assert [Stepped(it)] + Steps(it, |values|) == Steps(it, |values| + 1);
    assert st.log + [Stepped(it)] + Steps(it, |values|) == st.log + Steps(it, |values| + 1);
  }

  lemma {:induction false} DeregisterAbsent(closers: seq<nat>, it: nat)
    requires it !in closers
    ensures Deregister(closers, it) == closers
  {
    if closers != [] {
      DeregisterAbsent(closers[..|closers| - 1], it);
    }
  }

  lemma {:induction false} DeregisterLast(closers: seq<nat>, it: nat)
    ensures Deregister(closers + [it], it) == closers
  {
    assert (closers + [it])[..|closers|] == closers;
  }

  /** Logging steps of an iterator at or above `n` keeps the counts below `n`. */
  lemma {:induction false} LogSteps(st: Store, st': Store, it: nat, k: nat, n: nat)
    requires st'.log == st.log + Steps(it, k) && n <= it
    ensures forall i: nat :: i < n ==> Count(st'.log, Stepped(i)) == Count(st.log, Stepped(i))
    ensures forall i: nat :: i < n ==> Count(st'.log, Closed(i)) == Count(st.log, Closed(i))
    ensures forall i: nat :: i > it && Stepped(i) !in st.log ==> Stepped(i) !in st'.log
    ensures forall i: nat :: i > it && Closed(i) !in st.log ==> Closed(i) !in st'.log
  {
    hide Count;
    forall i: nat
      ensures Count(st'.log, Closed(i)) == Count(st.log, Closed(i))
      ensures i < n ==> Count(st'.log, Stepped(i)) == Count(st.log, Stepped(i))
    {
      CountSteps(st.log, it, k, Stepped(i));
      CountSteps(st.log, it, k, Closed(i));
    }
  }

  // ----- An open pattern iterator -----

  /** The value at a position, `undefined` past the end. */
  function ItemAt(values: seq<Value>, k: nat): (v: Value)
  {
    if k < |values| then values[k] else Undefined
  }

  function Remaining(values: seq<Value>, k: nat): (rest: seq<Value>)
  {
    if k <= |values| then values[k..] else []
  }

  /** What is left of an iterator after `k` steps. */
  function SourceAfter(source: Source, k: nat): (rest: Source)
  {
    if k <= |source.values| then Source(source.values[k..], source.ending) else EXHAUSTED
  }

  /** Step number `k`, counting from zero, throws. */
  predicate ThrowsAt(source: Source, k: nat)
  {
    k == |source.values| && source.ending.Some?
  }

  /** The registrations while a pattern runs: its iterator is off the list once a step went past its values. */
  function Registrations(closers: seq<nat>, it: nat, source: Source, k: nat): (r: seq<nat>)
  {
    if k <= |source.values| then closers + [it] else closers
  }

  /** An iterator over `source` was opened when `closers` were registered; `k` steps have been taken and no close. */
  ghost predicate At(st: Store, it: nat, source: Source, k: nat, closers: seq<nat>)
  {
    && it < |st.world.iterators| && (forall i :: 0 <= i < |closers| ==> closers[i] < it)
    && st.world.iterators[it] == SourceAfter(source, k)
    && st.closers == Registrations(closers, it, source, k)
    && Count(st.log, Stepped(it)) == k && Count(st.log, Closed(it)) == 0
  }

  /** Something threw while the iterator was open. It was closed at most once, and unwinding will close it exactly if it
      has not been closed and has no step past its values. */
  ghost predicate Interrupted(st: Store, it: nat, source: Source, closers: seq<nat>)
  {
    var steps, closes := Count(st.log, Stepped(it)), Count(st.log, Closed(it));
    closes <= 1 && Extends(if closes == 1 then closers else Registrations(closers, it, source, steps), st.closers,
                           it + 1)
  }

  lemma {:induction false} AtInterrupted(st: Store, it: nat, source: Source, k: nat, closers: seq<nat>)
    requires At(st, it, source, k, closers)
    ensures Interrupted(st, it, source, closers)
  {
    hide Count, SourceAfter;
  }

  lemma {:induction false} AtKept(st: Store, st': Store, it: nat, source: Source, k: nat, closers: seq<nat>, n: nat)
    requires At(st, it, source, k, closers) && n <= it
    ensures Settled(st, st', it + 1) ==> At(st', it, source, k, closers) && Framed(st, st', n)
    ensures Broken(st, st', it + 1) ==> Interrupted(st', it, source, closers) && Framed(st, st', n)
  {
    hide Count, Sound, SourceAfter;
    if Framed(st, st', it + 1) {
      Lower(st, st', it + 1, n);
      assert st'.world.iterators[..it + 1][it] == st.world.iterators[..it + 1][it];
    }
  }

  /** The store once `k` steps of a pattern's iterator have been taken, the last of them just now. */
  function Advanced(st: Store, it: nat, source: Source, k: nat, closers: seq<nat>): (st': Store)
    requires it < |st.world.iterators|
  {
    st.(world := st.world.(iterators := st.world.iterators[it := SourceAfter(source, k)]),
        closers := Registrations(closers, it, source, k)).Logged(Stepped(it))
  }

  lemma {:induction false} StepIsAdvance(st: Store, it: nat, source: Source, k: nat, closers: seq<nat>)
    requires At(st, it, source, k, closers)
    ensures var st' := Advanced(st, it, source, k + 1, closers);
            StepIterator(st, it) == if ThrowsAt(source, k) then StepThrew(source.ending.value, st')
                                    else Step(ItemAt(source.values, k), k >= |source.values|, st')
  {
    hide Deregister, Count;
    DeregisterAbsent(closers, it);
    DeregisterLast(closers, it);
  }

  lemma {:induction false} AdvancedAt(st: Store, it: nat, source: Source, k: nat, closers: seq<nat>, n: nat)
    requires At(st, it, source, k, closers) && n <= it && Sound(st, n)
    ensures var st' := Advanced(st, it, source, k + 1, closers);
            At(st', it, source, k + 1, closers) && Framed(st, st', n)
  {
    hide SourceAfter;
  }

  lemma {:induction false} StepAt(st: Store, it: nat, source: Source, k: nat, closers: seq<nat>, n: nat)
    requires At(st, it, source, k, closers) && n <= it && Sound(st, n)
    ensures var step := StepIterator(st, it);
            && At(step.st, it, source, k + 1, closers) && Framed(st, step.st, n)
            && if ThrowsAt(source, k) then step == StepThrew(source.ending.value, step.st)
               else step == Step(ItemAt(source.values, k), k >= |source.values|, step.st)
  {
    hide At, Sound, Framed, Advanced, StepIterator;
    StepIsAdvance(st, it, source, k, closers);
    AdvancedAt(st, it, source, k, closers, n);
  }

  lemma {:induction false} SoundAt(st: Store, it: nat, source: Source, k: nat, closers: seq<nat>, n: nat)
    requires At(st, it, source, k, closers) && Sound(st, n)
    ensures Sound(st, it + 1)
  {}

  // ----- Every construct -----

  lemma {:induction false} EvalFrame(h: Host, e: Expr, st: Store, n: nat)
    requires Sound(st, n)
    ensures ResultFrame(st, Eval(h, e, st), n)
    decreases e, 1
  {
    hide Settled, Broken, Sound, Resolve, Destructure, EvalArgs, EvalRhs, GetReference, Assigns, After, Overlay;
    match e
    case Literal(_) => Nothing(st, n);
    case ReadLocal(local) => GetFrame(h, ToLocal(local), st, n);
    case Opaque(k) =>
      CallFrame(st, Performed(k), Overlay(st.locals, h.assign(k, st.locals, st.world)),
                h.perform(k, st.locals, st.world).w, n);
    case LogicalAssign(_, target, _) =>
      var r := Resolve(h, target, st);
      ResolveFrame(h, target, st, n);
      if r.Resolved? {
        SettledSound(st, r.st, n);
        GetFrame(h, r.ref, r.st, n);
        var current := GetReference(h, r.ref, r.st);
        Follow(st, r.st, current.st, n);
        if current.Returned? {
          SettledSound(st, current.st, n);
          RhsFrame(h, e, r.ref, current.st, n);
          Follow(st, current.st, EvalRhs(h, e, r.ref, current.st).st, n);
        }
      }
    case ArrayAssign(pattern, source) =>
      EvalFrame(h, source, st, n);
      var r := Eval(h, source, st);
      if r.Returned? {
        SettledSound(st, r.st, n);
        DestructureFrame(h, pattern, r.v, r.st, n);
        Follow(st, r.st, Destructure(h, pattern, r.v, r.st).st, n);
      }
    case ArgumentArray(args) =>
      var st1 := st.(world := Allocated(st.world));
      AllocateFrame(st, n);
      SettledSound(st, st1, n);
      ArgsFrame(h, args, |st.world.arrays|, st1, n);
      Follow(st, st1, EvalArgs(h, args, |st.world.arrays|, st1).st, n);
  }

  lemma {:induction false} AllocateFrame(st: Store, n: nat)
    requires Sound(st, n)
    ensures Settled(st, st.(world := Allocated(st.world)), n)
  {}

  lemma {:induction false} GetFrame(h: Host, ref: Reference, st: Store, n: nat)
    requires Sound(st, n)
    ensures ResultFrame(st, GetReference(h, ref, st), n)
  {
    hide Settled, Broken, Sound, After;
    if ref.ToProperty? {
      CallFrame(st, Loaded(ref.obj, ref.key), st.locals, h.load(ref.obj, ref.key, st.world).w, n);
    } else {
      Nothing(st, n);
    }
  }

  lemma {:induction false} RhsFrame(h: Host, e: Expr, ref: Reference, st: Store, n: nat)
    requires e.LogicalAssign? && Sound(st, n)
    ensures ResultFrame(st, EvalRhs(h, e, ref, st), n)
    decreases e, 0
  {
    hide Settled, Broken, Sound, Eval, Put;
    EvalFrame(h, e.rhs, st, n);
    var r := Eval(h, e.rhs, st);
    if r.Returned? {
      SettledSound(st, r.st, n);
      PutFrame(h, e.target, ref, r.v, r.st, n);
      Follow(st, r.st, Put(h, e.target, ref, r.v, r.st).st, n);
    }
  }

  lemma {:induction false} ArgFrame(h: Host, a: Argument, arr: nat, st: Store, n: nat)
    requires Sound(st, n) && arr < |st.world.arrays|
    ensures CompletionFrame(st, EvalArg(h, a, arr, st), n)
    decreases a, 0
  {
    hide Settled, Broken, Sound, Eval, Drain, Pushed, After;
    EvalFrame(h, a.e, st, n);
    var r := Eval(h, a.e, st);
    if r.Returned? {
      SettledSound(st, r.st, n);
      if a.Plain? {
        PushFrame(r.st, arr, r.v, n);
        Follow(st, r.st, r.st.(world := Pushed(r.st.world, arr, r.v)), n);
      } else {
        var o := h.iterate(r.v, r.st.world);
        var st1 := r.st.(world := After(r.st.world, o.w));
        AfterFrame(r.st, r.st.locals, o.w, n);
        Follow(st, r.st, st1, n);
        SettledSound(r.st, st1, n);
        SettledIsBroken(st, st1, n);
        if o.Opens? {
          SpreadFrame(st1, o.source, arr, n);
          Follow(st, st1, Drain(st1.(world := Opened(st1.world, o.source)), |st1.world.iterators|, arr).st, n);
        }
      }
    }
  }

  lemma {:induction false} PushFrame(st: Store, arr: nat, v: Value, n: nat)
    requires Sound(st, n)
    ensures Settled(st, st.(world := Pushed(st.world, arr, v)), n)
  {}

  lemma {:induction false} SpreadFrame(st: Store, source: Source, arr: nat, n: nat)
    requires Sound(st, n) && arr < |st.world.arrays|
    ensures CompletionFrame(st, Drain(st.(world := Opened(st.world, source)), |st.world.iterators|, arr), n)
  {
    hide Drain, Count, Steps;
    var it, open := |st.world.iterators|, st.(world := Opened(st.world, source));
    DrainDoes(open, it, arr);
    DeregisterAbsent(st.closers, it);
    LogSteps(st, Drained(open, it, arr), it, |source.values| + 1, n);
  }

  lemma {:induction false} ArgsFrame(h: Host, args: seq<Argument>, arr: nat, st: Store, n: nat)
    requires Sound(st, n) && arr < |st.world.arrays|
    ensures CompletionFrame(st, EvalArgs(h, args, arr, st), n)
    decreases args, 0
  {
    hide Settled, Broken, Sound, EvalArg;
    if args == [] {
      Nothing(st, n);
    } else {
      ArgFrame(h, args[0], arr, st, n);
      var r := EvalArg(h, args[0], arr, st);
      if r.Done? {
        SettledSound(st, r.st, n);
        ArgsFrame(h, args[1..], arr, r.st, n);
        Follow(st, r.st, EvalArgs(h, args[1..], arr, r.st).st, n);
      }
    }
  }

  lemma {:induction false} ResolveFrame(h: Host, t: Target, st: Store, n: nat)
    requires Sound(st, n)
    ensures ReferenceFrame(st, Resolve(h, t, st), n)
    decreases t, 0
  {
    hide Settled, Broken, Sound, Eval;
    match t
    case Variable(_) => Nothing(st, n);
    case StaticMember(obj, _) => EvalFrame(h, obj, st, n);
    case ComputedMember(obj, key) =>
      EvalFrame(h, obj, st, n);
      var r := Eval(h, obj, st);
      if r.Returned? {
        SettledSound(st, r.st, n);
        EvalFrame(h, key, r.st, n);
        Follow(st, r.st, Eval(h, key, r.st).st, n);
      }
    case ArrayTarget(_) => Nothing(st, n);
  }

  lemma {:induction false} PutFrame(h: Host, t: Target, ref: Reference, v: Value, st: Store, n: nat)
    requires Sound(st, n)
    ensures CompletionFrame(st, Put(h, t, ref, v, st), n)
    decreases t, 1
  {
    hide Destructure, After, Count;
    Nothing(st, n);
    if ref.ToProperty? {
      hide Settled, Broken, Sound;
      CallFrame(st, Stored(ref.obj, ref.key, v), st.locals, h.store(ref.obj, ref.key, v, st.world).w, n);
    } else if ref.ToPattern? && t.ArrayTarget? {
      DestructureFrame(h, t.pattern, v, st, n);
    }
  }

  // ----- Patterns -----

  lemma {:induction false} DefaultFrame(h: Host, v: Value, init: Option<Expr>, st: Store, n: nat)
    requires Sound(st, n)
    ensures ResultFrame(st, EvalDefault(h, v, init, st), n)
    decreases init, 1
  {
    hide Settled, Broken, Sound, Eval;
    if init.Some? && v == Undefined {
      EvalFrame(h, init.value, st, n);
    } else {
      Nothing(st, n);
    }
  }

  lemma {:induction false} BindingFrame(h: Host, e: Element, ref: Reference, v: Value, st: Store, n: nat)
    requires e.Item? && Sound(st, n)
    ensures CompletionFrame(st, EvalBinding(h, e, ref, v, st), n)
    decreases e, 0
  {
    hide Settled, Broken, Sound, EvalDefault, Put;
    DefaultFrame(h, v, e.init, st, n);
    var r := EvalDefault(h, v, e.init, st);
    if r.Returned? {
      SettledSound(st, r.st, n);
      PutFrame(h, e.target, ref, r.v, r.st, n);
      Follow(st, r.st, Put(h, e.target, ref, r.v, r.st).st, n);
    }
  }

  /** Outcome of elements of a pattern, after which `k` steps have been taken in all, or an interruption. */
  ghost predicate ElementsFramed(st: Store, r: ElementResult, it: nat, source: Source, k: nat, closers: seq<nat>,
                                 n: nat)
  {
    && Framed(st, r.st, n)
    && if r.Bound? then At(r.st, it, source, k, closers) && r.done == (k > |source.values|)
       else Interrupted(r.st, it, source, closers)
  }

  lemma {:induction false} ElementFrame(h: Host, e: Element, it: nat, st: Store, source: Source, k: nat,
                                        closers: seq<nat>,
                                        n: nat)
    requires At(st, it, source, k, closers) && n <= it && Sound(st, n)
    ensures ElementsFramed(st, EvalElement(h, e, it, st), it, source, k + 1, closers, n)
    decreases e, 1
  {
    hide Settled, Broken, Sound, Frame, Resolve, EvalBinding, StepIterator, At, Interrupted, Extends, Count;
    if e.Elision? {
      StepAt(st, it, source, k, closers, n);
      AtInterrupted(StepIterator(st, it).st, it, source, k + 1, closers);
    } else {
      SoundAt(st, it, source, k, closers, n);
      ResolveFrame(h, e.target, st, it + 1);
      var r := Resolve(h, e.target, st);
      AtKept(st, r.st, it, source, k, closers, n);
      if r.Resolved? {
        var step := StepIterator(r.st, it);
        StepAt(r.st, it, source, k, closers, n);
        FramedTrans(st, r.st, step.st, n);
        AtInterrupted(step.st, it, source, k + 1, closers);
        if step.Step? {
          SoundAt(step.st, it, source, k + 1, closers, n);
          BindingFrame(h, e, r.ref, step.v, step.st, it + 1);
          var bound := EvalBinding(h, e, r.ref, step.v, step.st);
          AtKept(step.st, bound.st, it, source, k + 1, closers, n);
          FramedTrans(st, step.st, bound.st, n);
        }
      }
    }
  }

  lemma {:induction false} ElementsFrame(h: Host, es: seq<Element>, it: nat, st: Store, source: Source, k: nat,
                                         closers: seq<nat>, n: nat)
    requires At(st, it, source, k, closers) && n <= it && Sound(st, n)
    ensures ElementsFramed(st, EvalElements(h, es, it, st, k > |source.values|), it, source, k + |es|, closers, n)
    decreases es, 0
  {
    hide Sound, Frame, EvalElement, At, Interrupted;
    if es == [] {
      NothingFramed(st, n);
    } else {
      ElementFrame(h, es[0], it, st, source, k, closers, n);
      var r := EvalElement(h, es[0], it, st);
      if r.Bound? {
        ElementsFrame(h, es[1..], it, r.st, source, k + 1, closers, n);
        FramedTrans(st, r.st, EvalElements(h, es[1..], it, r.st, r.done).st, n);
      }
    }
  }

  lemma {:induction false} NothingFramed(st: Store, n: nat)
    requires Sound(st, n)
    ensures Framed(st, st, n)
  {}

  /** How a completed pattern leaves the frame, or an interruption. */
  ghost predicate PatternFramed(st: Store, c: Completion, it: nat, source: Source, closers: seq<nat>, steps: nat,
                                closes: nat,
                                n: nat)
  {
    && Framed(st, c.st, n)
    && if c.Done? then
         && c.st.closers == closers
         && Count(c.st.log, Stepped(it)) == steps && Count(c.st.log, Closed(it)) == closes
       else Interrupted(c.st, it, source, closers)
  }

  /** The store once a new array has taken the values from position `k` on. */
  function CollectedFrom(st: Store, it: nat, source: Source, k: nat, closers: seq<nat>): (st': Store)
    requires it < |st.world.iterators|
  {
    var rest := Remaining(source.values, k);
    var w := st.world.(arrays := st.world.arrays + [rest], iterators := st.world.iterators[it := EXHAUSTED]);
    st.(world := w, closers := closers, log := st.log + Steps(it, |rest| + 1))
  }

  lemma {:induction false} CollectIs(st: Store, it: nat, source: Source, k: nat, closers: seq<nat>)
    requires At(st, it, source, k, closers)
    ensures var r := Drain(st.(world := Allocated(st.world)), it, |st.world.arrays|);
            && r.st == CollectedFrom(st, it, source, k, closers)
            && if k <= |source.values| && source.ending.Some? then r == Failed(source.ending.value, r.st) else r.Done?
  {
    hide Count, Drain, Steps;
    var st1, rest, arr := st.(world := Allocated(st.world)), Remaining(source.values, k), |st.world.arrays|;
    DrainDoes(st1, it, arr);
    assert [] + rest == rest;
    assert st1.world.arrays[arr := rest] == st.world.arrays + [rest];
    DeregisterLast(closers, it);
    DeregisterAbsent(closers, it);
  }

  lemma {:induction false} CollectedAt(st: Store, it: nat, source: Source, k: nat, closers: seq<nat>, n: nat)
    requires At(st, it, source, k, closers) && n <= it && Sound(st, n)
    ensures var st' := CollectedFrom(st, it, source, k, closers);
            At(st', it, source, k + |Remaining(source.values, k)| + 1, closers) && Framed(st, st', n)
  {
    hide Count, Steps;
    var n' := |Remaining(source.values, k)| + 1;
    LogSteps(st, CollectedFrom(st, it, source, k, closers), it, n', n);
    CountSteps(st.log, it, n', Stepped(it));
    CountSteps(st.log, it, n', Closed(it));
  }

  /** A drained iterator is exhausted: one step past its values and no longer registered, whether that step was done or
      threw. */
  lemma {:induction false} CollectAt(st: Store, it: nat, source: Source, k: nat, closers: seq<nat>, n: nat)
    requires At(st, it, source, k, closers) && n <= it && Sound(st, n)
    ensures var r := Drain(st.(world := Allocated(st.world)), it, |st.world.arrays|);
            && At(r.st, it, source, k + |Remaining(source.values, k)| + 1, closers) && Framed(st, r.st, n)
            && (r.Done? <==> k > |source.values| || source.ending.None?)
  {
    hide At, Sound, Framed, CollectedFrom, Drain;
    CollectIs(st, it, source, k, closers);
    CollectedAt(st, it, source, k, closers, n);
  }

  lemma {:induction false} RestFrame(h: Host, t: Target, it: nat, st: Store, source: Source, k: nat,
                                     closers: seq<nat>, n: nat)
    requires At(st, it, source, k, closers) && n <= it && Sound(st, n)
    ensures PatternFramed(st, EvalRest(h, t, it, st), it, source, closers, k + |Remaining(source.values, k)| + 1, 0, n)
    decreases t, 2
  {
    hide Settled, Broken, Sound, Frame, Resolve, Put, Drain, At, Interrupted, Extends, Count, Deregister;
    SoundAt(st, it, source, k, closers, n);
    ResolveFrame(h, t, st, it + 1);
    var r := Resolve(h, t, st);
    AtKept(st, r.st, it, source, k, closers, n);
    if r.Resolved? {
      var arr, k' := |r.st.world.arrays|, k + |Remaining(source.values, k)| + 1;
      var drained := Drain(r.st.(world := Allocated(r.st.world)), it, arr);
      CollectAt(r.st, it, source, k, closers, n);
      FramedTrans(st, r.st, drained.st, n);
      AtInterrupted(drained.st, it, source, k', closers);
      if drained.Done? {
        SoundAt(drained.st, it, source, k', closers, n);
        PutFrame(h, t, r.ref, ArrayRef(arr), drained.st, it + 1);
        var put := Put(h, t, r.ref, ArrayRef(arr), drained.st);
        AtKept(drained.st, put.st, it, source, k', closers, n);
        FramedTrans(st, drained.st, put.st, n);
        if put.Done? {
          ExhaustedEnds(put.st, it, source, k', closers, n);
          FramedTrans(st, put.st, put.st.(closers := Deregister(put.st.closers, it)), n);
        }
      }
    }
  }

  lemma {:induction false} ExhaustedEnds(st: Store, it: nat, source: Source, k: nat, closers: seq<nat>, n: nat)
    requires At(st, it, source, k, closers) && k > |source.values| && Sound(st, n)
    ensures var st' := st.(closers := Deregister(st.closers, it));
            && st'.closers == closers && Framed(st, st', n)
            && Count(st'.log, Stepped(it)) == k && Count(st'.log, Closed(it)) == 0
  {
    hide Count;
    DeregisterAbsent(closers, it);
  }

  /** Without a rest element: one close exactly when no step went past the end. The iterator is off the list before its
      `return` runs, so a throwing `return` does not lead to a second close. */
  lemma {:induction false} CloseFrame(h: Host, st: Store, it: nat, source: Source, k: nat, closers: seq<nat>, n: nat)
    requires At(st, it, source, k, closers) && n <= it && Sound(st, n)
    ensures PatternFramed(st, CloseUnlessDone(h, st, it, k > |source.values|), it, source, closers,
                          k, if k <= |source.values| then 1 else 0, n)
  {
    hide Deregister, After, Frame;
    if k > |source.values| {
      ExhaustedEnds(st, it, source, k, closers, n);
    } else {
      var closing := st.(closers := closers).Logged(Closed(it));
      var w := h.finish(it, st.world).w;
      ClosingFrame(st, it, closers, n);
      AfterFrame(closing, st.locals, w, n);
      FramedTrans(st, closing, closing.(world := After(st.world, w)), n);
      DeregisterLast(closers, it);
      DeregisterAbsent(closers, it);
    }
  }

  lemma {:induction false} ClosingFrame(st: Store, it: nat, closers: seq<nat>, n: nat)
    requires Sound(st, n) && n <= it < |st.world.iterators| && closers <= st.closers
    ensures Framed(st, st.(closers := closers).Logged(Closed(it)), n)
  {}

  /** How often a completed pattern steps its iterator. */
  function PatternSteps(p: Pattern, source: Source): (n: nat)
  {
    if p.rest.None? then |p.elements| else |p.elements| + |Remaining(source.values, |p.elements|)| + 1
  }

  /** Whether a completed pattern closes its iterator. */
  function PatternCloses(p: Pattern, source: Source): (n: nat)
  {
    if p.rest.None? && |p.elements| <= |source.values| then 1 else 0
  }

  lemma {:induction false} BodyFrame(h: Host, p: Pattern, it: nat, st: Store, source: Source, closers: seq<nat>, n: nat)
    requires At(st, it, source, 0, closers) && n <= it && Sound(st, n)
    ensures PatternFramed(st, EvalBody(h, p, it, st), it, source, closers,
                          PatternSteps(p, source), PatternCloses(p, source), n)
    decreases p, 0
  {
    hide Sound, Frame, EvalElements, EvalRest, CloseUnlessDone, At, Interrupted, Count;
    ElementsFrame(h, p.elements, it, st, source, 0, closers, n);
    var r := EvalElements(h, p.elements, it, st, false);
    if r.Bound? {
      if p.rest.Some? {
        RestFrame(h, p.rest.value, it, r.st, source, |p.elements|, closers, n);
        FramedTrans(st, r.st, EvalRest(h, p.rest.value, it, r.st).st, n);
      } else {
        CloseFrame(h, r.st, it, source, |p.elements|, closers, n);
        FramedTrans(st, r.st, CloseUnlessDone(h, r.st, it, r.done).st, n);
      }
    }
  }

  lemma {:induction false} OpenAt(st: Store, source: Source, n: nat)
    requires Sound(st, n)
    ensures At(OpenPattern(st, source), |st.world.iterators|, source, 0, st.closers)
    ensures Framed(st, OpenPattern(st, source), n)
  {}

  lemma {:induction false} DestructureFrame(h: Host, p: Pattern, v: Value, st: Store, n: nat)
    requires Sound(st, n)
    ensures CompletionFrame(st, Destructure(h, p, v, st), n)
    decreases p, 1
  {
    hide Sound, Frame, EvalBody, At, Count, After;
    Nothing(st, n);
    if !v.Nullish() {
      var o := h.iterate(v, st.world);
      var st0 := st.(world := After(st.world, o.w));
      AfterFrame(st, st.locals, o.w, n);
      if o.Opens? {
        var it, st1 := |st0.world.iterators|, OpenPattern(st0, o.source);
        SoundBound(st0, n);
        OpenAt(st0, o.source, n);
        BodyFrame(h, p, it, st1, o.source, st.closers, n);
        FramedTrans(st0, st1, EvalBody(h, p, it, st1).st, n);
        FramedTrans(st, st0, EvalBody(h, p, it, st1).st, n);
      }
    }
  }

  lemma {:induction false} SoundBound(st: Store, n: nat)
    requires Sound(st, n)
    ensures n <= |st.world.iterators|
  {}
}
