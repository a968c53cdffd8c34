/**
  * An array the frame is still filling stays its own. User code is only assumed to be `Discreet`: it neither changes
  * nor gets hold of an array that nothing it can see refers to. Then no evaluation changes such an array or refers to
  * it.
  */
module LoweringPrivacy {
  import opened Prelude
  import opened Machine
  import opened Lowering
  import opened LoweringFrames

  /** Whether the rest of the heap refers to an array. */
  type Held = (nat, nat) -> bool

  predicate NoneMention(values: seq<Value>, a: nat)
  {
    forall i :: 0 <= i < |values| ==> !values[i].Mentions(a)
  }

  predicate SourceMentions(source: Source, a: nat)
  {
    !NoneMention(source.values, a) || (source.ending.Some? && source.ending.value.Mentions(a))
  }

  predicate KeyMentions(key: Key, a: nat)
  {
    key.Computed? && key.key.Mentions(a)
  }

  /** Nothing in the world refers to array `a`. */
  predicate Secret(held: Held, w: World, a: nat): (r: bool)
    ensures r ==> a < |w.arrays|
  {
    && a < |w.arrays| && !held(w.rest, a)
    && (forall i :: 0 <= i < |w.arrays| ==> NoneMention(w.arrays[i], a))
    && (forall i :: 0 <= i < |w.iterators| ==> !SourceMentions(w.iterators[i], a))
  }

  /** User code that left `w'` neither changed array `a` nor made anything refer to it. */
  predicate Guarded(held: Held, w: World, w': World, a: nat)
    requires a < |w.arrays|
  {
    Secret(held, After(w, w'), a) && After(w, w').arrays[a] == w.arrays[a]
  }

  predicate GuardedCall(held: Held, w: World, o: Outcome, a: nat)
    requires a < |w.arrays|
  {
    Guarded(held, w, o.w, a) && !o.v.Mentions(a)
  }

  /** User code has no way to an array that its arguments and the world do not refer to. */
  ghost predicate Discreet(h: Host, held: Held)
  {
    && (forall k, locals, w, a: nat :: Secret(held, w, a) && NoneMention(locals, a) ==>
          GuardedCall(held, w, h.perform(k, locals, w), a) && NoneMention(h.assign(k, locals, w), a))
    && (forall obj: Value, key: Key, w: World,
        a: nat :: Secret(held, w, a) && !obj.Mentions(a) && !KeyMentions(key, a) ==>
          GuardedCall(held, w, h.load(obj, key, w), a))
    && (forall obj: Value, key: Key, v: Value, w: World, a: nat ::
          Secret(held, w, a) && !obj.Mentions(a) && !KeyMentions(key, a) && !v.Mentions(a) ==>
            GuardedCall(held, w, h.store(obj, key, v, w), a))
    && (forall v: Value, w: World,
        a: nat :: Secret(held, w, a) && !v.Mentions(a) ==> GuardedOpening(held, w, h.iterate(v, w), a))
    && (forall it, w, a: nat :: Secret(held, w, a) ==> GuardedCall(held, w, h.finish(it, w), a))
  }

  predicate GuardedOpening(held: Held, w: World, o: Opening, a: nat)
    requires a < |w.arrays|
  {
    && Guarded(held, w, o.w, a)
    && if o.Opens? then !SourceMentions(o.source, a) else !o.error.Mentions(a)
  }

  /** Neither the world nor a local variable refers to array `a`. */
  predicate Hidden(held: Held, st: Store, a: nat): (r: bool)
    ensures r ==> a < |st.world.arrays|
  {
    Secret(held, st.world, a) && NoneMention(st.locals, a)
  }

  /** Array `a` is as it was, and still hidden. */
  predicate Kept(held: Held, st: Store, st': Store, a: nat)
    requires a < |st.world.arrays|
  {
    Hidden(held, st', a) && st'.world.arrays[a] == st.world.arrays[a]
  }

  predicate RefMentions(ref: Reference, a: nat)
  {
    ref.ToProperty? && (ref.obj.Mentions(a) || KeyMentions(ref.key, a))
  }

  ghost predicate ResultKept(held: Held, st: Store, r: EvalResult, a: nat)
    requires a < |st.world.arrays|
  {
    Kept(held, st, r.st, a) && !(if r.Returned? then r.v else r.error).Mentions(a)
  }

  ghost predicate CompletionKept(held: Held, st: Store, c: Completion, a: nat)
    requires a < |st.world.arrays|
  {
    Kept(held, st, c.st, a) && (c.Failed? ==> !c.error.Mentions(a))
  }

  ghost predicate ReferenceKept(held: Held, st: Store, r: RefResult, a: nat)
    requires a < |st.world.arrays|
  {
    Kept(held, st, r.st, a) && if r.Resolved? then !RefMentions(r.ref, a) else !r.error.Mentions(a)
  }

  ghost predicate ElementKept(held: Held, st: Store, r: ElementResult, a: nat)
    requires a < |st.world.arrays|
  {
    Kept(held, st, r.st, a) && (r.NotBound? ==> !r.error.Mentions(a))
  }

  lemma {:induction false} PrimitiveMentions(v: Value, a: nat)
    requires v.Primitive()
    ensures !v.Mentions(a)
  {}

  // ----- Small steps -----

  lemma {:induction false} OverlayHides(locals: seq<Value>, changed: seq<Value>, a: nat)
    requires NoneMention(locals, a) && NoneMention(changed, a)
    ensures NoneMention(Overlay(locals, changed), a)
  {}

  /** A step yields or throws something that does not refer to a hidden array. */
  lemma {:induction false} StepHides(held: Held, st: Store, it: nat, a: nat)
    requires Hidden(held, st, a)
    ensures var step := StepIterator(st, it);
            && step.st.world.arrays == st.world.arrays && Hidden(held, step.st, a)
            && !(if step.Step? then step.v else step.error).Mentions(a)
  {
    hide Deregister;
    var source := Pending(st.world, it);
    assert !SourceMentions(source, a);
    var w := Stepping(st.world, it);
    forall i | 0 <= i < |w.iterators|
      ensures !SourceMentions(w.iterators[i], a)
    {
      assert !SourceMentions(st.world.iterators[i], a);
    }
  }

  lemma {:induction false} PushHides(held: Held, st: Store, arr: nat, v: Value, a: nat)
    requires Hidden(held, st, a) && !v.Mentions(a)
    ensures Hidden(held, st.(world := Pushed(st.world, arr, v)), a)
  {
    if arr < |st.world.arrays| {
      assert NoneMention(st.world.arrays[arr], a);
      assert NoneMention(st.world.arrays[arr] + [v], a);
    }
  }

  lemma {:induction false} OpenHides(held: Held, w: World, source: Source, a: nat)
    requires Secret(held, w, a) && !SourceMentions(source, a)
    ensures Secret(held, Opened(w, source), a)
  {
    hide SourceMentions, NoneMention;
  }

  lemma {:induction false} AllocateHides(held: Held, w: World, a: nat)
    requires Secret(held, w, a)
    ensures Secret(held, Allocated(w), a) && Allocated(w).arrays[a] == w.arrays[a]
  {
    hide SourceMentions;
  }

  /** Draining into another array keeps a hidden array; draining into the hidden array keeps it hidden. */
  lemma {:induction false} DrainHides(held: Held, st: Store, it: nat, arr: nat, a: nat)
    requires Hidden(held, st, a)
    ensures var r := Drain(st, it, arr);
            && Hidden(held, r.st, a) && (r.Failed? ==> !r.error.Mentions(a))
            && (arr != a ==> r.st.world.arrays[a] == st.world.arrays[a])
    decreases |Pending(st.world, it).values|
  {
    hide Hidden, Deregister;
    StepHides(held, st, it, a);
    var step := StepIterator(st, it);
    if step.Step? && !step.done {
      PushHides(held, step.st, arr, step.v, a);
      DrainHides(held, step.st.(world := Pushed(step.st.world, arr, step.v)), it, arr, a);
    }
  }

  // ----- Every construct -----

  lemma {:induction false} EvalHides(h: Host, held: Held, e: Expr, st: Store, a: nat)
    requires Discreet(h, held) && Hidden(held, st, a) && Scoped(e, h.base)
    ensures ResultKept(held, st, Eval(h, e, st), a)
    decreases e, 1
  {
    hide Secret, Discreet, Resolve, Destructure, EvalArgs, EvalRhs, GetReference, Assigns, After, Overlay;
    hide ScopedPattern, ScopedTarget, ScopedArgument;
    match e
    case Literal(v) => PrimitiveMentions(v, a);
    case ReadLocal(local) => GetHides(h, held, ToLocal(local), st, a);
    case Opaque(k) => PerformHides(h, held, k, st, a);
    case LogicalAssign(_, target, _) =>
      ResolveHides(h, held, target, st, a);
      var r := Resolve(h, target, st);
      if r.Resolved? {
        GetHides(h, held, r.ref, r.st, a);
        var current := GetReference(h, r.ref, r.st);
        if current.Returned? {
          RhsHides(h, held, e, r.ref, current.st, a);
        }
      }
    case ArrayAssign(pattern, source) =>
      EvalHides(h, held, source, st, a);
      var r := Eval(h, source, st);
      if r.Returned? {
        DestructureHides(h, held, pattern, r.v, r.st, a);
      }
    case ArgumentArray(args) =>
      AllocateHides(held, st.world, a);
      ArgsHide(h, held, args, |st.world.arrays|, st.(world := Allocated(st.world)), a);
  }

  lemma {:induction false} PerformHides(h: Host, held: Held, k: nat, st: Store, a: nat)
    requires Discreet(h, held) && Hidden(held, st, a)
    ensures ResultKept(held, st, Eval(h, Opaque(k), st), a)
  {
    hide Secret, After;
    OverlayHides(st.locals, h.assign(k, st.locals, st.world), a);
    assert GuardedCall(held, st.world, h.perform(k, st.locals, st.world), a);
  }

  lemma {:induction false} GetHides(h: Host, held: Held, ref: Reference, st: Store, a: nat)
    requires Discreet(h, held) && Hidden(held, st, a) && !RefMentions(ref, a)
    ensures ResultKept(held, st, GetReference(h, ref, st), a)
  {
    hide Secret, After;
    if ref.ToProperty? {
      assert GuardedCall(held, st.world, h.load(ref.obj, ref.key, st.world), a);
    }
  }

  lemma {:induction false} RhsHides(h: Host, held: Held, e: Expr, ref: Reference, st: Store, a: nat)
    requires e.LogicalAssign? && Scoped(e, h.base)
    requires Discreet(h, held) && Hidden(held, st, a) && !RefMentions(ref, a)
    ensures ResultKept(held, st, EvalRhs(h, e, ref, st), a)
    decreases e, 0
  {
    hide Secret, Discreet, Eval, Put, ScopedTarget;
    EvalHides(h, held, e.rhs, st, a);
    var r := Eval(h, e.rhs, st);
    if r.Returned? {
      PutHides(h, held, e.target, ref, r.v, r.st, a);
    }
  }

  lemma {:induction false} ArgHides(h: Host, held: Held, x: Argument, arr: nat, st: Store, a: nat)
    requires Discreet(h, held) && Hidden(held, st, a) && ScopedArgument(x, h.base) && arr != a
    ensures CompletionKept(held, st, EvalArg(h, x, arr, st), a)
    decreases x, 0
  {
    hide Secret, Discreet, Eval, Drain, Pushed, After, Scoped;
    EvalHides(h, held, x.e, st, a);
    var r := Eval(h, x.e, st);
    if r.Returned? {
      if x.Plain? {
        PushHides(held, r.st, arr, r.v, a);
        PushElsewhere(r.st.world, arr, r.v, a);
      } else {
        IterateHides(h, held, r.v, r.st, a);
        var o := h.iterate(r.v, r.st.world);
        var w := After(r.st.world, o.w);
        if o.Opens? {
          OpenHides(held, w, o.source, a);
          DrainHides(held, r.st.(world := Opened(w, o.source)), |w.iterators|, arr, a);
        }
      }
    }
  }

  lemma {:induction false} PushElsewhere(w: World, arr: nat, v: Value, a: nat)
    requires arr != a && a < |w.arrays|
    ensures a < |Pushed(w, arr, v).arrays| && Pushed(w, arr, v).arrays[a] == w.arrays[a]
  {}

  lemma {:induction false} IterateHides(h: Host, held: Held, v: Value, st: Store, a: nat)
    requires Discreet(h, held) && Hidden(held, st, a) && !v.Mentions(a)
    ensures var o := h.iterate(v, st.world);
            && Kept(held, st, st.(world := After(st.world, o.w)), a)
            && if o.Opens? then !SourceMentions(o.source, a) else !o.error.Mentions(a)
  {
    hide Secret, After;
    assert GuardedOpening(held, st.world, h.iterate(v, st.world), a);
  }

  lemma {:induction false} ArgsHide(h: Host, held: Held, args: seq<Argument>, arr: nat, st: Store, a: nat)
    requires Discreet(h, held) && Hidden(held, st, a) && arr != a
    requires forall x :: x in args ==> ScopedArgument(x, h.base)
    ensures CompletionKept(held, st, EvalArgs(h, args, arr, st), a)
    decreases args, 0
  {
    hide Secret, Discreet, EvalArg, ScopedArgument;
    if args != [] {
      ArgHides(h, held, args[0], arr, st, a);
      var r := EvalArg(h, args[0], arr, st);
      if r.Done? {
        ArgsHide(h, held, args[1..], arr, r.st, a);
      }
    }
  }

  lemma {:induction false} ResolveHides(h: Host, held: Held, t: Target, st: Store, a: nat)
    requires Discreet(h, held) && Hidden(held, st, a) && ScopedTarget(t, h.base)
    ensures ReferenceKept(held, st, Resolve(h, t, st), a)
    decreases t, 0
  {
    hide Secret, Discreet, Eval, Scoped, ScopedPattern;
    if t.StaticMember? {
      EvalHides(h, held, t.obj, st, a);
    } else if t.ComputedMember? {
      EvalHides(h, held, t.obj, st, a);
      var r := Eval(h, t.obj, st);
      if r.Returned? {
        EvalHides(h, held, t.key, r.st, a);
      }
    }
  }

  lemma {:induction false} PutHides(h: Host, held: Held, t: Target, ref: Reference, v: Value, st: Store, a: nat)
    requires Discreet(h, held) && Hidden(held, st, a) && ScopedTarget(t, h.base)
    requires !RefMentions(ref, a) && !v.Mentions(a)
    ensures CompletionKept(held, st, Put(h, t, ref, v, st), a)
    decreases t, 1
  {
    hide Secret, Destructure, After, ScopedPattern;
    if ref.ToProperty? {
      assert GuardedCall(held, st.world, h.store(ref.obj, ref.key, v, st.world), a);
    } else if ref.ToPattern? && t.ArrayTarget? {
      DestructureHides(h, held, t.pattern, v, st, a);
    }
  }

  lemma {:induction false} BindingHides(h: Host, held: Held, e: Element, ref: Reference, v: Value, st: Store, a: nat)
    requires e.Item? && ScopedElement(e, h.base)
    requires Discreet(h, held) && Hidden(held, st, a) && !RefMentions(ref, a) && !v.Mentions(a)
    ensures CompletionKept(held, st, EvalBinding(h, e, ref, v, st), a)
    decreases e, 0
  {
    hide Secret, Discreet, Eval, Put, ScopedTarget, Scoped;
    if e.init.Some? && v == Undefined {
      EvalHides(h, held, e.init.value, st, a);
    }
    var r := EvalDefault(h, v, e.init, st);
    if r.Returned? {
      PutHides(h, held, e.target, ref, r.v, r.st, a);
    }
  }

  lemma {:induction false} ElementHides(h: Host, held: Held, e: Element, it: nat, st: Store, a: nat)
    requires Discreet(h, held) && Hidden(held, st, a) && ScopedElement(e, h.base)
    ensures ElementKept(held, st, EvalElement(h, e, it, st), a)
    decreases e, 1
  {
    hide Secret, Discreet, Resolve, EvalBinding, StepIterator, ScopedTarget, Scoped;
    if e.Elision? {
      StepHides(held, st, it, a);
    } else {
      ResolveHides(h, held, e.target, st, a);
      var r := Resolve(h, e.target, st);
      if r.Resolved? {
        StepHides(held, r.st, it, a);
        var step := StepIterator(r.st, it);
        if step.Step? {
          BindingHides(h, held, e, r.ref, step.v, step.st, a);
        }
      }
    }
  }

  lemma {:induction false} ElementsHide(h: Host, held: Held, es: seq<Element>, it: nat, st: Store, last: bool, a: nat)
    requires Discreet(h, held) && Hidden(held, st, a)
    requires forall e :: e in es ==> ScopedElement(e, h.base)
    ensures ElementKept(held, st, EvalElements(h, es, it, st, last), a)
    decreases es, 0
  {
    hide Secret, Discreet, EvalElement, ScopedElement;
    if es != [] {
      ElementHides(h, held, es[0], it, st, a);
      var r := EvalElement(h, es[0], it, st);
      if r.Bound? {
        ElementsHide(h, held, es[1..], it, r.st, r.done, a);
      }
    }
  }

  lemma {:induction false} RestHides(h: Host, held: Held, t: Target, it: nat, st: Store, a: nat)
    requires Discreet(h, held) && Hidden(held, st, a) && ScopedTarget(t, h.base)
    ensures CompletionKept(held, st, EvalRest(h, t, it, st), a)
    decreases t, 2
  {
    hide Secret, Discreet, Resolve, Drain, Put, Deregister, ScopedTarget;
    ResolveHides(h, held, t, st, a);
    var r := Resolve(h, t, st);
    if r.Resolved? {
      var arr, st1 := |r.st.world.arrays|, r.st.(world := Allocated(r.st.world));
      AllocateHides(held, r.st.world, a);
      DrainHides(held, st1, it, arr, a);
      var drained := Drain(st1, it, arr);
      if drained.Done? {
        PutHides(h, held, t, r.ref, ArrayRef(arr), drained.st, a);
      }
    }
  }

  lemma {:induction false} BodyHides(h: Host, held: Held, p: Pattern, it: nat, st: Store, a: nat)
    requires Discreet(h, held) && Hidden(held, st, a) && ScopedPattern(p, h.base)
    ensures CompletionKept(held, st, EvalBody(h, p, it, st), a)
    decreases p, 0
  {
    hide Secret, EvalElements, EvalRest, Deregister, ScopedElement, ScopedTarget, After;
    ElementsHide(h, held, p.elements, it, st, false, a);
    var r := EvalElements(h, p.elements, it, st, false);
    if r.Bound? {
      if p.rest.Some? {
        RestHides(h, held, p.rest.value, it, r.st, a);
      } else {
        assert GuardedCall(held, r.st.world, h.finish(it, r.st.world), a);
      }
    }
  }

  lemma {:induction false} DestructureHides(h: Host, held: Held, p: Pattern, v: Value, st: Store, a: nat)
    requires Discreet(h, held) && Hidden(held, st, a) && ScopedPattern(p, h.base) && !v.Mentions(a)
    ensures CompletionKept(held, st, Destructure(h, p, v, st), a)
    decreases p, 1
  {
    hide Secret, Discreet, EvalBody, After, ScopedPattern;
    assert !DESTRUCTURE_MESSAGE.Mentions(a);
    if !v.Nullish() {
      IterateHides(h, held, v, st, a);
      var o := h.iterate(v, st.world);
      var st1 := st.(world := After(st.world, o.w));
      if o.Opens? {
        OpenHides(held, st1.world, o.source, a);
        BodyHides(h, held, p, |st1.world.iterators|, OpenPattern(st1, o.source), a);
      }
    }
  }

  // ----- What is admitted -----

  /** User code that pushes onto whatever array its first variable holds. */
  function PushingHost(base: nat): (h: Host)
  {
    Host(base,
         (k: nat, locals: seq<Value>, w: World) =>
           Normal(Undefined, if |locals| > 0 && locals[0].ArrayRef? then Pushed(w, locals[0].slot, Undefined) else w),
         (k: nat, locals: seq<Value>, w: World) => locals,
         (obj: Value, key: Key, w: World) => Normal(obj, w),
         (obj: Value, key: Key, v: Value, w: World) => Normal(v, w),
         (v: Value, w: World) => Refuses(v, w),
         (it: nat, w: World) => Normal(Undefined, w),
         Undefined)
  }

  lemma {:induction false} AfterSame(w: World)
    ensures After(w, w) == w
  {
    assert w.iterators + [] == w.iterators && w.arrays + [] == w.arrays;
  }

  /** Discretion does not forbid user code to change the arrays it holds. */
  lemma {:induction false} PushingIsDiscreet(base: nat)
    ensures Discreet(PushingHost(base), (_, _) => false)
  {
    hide Secret, After, Pushed;
    var h, held: Held := PushingHost(base), (_, _) => false;
    forall k: nat, locals: seq<Value>, w: World, a: nat | Secret(held, w, a) && NoneMention(locals, a)
      ensures GuardedCall(held, w, h.perform(k, locals, w), a)
    {
      AfterSame(w);
      if |locals| > 0 && locals[0].ArrayRef? {
        var slot := locals[0].slot;
        var w' := Pushed(w, slot, Undefined);
        assert !locals[0].Mentions(a);
        PushElsewhere(w, slot, Undefined, a);
        PushHides(held, Store([], w, [], []), slot, Undefined, a);
        PushedAfter(w, slot);
      }
    }
    forall w: World
      ensures After(w, w) == w
    {
      AfterSame(w);
    }
  }

  lemma {:induction false} PushedAfter(w: World, slot: nat)
    ensures After(w, Pushed(w, slot, Undefined)) == Pushed(w, slot, Undefined)
  {
    var w' := Pushed(w, slot, Undefined);
    assert w.iterators + [] == w'.iterators && w'.arrays + [] == w'.arrays;
  }
}
