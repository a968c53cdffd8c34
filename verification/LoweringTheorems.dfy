/**
  * What programs get from the lowered code: array patterns bind by position and settle their iterator, spread arguments
  * concatenate, logical assignment evaluates each part at most once.
  */
module LoweringTheorems {
  import opened Prelude
  import opened Machine
  import opened Lowering
  import opened LoweringProof
  import opened LoweringFrames
  import Privacy = LoweringPrivacy

  // ----- Array patterns over a list of values -----

  /** What a pattern does besides stepping and closing: set a variable, set a property, or destructure with an iterator
      over a source. */
  datatype Act =
    | Sets(x: Reg, v: Value)
    | Puts(obj: Value, key: Key, v: Value)
    | Iterates(it: nat, pattern: Pattern, source: Source)

  datatype Trace = Trace(result: Completion, acts: seq<Act>)

  /** What a target takes: one value, with a default for `undefined`, or everything left. */
  datatype Want = OneValue(init: Option<Expr>) | TheRest

  /** Take from position `k`: the value there or its default, or a new array of exactly the values from there on, unless
      the iterator throws on the way. */
  function Taken(h: Host, want: Want, it: nat, source: Source, k: nat, closers: seq<nat>, st: Store): (r: EvalResult)
  {
    if it >= |st.world.iterators| then Returned(Undefined, st)
    else if want.TheRest? then
      var st1 := CollectedFrom(st, it, source, k, closers);
      if k <= |source.values| && source.ending.Some? then Threw(source.ending.value, st1)
      else Returned(ArrayRef(|st.world.arrays|), st1)
    else
      var st1 := Advanced(st, it, source, k + 1, closers);
      if ThrowsAt(source, k) then Threw(source.ending.value, st1)
      else if ItemAt(source.values, k) == Undefined && want.init.Some? then Eval(h, want.init.value, st1)
      else Returned(ItemAt(source.values, k), st1)
  }

  /** Variables after `x` is set. */
  function Updated(locals: seq<Value>, x: Reg, v: Value): (r: seq<Value>)
    ensures |r| == |locals|
  {
    seq(|locals|, i requires 0 <= i < |locals| => if i == x then v else locals[i])
  }

  /** Give `v` to a target: set the variable, store the property, or destructure `v` with the nested pattern. */
  function ListAssign(h: Host, t: Target, ref: Reference, v: Value, st: Store): (r: Trace)
    decreases t, 0
  {
    match ref
    case ToLocal(x) => Trace(Done(st.(locals := Updated(st.locals, x, v))), [Sets(x, v)])
    case ToProperty(obj, key) =>
      var o := h.store(obj, key, v, st.world);
      var st1 := st.(world := After(st.world, o.w), log := st.log + [Stored(obj, key, v)]);
      Trace(if o.Normal? then Done(st1) else Failed(o.v, st1), [Puts(obj, key, v)])
    case ToPattern => if t.ArrayTarget? then ListDestructure(h, t.pattern, v, st) else Trace(Done(st), [])
  }

  /** A target of a pattern: its reference is evaluated, then it takes from position `k` and gets what it took. */
  function ListTarget(h: Host, t: Target, want: Want, it: nat, source: Source, k: nat, closers: seq<nat>, st: Store)
    : (r: Trace)
    decreases t, 1
  {
    match Resolve(h, t, st)
    case RefFailed(error, st1) => Trace(Failed(error, st1), [])
    case Resolved(ref, st1) =>
      match Taken(h, want, it, source, k, closers, st1)
      case Threw(error, st2) => Trace(Failed(error, st2), [])
      case Returned(v, st2) => ListAssign(h, t, ref, v, st2)
  }

  function ListElement(h: Host, e: Element, it: nat, source: Source, k: nat, closers: seq<nat>, st: Store): (r: Trace)
    decreases e, 0
  {
    match e
    case Elision =>
      (match Taken(h, OneValue(None), it, source, k, closers, st)
       case Threw(error, st1) => Trace(Failed(error, st1), [])
       case Returned(_, st1) => Trace(Done(st1), []))
    case Item(target, init) => ListTarget(h, target, OneValue(init), it, source, k, closers, st)
  }

  function ListElements(h: Host, es: seq<Element>, it: nat, source: Source, k: nat, closers: seq<nat>, st: Store)
    : (r: Trace)
    decreases es, 0
  {
    if es == [] then Trace(Done(st), [])
    else
      var first := ListElement(h, es[0], it, source, k, closers, st);
      match first.result
      case Failed(_, _) => first
      case Done(st1) =>
        var others := ListElements(h, es[1..], it, source, k + 1, closers, st1);
        Trace(others.result, first.acts + others.acts)
  }

  /** Destructure a list of values by position. The iterator is closed exactly when the pattern has no rest element and
      asked for no more values than there are; it is off the list of registrations when its `return` runs. */
  function ListPattern(h: Host, p: Pattern, it: nat, source: Source, closers: seq<nat>, st: Store): (r: Trace)
    decreases p, 0
  {
    var elements := ListElements(h, p.elements, it, source, 0, closers, st);
    match elements.result
    case Failed(_, _) => elements
    case Done(st1) =>
      if p.rest.Some? then
        var rest := ListTarget(h, p.rest.value, TheRest, it, source, |p.elements|, closers, st1);
        Trace(rest.result, elements.acts + rest.acts)
      else if |p.elements| > |source.values| then elements
      else
        var o := h.finish(it, st1.world);
        var st2 := st1.(world := After(st1.world, o.w), closers := closers, log := st1.log + [Closed(it)]);
        Trace(if o.Normal? then Done(st2) else Failed(o.v, st2), elements.acts)
  }

  /** Destructure a value: `undefined` and `null` throw, and so may opening the iterator; otherwise the values of its
      source are destructured by position. */
  function ListDestructure(h: Host, p: Pattern, v: Value, st: Store): (r: Trace)
    decreases p, 1
  {
    if v in {Undefined, Null} then Trace(Failed(ErrorObject(TYPE_ERROR, DESTRUCTURE_MESSAGE), st), [])
    else
      match h.iterate(v, st.world)
      case Refuses(error, w) => Trace(Failed(error, st.(world := After(st.world, w))), [])
      case Opens(source, w) =>
        var w0 := After(st.world, w);
        var it := |w0.iterators|;
        var st0 := st.(world := w0.(iterators := w0.iterators + [source]), closers := st.closers + [it]);
        var body := ListPattern(h, p, it, source, st.closers, st0);
        Trace(body.result, [Iterates(it, p, source)] + body.acts)
  }

  lemma {:induction false} TakeOne(h: Host, init: Option<Expr>, it: nat, st: Store, source: Source, k: nat,
                                   closers: seq<nat>)
    requires At(st, it, source, k, closers)
    ensures var r := Taken(h, OneValue(init), it, source, k, closers, st);
            match StepIterator(st, it)
            case StepThrew(error, st') => r == Threw(error, st')
            case Step(v, done, st') => r == EvalDefault(h, v, init, st') && done == (k >= |source.values|)
  {
    hide Advanced, StepIterator, Eval;
    StepIsAdvance(st, it, source, k, closers);
  }

  lemma {:induction false} TakeRest(h: Host, it: nat, st: Store, source: Source, k: nat, closers: seq<nat>)
    requires At(st, it, source, k, closers)
    ensures var arr := |st.world.arrays|;
            var r := Taken(h, TheRest, it, source, k, closers, st);
            match Drain(st.(world := Allocated(st.world)), it, arr)
            case Failed(error, st') => r == Threw(error, st')
            case Done(st') => r == Returned(ArrayRef(arr), st')
  {
    hide CollectedFrom, Drain, Eval, Count;
    CollectIs(st, it, source, k, closers);
  }

  lemma {:induction false} AssignByPosition(h: Host, t: Target, ref: Reference, v: Value, st: Store)
    requires Tidy(st)
    ensures Put(h, t, ref, v, st) == ListAssign(h, t, ref, v, st).result
    decreases t, 0
  {
    hide Destructure, ListDestructure, Tidy, After;
    if ref.ToLocal? {
      var x := ref.local;
      assert (if x < |st.locals| then st.locals[x := v] else st.locals) == Updated(st.locals, x, v);
    } else if ref.ToPattern? && t.ArrayTarget? {
      DestructureByPosition(h, t.pattern, v, st);
    }
  }

  lemma {:induction false} BindingByPosition(h: Host, e: Element, ref: Reference, v: Value, st: Store)
    requires e.Item? && Tidy(st)
    ensures var r := EvalDefault(h, v, e.init, st);
            EvalBinding(h, e, ref, v, st)
            == if r.Threw? then Failed(r.error, r.st) else ListAssign(h, e.target, ref, r.v, r.st).result
    decreases e, 0
  {
    hide EvalDefault, Put, ListAssign, Tidy, Frame, Broken;
    DefaultFrame(h, v, e.init, st, |st.world.iterators|);
    var r := EvalDefault(h, v, e.init, st);
    if r.Returned? {
      AssignByPosition(h, e.target, ref, r.v, r.st);
    }
  }

  lemma {:induction false} ElementByPosition(h: Host, e: Element, it: nat, st: Store, source: Source, k: nat,
                                             closers: seq<nat>)
    requires At(st, it, source, k, closers) && Sound(st, it)
    ensures var r := ListElement(h, e, it, source, k, closers, st).result;
            match EvalElement(h, e, it, st)
            case Bound(_, st') => r == Done(st')
            case NotBound(error, st') => r == Failed(error, st')
    decreases e, 1
  {
    hide Sound, Frame, Settled, Broken, Resolve, EvalBinding, EvalDefault, StepIterator, Taken, ListAssign, At, Tidy;
    if e.Elision? {
      TakeOne(h, None, it, st, source, k, closers);
      NoDefault(h, StepIterator(st, it));
    } else {
      SoundAt(st, it, source, k, closers, it);
      ResolveFrame(h, e.target, st, it + 1);
      var r := Resolve(h, e.target, st);
      AtKept(st, r.st, it, source, k, closers, it);
      if r.Resolved? {
        TakeOne(h, e.init, it, r.st, source, k, closers);
        StepAt(r.st, it, source, k, closers, it);
        var step := StepIterator(r.st, it);
        if step.Step? {
          SoundTidy(step.st, it);
          BindingByPosition(h, e, r.ref, step.v, step.st);
        }
      }
    }
  }

  lemma {:induction false} NoDefault(h: Host, step: StepResult)
    ensures step.Step? ==> EvalDefault(h, step.v, None, step.st) == Returned(step.v, step.st)
  {}

  lemma {:induction false} SoundTidy(st: Store, n: nat)
    requires Sound(st, n)
    ensures Tidy(st)
  {}

  lemma {:induction false} ElementsByPosition(h: Host, es: seq<Element>, it: nat, st: Store, source: Source, k: nat,
                                              closers: seq<nat>)
    requires At(st, it, source, k, closers) && Sound(st, it)
    ensures var r := ListElements(h, es, it, source, k, closers, st).result;
            match EvalElements(h, es, it, st, k > |source.values|)
            case Bound(_, st') => r == Done(st')
            case NotBound(error, st') => r == Failed(error, st')
    decreases es, 0
  {
    hide Sound, Frame, EvalElement, ListElement, At, Interrupted;
    if es != [] {
      ElementByPosition(h, es[0], it, st, source, k, closers);
      ElementFrame(h, es[0], it, st, source, k, closers, it);
      var r := EvalElement(h, es[0], it, st);
      if r.Bound? {
        ElementsByPosition(h, es[1..], it, r.st, source, k + 1, closers);
      }
    }
  }

  lemma {:induction false} RestByPosition(h: Host, t: Target, it: nat, st: Store, source: Source, k: nat,
                                          closers: seq<nat>)
    requires At(st, it, source, k, closers) && Sound(st, it)
    ensures EvalRest(h, t, it, st) == ListTarget(h, t, TheRest, it, source, k, closers, st).result
    decreases t, 2
  {
    hide Sound, Tidy, Frame, Settled, Broken, Resolve, Put, Drain, Count, Deregister, Extends, Taken, ListAssign;
    SoundAt(st, it, source, k, closers, it);
    ResolveFrame(h, t, st, it + 1);
    var r := Resolve(h, t, st);
    AtKept(st, r.st, it, source, k, closers, it);
    if r.Resolved? {
      var arr, k' := |r.st.world.arrays|, k + |Remaining(source.values, k)| + 1;
      TakeRest(h, it, r.st, source, k, closers);
      CollectAt(r.st, it, source, k, closers, it);
      var drained := Drain(r.st.(world := Allocated(r.st.world)), it, arr);
      if drained.Done? {
        SoundAt(drained.st, it, source, k', closers, it);
        SoundTidy(drained.st, it);
        AssignByPosition(h, t, r.ref, ArrayRef(arr), drained.st);
        PutFrame(h, t, r.ref, ArrayRef(arr), drained.st, it + 1);
        AtKept(drained.st, Put(h, t, r.ref, ArrayRef(arr), drained.st).st, it, source, k', closers, it);
        DeregisterAbsent(closers, it);
      }
    }
  }

  lemma {:induction false} BodyByPosition(h: Host, p: Pattern, it: nat, source: Source, closers: seq<nat>, st: Store)
    requires At(st, it, source, 0, closers) && Sound(st, it)
    ensures EvalBody(h, p, it, st) == ListPattern(h, p, it, source, closers, st).result
    decreases p, 0
  {
    hide Sound, Frame, EvalElements, EvalRest, ListElements, ListTarget, Interrupted, After, Count, SourceAfter;
    ElementsByPosition(h, p.elements, it, st, source, 0, closers);
    ElementsFrame(h, p.elements, it, st, source, 0, closers, it);
    var r := EvalElements(h, p.elements, it, st, false);
    if r.Bound? {
      if p.rest.Some? {
        RestByPosition(h, p.rest.value, it, r.st, source, |p.elements|, closers);
      } else {
        DeregisterAbsent(closers, it);
        DeregisterLast(closers, it);
      }
    }
  }

  /** Destructuring any value is destructuring the list of its values by position, in nested patterns too: nothing else
      happens to variables, world, registrations and log, and it throws exactly where one of those parts does. */
  lemma {:induction false} DestructureByPosition(h: Host, p: Pattern, v: Value, st: Store)
    requires Tidy(st)
    ensures Destructure(h, p, v, st) == ListDestructure(h, p, v, st).result
    decreases p, 1
  {
    hide Sound, Frame, EvalBody, ListPattern, After, Count, At;
    var o, n := h.iterate(v, st.world), |st.world.iterators|;
    if !v.Nullish() && o.Opens? {
      var st0 := st.(world := After(st.world, o.w));
      SoundHere(st, n);
      AfterFrame(st, st.locals, o.w, n);
      SoundHere(st0, n);
      OpenAt(st0, o.source, |st0.world.iterators|);
      BodyByPosition(h, p, |st0.world.iterators|, o.source, st.closers, OpenPattern(st0, o.source));
    }
  }

  /** Destructuring an iterable is destructuring the list of its values by position: target i gets the i-th value or
      `undefined`, the rest target gets exactly the remaining suffix, an iterator that throws does so at its position,
      the iterator is closed once exactly when it was not exhausted, and its registration is gone. */
  lemma {:induction false} PatternByPosition(h: Host, p: Pattern, v: Value, st: Store)
    requires !v.Nullish() && h.iterate(v, st.world).Opens? && Sound(st, |st.world.iterators|)
    ensures var o := h.iterate(v, st.world);
            var st0 := st.(world := After(st.world, o.w));
            Destructure(h, p, v, st)
            == ListPattern(h, p, |st0.world.iterators|, o.source, st.closers, OpenPattern(st0, o.source)).result
  {
    hide Sound, Frame, EvalBody, ListPattern, After, Count, At;
    SoundTidy(st, |st.world.iterators|);
    DestructureByPosition(h, p, v, st);
  }

  lemma {:induction false} SoundHere(st: Store, n: nat)
    requires Sound(st, n)
    ensures Sound(st, |st.world.iterators|)
  {}

  // ----- Patterns of variables -----

  predicate Writes(e: Element, x: Reg)
  {
    e.Item? && e.target == Variable(x)
  }

  /** Skips a value, or binds a variable below `bound` with at most a literal default. */
  predicate Simple(e: Element, bound: nat)
  {
    e.Item? ==> e.target.Variable? && e.target.local < bound && (e.init.Some? ==> e.init.value.Literal?)
  }

  /** What position `k` binds. */
  function BoundValue(e: Element, values: seq<Value>, k: nat): (v: Value)
  {
    if ItemAt(values, k) == Undefined && e.Item? && e.init.Some? && e.init.value.Literal? then e.init.value.v
    else ItemAt(values, k)
  }

  /** No variable is the target of two elements. */
  ghost predicate Distinct(es: seq<Element>)
  {
    forall i, j, x: nat :: 0 <= i < j < |es| && Writes(es[i], x) ==> !Writes(es[j], x)
  }

  /** The variables after the elements `es`, started at position `k`. */
  ghost predicate Binds(es: seq<Element>, values: seq<Value>, k: nat, locals: seq<Value>, locals': seq<Value>)
  {
    && |locals'| == |locals|
    && (forall i, x: nat :: 0 <= i < |es| && x < |locals| && Writes(es[i], x) ==>
          locals'[x] == BoundValue(es[i], values, k + i))
    && (forall x: nat :: x < |locals| && (forall i :: 0 <= i < |es| ==> !Writes(es[i], x)) ==> locals'[x] == locals[x])
  }

  lemma {:induction false} BindsMore(es: seq<Element>, values: seq<Value>, k: nat, locals: seq<Value>, mid: seq<Value>,
                                     end: seq<Value>)
    requires es != [] && Distinct(es) && Simple(es[0], |locals|) && Binds(es[1..], values, k + 1, mid, end)
    requires mid == if es[0].Item? then locals[es[0].target.local := BoundValue(es[0], values, k)] else locals
    ensures Binds(es, values, k, locals, end)
  {
    hide BoundValue;
    var tail := es[1..];
    assert forall i :: 0 <= i < |tail| ==> tail[i] == es[i + 1];
    forall i, x: nat | 0 <= i < |es| && x < |locals| && Writes(es[i], x)
      ensures end[x] == BoundValue(es[i], values, k + i)
    {
      if i > 0 {
        assert Writes(tail[i - 1], x);
      }
    }
    forall x: nat | x < |locals| && (forall i :: 0 <= i < |es| ==> !Writes(es[i], x))
      ensures end[x] == locals[x]
    {
      assert !Writes(es[0], x);
    }
  }

  /** The world while only variables are bound: nothing but the iterator moves. */
  function Moved(w: World, it: nat, source: Source, k: nat): (w': World)
    requires it < |w.iterators|
  {
    w.(iterators := w.iterators[it := SourceAfter(source, k)])
  }

  /** Binding variables by position completes exactly unless the iterator throws on the way. */
  lemma {:induction false} VariablesByPosition(h: Host, es: seq<Element>, it: nat, source: Source, k: nat,
                                               closers: seq<nat>, st: Store)
    requires it < |st.world.iterators| && st.world.iterators[it] == SourceAfter(source, k) && Distinct(es)
    requires forall i :: 0 <= i < |es| ==> Simple(es[i], |st.locals|)
    ensures var r := ListElements(h, es, it, source, k, closers, st).result;
            if source.ending.Some? && k <= |source.values| < k + |es| then r == Failed(source.ending.value, r.st)
            else r.Done? && r.st.world == Moved(st.world, it, source, k + |es|)
                 && Binds(es, source.values, k, st.locals, r.st.locals)
    decreases |es|
  {
    hide ListElement, BoundValue, SourceAfter, Binds, Distinct;
    if es == [] {
      BindsNothing(source.values, k, st.locals);
      assert st.world.iterators[it := st.world.iterators[it]] == st.world.iterators;
    } else {
      var e, tail := es[0], es[1..];
      VariableElement(h, e, it, source, k, closers, st);
      if !ThrowsAt(source, k) {
        var r := ListElement(h, e, it, source, k, closers, st).result;
        DistinctTail(es);
        VariablesByPosition(h, tail, it, source, k + 1, closers, r.st);
        var end := ListElements(h, tail, it, source, k + 1, closers, r.st).result;
        if end.Done? {
          BindsMore(es, source.values, k, st.locals, r.st.locals, end.st.locals);
        }
      }
    }
  }

  lemma {:induction false} BindsNothing(values: seq<Value>, k: nat, locals: seq<Value>)
    ensures Binds([], values, k, locals, locals)
  {}

  lemma {:induction false} DistinctTail(es: seq<Element>)
    requires es != [] && Distinct(es)
    ensures Distinct(es[1..])
  {
    assert forall i :: 0 <= i < |es[1..]| ==> es[1..][i] == es[i + 1];
  }

  lemma {:induction false} VariableElement(h: Host, e: Element, it: nat, source: Source, k: nat, closers: seq<nat>,
                                           st: Store)
    requires it < |st.world.iterators| && Simple(e, |st.locals|)
    ensures var r := ListElement(h, e, it, source, k, closers, st).result;
            if ThrowsAt(source, k) then r == Failed(source.ending.value, r.st)
            else r.Done? && r.st.world == Moved(st.world, it, source, k + 1)
                 && r.st.locals == (if e.Item? then st.locals[e.target.local := BoundValue(e, source.values, k)]
                                    else st.locals)
  {
    hide SourceAfter;
    if e.Item? {
      var x, st1 := e.target.local, Advanced(st, it, source, k + 1, closers);
      VariableTarget(h, x, OneValue(e.init), it, source, k, closers, st);
      if !ThrowsAt(source, k) {
        var v := BoundValue(e, source.values, k);
        assert Taken(h, OneValue(e.init), it, source, k, closers, st) == Returned(v, st1);
        assert Updated(st.locals, x, v) == st.locals[x := v];
      }
    }
  }

  lemma {:induction false} VariableTarget(h: Host, x: Reg, want: Want, it: nat, source: Source, k: nat,
                                          closers: seq<nat>, st: Store)
    ensures var r := Taken(h, want, it, source, k, closers, st);
            ListTarget(h, Variable(x), want, it, source, k, closers, st)
            == if r.Threw? then Trace(Failed(r.error, r.st), [])
               else Trace(Done(r.st.(locals := Updated(r.st.locals, x, r.v))), [Sets(x, r.v)])
  {
    hide Taken;
    assert Resolve(h, Variable(x), st) == Resolved(ToLocal(x), st);
  }

  /** A pattern that asks for no more values than there are is closed; any other goes past the end. */
  predicate Completes(h: Host, p: Pattern, it: nat, source: Source, w: World)
    requires it < |w.iterators|
  {
    if p.rest.None? && |p.elements| <= |source.values|
    then h.finish(it, Moved(w, it, source, |p.elements|)).Normal?
    else source.ending.None?
  }

  /** Without a rest element, the world changes only by the iterator's moves and its `return`. */
  function WorldAtEnd(h: Host, p: Pattern, it: nat, source: Source, w: World): (w': World)
    requires it < |w.iterators|
  {
    var moved := Moved(w, it, source, |p.elements|);
    if |p.elements| <= |source.values| then After(moved, h.finish(it, moved).w) else moved
  }

  /** `[a, , b = lit, ...c] = v`: it completes exactly if neither `next` nor `return` throws. Then each variable holds
      the value at its position (its default where that is `undefined`), the rest variable a new array of the remaining
      values, every other variable is as before, and no iterator stays registered. */
  lemma {:induction false} VariablePattern(h: Host, p: Pattern, v: Value, st: Store)
    requires !v.Nullish() && h.iterate(v, st.world).Opens? && Sound(st, |st.world.iterators|)
    requires Distinct(p.elements) && (p.rest.Some? ==> p.rest.value.Variable? && p.rest.value.local < |st.locals|)
    requires forall i :: 0 <= i < |p.elements| ==> Simple(p.elements[i], |st.locals|)
    ensures var o, r := h.iterate(v, st.world), Destructure(h, p, v, st);
            var w := After(st.world, o.w);
            && (r.Done? <==> Completes(h, p, |w.iterators|, o.source, Opened(w, o.source)))
            && (r.Done? && p.rest.None? ==>
                  && r.st.closers == st.closers && Binds(p.elements, o.source.values, 0, st.locals, r.st.locals)
                  && r.st.world == WorldAtEnd(h, p, |w.iterators|, o.source, Opened(w, o.source)))
            && (r.Done? && p.rest.Some? ==>
                  && r.st.closers == st.closers
                  && r.st.world.arrays == w.arrays + [Remaining(o.source.values, |p.elements|)]
                  && exists mid :: Binds(p.elements, o.source.values, 0, st.locals, mid)
                                   && r.st.locals == mid[p.rest.value.local := ArrayRef(|w.arrays|)])
  {
    hide Sound, Frame, Destructure, ListElements, Binds, Broken, Distinct, Simple, After, SourceAfter, Count, Steps;
    var o := h.iterate(v, st.world);
    var st0 := st.(world := After(st.world, o.w));
    var it, st1 := |st0.world.iterators|, OpenPattern(st0, o.source);
    PatternByPosition(h, p, v, st);
    OpenSource(o.source);
    VariablesByPosition(h, p.elements, it, o.source, 0, st.closers, st1);
    DestructureFrame(h, p, v, st, |st.world.iterators|);
    var r := ListElements(h, p.elements, it, o.source, 0, st.closers, st1).result;
    if p.rest.Some? && r.Done? {
      BindsLength(p.elements, o.source.values, 0, st.locals, r.st.locals);
      var x, arr := p.rest.value.local, ArrayRef(|st0.world.arrays|);
      VariableTarget(h, x, TheRest, it, o.source, |p.elements|, st.closers, r.st);
      assert Updated(r.st.locals, x, arr) == r.st.locals[x := arr];
    }
  }

  lemma {:induction false} OpenSource(source: Source)
    ensures SourceAfter(source, 0) == source
  {}

  lemma {:induction false} BindsLength(es: seq<Element>, values: seq<Value>, k: nat, locals: seq<Value>,
                                       locals': seq<Value>)
    requires Binds(es, values, k, locals, locals')
    ensures |locals'| == |locals|
  {}

  // ----- Spread arguments -----

  /** The values one argument contributes, in the store it is evaluated in. */
  function Contributed(h: Host, a: Argument, st: Store): (values: seq<Value>)
  {
    match Eval(h, a.e, st)
    case Threw(_, _) => []
    case Returned(v, st1) =>
      if a.Plain? then [v] else if h.iterate(v, st1.world).Opens? then h.iterate(v, st1.world).source.values else []
  }

  /** The source-order concatenation of plain arguments and whole spreads. */
  function Collected(h: Host, args: seq<Argument>, arr: nat, st: Store): (values: seq<Value>)
  {
    if args == [] then []
    else
      Contributed(h, args[0], st)
      + match EvalArg(h, args[0], arr, st)
        case Failed(_, _) => []
        case Done(st1) => Collected(h, args[1..], arr, st1)
  }

  lemma {:induction false} ArgCollects(h: Host, held: Privacy.Held, a: Argument, arr: nat, st: Store)
    requires Privacy.Discreet(h, held) && Privacy.Hidden(held, st, arr) && ScopedArgument(a, h.base)
    ensures var r := EvalArg(h, a, arr, st);
            && Privacy.Hidden(held, r.st, arr)
            && (r.Done? ==> r.st.world.arrays[arr] == st.world.arrays[arr] + Contributed(h, a, st))
  {
    hide Eval, Drain, Scoped, After, Privacy.Discreet, Privacy.Secret;
    Privacy.EvalHides(h, held, a.e, st, arr);
    var r := Eval(h, a.e, st);
    if r.Returned? {
      if a.Plain? {
        Privacy.PushHides(held, r.st, arr, r.v, arr);
      } else {
        Privacy.IterateHides(h, held, r.v, r.st, arr);
        var o := h.iterate(r.v, r.st.world);
        var w := After(r.st.world, o.w);
        if o.Opens? {
          var open := r.st.(world := Opened(w, o.source));
          Privacy.OpenHides(held, w, o.source, arr);
          Privacy.DrainHides(held, open, |w.iterators|, arr, arr);
          DrainDoes(open, |w.iterators|, arr);
        }
      }
    }
  }

  lemma {:induction false} ArgsCollect(h: Host, held: Privacy.Held, args: seq<Argument>, arr: nat, st: Store)
    requires Privacy.Discreet(h, held) && Privacy.Hidden(held, st, arr)
    requires forall a :: a in args ==> ScopedArgument(a, h.base)
    ensures var r := EvalArgs(h, args, arr, st);
            && Privacy.Hidden(held, r.st, arr)
            && (r.Done? ==> r.st.world.arrays[arr] == st.world.arrays[arr] + Collected(h, args, arr, st))
    decreases |args|
  {
    hide EvalArg, Contributed, ScopedArgument, Privacy.Discreet, Privacy.Hidden;
    var before := st.world.arrays[arr];
    if args == [] {
      assert before + [] == before;
    } else {
      ArgCollects(h, held, args[0], arr, st);
      var r := EvalArg(h, args[0], arr, st);
      if r.Done? {
        ArgsCollect(h, held, args[1..], arr, r.st);
        var first, others := Contributed(h, args[0], st), Collected(h, args[1..], arr, r.st);
        assert before + first + others == before + (first + others);
      }
    }
  }

  /** The array built for spread arguments holds the concatenation, for any user code that cannot get at an array
      nothing refers to. Before the call, nothing refers to the slot the new array will get. */
  lemma {:induction false} SpreadConcatenates(h: Host, held: Privacy.Held, args: seq<Argument>, st: Store)
    requires Privacy.Discreet(h, held) && Scoped(ArgumentArray(args), h.base)
    requires Privacy.Hidden(held, st.(world := Allocated(st.world)), |st.world.arrays|)
    ensures var arr, r := |st.world.arrays|, Eval(h, ArgumentArray(args), st);
            && Privacy.Hidden(held, r.st, arr)
            && (r.Returned? ==>
                  && r.v == ArrayRef(arr)
                  && r.st.world.arrays[arr] == Collected(h, args, arr, st.(world := Allocated(st.world))))
  {
    hide EvalArgs, Collected, Privacy.Discreet, Privacy.Hidden, ScopedArgument;
    var arr, st1 := |st.world.arrays|, st.(world := Allocated(st.world));
    ArgsCollect(h, held, args, arr, st1);
    assert [] + Collected(h, args, arr, st1) == Collected(h, args, arr, st1);
  }

  // ----- Runs of the emitted code -----

  /** What running the code of `e` from `p` needs: the code is there and there are enough registers. */
  ghost predicate Runnable(h: Host, e: Expr, m: Reg, code: seq<Instr>, p: nat, s: State)
  {
    CodeAt(code, p, CompileExpr(e, m).code) && Ready(h, s, m, CompileExpr(e, m).mark) && Scoped(e, h.base)
  }

  /** Registrations for abrupt close balance over any run that completes; a run that throws leaves the earlier ones in
      place and adds only iterators it opened itself. */
  lemma {:induction false} RunsBalance(h: Host, e: Expr, m: Reg, code: seq<Instr>, p: nat, s: State) returns (c: Config)
    requires Runnable(h, e, m, code, p, s) && Tidy(StoreOf(h, s))
    ensures Runs(h, code, Running(p, s), c)
    ensures c.Running? ==> c.s.closers == s.closers
    ensures c.Thrown? ==> Extends(s.closers, c.s.closers, |s.world.iterators|)
  {
    hide Runs, CodeAt, CompileExpr, Eval, Scoped, Tidy, Frame;
    c := ExprRuns(h, e, m, code, p, s);
    EvalFrame(h, e, StoreOf(h, s), |s.world.iterators|);
  }

  /** Running the code of `pattern = source`: a run that completes has stepped the iterator as often as the pattern asks
      and closed it exactly once if it was not exhausted, else not at all. A run that throws after opening the iterator
      has closed it at most once, and leaves it registered for closing exactly when it was not closed, not exhausted and
      did not throw itself. */
  lemma {:induction false} PatternRunSettles(h: Host, e: Expr, m: Reg, code: seq<Instr>, p: nat, s: State)
    returns (c: Config)
    requires e.ArrayAssign? && Runnable(h, e, m, code, p, s) && Tidy(StoreOf(h, s))
    requires var v := Eval(h, e.source, StoreOf(h, s));
             v.Returned? && !v.v.Nullish() && h.iterate(v.v, v.st.world).Opens?
    ensures Runs(h, code, Running(p, s), c)
    ensures var v := Eval(h, e.source, StoreOf(h, s));
            var o := h.iterate(v.v, v.st.world);
            var it := |After(v.st.world, o.w).iterators|;
            if c.Running? then
              && c.s.closers == s.closers && c.s.Get(CompileExpr(e, m).result) == v.v
              && Count(c.s.log, Stepped(it)) == PatternSteps(e.pattern, o.source)
              && Count(c.s.log, Closed(it)) == PatternCloses(e.pattern, o.source)
            else h.base <= |c.s.regs| && Interrupted(StoreOf(h, c.s), it, o.source, s.closers)
  {
    hide Runs, CodeAt, CompileExpr, Scoped, Frame, EvalBody, Interrupted, Count, After, Tidy, At;
    c := ExprRuns(h, e, m, code, p, s);
    var st, n := StoreOf(h, s), |s.world.iterators|;
    var v := Eval(h, e.source, st);
    EvalFrame(h, e.source, st, n);
    var o := h.iterate(v.v, v.st.world);
    var st0 := v.st.(world := After(v.st.world, o.w));
    var it := |st0.world.iterators|;
    AfterFrame(v.st, v.st.locals, o.w, n);
    OpenAt(st0, o.source, it);
    BodyFrame(h, e.pattern, it, OpenPattern(st0, o.source), o.source, s.closers, it);
  }

  /** Running the code of spread arguments leaves a new array with the concatenation in the result register. */
  lemma {:induction false} SpreadRun(h: Host, held: Privacy.Held, args: seq<Argument>, m: Reg, code: seq<Instr>, p: nat,
                                     s: State)
    returns (c: Config)
    requires Runnable(h, ArgumentArray(args), m, code, p, s) && Privacy.Discreet(h, held)
    requires var st := StoreOf(h, s); Privacy.Hidden(held, st.(world := Allocated(st.world)), |st.world.arrays|)
    ensures Runs(h, code, Running(p, s), c)
    ensures var arr, st := |s.world.arrays|, StoreOf(h, s);
            c.Running? ==>
              && c.s.Get(CompileExpr(ArgumentArray(args), m).result) == ArrayRef(arr) && arr < |c.s.world.arrays|
              && c.s.world.arrays[arr] == Collected(h, args, arr, st.(world := Allocated(st.world)))
  {
    hide Runs, CodeAt, CompileExpr, Eval, Scoped, Collected, Privacy.Discreet, Privacy.Hidden;
    c := ExprRuns(h, ArgumentArray(args), m, code, p, s);
    SpreadConcatenates(h, held, args, StoreOf(h, s));
  }

  // ----- Events of a logical assignment -----

  /** What was logged since `st`. */
  function Since(st: Store, st': Store): (log: seq<Event>)
  {
    if |st.log| <= |st'.log| then st'.log[|st.log|..] else []
  }

  function LoadEvents(ref: Reference): (log: seq<Event>)
  {
    if ref.ToProperty? then [Loaded(ref.obj, ref.key)] else []
  }

  function StoreEvents(ref: Reference, v: Value): (log: seq<Event>)
  {
    if ref.ToProperty? then [Stored(ref.obj, ref.key, v)] else []
  }

  /** The events of `target op= rhs`: those of evaluating the reference, one load, and exactly when the test asks for it
      those of the right-hand side and, if it has a value, one store. */
  function LogicalEvents(h: Host, e: Expr, st: Store): (log: seq<Event>)
    requires e.LogicalAssign?
  {
    match Resolve(h, e.target, st)
    case RefFailed(_, st1) => Since(st, st1)
    case Resolved(ref, st1) =>
      Since(st, st1) + LoadEvents(ref)
      + match GetReference(h, ref, st1)
        case Threw(_, _) => []
        case Returned(current, st2) =>
          if !Assigns(e.op, current) then []
          else
            var rhs := Eval(h, e.rhs, st2);
            Since(st2, rhs.st) + if rhs.Returned? then StoreEvents(ref, rhs.v) else []
  }

  lemma {:induction false} LogicalEval(h: Host, e: Expr, st: Store)
    requires e.LogicalAssign? && !e.target.ArrayTarget? && Tidy(st)
    ensures Eval(h, e, st).st.log == st.log + LogicalEvents(h, e, st)
  {
    hide Resolve, GetReference, Put, Tidy, Assigns, Frame;
    var n, r := |st.world.iterators|, Resolve(h, e.target, st);
    ResolveFrame(h, e.target, st, n);
    LogGrows(st, r.st, n);
    if r.Resolved? {
      GetLog(h, r.ref, r.st);
      GetFrame(h, r.ref, r.st, n);
      var current := GetReference(h, r.ref, r.st);
      if current.Returned? && Assigns(e.op, current.v) {
        EvalFrame(h, e.rhs, current.st, n);
        var rhs := Eval(h, e.rhs, current.st);
        LogGrows(current.st, rhs.st, n);
        if rhs.Returned? {
          ResolvedKind(h, e.target, st);
          PutLog(h, e.target, r.ref, rhs.v, rhs.st);
        }
      }
    }
  }

  lemma {:induction false} LogGrows(st: Store, st': Store, n: nat)
    requires Framed(st, st', n)
    ensures st.log <= st'.log
  {}

  lemma {:induction false} ResolvedKind(h: Host, t: Target, st: Store)
    requires !t.ArrayTarget? && Resolve(h, t, st).Resolved?
    ensures !Resolve(h, t, st).ref.ToPattern?
  {
    hide Eval;
  }

  lemma {:induction false} GetLog(h: Host, ref: Reference, st: Store)
    ensures GetReference(h, ref, st).st.log == st.log + LoadEvents(ref)
  {}

  lemma {:induction false} PutLog(h: Host, t: Target, ref: Reference, v: Value, st: Store)
    requires !ref.ToPattern?
    ensures Put(h, t, ref, v, st).st.log == st.log + StoreEvents(ref, v)
  {}

  // ----- Meaning of a logical assignment -----

  /** `&&=` keeps a falsy value, `||=` any other, `??=` all but `undefined` and `null`. */
  predicate Keeps(op: LogicalOp, v: Value)
  {
    match op
    case And => v in {Undefined, Null, NaN, HtmlDda, Boolean(false), Number(0), Text("")}
    case Or => v !in {Undefined, Null, NaN, HtmlDda, Boolean(false), Number(0), Text("")}
    case Nullish => v !in {Undefined, Null}
  }

  /** `x op= rhs`: either nothing happens, or the right-hand side runs and `x` is set to its value. */
  function VariableMeaning(h: Host, op: LogicalOp, x: Reg, rhs: Expr, st: Store): (r: EvalResult)
  {
    var current := if x < |st.locals| then st.locals[x] else Undefined;
    if Keeps(op, current) then Returned(current, st)
    else
      match Eval(h, rhs, st)
      case Threw(error, st1) => Threw(error, st1)
      case Returned(v, st1) =>
        Returned(v, Store(Updated(st1.locals, x, v), st1.world, st1.closers, st1.log))
  }

  /** `obj.key op= rhs` once object and key are values: one read, and unless it settles the matter the right-hand side
      and one write of its value. Whatever throws ends it there. */
  function PropertyMeaning(h: Host, op: LogicalOp, obj: Value, key: Key, rhs: Expr, st: Store): (r: EvalResult)
  {
    var read := h.load(obj, key, st.world);
    var st1 := Store(st.locals, After(st.world, read.w), st.closers, st.log + [Loaded(obj, key)]);
    if read.Abrupt? then Threw(read.v, st1)
    else if Keeps(op, read.v) then Returned(read.v, st1)
    else
      match Eval(h, rhs, st1)
      case Threw(error, st2) => Threw(error, st2)
      case Returned(v, st2) =>
        var wrote := h.store(obj, key, v, st2.world);
        var st3 := Store(st2.locals, After(st2.world, wrote.w), st2.closers, st2.log + [Stored(obj, key, v)]);
        if wrote.Normal? then Returned(v, st3) else Threw(wrote.v, st3)
  }

  /** Logical assignment from its parts: the object is evaluated first, then a computed key, then the rest. */
  function LogicalMeaning(h: Host, e: Expr, st: Store): (r: EvalResult)
    requires e.LogicalAssign?
  {
    match e.target
    case Variable(x) => VariableMeaning(h, e.op, x, e.rhs, st)
    case StaticMember(obj, name) =>
      var o := Eval(h, obj, st);
      if o.Threw? then o else PropertyMeaning(h, e.op, o.v, Name(name), e.rhs, o.st)
    case ComputedMember(obj, key) =>
      var o := Eval(h, obj, st);
      if o.Threw? then o
      else
        var k := Eval(h, key, o.st);
        if k.Threw? then k else PropertyMeaning(h, e.op, o.v, Computed(k.v), e.rhs, k.st)
    case ArrayTarget(_) => Returned(Undefined, st)
  }

  lemma {:induction false} KeepsExactly(op: LogicalOp, v: Value)
    ensures Keeps(op, v) <==> !Assigns(op, v)
  {
    TruthValues(v);
  }

  lemma {:induction false} PropertyMeans(h: Host, e: Expr, obj: Value, key: Key, st: Store)
    requires e.LogicalAssign?
    ensures var current := GetReference(h, ToProperty(obj, key), st);
            PropertyMeaning(h, e.op, obj, key, e.rhs, st)
            == if current.Returned? && Assigns(e.op, current.v) then EvalRhs(h, e, ToProperty(obj, key), current.st)
               else current
  {
    hide Eval, After, Assigns, Keeps;
    KeepsExactly(e.op, h.load(obj, key, st.world).v);
  }

  lemma {:induction false} VariableMeans(h: Host, e: Expr, x: Reg, st: Store)
    requires e.LogicalAssign?
    ensures var current := if x < |st.locals| then st.locals[x] else Undefined;
            VariableMeaning(h, e.op, x, e.rhs, st)
            == if Assigns(e.op, current) then EvalRhs(h, e, ToLocal(x), st) else Returned(current, st)
  {
    hide Eval, Assigns, Keeps;
    KeepsExactly(e.op, if x < |st.locals| then st.locals[x] else Undefined);
    var r := Eval(h, e.rhs, st);
    if r.Returned? {
      var locals := r.st.locals;
      assert (if x < |locals| then locals[x := r.v] else locals) == Updated(locals, x, r.v);
    }
  }

  /** Evaluating a logical assignment is what its parts say. */
  lemma {:induction false} LogicalMeans(h: Host, e: Expr, st: Store)
    requires e.LogicalAssign? && !e.target.ArrayTarget?
    ensures Eval(h, e, st) == LogicalMeaning(h, e, st)
  {
    hide VariableMeaning, PropertyMeaning, EvalRhs, Assigns;
    match e.target
    case Variable(x) => VariableMeans(h, e, x, st);
    case StaticMember(obj, name) =>
      var o := Eval(h, obj, st);
      if o.Returned? {
        PropertyMeans(h, e, o.v, Name(name), o.st);
      }
    case ComputedMember(obj, key) =>
      var o := Eval(h, obj, st);
      if o.Returned? {
        var k := Eval(h, key, o.st);
        if k.Returned? {
          PropertyMeans(h, e, o.v, Computed(k.v), k.st);
        }
      }
  }

  /** Running the code of any logical assignment: the target reference is evaluated once and first, its value is read
      once, the right-hand side runs and the store happens exactly when the short-circuit test asks for them; the result
      is the value assigned, or the current one with nothing changed since it was read. Variables, world, registrations,
      log and error all end up as the parts of the assignment say. */
  lemma {:induction false} LogicalRun(h: Host, e: Expr, m: Reg, code: seq<Instr>, p: nat, s: State) returns (c: Config)
    requires e.LogicalAssign? && Runnable(h, e, m, code, p, s) && Tidy(StoreOf(h, s))
    ensures Runs(h, code, Running(p, s), c)
    ensures ExprPost(h, CompileExpr(e, m), m, p, s, LogicalMeaning(h, e, StoreOf(h, s)), c)
    ensures c.s.log == s.log + LogicalEvents(h, e, StoreOf(h, s))
    ensures var r := Resolve(h, e.target, StoreOf(h, s));
            r.Resolved? ==>
              var current := GetReference(h, r.ref, r.st);
              current.Returned? ==>
                && (!Assigns(e.op, current.v) ==>
                      && c.Running? && h.base <= |c.s.regs| && StoreOf(h, c.s) == current.st
                      && c.s.Get(CompileExpr(e, m).result) == current.v)
                && (Assigns(e.op, current.v) && c.Running? ==>
                      var rhs := Eval(h, e.rhs, current.st);
                      rhs.Returned? && c.s.Get(CompileExpr(e, m).result) == rhs.v)
  {
    hide Runs, CodeAt, CompileExpr, Resolve, GetReference, Put, Assigns, Tidy, LogicalEvents, LogicalMeaning;
    c := ExprRuns(h, e, m, code, p, s);
    LogicalEval(h, e, StoreOf(h, s));
    LogicalMeans(h, e, StoreOf(h, s));
  }
}
