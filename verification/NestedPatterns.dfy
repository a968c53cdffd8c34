/**
  * What nested array patterns bind: the variables and properties that get the values at each position of each source,
  * and how every iterator of a pattern inside a pattern is settled.
  */
module NestedPatterns {
  import opened Prelude
  import opened Machine
  import opened Lowering
  import opened LoweringProof
  import opened LoweringFrames
  import opened LoweringTheorems

  // ----- Patterns without user code in their targets -----

  predicate Quiet(e: Expr)
  {
    e.Literal? || e.ReadLocal?
  }

  /** Variables, properties of values at hand, and nested patterns of these. */
  predicate QuietTarget(t: Target)
    decreases t
  {
    match t
    case Variable(_) => true
    case StaticMember(obj, _) => Quiet(obj)
    case ComputedMember(obj, key) => Quiet(obj) && Quiet(key)
    case ArrayTarget(q) => QuietPattern(q)
  }

  predicate QuietElement(e: Element)
    decreases e
  {
    e.Item? ==> QuietTarget(e.target) && (e.init.Some? ==> Quiet(e.init.value))
  }

  predicate QuietPattern(p: Pattern)
    decreases p
  {
    && (forall e :: e in p.elements ==> QuietElement(e))
    && (p.rest.Some? ==> QuietTarget(p.rest.value))
  }

  /** What a target assigns: a variable, or a property with a fixed name or a computed key. */
  datatype Slot = OfVariable(x: Reg) | OfProperty(name: Option<nat>)

  /** What a pattern assigns, in order, the slots of nested patterns in place. */
  function TargetSlots(t: Target): (slots: seq<Slot>)
    decreases t
  {
    match t
    case Variable(x) => [OfVariable(x)]
    case StaticMember(_, name) => [OfProperty(Some(name))]
    case ComputedMember(_, _) => [OfProperty(None)]
    case ArrayTarget(q) => PatternSlots(q)
  }

  function ElementSlots(e: Element): (slots: seq<Slot>)
    decreases e
  {
    if e.Item? then TargetSlots(e.target) else []
  }

  function ElementsSlots(es: seq<Element>): (slots: seq<Slot>)
    decreases es
  {
    if es == [] then [] else ElementSlots(es[0]) + ElementsSlots(es[1..])
  }

  function PatternSlots(p: Pattern): (slots: seq<Slot>)
    decreases p
  {
    ElementsSlots(p.elements) + if p.rest.Some? then TargetSlots(p.rest.value) else []
  }

  // ----- Reading acts -----

  /** The variables after the acts. */
  function Applied(locals: seq<Value>, acts: seq<Act>): (r: seq<Value>)
    ensures |r| == |locals|
    decreases |acts|
  {
    if acts == [] then locals
    else Applied(if acts[0].Sets? then Updated(locals, acts[0].x, acts[0].v) else locals, acts[1..])
  }

  function SlotOf(a: Act): (slots: seq<Slot>)
  {
    match a
    case Sets(x, _) => [OfVariable(x)]
    case Puts(_, key, _) => [OfProperty(if key.Name? then Some(key.index) else None)]
    case Iterates(_, _, _) => []
  }

  function Slots(acts: seq<Act>): (slots: seq<Slot>)
  {
    if acts == [] then [] else SlotOf(acts[0]) + Slots(acts[1..])
  }

  function PutEvents(acts: seq<Act>): (log: seq<Event>)
  {
    if acts == [] then []
    else (if acts[0].Puts? then [Stored(acts[0].obj, acts[0].key, acts[0].v)] else []) + PutEvents(acts[1..])
  }

  /** The property stores in a log. */
  function Stores(log: seq<Event>): (stores: seq<Event>)
  {
    if log == [] then [] else (if log[0].Stored? then [log[0]] else []) + Stores(log[1..])
  }

  lemma {:induction false} StoresAppend(log: seq<Event>, more: seq<Event>)
    ensures Stores(log + more) == Stores(log) + Stores(more)
  {
    if log == [] {
      assert log + more == more;
    } else {
      StoresAppend(log[1..], more);
      assert (log + more)[1..] == log[1..] + more;
    }
  }

  lemma {:induction false} StepsStoreNothing(it: nat, n: nat)
    ensures Stores(Steps(it, n)) == []
  {
    if n > 0 {
      StepsStoreNothing(it, n - 1);
      assert Steps(it, n)[1..] == Steps(it, n - 1);
    }
  }

  lemma {:induction false} AppliedAppend(locals: seq<Value>, a: seq<Act>, b: seq<Act>)
    ensures Applied(locals, a + b) == Applied(Applied(locals, a), b)
    decreases |a|
  {
    hide Updated;
    if a == [] {
      assert a + b == b;
    } else {
      AppliedAppend(if a[0].Sets? then Updated(locals, a[0].x, a[0].v) else locals, a[1..], b);
      assert (a + b)[1..] == a[1..] + b;
    }
  }

  lemma {:induction false} SlotsAppend(a: seq<Act>, b: seq<Act>)
    ensures Slots(a + b) == Slots(a) + Slots(b)
  {
    if a == [] {
      assert a + b == b;
    } else {
      SlotsAppend(a[1..], b);
      assert (a + b)[1..] == a[1..] + b;
    }
  }

  lemma {:induction false} PutEventsAppend(a: seq<Act>, b: seq<Act>)
    ensures PutEvents(a + b) == PutEvents(a) + PutEvents(b)
  {
    if a == [] {
      assert a + b == b;
    } else {
      PutEventsAppend(a[1..], b);
      assert (a + b)[1..] == a[1..] + b;
    }
  }

  /** A variable not among the names is as before. */
  lemma {:induction false} OthersUnset(locals: seq<Value>, acts: seq<Act>, x: nat)
    requires x < |locals| && OfVariable(x) !in Slots(acts)
    ensures Applied(locals, acts)[x] == locals[x]
    decreases |acts|
  {
    if acts != [] {
      OthersUnset(if acts[0].Sets? then Updated(locals, acts[0].x, acts[0].v) else locals, acts[1..], x);
    }
  }

  /** No variable is assigned twice. */
  ghost predicate NoRepeats(slots: seq<Slot>)
  {
    forall i, j :: 0 <= i < j < |slots| && slots[i].OfVariable? ==> slots[i] != slots[j]
  }

  lemma {:induction false} NoRepeatsTail(acts: seq<Act>)
    requires acts != [] && NoRepeats(Slots(acts))
    ensures NoRepeats(Slots(acts[1..]))
    ensures acts[0].Sets? ==> OfVariable(acts[0].x) !in Slots(acts[1..])
  {
    var slots, first, tail := Slots(acts), SlotOf(acts[0]), Slots(acts[1..]);
    assert slots == first + tail;
    assert forall i :: 0 <= i < |tail| ==> tail[i] == slots[|first| + i];
    assert acts[0].Sets? ==> slots[0] == OfVariable(acts[0].x);
  }

  /** A variable set once holds what it was set to. */
  lemma {:induction false} SetOnce(locals: seq<Value>, acts: seq<Act>, x: nat, v: Value)
    requires NoRepeats(Slots(acts)) && Sets(x, v) in acts && x < |locals|
    ensures Applied(locals, acts)[x] == v
    decreases |acts|
  {
    hide NoRepeats;
    NoRepeatsTail(acts);
    var next := if acts[0].Sets? then Updated(locals, acts[0].x, acts[0].v) else locals;
    if acts[0] == Sets(x, v) {
      OthersUnset(next, acts[1..], x);
    } else {
      SetOnce(next, acts[1..], x, v);
    }
  }

  // ----- Variables and stores -----

  /** From `st` on, the variables changed as the acts say, the properties stored are those of the acts in order, and a
      trace that completes has assigned exactly the slots, in order. */
  ghost predicate Shows(st: Store, tr: Trace, slots: seq<Slot>)
  {
    && tr.result.st.locals == Applied(st.locals, tr.acts)
    && Stores(tr.result.st.log) == Stores(st.log) + PutEvents(tr.acts)
    && (tr.result.Done? ==> Slots(tr.acts) == slots)
  }

  /** Nothing that shows happened between the two stores. */
  ghost predicate Same(st: Store, st': Store)
  {
    st'.locals == st.locals && Stores(st'.log) == Stores(st.log)
  }

  lemma {:induction false} ShowsLater(st: Store, st1: Store, tr: Trace, slots: seq<Slot>)
    requires Same(st, st1) && Shows(st1, tr, slots)
    ensures Shows(st, tr, slots)
  {}

  lemma {:induction false} ShowsNothing(st: Store, c: Completion, slots: seq<Slot>)
    requires Same(st, c.st) && (c.Done? ==> slots == [])
    ensures Shows(st, Trace(c, []), slots)
  {}

  lemma {:induction false} ShowsBoth(st: Store, first: Trace, others: Trace, slots: seq<Slot>, more: seq<Slot>)
    requires Shows(st, first, slots) && first.result.Done? && Shows(first.result.st, others, more)
    ensures Shows(st, Trace(others.result, first.acts + others.acts), slots + more)
  {
    hide Applied, Slots, PutEvents, Stores;
    AppliedAppend(st.locals, first.acts, others.acts);
    SlotsAppend(first.acts, others.acts);
    PutEventsAppend(first.acts, others.acts);
  }

  predicate RefersTo(t: Target, ref: Reference)
  {
    match t
    case Variable(x) => ref == ToLocal(x)
    case StaticMember(_, name) => ref.ToProperty? && ref.key == Name(name)
    case ComputedMember(_, _) => ref.ToProperty? && ref.key.Computed?
    case ArrayTarget(_) => ref == ToPattern
  }

  lemma {:induction false} QuietResolve(h: Host, t: Target, st: Store)
    requires QuietTarget(t)
    ensures var r := Resolve(h, t, st); r.Resolved? && r.st == st && RefersTo(t, r.ref)
  {
    hide QuietPattern;
  }

  lemma {:induction false} QuietTaken(h: Host, want: Want, it: nat, source: Source, k: nat, closers: seq<nat>,
                                      st: Store)
    requires want.OneValue? && want.init.Some? ==> Quiet(want.init.value)
    ensures Same(st, Taken(h, want, it, source, k, closers, st).st)
  {
    hide Steps, SourceAfter, Registrations;
    if it < |st.world.iterators| {
      if want.TheRest? {
        var n := |Remaining(source.values, k)| + 1;
        StoresAppend(st.log, Steps(it, n));
        StepsStoreNothing(it, n);
      } else {
        StoresAppend(st.log, [Stepped(it)]);
      }
    }
  }

  lemma {:induction false} AssignShows(h: Host, t: Target, ref: Reference, v: Value, st: Store)
    requires QuietTarget(t) && RefersTo(t, ref)
    ensures Shows(st, ListAssign(h, t, ref, v, st), TargetSlots(t))
    decreases t, 0
  {
    hide ListDestructure, PatternSlots, QuietPattern, After;
    match ref
    case ToLocal(x) =>
      assert Applied(st.locals, [Sets(x, v)]) == Updated(st.locals, x, v) && Slots([Sets(x, v)]) == [OfVariable(x)];
      assert PutEvents([Sets(x, v)]) == [] && Stores(st.log) + [] == Stores(st.log);
    case ToProperty(obj, key) =>
      StoresAppend(st.log, [Stored(obj, key, v)]);
      assert Stores([Stored(obj, key, v)]) == [Stored(obj, key, v)];
      assert PutEvents([Puts(obj, key, v)]) == [Stored(obj, key, v)];
      assert Applied(st.locals, [Puts(obj, key, v)]) == st.locals;
      assert Slots([Puts(obj, key, v)]) == SlotOf(Puts(obj, key, v));
    case ToPattern => DestructureShows(h, t.pattern, v, st);
  }

  lemma {:induction false} TargetShows(h: Host, t: Target, want: Want, it: nat, source: Source, k: nat,
                                       closers: seq<nat>, st: Store)
    requires QuietTarget(t) && (want.OneValue? && want.init.Some? ==> Quiet(want.init.value))
    ensures Shows(st, ListTarget(h, t, want, it, source, k, closers, st), TargetSlots(t))
    decreases t, 1
  {
    hide Resolve, Taken, ListAssign, QuietTarget, TargetSlots, Shows, Same;
    QuietResolve(h, t, st);
    QuietTaken(h, want, it, source, k, closers, st);
    var r := Taken(h, want, it, source, k, closers, st);
    if r.Returned? {
      var ref := Resolve(h, t, st).ref;
      AssignShows(h, t, ref, r.v, r.st);
      ShowsLater(st, r.st, ListAssign(h, t, ref, r.v, r.st), TargetSlots(t));
    } else {
      ShowsNothing(st, Failed(r.error, r.st), TargetSlots(t));
    }
  }

  lemma {:induction false} ElementShows(h: Host, e: Element, it: nat, source: Source, k: nat, closers: seq<nat>,
                                        st: Store)
    requires QuietElement(e)
    ensures Shows(st, ListElement(h, e, it, source, k, closers, st), ElementSlots(e))
    decreases e, 0
  {
    hide Taken, ListTarget, QuietTarget, TargetSlots, Shows, Same;
    if e.Item? {
      TargetShows(h, e.target, OneValue(e.init), it, source, k, closers, st);
    } else {
      QuietTaken(h, OneValue(None), it, source, k, closers, st);
      ShowsNothing(st, ListElement(h, e, it, source, k, closers, st).result, []);
    }
  }

  lemma {:induction false} ElementsShow(h: Host, es: seq<Element>, it: nat, source: Source, k: nat, closers: seq<nat>,
                                        st: Store)
    requires forall e :: e in es ==> QuietElement(e)
    ensures Shows(st, ListElements(h, es, it, source, k, closers, st), ElementsSlots(es))
    decreases es, 0
  {
    hide ListElement, QuietElement, ElementSlots, Shows;
    if es == [] {
      ShowsNothing(st, Done(st), []);
    } else {
      ElementShows(h, es[0], it, source, k, closers, st);
      var first := ListElement(h, es[0], it, source, k, closers, st);
      var slots := ElementSlots(es[0]);
      if first.result.Done? {
        ElementsShow(h, es[1..], it, source, k + 1, closers, first.result.st);
        ShowsBoth(st, first, ListElements(h, es[1..], it, source, k + 1, closers, first.result.st), slots,
                  ElementsSlots(es[1..]));
      } else {
        ShowsFailed(st, first, slots, ElementsSlots(es));
      }
    }
  }

  lemma {:induction false} ShowsFailed(st: Store, tr: Trace, slots: seq<Slot>, slots': seq<Slot>)
    requires Shows(st, tr, slots) && tr.result.Failed?
    ensures Shows(st, tr, slots')
  {}

  lemma {:induction false} BodyShows(h: Host, p: Pattern, it: nat, source: Source, closers: seq<nat>, st: Store)
    requires QuietPattern(p)
    ensures Shows(st, ListPattern(h, p, it, source, closers, st), PatternSlots(p))
    decreases p, 0
  {
    hide ListElements, ListTarget, QuietElement, QuietTarget, ElementsSlots, TargetSlots, Shows, After;
    ElementsShow(h, p.elements, it, source, 0, closers, st);
    var elements, slots := ListElements(h, p.elements, it, source, 0, closers, st), ElementsSlots(p.elements);
    if elements.result.Failed? {
      ShowsFailed(st, elements, slots, PatternSlots(p));
    } else if p.rest.Some? {
      var st1 := elements.result.st;
      TargetShows(h, p.rest.value, TheRest, it, source, |p.elements|, closers, st1);
      ShowsBoth(st, elements, ListTarget(h, p.rest.value, TheRest, it, source, |p.elements|, closers, st1), slots,
                TargetSlots(p.rest.value));
    } else {
      assert slots + [] == slots;
      if |p.elements| <= |source.values| {
        ShowsClose(st, elements, it, ListPattern(h, p, it, source, closers, st), slots);
      }
    }
  }

  lemma {:induction false} ShowsClose(st: Store, elements: Trace, it: nat, tr: Trace, slots: seq<Slot>)
    requires Shows(st, elements, slots) && elements.result.Done? && tr.acts == elements.acts
    requires tr.result.st.locals == elements.result.st.locals
    requires tr.result.st.log == elements.result.st.log + [Closed(it)]
    ensures Shows(st, tr, slots)
  {
    StoresAppend(elements.result.st.log, [Closed(it)]);
  }

  /** A pattern, nested or not, sets its variables and stores its properties as its acts say and does neither otherwise;
      completing, it has assigned each of its targets once, in pattern order. */
  lemma {:induction false} DestructureShows(h: Host, p: Pattern, v: Value, st: Store)
    requires QuietPattern(p)
    ensures Shows(st, ListDestructure(h, p, v, st), PatternSlots(p))
    decreases p, 1
  {
    hide ListPattern, QuietPattern, PatternSlots, After;
    var o := h.iterate(v, st.world);
    if v !in {Undefined, Null} && o.Opens? {
      var w0 := After(st.world, o.w);
      var it := |w0.iterators|;
      var st0 := st.(world := w0.(iterators := w0.iterators + [o.source]), closers := st.closers + [it]);
      BodyShows(h, p, it, o.source, st.closers, st0);
      var body := ListPattern(h, p, it, o.source, st.closers, st0);
      assert ([Iterates(it, p, o.source)] + body.acts)[1..] == body.acts;
    }
  }

  // ----- Other iterators -----

  /** Iterators of `st` other than `it` were neither stepped nor closed. */
  ghost predicate Still(st: Store, st': Store, it: nat)
  {
    && |st.world.iterators| <= |st'.world.iterators|
    && (forall j: nat :: j < |st.world.iterators| && j != it ==>
          && Count(st'.log, Stepped(j)) == Count(st.log, Stepped(j))
          && Count(st'.log, Closed(j)) == Count(st.log, Closed(j)))
  }

  lemma {:induction false} StillTrans(a: Store, b: Store, c: Store, it: nat)
    requires Still(a, b, it) && Still(b, c, it)
    ensures Still(a, c, it)
  {
    hide Count;
  }

  lemma {:induction false} FrameStill(st: Store, st': Store, it: nat)
    requires Framed(st, st', |st.world.iterators|)
    ensures Still(st, st', it) && Tidy(st')
  {
    hide Count;
  }

  lemma {:induction false} AdvancedStill(st: Store, it: nat, source: Source, k: nat, closers: seq<nat>)
    requires At(st, it, source, k, closers) && Sound(st, it)
    ensures var st' := Advanced(st, it, source, k + 1, closers); Still(st, st', it) && Tidy(st')
  {
    hide Frame, At, SourceAfter;
    AtOpen(st, it, source, k, closers);
    AdvancedAt(st, it, source, k, closers, it);
  }

  lemma {:induction false} CollectedStill(st: Store, it: nat, source: Source, k: nat, closers: seq<nat>)
    requires At(st, it, source, k, closers) && Sound(st, it)
    ensures var st' := CollectedFrom(st, it, source, k, closers); Still(st, st', it) && Tidy(st')
  {
    hide Frame, At, Steps, Count;
    AtOpen(st, it, source, k, closers);
    CollectedAt(st, it, source, k, closers, it);
    var n := |Remaining(source.values, k)| + 1;
    forall j: nat
      ensures j != it ==> Count(st.log + Steps(it, n), Stepped(j)) == Count(st.log, Stepped(j))
      ensures Count(st.log + Steps(it, n), Closed(j)) == Count(st.log, Closed(j))
    {
      CountSteps(st.log, it, n, Stepped(j));
      CountSteps(st.log, it, n, Closed(j));
    }
  }

  lemma {:induction false} AtOpen(st: Store, it: nat, source: Source, k: nat, closers: seq<nat>)
    requires At(st, it, source, k, closers)
    ensures it < |st.world.iterators|
  {}

  lemma {:induction false} TakenStill(h: Host, want: Want, it: nat, source: Source, k: nat, closers: seq<nat>,
                                      st: Store)
    requires At(st, it, source, k, closers) && Sound(st, it)
    ensures var r := Taken(h, want, it, source, k, closers, st); Still(st, r.st, it) && Tidy(r.st)
  {
    hide At, Sound, Advanced, CollectedFrom, Frame, Still, Tidy, Eval;
    AtOpen(st, it, source, k, closers);
    if want.TheRest? {
      CollectedStill(st, it, source, k, closers);
    } else {
      var st1 := Advanced(st, it, source, k + 1, closers);
      AdvancedStill(st, it, source, k, closers);
      if want.init.Some? {
        TidySound(st1);
        EvalFrame(h, want.init.value, st1, |st1.world.iterators|);
        var r := Eval(h, want.init.value, st1);
        FrameStill(st1, r.st, it);
        StillTrans(st, st1, r.st, it);
      }
    }
  }

  lemma {:induction false} TidySound(st: Store)
    requires Tidy(st)
    ensures Sound(st, |st.world.iterators|)
  {}

  /** Evaluating the reference of a target and taking its value leaves other iterators alone. */
  lemma {:induction false} ReferenceStill(h: Host, t: Target, it: nat, source: Source, k: nat, closers: seq<nat>,
                                          st: Store)
    requires At(st, it, source, k, closers) && Sound(st, it)
    ensures var r := Resolve(h, t, st);
            && Still(st, r.st, it) && Tidy(r.st) && |st.world.iterators| <= |r.st.world.iterators|
            && (r.Resolved? ==> At(r.st, it, source, k, closers) && Sound(r.st, it) && it < |r.st.world.iterators|)
  {
    hide At, Frame, Still, Tidy, Resolve;
    var r, n := Resolve(h, t, st), |st.world.iterators|;
    AtOpen(st, it, source, k, closers);
    SoundHere(st, it);
    ResolveFrame(h, t, st, n);
    FrameStill(st, r.st, it);
    SoundAt(st, it, source, k, closers, it);
    ResolveFrame(h, t, st, it + 1);
    AtKept(st, r.st, it, source, k, closers, it);
    StillGrows(st, r.st, it);
  }

  lemma {:induction false} StillGrows(st: Store, st': Store, it: nat)
    requires Still(st, st', it)
    ensures |st.world.iterators| <= |st'.world.iterators|
  {}

  lemma {:induction false} AssignStill(h: Host, t: Target, ref: Reference, v: Value, st: Store, it: nat)
    requires Tidy(st)
    ensures Still(st, ListAssign(h, t, ref, v, st).result.st, it)
  {
    hide Put, ListAssign, Frame, Tidy, Still;
    TidySound(st);
    AssignByPosition(h, t, ref, v, st);
    PutFrame(h, t, ref, v, st, |st.world.iterators|);
    FrameStill(st, Put(h, t, ref, v, st).st, it);
  }

  lemma {:induction false} TargetStill(h: Host, t: Target, want: Want, it: nat, source: Source, k: nat,
                                       closers: seq<nat>, st: Store)
    requires At(st, it, source, k, closers) && Sound(st, it)
    ensures Still(st, ListTarget(h, t, want, it, source, k, closers, st).result.st, it)
  {
    hide At, Sound, Resolve, Taken, ListAssign, Still, Tidy;
    ReferenceStill(h, t, it, source, k, closers, st);
    var r := Resolve(h, t, st);
    if r.Resolved? {
      TakenStill(h, want, it, source, k, closers, r.st);
      var taken := Taken(h, want, it, source, k, closers, r.st);
      StillTrans(st, r.st, taken.st, it);
      if taken.Returned? {
        AssignStill(h, t, r.ref, taken.v, taken.st, it);
        StillTrans(st, taken.st, ListAssign(h, t, r.ref, taken.v, taken.st).result.st, it);
      }
    }
  }

  lemma {:induction false} ElementStill(h: Host, e: Element, it: nat, source: Source, k: nat, closers: seq<nat>,
                                        st: Store)
    requires At(st, it, source, k, closers) && Sound(st, it)
    ensures Still(st, ListElement(h, e, it, source, k, closers, st).result.st, it)
  {
    hide At, Sound, Taken, ListTarget, Still, Tidy;
    if e.Item? {
      TargetStill(h, e.target, OneValue(e.init), it, source, k, closers, st);
    } else {
      TakenStill(h, OneValue(None), it, source, k, closers, st);
    }
  }

  /** Once an element is bound, the pattern is one position on. */
  lemma {:induction false} ElementNext(h: Host, e: Element, it: nat, source: Source, k: nat, closers: seq<nat>,
                                       st: Store)
    requires At(st, it, source, k, closers) && Sound(st, it)
    ensures var r := ListElement(h, e, it, source, k, closers, st).result;
            r.Done? ==> At(r.st, it, source, k + 1, closers) && Sound(r.st, it)
  {
    hide At, Frame, Interrupted, Tidy, ListElement, EvalElement;
    ElementByPosition(h, e, it, st, source, k, closers);
    ElementFrame(h, e, it, st, source, k, closers, it);
  }

  lemma {:induction false} ElementsNext(h: Host, es: seq<Element>, it: nat, source: Source, k: nat, closers: seq<nat>,
                                        st: Store)
    requires At(st, it, source, k, closers) && Sound(st, it)
    ensures var r := ListElements(h, es, it, source, k, closers, st).result;
            r.Done? ==> At(r.st, it, source, k + |es|, closers) && Sound(r.st, it)
  {
    hide At, Frame, Interrupted, Tidy, ListElements, EvalElements;
    ElementsByPosition(h, es, it, st, source, k, closers);
    ElementsFrame(h, es, it, st, source, k, closers, it);
  }

  lemma {:induction false} ElementsStill(h: Host, es: seq<Element>, it: nat, source: Source, k: nat, closers: seq<nat>,
                                         st: Store)
    requires At(st, it, source, k, closers) && Sound(st, it)
    ensures Still(st, ListElements(h, es, it, source, k, closers, st).result.st, it)
    decreases |es|
  {
    hide At, Sound, ListElement, Still;
    if es == [] {
      StillSame(st, it);
    } else {
      ElementStill(h, es[0], it, source, k, closers, st);
      ElementNext(h, es[0], it, source, k, closers, st);
      var first := ListElement(h, es[0], it, source, k, closers, st).result;
      if first.Done? {
        ElementsStill(h, es[1..], it, source, k + 1, closers, first.st);
        StillTrans(st, first.st, ListElements(h, es[1..], it, source, k + 1, closers, first.st).result.st, it);
      }
    }
  }

  lemma {:induction false} StillSame(st: Store, it: nat)
    ensures Still(st, st, it)
  {}

  // ----- Every iterator is settled -----

  /** An iterator opened since `st` for `q` over `source`, stepped and closed as often as the pattern asks. */
  ghost predicate SettledAt(st: Store, c: Completion, it: nat, q: Pattern, source: Source)
  {
    && |st.world.iterators| <= it < |c.st.world.iterators|
    && (c.Done? ==> Count(c.st.log, Stepped(it)) == PatternSteps(q, source)
                    && Count(c.st.log, Closed(it)) == PatternCloses(q, source))
  }

  ghost predicate AllSettled(st: Store, c: Completion, acts: seq<Act>)
  {
    forall it, q, source :: Iterates(it, q, source) in acts ==> SettledAt(st, c, it, q, source)
  }

  /** Settled iterators stay so while others are stepped and closed. */
  lemma {:induction false} SettledStays(st: Store, c: Completion, acts: seq<Act>, c': Completion, it: nat)
    requires AllSettled(st, c, acts) && c.Done? && it < |st.world.iterators| && Still(c.st, c'.st, it)
    ensures AllSettled(st, c', acts)
  {
    hide Count, PatternSteps, PatternCloses;
    forall j, q, source | Iterates(j, q, source) in acts
      ensures SettledAt(st, c', j, q, source)
    {
      assert SettledAt(st, c, j, q, source);
    }
  }

  lemma {:induction false} SettledEarlier(st: Store, st1: Store, c: Completion, acts: seq<Act>)
    requires AllSettled(st1, c, acts) && |st.world.iterators| <= |st1.world.iterators|
    ensures AllSettled(st, c, acts)
  {
    hide Count, PatternSteps, PatternCloses;
    forall j, q, source | Iterates(j, q, source) in acts
      ensures SettledAt(st, c, j, q, source)
    {
      assert SettledAt(st1, c, j, q, source);
    }
  }

  lemma {:induction false} SettledBoth(st: Store, first: Trace, others: Trace, it: nat)
    requires AllSettled(st, first.result, first.acts) && first.result.Done? && it < |st.world.iterators|
    requires Still(st, first.result.st, it) && Still(first.result.st, others.result.st, it)
    requires AllSettled(first.result.st, others.result, others.acts)
    ensures AllSettled(st, others.result, first.acts + others.acts)
  {
    hide SettledAt, Count;
    SettledStays(st, first.result, first.acts, others.result, it);
    SettledEarlier(st, first.result.st, others.result, others.acts);
  }

  lemma {:induction false} AssignSettles(h: Host, t: Target, ref: Reference, v: Value, st: Store)
    requires Tidy(st)
    ensures var tr := ListAssign(h, t, ref, v, st); AllSettled(st, tr.result, tr.acts)
    decreases t, 0
  {
    hide ListDestructure, SettledAt, Tidy, After;
    if ref.ToPattern? && t.ArrayTarget? {
      DestructureSettles(h, t.pattern, v, st);
    }
  }

  lemma {:induction false} TargetSettles(h: Host, t: Target, want: Want, it: nat, source: Source, k: nat,
                                         closers: seq<nat>, st: Store)
    requires At(st, it, source, k, closers) && Sound(st, it)
    ensures var tr := ListTarget(h, t, want, it, source, k, closers, st); AllSettled(st, tr.result, tr.acts)
    decreases t, 1
  {
    hide At, Sound, Resolve, Taken, ListAssign, Tidy, Still, SettledAt;
    ReferenceStill(h, t, it, source, k, closers, st);
    var r := Resolve(h, t, st);
    if r.Resolved? {
      TakenStill(h, want, it, source, k, closers, r.st);
      var taken := Taken(h, want, it, source, k, closers, r.st);
      StillGrows(r.st, taken.st, it);
      if taken.Returned? {
        AssignSettles(h, t, r.ref, taken.v, taken.st);
        var tr := ListAssign(h, t, r.ref, taken.v, taken.st);
        SettledEarlier(st, taken.st, tr.result, tr.acts);
      }
    }
  }

  lemma {:induction false} ElementSettles(h: Host, e: Element, it: nat, source: Source, k: nat, closers: seq<nat>,
                                          st: Store)
    requires At(st, it, source, k, closers) && Sound(st, it)
    ensures var tr := ListElement(h, e, it, source, k, closers, st); AllSettled(st, tr.result, tr.acts)
    decreases e, 0
  {
    hide At, Sound, Taken, ListTarget, SettledAt;
    if e.Item? {
      TargetSettles(h, e.target, OneValue(e.init), it, source, k, closers, st);
    }
  }

  lemma {:induction false} ElementsSettle(h: Host, es: seq<Element>, it: nat, source: Source, k: nat, closers: seq<nat>,
                                          st: Store)
    requires At(st, it, source, k, closers) && Sound(st, it)
    ensures var tr := ListElements(h, es, it, source, k, closers, st); AllSettled(st, tr.result, tr.acts)
    decreases es, 0
  {
    hide At, Sound, ListElement, SettledAt, Still;
    if es != [] {
      ElementSettles(h, es[0], it, source, k, closers, st);
      var first := ListElement(h, es[0], it, source, k, closers, st);
      if first.result.Done? {
        var st1 := first.result.st;
        AtOpen(st, it, source, k, closers);
        ElementStill(h, es[0], it, source, k, closers, st);
        ElementNext(h, es[0], it, source, k, closers, st);
        ElementsSettle(h, es[1..], it, source, k + 1, closers, st1);
        ElementsStill(h, es[1..], it, source, k + 1, closers, st1);
        SettledBoth(st, first, ListElements(h, es[1..], it, source, k + 1, closers, st1), it);
      }
    }
  }

  lemma {:induction false} BodySettles(h: Host, p: Pattern, it: nat, source: Source, closers: seq<nat>, st: Store)
    requires At(st, it, source, 0, closers) && Sound(st, it)
    ensures var tr := ListPattern(h, p, it, source, closers, st); AllSettled(st, tr.result, tr.acts)
    decreases p, 0
  {
    hide At, Sound, ListElements, ListTarget, AllSettled, Still, After, Count;
    ElementsSettle(h, p.elements, it, source, 0, closers, st);
    var elements := ListElements(h, p.elements, it, source, 0, closers, st);
    if elements.result.Done? {
      var st1 := elements.result.st;
      AtOpen(st, it, source, 0, closers);
      ElementsNext(h, p.elements, it, source, 0, closers, st);
      ElementsStill(h, p.elements, it, source, 0, closers, st);
      if p.rest.Some? {
        TargetSettles(h, p.rest.value, TheRest, it, source, |p.elements|, closers, st1);
        TargetStill(h, p.rest.value, TheRest, it, source, |p.elements|, closers, st1);
        SettledBoth(st, elements, ListTarget(h, p.rest.value, TheRest, it, source, |p.elements|, closers, st1), it);
      } else if |p.elements| <= |source.values| {
        var tr := ListPattern(h, p, it, source, closers, st);
        CloseStill(st1, tr.result.st, it, h.finish(it, st1.world).w);
        SettledStays(st, elements.result, elements.acts, tr.result, it);
      }
    }
  }

  lemma {:induction false} CloseStill(st: Store, st': Store, it: nat, w: World)
    requires st'.world == After(st.world, w) && st'.log == st.log + [Closed(it)]
    ensures Still(st, st', it)
  {
    hide After;
  }

  /** Every iterator a completed pattern opened, for itself or a nested pattern, was stepped as often as its pattern
      asks and closed exactly once if it was not exhausted, else not at all. */
  lemma {:induction false} DestructureSettles(h: Host, p: Pattern, v: Value, st: Store)
    requires Tidy(st)
    ensures var tr := ListDestructure(h, p, v, st); AllSettled(st, tr.result, tr.acts)
    decreases p, 1
  {
    hide ListPattern, EvalBody, After, Sound, At, Frame, SettledAt, Interrupted, Count;
    var o, n := h.iterate(v, st.world), |st.world.iterators|;
    if v !in {Undefined, Null} && o.Opens? {
      var st0 := st.(world := After(st.world, o.w));
      var it, open := |st0.world.iterators|, OpenPattern(st0, o.source);
      SoundHere(st, n);
      AfterFrame(st, st.locals, o.w, n);
      SoundHere(st0, n);
      OpenAt(st0, o.source, it);
      BodySettles(h, p, it, o.source, st.closers, open);
      BodyByPosition(h, p, it, o.source, st.closers, open);
      BodyFrame(h, p, it, open, o.source, st.closers, it);
      var body := ListPattern(h, p, it, o.source, st.closers, open);
      OwnSettled(st, open, body.result, it, p, o.source, st.closers);
      SettledEarlier(st, open, body.result, body.acts);
    }
  }

  lemma {:induction false} OwnSettled(st: Store, open: Store, c: Completion, it: nat, p: Pattern, source: Source,
                                      closers: seq<nat>)
    requires PatternFramed(open, c, it, source, closers, PatternSteps(p, source), PatternCloses(p, source), it)
    requires |st.world.iterators| <= it < |open.world.iterators|
    ensures SettledAt(st, c, it, p, source)
  {
    hide Count, Interrupted, Tidy;
  }

  // ----- Values by position -----

  /** The value of position `k` does not hang on user code. */
  predicate Determined(e: Element, values: seq<Value>, k: nat)
  {
    e.Item? && (ItemAt(values, k) != Undefined || e.init.None? || e.init.value.Literal?)
  }

  /** Some world in which `v` iterates over `source`. */
  ghost predicate SourceOf(h: Host, v: Value, source: Source)
  {
    exists w :: h.iterate(v, w).Opens? && h.iterate(v, w).source == source
  }

  ghost predicate PutSomewhere(name: Option<nat>, v: Value, acts: seq<Act>)
  {
    exists obj, key :: Puts(obj, key, v) in acts && (if name.Some? then key == Name(name.value) else key.Computed?)
  }

  ghost predicate Iterated(h: Host, q: Pattern, v: Value, acts: seq<Act>)
  {
    exists it, source :: Iterates(it, q, source) in acts && SourceOf(h, v, source)
  }

  /** A target got `v`: the variable was set to it, it was stored as a property, or a source of it was destructured. */
  ghost predicate Given(h: Host, t: Target, v: Value, acts: seq<Act>)
  {
    match t
    case Variable(x) => Sets(x, v) in acts
    case StaticMember(_, name) => PutSomewhere(Some(name), v, acts)
    case ComputedMember(_, _) => PutSomewhere(None, v, acts)
    case ArrayTarget(q) => Iterated(h, q, v, acts)
  }

  /** Elements `es`, the first at position `k`, got the values at their positions. */
  ghost predicate Placed(h: Host, es: seq<Element>, values: seq<Value>, k: nat, acts: seq<Act>)
  {
    forall i :: 0 <= i < |es| && Determined(es[i], values, k + i) ==>
      Given(h, es[i].target, BoundValue(es[i], values, k + i), acts)
  }

  /** Every position of a pattern got its value from the source, a rest target an array. */
  ghost predicate Covered(h: Host, p: Pattern, source: Source, acts: seq<Act>)
  {
    && Placed(h, p.elements, source.values, 0, acts)
    && (p.rest.Some? ==> exists arr :: Given(h, p.rest.value, ArrayRef(arr), acts))
  }

  ghost predicate AllCovered(h: Host, some: seq<Act>, acts: seq<Act>)
  {
    forall it, q, source :: Iterates(it, q, source) in some ==> Covered(h, q, source, acts)
  }

  lemma {:induction false} GivenMore(h: Host, t: Target, v: Value, acts: seq<Act>, more: seq<Act>)
    requires Given(h, t, v, acts) && forall a :: a in acts ==> a in more
    ensures Given(h, t, v, more)
  {
    hide SourceOf;
  }

  lemma {:induction false} PlacedMore(h: Host, es: seq<Element>, values: seq<Value>, k: nat, acts: seq<Act>,
                                      more: seq<Act>)
    requires Placed(h, es, values, k, acts) && forall a :: a in acts ==> a in more
    ensures Placed(h, es, values, k, more)
  {
    hide Given, BoundValue;
    forall i | 0 <= i < |es| && Determined(es[i], values, k + i)
      ensures Given(h, es[i].target, BoundValue(es[i], values, k + i), more)
    {
      GivenMore(h, es[i].target, BoundValue(es[i], values, k + i), acts, more);
    }
  }

  lemma {:induction false} CoveredMore(h: Host, p: Pattern, source: Source, acts: seq<Act>, more: seq<Act>)
    requires Covered(h, p, source, acts) && forall a :: a in acts ==> a in more
    ensures Covered(h, p, source, more)
  {
    hide Given, Placed;
    PlacedMore(h, p.elements, source.values, 0, acts, more);
    if p.rest.Some? {
      var arr :| Given(h, p.rest.value, ArrayRef(arr), acts);
      GivenMore(h, p.rest.value, ArrayRef(arr), acts, more);
    }
  }

  lemma {:induction false} AllCoveredMore(h: Host, some: seq<Act>, acts: seq<Act>, more: seq<Act>)
    requires AllCovered(h, some, acts) && forall a :: a in acts ==> a in more
    ensures AllCovered(h, some, more)
  {
    hide Covered;
    forall it, q, source | Iterates(it, q, source) in some
      ensures Covered(h, q, source, more)
    {
      CoveredMore(h, q, source, acts, more);
    }
  }

  /** Two parts that cover their own patterns do so together. */
  lemma {:induction false} CoverBoth(h: Host, a: seq<Act>, b: seq<Act>)
    requires AllCovered(h, a, a) && AllCovered(h, b, b)
    ensures AllCovered(h, a + b, a + b)
  {
    hide Covered;
    AllCoveredMore(h, a, a, a + b);
    AllCoveredMore(h, b, b, a + b);
  }

  lemma {:induction false} ResolvedName(h: Host, t: Target, st: Store)
    requires Resolve(h, t, st).Resolved?
    ensures RefersTo(t, Resolve(h, t, st).ref)
  {
    hide Eval;
  }

  lemma {:induction false} AssignCovers(h: Host, t: Target, ref: Reference, v: Value, st: Store)
    requires Tidy(st) && RefersTo(t, ref)
    ensures var tr := ListAssign(h, t, ref, v, st);
            tr.result.Done? ==> Given(h, t, v, tr.acts) && AllCovered(h, tr.acts, tr.acts)
    decreases t, 0
  {
    hide ListDestructure, After, Covered, SourceOf;
    if t.ArrayTarget? {
      DestructureCovers(h, t.pattern, v, st);
    } else if ref.ToProperty? {
      assert Puts(ref.obj, ref.key, v) in ListAssign(h, t, ref, v, st).acts;
    }
  }

  lemma {:induction false} TargetCovers(h: Host, t: Target, want: Want, it: nat, source: Source, k: nat,
                                        closers: seq<nat>, st: Store)
    requires At(st, it, source, k, closers) && Sound(st, it)
    ensures var tr := ListTarget(h, t, want, it, source, k, closers, st);
            tr.result.Done? ==>
              && AllCovered(h, tr.acts, tr.acts)
              && Resolve(h, t, st).Resolved?
              && Taken(h, want, it, source, k, closers, Resolve(h, t, st).st).Returned?
              && Given(h, t, Taken(h, want, it, source, k, closers, Resolve(h, t, st).st).v, tr.acts)
    decreases t, 1
  {
    hide Resolve, Taken, ListAssign, AllCovered, Given, At, Sound, Still, Tidy;
    var r := Resolve(h, t, st);
    ReferenceStill(h, t, it, source, k, closers, st);
    if r.Resolved? {
      ResolvedName(h, t, st);
      TakenStill(h, want, it, source, k, closers, r.st);
      var taken := Taken(h, want, it, source, k, closers, r.st);
      if taken.Returned? {
        AssignCovers(h, t, r.ref, taken.v, taken.st);
      }
    }
  }

  lemma {:induction false} TakenValue(h: Host, e: Element, it: nat, source: Source, k: nat, closers: seq<nat>,
                                      st: Store)
    requires Determined(e, source.values, k) && it < |st.world.iterators|
    ensures var r := Taken(h, OneValue(e.init), it, source, k, closers, st);
            r.Returned? ==> r.v == BoundValue(e, source.values, k)
  {
    hide Advanced;
  }

  lemma {:induction false} ElementCovers(h: Host, e: Element, it: nat, source: Source, k: nat, closers: seq<nat>,
                                         st: Store)
    requires At(st, it, source, k, closers) && Sound(st, it)
    ensures var tr := ListElement(h, e, it, source, k, closers, st);
            tr.result.Done? ==>
              && AllCovered(h, tr.acts, tr.acts)
              && (Determined(e, source.values, k) ==> Given(h, e.target, BoundValue(e, source.values, k), tr.acts))
    decreases e, 0
  {
    hide Taken, ListTarget, Given, BoundValue, Covered, At, Sound, Resolve, Still, Tidy;
    if e.Item? {
      TargetCovers(h, e.target, OneValue(e.init), it, source, k, closers, st);
      ReferenceStill(h, e.target, it, source, k, closers, st);
      var r := Resolve(h, e.target, st);
      if r.Resolved? && Determined(e, source.values, k) {
        TakenValue(h, e, it, source, k, closers, r.st);
      }
    }
  }

  lemma {:induction false} ElementsCover(h: Host, es: seq<Element>, it: nat, source: Source, k: nat, closers: seq<nat>,
                                         st: Store)
    requires At(st, it, source, k, closers) && Sound(st, it)
    ensures var tr := ListElements(h, es, it, source, k, closers, st);
            tr.result.Done? ==> AllCovered(h, tr.acts, tr.acts) && Placed(h, es, source.values, k, tr.acts)
    decreases es, 0
  {
    hide ListElement, Given, BoundValue, Determined, AllCovered, Placed, At, Sound;
    if es == [] {
      CoversNothing(h, source.values, k);
    } else {
      var first := ListElement(h, es[0], it, source, k, closers, st);
      if first.result.Done? {
        ElementCovers(h, es[0], it, source, k, closers, st);
        ElementNext(h, es[0], it, source, k, closers, st);
        ElementsCover(h, es[1..], it, source, k + 1, closers, first.result.st);
        var others := ListElements(h, es[1..], it, source, k + 1, closers, first.result.st);
        if others.result.Done? {
          CoverBoth(h, first.acts, others.acts);
          PlacedBoth(h, es, source.values, k, first.acts, others.acts);
        }
      }
    }
  }

  lemma {:induction false} CoversNothing(h: Host, values: seq<Value>, k: nat)
    ensures AllCovered(h, [], []) && Placed(h, [], values, k, [])
  {}

  lemma {:induction false} PlacedBoth(h: Host, es: seq<Element>, values: seq<Value>, k: nat, a: seq<Act>, b: seq<Act>)
    requires es != [] && Placed(h, es[1..], values, k + 1, b)
    requires Determined(es[0], values, k) ==> Given(h, es[0].target, BoundValue(es[0], values, k), a)
    ensures Placed(h, es, values, k, a + b)
  {
    hide Given, BoundValue;
    forall i | 0 <= i < |es| && Determined(es[i], values, k + i)
      ensures Given(h, es[i].target, BoundValue(es[i], values, k + i), a + b)
    {
      if i == 0 {
        GivenMore(h, es[0].target, BoundValue(es[0], values, k), a, a + b);
      } else {
        assert es[1..][i - 1] == es[i];
        GivenMore(h, es[i].target, BoundValue(es[i], values, k + i), b, a + b);
      }
    }
  }

  lemma {:induction false} BodyCovers(h: Host, p: Pattern, it: nat, source: Source, closers: seq<nat>, st: Store)
    requires At(st, it, source, 0, closers) && Sound(st, it)
    ensures var tr := ListPattern(h, p, it, source, closers, st);
            tr.result.Done? ==> AllCovered(h, tr.acts, tr.acts) && Covered(h, p, source, tr.acts)
    decreases p, 0
  {
    hide ListElements, ListTarget, Given, Placed, AllCovered, At, Sound, After, Taken;
    ElementsCover(h, p.elements, it, source, 0, closers, st);
    var elements := ListElements(h, p.elements, it, source, 0, closers, st);
    if elements.result.Done? && p.rest.Some? {
      var st1, t := elements.result.st, p.rest.value;
      ElementsNext(h, p.elements, it, source, 0, closers, st);
      TargetCovers(h, t, TheRest, it, source, |p.elements|, closers, st1);
      var rest := ListTarget(h, t, TheRest, it, source, |p.elements|, closers, st1);
      if rest.result.Done? {
        RestIsArray(h, t, it, source, |p.elements|, closers, st1);
        CoverBoth(h, elements.acts, rest.acts);
        PlacedMore(h, p.elements, source.values, 0, elements.acts, elements.acts + rest.acts);
        var v := Taken(h, TheRest, it, source, |p.elements|, closers, Resolve(h, t, st1).st).v;
        GivenMore(h, t, v, rest.acts, elements.acts + rest.acts);
        assert Given(h, t, ArrayRef(v.slot), elements.acts + rest.acts);
      }
    }
  }

  lemma {:induction false} RestIsArray(h: Host, t: Target, it: nat, source: Source, k: nat, closers: seq<nat>,
                                       st: Store)
    requires At(st, it, source, k, closers) && Sound(st, it) && Resolve(h, t, st).Resolved?
    ensures var r := Taken(h, TheRest, it, source, k, closers, Resolve(h, t, st).st);
            r.Returned? ==> r.v.ArrayRef?
  {
    hide At, Sound, Resolve, Still, Tidy, CollectedFrom;
    ReferenceStill(h, t, it, source, k, closers, st);
  }

  /** A pattern that completes gave every position of every nested pattern its value. */
  lemma {:induction false} DestructureCovers(h: Host, p: Pattern, v: Value, st: Store)
    requires Tidy(st)
    ensures var tr := ListDestructure(h, p, v, st);
            tr.result.Done? ==> AllCovered(h, tr.acts, tr.acts) && Iterated(h, p, v, tr.acts)
    decreases p, 1
  {
    hide ListPattern, Covered, After, Sound, At, Frame;
    var o, n := h.iterate(v, st.world), |st.world.iterators|;
    if v !in {Undefined, Null} && o.Opens? {
      var st0 := st.(world := After(st.world, o.w));
      var it := |st0.world.iterators|;
      SoundHere(st, n);
      AfterFrame(st, st.locals, o.w, n);
      SoundHere(st0, n);
      OpenAt(st0, o.source, it);
      var body := ListPattern(h, p, it, o.source, st.closers, OpenPattern(st0, o.source));
      if body.result.Done? {
        BodyCovers(h, p, it, o.source, st.closers, OpenPattern(st0, o.source));
        CoverOne(h, it, p, o.source, body.acts);
        assert SourceOf(h, v, o.source);
        assert Iterates(it, p, o.source) in ListDestructure(h, p, v, st).acts;
      }
    }
  }

  lemma {:induction false} CoverOne(h: Host, it: nat, p: Pattern, source: Source, acts: seq<Act>)
    requires AllCovered(h, acts, acts) && Covered(h, p, source, acts)
    ensures var more := [Iterates(it, p, source)] + acts; AllCovered(h, more, more)
  {
    hide Covered;
    var more := [Iterates(it, p, source)] + acts;
    AllCoveredMore(h, acts, acts, more);
    CoveredMore(h, p, source, acts, more);
  }

  // ----- Meaning of a nested pattern -----

  predicate VariableAt(e: Element, x: Reg, values: seq<Value>, k: nat)
  {
    Writes(e, x) && Determined(e, values, k)
  }

  /** The variables of one pattern hold the values at their positions. */
  ghost predicate Holds(q: Pattern, values: seq<Value>, locals: seq<Value>)
  {
    forall i, x: nat :: 0 <= i < |q.elements| && x < |locals| && VariableAt(q.elements[i], x, values, i) ==>
      locals[x] == BoundValue(q.elements[i], values, i)
  }

  lemma {:induction false} CoveredHolds(h: Host, q: Pattern, source: Source, acts: seq<Act>, locals: seq<Value>)
    requires Covered(h, q, source, acts) && NoRepeats(Slots(acts))
    ensures Holds(q, source.values, Applied(locals, acts))
  {
    hide NoRepeats, BoundValue, Determined, Applied, Slots;
    forall i, x: nat | 0 <= i < |q.elements| && x < |locals| && VariableAt(q.elements[i], x, source.values, i)
      ensures Applied(locals, acts)[x] == BoundValue(q.elements[i], source.values, i)
    {
      var v := BoundValue(q.elements[i], source.values, i);
      assert Given(h, q.elements[i].target, v, acts);
      SetOnce(locals, acts, x, v);
    }
  }

  /** `[a, [b, o.c = 1, ...d], ...[e]] = v` and any nesting like it. The outermost iterator is over `v`; every nested
      pattern iterates the value at its position. A pattern that completes has assigned its targets once each in pattern
      order, each with the value at its position in its own source; variables not in the pattern are as before, the
      properties stored are those of the pattern and no others, and every iterator is settled. */
  lemma {:induction false} NestedPattern(h: Host, p: Pattern, v: Value, st: Store)
    requires QuietPattern(p) && Tidy(st)
    ensures var r, tr := Destructure(h, p, v, st), ListDestructure(h, p, v, st);
            && r == tr.result && Stores(r.st.log) == Stores(st.log) + PutEvents(tr.acts)
            && (r.Done? ==>
                  && v !in {Undefined, Null} && h.iterate(v, st.world).Opens? && tr.acts != []
                  && tr.acts[0] == Iterates(|After(st.world, h.iterate(v, st.world).w).iterators|, p,
                                            h.iterate(v, st.world).source)
                  && Slots(tr.acts) == PatternSlots(p) && r.st.closers == st.closers
                  && |r.st.locals| == |st.locals|
                  && (forall x: nat :: x < |st.locals| && OfVariable(x) !in PatternSlots(p) ==>
                        r.st.locals[x] == st.locals[x])
                  && (forall it, q, source :: Iterates(it, q, source) in tr.acts ==>
                        && Covered(h, q, source, tr.acts) && SettledAt(st, r, it, q, source)
                        && (NoRepeats(PatternSlots(p)) ==> Holds(q, source.values, r.st.locals))))
  {
    hide Destructure, ListPattern, QuietPattern, PatternSlots, Slots, Applied, Stores, PutEvents, Covered, SettledAt,
         Holds, NoRepeats, Frame, Sound, After, Broken;
    var tr, n := ListDestructure(h, p, v, st), |st.world.iterators|;
    DestructureByPosition(h, p, v, st);
    DestructureShows(h, p, v, st);
    if tr.result.Done? {
      TidySound(st);
      DestructureFrame(h, p, v, st, n);
      DestructureCovers(h, p, v, st);
      DestructureSettles(h, p, v, st);
      forall x: nat | x < |st.locals| && OfVariable(x) !in PatternSlots(p)
        ensures tr.result.st.locals[x] == st.locals[x]
      {
        OthersUnset(st.locals, tr.acts, x);
      }
      if NoRepeats(PatternSlots(p)) {
        forall it, q, source | Iterates(it, q, source) in tr.acts
          ensures Holds(q, source.values, tr.result.st.locals)
        {
          CoveredHolds(h, q, source, tr.acts, st.locals);
        }
      }
    }
  }

  // ----- Runs of the emitted code -----

  /** `pattern = source` from its parts; its value is that of the source. */
  function AssignmentMeaning(h: Host, e: Expr, st: Store): (r: EvalResult)
    requires e.ArrayAssign?
  {
    match Eval(h, e.source, st)
    case Threw(error, st1) => Threw(error, st1)
    case Returned(v, st1) =>
      match ListDestructure(h, e.pattern, v, st1).result
      case Failed(error, st2) => Threw(error, st2)
      case Done(st2) => Returned(v, st2)
  }

  /** Running the code of any `pattern = source` does what its parts say, nested patterns included. */
  lemma {:induction false} PatternRun(h: Host, e: Expr, m: Reg, code: seq<Instr>, p: nat, s: State) returns (c: Config)
    requires e.ArrayAssign? && Runnable(h, e, m, code, p, s) && Tidy(StoreOf(h, s))
    ensures Runs(h, code, Running(p, s), c)
    ensures ExprPost(h, CompileExpr(e, m), m, p, s, AssignmentMeaning(h, e, StoreOf(h, s)), c)
  {
    hide Runs, CodeAt, CompileExpr, Scoped, Frame, Broken, Tidy, Destructure, ListDestructure;
    c := ExprRuns(h, e, m, code, p, s);
    var st := StoreOf(h, s);
    TidySound(st);
    EvalFrame(h, e.source, st, |st.world.iterators|);
    var v := Eval(h, e.source, st);
    if v.Returned? {
      SoundTidy(v.st, |st.world.iterators|);
      DestructureByPosition(h, e.pattern, v.v, v.st);
    }
  }
}
