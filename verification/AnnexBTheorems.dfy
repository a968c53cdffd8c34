/**
  * The Annex B walk, judged against a definition by paths: a name is a candidate exactly when some plain function of
  * that name can be reached by a path of statements on which no scope declares it.
  */
module AnnexBTheorems {
  import opened Prelude
  import opened AnnexB

  // ----- Paths -----

  /** One step into a statement. Nested functions are not entered, so nothing steps into one. */
  datatype Step =
    | Item(i: nat) | Then | Else | Loop | Label
    | TryItem(i: nat) | CatchItem(i: nat) | FinallyItem(i: nat) | CaseItem(c: nat, i: nat)

  function At(stmts: seq<Statement>, i: nat): (st: Option<Statement>)
  {
    if i < |stmts| then Some(stmts[i]) else None
  }

  /** Statements with one body statement that may open a for-head scope (`with` has the same form and opens none). */
  predicate IsLoop(st: Statement)
  {
    || st.ForStatement? || st.ForInStatement? || st.ForOfStatement?
    || st.WhileStatement? || st.DoWhileStatement? || st.WithStatement?
  }

  function Child(st: Statement, step: Step): (child: Option<Statement>)
  {
    match step
    case Item(i) => if st.BlockStatement? then At(st.body, i) else None
    case Then => if st.IfStatement? then Some(st.consequent) else None
    case Else => if st.IfStatement? then st.alternate else None
    case Loop => if IsLoop(st) then Some(st.loop) else None
    case Label => if st.LabeledStatement? then Some(st.labeled) else None
    case TryItem(i) => if st.TryStatement? then At(st.block, i) else None
    case CatchItem(i) => if st.TryStatement? && st.handler.Some? then At(st.handler.value.body, i) else None
    case FinallyItem(i) => if st.TryStatement? && st.finalizer.Finalizer? then At(st.finalizer.body, i) else None
    case CaseItem(c, i) => if st.SwitchStatement? && c < |st.cases| then At(st.cases[c].consequent, i) else None
  }

  // ----- What a scope declares -----

  /** A name a pattern binds; `collected` tells whether the leaf collector finds it. */
  datatype Leaf = Leaf(name: string, collected: bool)

  /** The identifiers of a pattern. One directly under a default is not collected. */
  function Leaves(p: Pattern, direct: bool): (leaves: seq<Leaf>)
    decreases p
  {
    match p
    case Identifier(name) => [Leaf(name, direct)]
    case WithDefault(left) => Leaves(left, false)
    case ArrayPattern(elements, rest) =>
      LeavesOfElements(elements) + if rest.Some? then Leaves(rest.value, true) else []
    case ObjectPattern(values, rest) => LeavesOfValues(values) + if rest.Some? then Leaves(rest.value, true) else []
  }

  function LeavesOfElement(e: Element): (leaves: seq<Leaf>)
    decreases e
  {
    if e.Element? then Leaves(e.pattern, true) else []
  }

  function LeavesOfElements(elements: seq<Element>): (leaves: seq<Leaf>)
    decreases elements
  {
    if elements == [] then [] else LeavesOfElement(elements[0]) + LeavesOfElements(elements[1..])
  }

  function LeavesOfValues(values: seq<Pattern>): (leaves: seq<Leaf>)
    decreases values
  {
    if values == [] then [] else Leaves(values[0], true) + LeavesOfValues(values[1..])
  }

  predicate Binds(p: Pattern, n: string)
  {
    exists x :: 0 <= x < |Leaves(p, true)| && Leaves(p, true)[x].name == n
  }

  /** A `let` or `const` that binds `n`. */
  predicate DeclarationBinds(d: Declaration, n: string)
  {
    d.lexical && exists i :: 0 <= i < |d.ids| && Binds(d.ids[i], n)
  }

  /** The statement declares `n` by `let`, `const` or `class`. */
  predicate DeclaresLexically(st: Statement, n: string)
  {
    match st
    case VariableDeclaration(d) => DeclarationBinds(d, n)
    case ClassDeclaration(id) => id == Some(n)
    case _ => false
  }

  predicate DeclaresFunction(st: Statement, n: string)
  {
    st.FunctionDeclaration? && st.f.name == Some(n)
  }

  /** Some statement of the list declares `n`; functions count only when asked for. */
  predicate ListDeclares(stmts: seq<Statement>, functions: bool, n: string)
  {
    exists i :: 0 <= i < |stmts| && (DeclaresLexically(stmts[i], n) || (functions && DeclaresFunction(stmts[i], n)))
  }

  predicate CasesDeclare(cases: seq<Case>, functions: bool, n: string)
  {
    exists c :: 0 <= c < |cases| && ListDeclares(cases[c].consequent, functions, n)
  }

  predicate HeadDeclares(head: Option<Declaration>, n: string)
  {
    head.Some? && DeclarationBinds(head.value, n)
  }

  /** A destructuring catch parameter declares its names, except those the leaf collector misses. */
  predicate CatchDeclares(param: Option<Pattern>, n: string)
  {
    && param.Some? && !param.value.Identifier?
    && var leaves := Leaves(param.value, true);
       exists x :: 0 <= x < |leaves| && leaves[x].name == n && leaves[x].collected
  }

  /** The scope this step enters declares `n`, other than by its own functions. */
  predicate ScopeDeclares(st: Statement, step: Step, n: string)
    requires Child(st, step).Some?
  {
    match step
    case Item(_) => ListDeclares(st.body, false, n)
    case Loop =>
      if st.ForStatement? then HeadDeclares(st.init, n)
      else (st.ForInStatement? || st.ForOfStatement?) && HeadDeclares(st.left, n)
    case TryItem(_) => ListDeclares(st.block, false, n)
    case CatchItem(_) => CatchDeclares(st.handler.value.param, n) || ListDeclares(st.handler.value.body, false, n)
    case FinallyItem(_) => ListDeclares(st.finalizer.body, false, n)
    case CaseItem(_, _) => CasesDeclare(st.cases, false, n)
    case _ => false
  }

  /** The scope this step enters declares `n` in any way, which blocks everything strictly deeper. */
  predicate NestedDeclares(st: Statement, step: Step, n: string)
    requires Child(st, step).Some?
  {
    match step
    case Item(_) => ListDeclares(st.body, true, n)
    case TryItem(_) => ListDeclares(st.block, true, n)
    case CatchItem(_) => ListDeclares(st.handler.value.body, true, n)
    case FinallyItem(_) => ListDeclares(st.finalizer.body, true, n)
    case CaseItem(_, _) => CasesDeclare(st.cases, true, n)
    case _ => false
  }

  /** The path ends at a plain declaration of `n` (not ambient, async or a generator), and no scope on the way declares
      `n`. */
  ghost predicate Reaches(st: Statement, path: seq<Step>, n: string)
    decreases |path|
  {
    && path != [] && Child(st, path[0]).Some?
    && var child := Child(st, path[0]).value;
       && !ScopeDeclares(st, path[0], n)
       && if |path| == 1 then
            && child.FunctionDeclaration? && child.f.name == Some(n)
            && !child.f.declare && !child.f.isAsync && !child.f.isGenerator
          else !NestedDeclares(st, path[0], n) && Reaches(child, path[1..], n)
  }

  // ----- The collectors find what scopes declare -----

  lemma {:induction false} BindsExact(p: Pattern, n: string)
    ensures n in BoundNames(p) <==> Binds(p, n)
  {
    hide Leaves, BoundNames, LeafOrName, LeafNames;
    DescribesPattern(p);
  }

  /** The names of a declaration are the names its patterns bind. */
  lemma {:induction false} DeclarationExact(d: Declaration, n: string)
    ensures d.lexical ==> (n in DeclarationNames(d.ids) <==> DeclarationBinds(d, n))
  {
    hide DeclarationNames, BoundNames, Binds;
    DeclarationNamesComplete(d.ids, n);
    forall i | 0 <= i < |d.ids|
      ensures n in BoundNames(d.ids[i]) <==> Binds(d.ids[i], n)
    {
      BindsExact(d.ids[i], n);
    }
  }

  /** The names of a for head are those of its `let` or `const` declaration, if it has one. */
  lemma {:induction false} HeadNamesExact(head: Option<Declaration>, n: string)
    ensures n in HeadNames(head) <==> HeadDeclares(head, n)
  {
    hide DeclarationNames, DeclarationBinds;
    if head.Some? {
      DeclarationExact(head.value, n);
      NotLexical(head.value, n);
    }
  }

  lemma {:induction false} NotLexical(d: Declaration, n: string)
    ensures !d.lexical ==> !DeclarationBinds(d, n)
  {}

  /** The lexical names of a list are those of its `let`, `const` and `class` declarations and, when asked for, of its
      functions. */
  lemma {:induction false} LexicalNamesExact(stmts: seq<Statement>, functions: bool, n: string)
    ensures n in LexicalNames(stmts, functions) <==> ListDeclares(stmts, functions, n)
  {
    hide DeclarationNames, DeclarationBinds;
    if stmts != [] {
      LexicalNamesExact(stmts[1..], functions, n);
      var st := stmts[0];
      if st.VariableDeclaration? {
        DeclarationExact(st.d, n);
        NotLexical(st.d, n);
      }
      assert forall i :: 0 < i < |stmts| ==> stmts[i] == stmts[1..][i - 1];
      assert forall i :: 0 <= i < |stmts| - 1 ==> stmts[1..][i] == stmts[i + 1];
    }
  }

  lemma {:induction false} CaseNamesExact(cases: seq<Case>, functions: bool, n: string)
    ensures n in CaseNames(cases, functions) <==> CasesDeclare(cases, functions, n)
  {
    hide LexicalNames, ListDeclares;
    if cases != [] {
      CaseNamesExact(cases[1..], functions, n);
      LexicalNamesExact(cases[0].consequent, functions, n);
      assert forall c :: 0 < c < |cases| ==> cases[c] == cases[1..][c - 1];
      assert forall c :: 0 <= c < |cases| - 1 ==> cases[1..][c] == cases[c + 1];
    }
  }

  lemma {:induction false} CatchNamesFound(param: Option<Pattern>, n: string)
    ensures n in CatchNames(param) <==> CatchDeclares(param, n)
  {
    hide Leaves, BoundNames, LeafOrName;
    if param.Some? {
      DescribesPattern(param.value);
    }
  }

  /** Names declared by the scope this step enters, other than by its own functions. */
  function ScopeNames(st: Statement, step: Step): (names: set<string>)
    requires Child(st, step).Some?
  {
    match step
    case Item(_) => LexicalNames(st.body, false)
    case Loop =>
      if st.ForStatement? then HeadNames(st.init)
      else if st.ForInStatement? || st.ForOfStatement? then HeadNames(st.left) else {}
    case TryItem(_) => LexicalNames(st.block, false)
    case CatchItem(_) => CatchNames(st.handler.value.param) + LexicalNames(st.handler.value.body, false)
    case FinallyItem(_) => LexicalNames(st.finalizer.body, false)
    case CaseItem(_, _) => CaseNames(st.cases, false)
    case _ => {}
  }

  /** Names the scope this step enters declares in any way: they block everything strictly deeper. */
  function NestedNames(st: Statement, step: Step): (names: set<string>)
    requires Child(st, step).Some?
  {
    match step
    case Item(_) => LexicalNames(st.body, true)
    case TryItem(_) => LexicalNames(st.block, true)
    case CatchItem(_) => LexicalNames(st.handler.value.body, true)
    case FinallyItem(_) => LexicalNames(st.finalizer.body, true)
    case CaseItem(_, _) => CaseNames(st.cases, true)
    case _ => {}
  }

  /** The same path in terms of the name collectors. */
  ghost predicate Unblocked(st: Statement, path: seq<Step>, n: string)
    decreases |path|
  {
    && path != [] && Child(st, path[0]).Some?
    && var child := Child(st, path[0]).value;
       && n !in ScopeNames(st, path[0])
       && if |path| == 1 then child.FunctionDeclaration? && child.f.Plain() && child.f.name == Some(n)
          else n !in NestedNames(st, path[0]) && Unblocked(child, path[1..], n)
  }

  lemma {:induction false} ScopeExact(st: Statement, step: Step, n: string)
    requires Child(st, step).Some?
    ensures n in ScopeNames(st, step) <==> ScopeDeclares(st, step, n)
    ensures n in NestedNames(st, step) <==> NestedDeclares(st, step, n)
  {
    hide LexicalNames, ListDeclares, HeadNames, HeadDeclares, CatchNames, CatchDeclares, CaseNames, CasesDeclare;
    match step
    case Item(_) => ListExact(st.body, n);
    case Loop =>
      if st.ForStatement? {
        HeadNamesExact(st.init, n);
      } else if st.ForInStatement? || st.ForOfStatement? {
        HeadNamesExact(st.left, n);
      }
    case TryItem(_) => ListExact(st.block, n);
    case CatchItem(_) =>
      CatchNamesFound(st.handler.value.param, n);
      ListExact(st.handler.value.body, n);
    case FinallyItem(_) => ListExact(st.finalizer.body, n);
    case CaseItem(_, _) =>
      CaseNamesExact(st.cases, false, n);
      CaseNamesExact(st.cases, true, n);
    case _ =>
  }

  lemma {:induction false} ListExact(stmts: seq<Statement>, n: string)
    ensures n in LexicalNames(stmts, false) <==> ListDeclares(stmts, false, n)
    ensures n in LexicalNames(stmts, true) <==> ListDeclares(stmts, true, n)
  {
    LexicalNamesExact(stmts, false, n);
    LexicalNamesExact(stmts, true, n);
  }

  lemma {:induction false} ReachesExact(st: Statement, path: seq<Step>, n: string)
    ensures Reaches(st, path, n) <==> Unblocked(st, path, n)
    decreases |path|
  {
    hide ScopeNames, NestedNames, ScopeDeclares, NestedDeclares;
    if path != [] && Child(st, path[0]).Some? {
      ScopeExact(st, path[0], n);
      if |path| > 1 {
        ReachesExact(Child(st, path[0]).value, path[1..], n);
      }
    }
  }

  // ----- Membership, one list at a time -----

  predicate Declares(st: Statement, n: string, blocked: set<string>)
  {
    st.FunctionDeclaration? && st.f.Plain() && st.f.name == Some(n) && n !in blocked
  }

  lemma {:induction false} InDirect(stmts: seq<Statement>, blocked: set<string>, n: string)
    ensures n in Direct(stmts, blocked) <==> exists i :: 0 <= i < |stmts| && Declares(stmts[i], n, blocked)
  {
    if stmts != [] {
      InDirect(stmts[1..], blocked, n);
      assert forall i :: 0 < i < |stmts| ==> stmts[i] == stmts[1..][i - 1];
      assert forall i :: 0 <= i < |stmts| - 1 ==> stmts[1..][i] == stmts[i + 1];
      assert n in Direct([stmts[0]], blocked) <==> Declares(stmts[0], n, blocked);
    }
  }

  lemma {:induction false} InList(stmts: seq<Statement>, blocked: set<string>, n: string)
    ensures n in OfList(stmts, blocked) <==> exists i :: 0 <= i < |stmts| && n in OfStatement(stmts[i], blocked)
  {
    hide OfStatement;
    if stmts != [] {
      InList(stmts[1..], blocked, n);
      assert forall i :: 0 < i < |stmts| ==> stmts[i] == stmts[1..][i - 1];
      assert forall i :: 0 <= i < |stmts| - 1 ==> stmts[1..][i] == stmts[i + 1];
    }
  }

  /** `n` comes from item `i`: declared there, or deeper. */
  predicate FromItem(st: Statement, n: string, here: set<string>, nested: set<string>)
  {
    Declares(st, n, here) || n in OfStatement(st, nested)
  }

  lemma {:induction false} InBlock(stmts: seq<Statement>, blocked: set<string>, n: string)
    ensures var here := blocked + LexicalNames(stmts, false);
            var nested := here + LexicalNames(stmts, true);
            n in OfBlock(stmts, blocked) <==> exists i :: 0 <= i < |stmts| && FromItem(stmts[i], n, here, nested)
  {
    hide OfStatement, OfList, Direct;
    var here := blocked + LexicalNames(stmts, false);
    var nested := here + LexicalNames(stmts, true);
    InDirect(stmts, here, n);
    InList(stmts, nested, n);
  }

  lemma {:induction false} InCases(cases: seq<Case>, here: set<string>, nested: set<string>, n: string)
    ensures n in DirectInCases(cases, here) || n in OfCases(cases, nested) <==>
            exists c, i :: 0 <= c < |cases| && 0 <= i < |cases[c].consequent|
              && FromItem(cases[c].consequent[i], n, here, nested)
  {
    hide OfStatement, OfList, Direct;
    if cases != [] {
      InCases(cases[1..], here, nested, n);
      InDirect(cases[0].consequent, here, n);
      InList(cases[0].consequent, nested, n);
      assert forall c :: 0 < c < |cases| ==> cases[c] == cases[1..][c - 1];
      assert forall c :: 0 <= c < |cases| - 1 ==> cases[1..][c] == cases[c + 1];
    }
  }

  // ----- One step of the walk is one step of a path -----

  ghost predicate FromStep(st: Statement, step: Step, blocked: set<string>, n: string)
  {
    && Child(st, step).Some?
    && var here := blocked + ScopeNames(st, step);
       FromItem(Child(st, step).value, n, here, here + NestedNames(st, step))
  }

  lemma {:induction false} InBranch(st: Statement, blocked: set<string>, n: string)
    ensures n in OfBranch(st, blocked) <==> FromItem(st, n, blocked, blocked + {})
  {
    assert blocked + {} == blocked;
  }

  lemma {:induction false} TryStepFound(st: Statement, blocked: set<string>, n: string) returns (step: Step)
    requires st.TryStatement? && n in OfStatement(st, blocked)
    ensures FromStep(st, step, blocked, n)
  {
    hide OfBlock, LexicalNames, CatchNames, Declares;
    if n in OfBlock(st.block, blocked) {
      InBlock(st.block, blocked, n);
      var here := blocked + LexicalNames(st.block, false);
      var i :| 0 <= i < |st.block| && FromItem(st.block[i], n, here, here + LexicalNames(st.block, true));
      step := TryItem(i);
    } else if st.handler.Some? && n in OfBlock(st.handler.value.body, blocked + CatchNames(st.handler.value.param)) {
      var body, outer := st.handler.value.body, blocked + CatchNames(st.handler.value.param);
      InBlock(body, outer, n);
      var here := outer + LexicalNames(body, false);
      var i :| 0 <= i < |body| && FromItem(body[i], n, here, here + LexicalNames(body, true));
      step := CatchItem(i);
      assert here == blocked + ScopeNames(st, step);
    } else {
      var body := st.finalizer.body;
      InBlock(body, blocked, n);
      var here := blocked + LexicalNames(body, false);
      var i :| 0 <= i < |body| && FromItem(body[i], n, here, here + LexicalNames(body, true));
      step := FinallyItem(i);
    }
  }

  lemma {:induction false} StepFound(st: Statement, blocked: set<string>, n: string) returns (step: Step)
    requires n in OfStatement(st, blocked)
    ensures FromStep(st, step, blocked, n)
  {
    hide OfBlock, OfBranch, LexicalNames, CaseNames, HeadNames, DirectInCases, OfCases, Declares;
    assert blocked + {} == blocked;
    if st.BlockStatement? {
      InBlock(st.body, blocked, n);
      var here := blocked + LexicalNames(st.body, false);
      var i :| 0 <= i < |st.body| && FromItem(st.body[i], n, here, here + LexicalNames(st.body, true));
      step := Item(i);
    } else if st.IfStatement? {
      InBranch(st.consequent, blocked, n);
      if n in OfBranch(st.consequent, blocked) {
        step := Then;
      } else {
        InBranch(st.alternate.value, blocked, n);
        step := Else;
      }
    } else if st.LabeledStatement? {
      InBranch(st.labeled, blocked, n);
      step := Label;
    } else if st.TryStatement? {
      step := TryStepFound(st, blocked, n);
    } else if st.SwitchStatement? {
      var here := blocked + CaseNames(st.cases, false);
      var nested := here + CaseNames(st.cases, true);
      InCases(st.cases, here, nested, n);
      var c, i :| 0 <= c < |st.cases| && 0 <= i < |st.cases[c].consequent|
                  && FromItem(st.cases[c].consequent[i], n, here, nested);
      step := CaseItem(c, i);
    } else {
      step := Loop;
      InBranch(st.loop, blocked + ScopeNames(st, step), n);
    }
  }

  lemma {:induction false} TryStepCounts(st: Statement, step: Step, blocked: set<string>, n: string)
    requires st.TryStatement? && FromStep(st, step, blocked, n)
    ensures n in OfStatement(st, blocked)
  {
    hide OfBlock, LexicalNames, CatchNames, Declares;
    match step
    case TryItem(i) => InBlock(st.block, blocked, n);
    case CatchItem(i) =>
      var body, outer := st.handler.value.body, blocked + CatchNames(st.handler.value.param);
      assert outer + LexicalNames(body, false) == blocked + ScopeNames(st, step);
      InBlock(body, outer, n);
    case FinallyItem(i) => InBlock(st.finalizer.body, blocked, n);
  }

  lemma {:induction false} StepCounts(st: Statement, step: Step, blocked: set<string>, n: string)
    requires FromStep(st, step, blocked, n)
    ensures n in OfStatement(st, blocked)
  {
    hide OfBlock, OfBranch, LexicalNames, CaseNames, HeadNames, DirectInCases, OfCases, Declares;
    assert blocked + {} == blocked;
    if st.BlockStatement? {
      InBlock(st.body, blocked, n);
    } else if st.IfStatement? {
      InBranch(if step == Then then st.consequent else st.alternate.value, blocked, n);
    } else if st.LabeledStatement? {
      InBranch(st.labeled, blocked, n);
    } else if st.TryStatement? {
      TryStepCounts(st, step, blocked, n);
    } else if st.SwitchStatement? {
      var here := blocked + CaseNames(st.cases, false);
      InCases(st.cases, here, here + CaseNames(st.cases, true), n);
    } else {
      InBranch(st.loop, blocked + ScopeNames(st, step), n);
    }
  }

  // ----- Soundness and completeness -----

  /** A candidate name has a path. */
  lemma {:induction false} CandidateHasPath(st: Statement, blocked: set<string>, n: string) returns (path: seq<Step>)
    requires n in OfStatement(st, blocked)
    ensures n !in blocked && Unblocked(st, path, n)
    decreases st
  {
    hide OfStatement;
    var step := StepFound(st, blocked, n);
    var child := Child(st, step).value;
    var here := blocked + ScopeNames(st, step);
    if Declares(child, n, here) {
      path := [step];
    } else {
      var rest := CandidateHasPath(child, here + NestedNames(st, step), n);
      path := [step] + rest;
      assert path[1..] == rest;
    }
  }

  /** A path makes a name a candidate. */
  lemma {:induction false} PathIsCandidate(st: Statement, blocked: set<string>, n: string, path: seq<Step>)
    requires n !in blocked && Unblocked(st, path, n)
    ensures n in OfStatement(st, blocked)
    decreases |path|
  {
    hide OfStatement, ScopeNames, NestedNames;
    var here := blocked + ScopeNames(st, path[0]);
    if |path| > 1 {
      PathIsCandidate(Child(st, path[0]).value, here + NestedNames(st, path[0]), n, path[1..]);
    }
    StepCounts(st, path[0], blocked, n);
  }

  /** The walk returns a name exactly when some top-level statement has a path to a plain function of that name that no
      initial blocker and no scope on the path declares; and it returns no name twice. */
  lemma {:induction false} CandidatesAreReachable(stmts: seq<Statement>, blocked: set<string>, n: string)
    ensures n in Candidates(stmts, blocked) <==>
            n !in blocked && exists i, path :: 0 <= i < |stmts| && Reaches(stmts[i], path, n)
    ensures NoDuplicates(Candidates(stmts, blocked))
  {
    hide OfStatement, Reaches, Unblocked, OfList, AddAll;
    AddAllMembers([], OfList(stmts, blocked));
    InList(stmts, blocked, n);
    if n in OfList(stmts, blocked) {
      var i :| 0 <= i < |stmts| && n in OfStatement(stmts[i], blocked);
      var path := CandidateHasPath(stmts[i], blocked, n);
      ReachesExact(stmts[i], path, n);
    }
    if n !in blocked && exists i, path :: 0 <= i < |stmts| && Reaches(stmts[i], path, n) {
      var i, path :| 0 <= i < |stmts| && Reaches(stmts[i], path, n);
      ReachesExact(stmts[i], path, n);
      PathIsCandidate(stmts[i], blocked, n, path);
    }
  }

  // ----- Blocking is name-local -----

  function Without(names: seq<string>, xs: set<string>): (r: seq<string>)
  {
    if names == [] then []
    else (if names[0] in xs then [] else [names[0]]) + Without(names[1..], xs)
  }

  lemma {:induction false} WithoutConcat(a: seq<string>, b: seq<string>, xs: set<string>)
    ensures Without(a + b, xs) == Without(a, xs) + Without(b, xs)
  {
    if a == [] {
      assert a + b == b;
    } else {
      assert (a + b)[0] == a[0] && (a + b)[1..] == a[1..] + b;
      WithoutConcat(a[1..], b, xs);
    }
  }

  lemma {:induction false} BlockedSwap(blocked: set<string>, names: set<string>, xs: set<string>)
    ensures blocked + xs + names == blocked + names + xs
  {}

  lemma {:induction false} DirectLocal(stmts: seq<Statement>, blocked: set<string>, xs: set<string>)
    ensures Direct(stmts, blocked + xs) == Without(Direct(stmts, blocked), xs)
  {
    if stmts != [] {
      var head := if stmts[0].FunctionDeclaration? then Recorded(stmts[0].f, blocked) else [];
      WithoutConcat(head, Direct(stmts[1..], blocked), xs);
      DirectLocal(stmts[1..], blocked, xs);
      assert head != [] ==> head[1..] == [];
    }
  }

  lemma {:induction false} DirectCasesLocal(cases: seq<Case>, blocked: set<string>, xs: set<string>)
    ensures DirectInCases(cases, blocked + xs) == Without(DirectInCases(cases, blocked), xs)
  {
    hide Direct;
    if cases != [] {
      WithoutConcat(Direct(cases[0].consequent, blocked), DirectInCases(cases[1..], blocked), xs);
      DirectLocal(cases[0].consequent, blocked, xs);
      DirectCasesLocal(cases[1..], blocked, xs);
    }
  }

  lemma {:induction false} BranchLocal(st: Statement, blocked: set<string>, xs: set<string>)
    ensures OfBranch(st, blocked + xs) == Without(OfBranch(st, blocked), xs)
    decreases st, 2
  {
    hide OfStatement;
    if st.FunctionDeclaration? {
      assert OfBranch(st, blocked) != [] ==> OfBranch(st, blocked)[1..] == [];
    } else {
      StatementLocal(st, blocked, xs);
    }
  }

  lemma {:induction false} HeadLocal(st: Statement, blocked: set<string>, names: set<string>, xs: set<string>)
    ensures OfBranch(st, blocked + xs + names) == Without(OfBranch(st, blocked + names), xs)
    decreases st, 3
  {
    BlockedSwap(blocked, names, xs);
    BranchLocal(st, blocked + names, xs);
  }

  lemma {:induction false} ListLocal(stmts: seq<Statement>, blocked: set<string>, xs: set<string>)
    ensures OfList(stmts, blocked + xs) == Without(OfList(stmts, blocked), xs)
    decreases stmts, 0
  {
    hide OfStatement;
    if stmts != [] {
      WithoutConcat(OfStatement(stmts[0], blocked), OfList(stmts[1..], blocked), xs);
      StatementLocal(stmts[0], blocked, xs);
      ListLocal(stmts[1..], blocked, xs);
    }
  }

  lemma {:induction false} CasesLocal(cases: seq<Case>, blocked: set<string>, xs: set<string>)
    ensures OfCases(cases, blocked + xs) == Without(OfCases(cases, blocked), xs)
    decreases cases, 0
  {
    hide OfList;
    if cases != [] {
      WithoutConcat(OfList(cases[0].consequent, blocked), OfCases(cases[1..], blocked), xs);
      ListLocal(cases[0].consequent, blocked, xs);
      CasesLocal(cases[1..], blocked, xs);
    }
  }

  lemma {:induction false} BlockLocal(stmts: seq<Statement>, blocked: set<string>, xs: set<string>)
    ensures OfBlock(stmts, blocked + xs) == Without(OfBlock(stmts, blocked), xs)
    decreases stmts, 1
  {
    hide OfList, Direct, LexicalNames;
    var lexical, all := LexicalNames(stmts, false), LexicalNames(stmts, true);
    BlockedSwap(blocked, lexical, xs);
    BlockedSwap(blocked + lexical, all, xs);
    WithoutConcat(Direct(stmts, blocked + lexical), OfList(stmts, blocked + lexical + all), xs);
    DirectLocal(stmts, blocked + lexical, xs);
    ListLocal(stmts, blocked + lexical + all, xs);
  }

  lemma {:induction false} SwitchLocal(st: Statement, blocked: set<string>, xs: set<string>)
    requires st.SwitchStatement?
    ensures OfStatement(st, blocked + xs) == Without(OfStatement(st, blocked), xs)
    decreases st, 0
  {
    hide OfCases, DirectInCases, CaseNames;
    var lexical, all := CaseNames(st.cases, false), CaseNames(st.cases, true);
    BlockedSwap(blocked, lexical, xs);
    BlockedSwap(blocked + lexical, all, xs);
    WithoutConcat(DirectInCases(st.cases, blocked + lexical), OfCases(st.cases, blocked + lexical + all), xs);
    DirectCasesLocal(st.cases, blocked + lexical, xs);
    CasesLocal(st.cases, blocked + lexical + all, xs);
  }

  lemma {:induction false} TryLocal(st: Statement, blocked: set<string>, xs: set<string>)
    requires st.TryStatement?
    ensures OfStatement(st, blocked + xs) == Without(OfStatement(st, blocked), xs)
    decreases st, 0
  {
    hide OfBlock, CatchNames;
    var first := OfBlock(st.block, blocked);
    var caught := if st.handler.None? then []
                  else OfBlock(st.handler.value.body, blocked + CatchNames(st.handler.value.param));
    var last := if st.finalizer.Finalizer? then OfBlock(st.finalizer.body, blocked) else [];
    WithoutConcat(first + caught, last, xs);
    WithoutConcat(first, caught, xs);
    BlockLocal(st.block, blocked, xs);
    if st.handler.Some? {
      BlockedSwap(blocked, CatchNames(st.handler.value.param), xs);
      BlockLocal(st.handler.value.body, blocked + CatchNames(st.handler.value.param), xs);
    }
    if st.finalizer.Finalizer? {
      BlockLocal(st.finalizer.body, blocked, xs);
    }
  }

  lemma {:induction false} StatementLocal(st: Statement, blocked: set<string>, xs: set<string>)
    ensures OfStatement(st, blocked + xs) == Without(OfStatement(st, blocked), xs)
    decreases st, 1
  {
    hide OfBlock, OfBranch, HeadNames;
    match st
    case BlockStatement(body) => BlockLocal(body, blocked, xs);
    case IfStatement(consequent, alternate) =>
      BranchLocal(consequent, blocked, xs);
      if alternate.Some? {
        WithoutConcat(OfBranch(consequent, blocked), OfBranch(alternate.value, blocked), xs);
        BranchLocal(alternate.value, blocked, xs);
      } else {
        assert OfBranch(consequent, blocked) + [] == OfBranch(consequent, blocked);
      }
    case ForStatement(init, loop) => HeadLocal(loop, blocked, HeadNames(init), xs);
    case ForInStatement(left, loop) => HeadLocal(loop, blocked, HeadNames(left), xs);
    case ForOfStatement(left, loop) => HeadLocal(loop, blocked, HeadNames(left), xs);
    case WhileStatement(loop) => BranchLocal(loop, blocked, xs);
    case DoWhileStatement(loop) => BranchLocal(loop, blocked, xs);
    case WithStatement(loop) => BranchLocal(loop, blocked, xs);
    case LabeledStatement(labeled) => BranchLocal(labeled, blocked, xs);
    case TryStatement(block, handler, finalizer) => TryLocal(st, blocked, xs);
    case SwitchStatement(cases) => SwitchLocal(st, blocked, xs);
    case _ =>
  }

  lemma {:induction false} AddAllLocal(out: seq<string>, names: seq<string>, xs: set<string>)
    ensures AddAll(Without(out, xs), Without(names, xs)) == Without(AddAll(out, names), xs)
    decreases |names|
  {
    if names != [] {
      var n := names[0];
      WithoutMember(out, xs, n);
      WithoutConcat(out, [n], xs);
      var rest := Without(names[1..], xs);
      AddAllLocal(AddOne(out, n), names[1..], xs);
      assert Without([n], xs) == if n in xs then [] else [n];
      if n in xs {
        assert Without(names, xs) == rest;
        assert Without(AddOne(out, n), xs) == Without(out, xs);
      } else {
        assert Without(names, xs)[0] == n && Without(names, xs)[1..] == rest;
        assert Without(AddOne(out, n), xs) == AddOne(Without(out, xs), n);
      }
    }
  }

  lemma {:induction false} WithoutMember(names: seq<string>, xs: set<string>, n: string)
    ensures n in Without(names, xs) <==> n in names && n !in xs
  {
    if names != [] {
      WithoutMember(names[1..], xs, n);
    }
  }

  /** Blocking more names removes exactly those names from the candidate list and keeps the order of the rest. */
  lemma {:induction false} BlockingIsLocal(stmts: seq<Statement>, blocked: set<string>, xs: set<string>)
    ensures Candidates(stmts, blocked + xs) == Without(Candidates(stmts, blocked), xs)
  {
    hide OfList, AddAll;
    ListLocal(stmts, blocked, xs);
    AddAllLocal([], OfList(stmts, blocked), xs);
  }

  // ----- What the name collectors find -----

  /** `all` and `found` are the names, and the collected names, of `leaves`. */
  ghost predicate Describes(leaves: seq<Leaf>, all: set<string>, found: set<string>)
  {
    && (forall n :: n in all <==> exists x :: 0 <= x < |leaves| && leaves[x].name == n)
    && (forall n :: n in found <==> exists x :: 0 <= x < |leaves| && leaves[x].name == n && leaves[x].collected)
  }

  lemma {:induction false} DescribesConcat(a: seq<Leaf>, allA: set<string>, foundA: set<string>,
                                           b: seq<Leaf>, allB: set<string>, foundB: set<string>)
    requires Describes(a, allA, foundA) && Describes(b, allB, foundB)
    ensures Describes(a + b, allA + allB, foundA + foundB)
  {
    var ab := a + b;
    assert forall x :: 0 <= x < |a| ==> ab[x] == a[x];
    assert forall x :: 0 <= x < |b| ==> ab[|a| + x] == b[x];
    assert forall x :: |a| <= x < |ab| ==> ab[x] == b[x - |a|];
  }

  lemma {:induction false} DescribesPattern(p: Pattern)
    ensures Describes(Leaves(p, true), BoundNames(p), LeafOrName(p))
    ensures Describes(Leaves(p, false), BoundNames(p), LeafNames(p))
    decreases p
  {
    hide Describes;
    match p
    case Identifier(name) => DescribesName(name);
    case WithDefault(left) => DescribesPattern(left);
    case ArrayPattern(elements, rest) =>
      DescribesElements(elements);
      DescribesNothing();
      if rest.Some? { DescribesPattern(rest.value); }
      DescribesConcat(LeavesOfElements(elements), ElementNames(elements), ElementLeaves(elements),
                      if rest.Some? then Leaves(rest.value, true) else [],
                      if rest.Some? then BoundNames(rest.value) else {},
                      if rest.Some? then LeafOrName(rest.value) else {});
    case ObjectPattern(values, rest) =>
      DescribesValues(values);
      DescribesNothing();
      if rest.Some? { DescribesPattern(rest.value); }
      DescribesConcat(LeavesOfValues(values), ValueNames(values), ValueLeaves(values),
                      if rest.Some? then Leaves(rest.value, true) else [],
                      if rest.Some? then BoundNames(rest.value) else {},
                      if rest.Some? then LeafOrName(rest.value) else {});
  }

  lemma {:induction false} DescribesName(name: string)
    ensures Describes([Leaf(name, true)], {name}, {name}) && Describes([Leaf(name, false)], {name}, {})
  {
    assert [Leaf(name, true)][0].name == name && [Leaf(name, false)][0].name == name;
  }

  lemma {:induction false} DescribesNothing()
    ensures Describes([], {}, {})
  {}

  lemma {:induction false} DescribesElement(e: Element)
    ensures Describes(LeavesOfElement(e), ElementName(e), ElementLeaf(e))
    decreases e
  {
    hide Describes;
    DescribesNothing();
    if e.Element? { DescribesPattern(e.pattern); }
  }

  lemma {:induction false} DescribesElements(elements: seq<Element>)
    ensures Describes(LeavesOfElements(elements), ElementNames(elements), ElementLeaves(elements))
    decreases elements
  {
    hide Describes;
    DescribesNothing();
    if elements != [] {
      DescribesElement(elements[0]);
      DescribesElements(elements[1..]);
      DescribesConcat(LeavesOfElement(elements[0]), ElementName(elements[0]), ElementLeaf(elements[0]),
                      LeavesOfElements(elements[1..]), ElementNames(elements[1..]), ElementLeaves(elements[1..]));
    }
  }

  lemma {:induction false} DescribesValues(values: seq<Pattern>)
    ensures Describes(LeavesOfValues(values), ValueNames(values), ValueLeaves(values))
    decreases values
  {
    hide Describes;
    DescribesNothing();
    if values != [] {
      DescribesPattern(values[0]);
      DescribesValues(values[1..]);
      DescribesConcat(Leaves(values[0], true), BoundNames(values[0]), LeafOrName(values[0]),
                      LeavesOfValues(values[1..]), ValueNames(values[1..]), ValueLeaves(values[1..]));
    }
  }

  /** For a `let` or `const` declaration the collectors together find every bound name. */
  lemma {:induction false} DeclarationNamesComplete(ids: seq<Pattern>, n: string)
    ensures n in DeclarationNames(ids) <==> exists i :: 0 <= i < |ids| && n in BoundNames(ids[i])
  {
    if ids != [] {
      DescribesPattern(ids[0]);
      DeclarationNamesComplete(ids[1..], n);
      assert forall i :: 0 < i < |ids| ==> ids[i] == ids[1..][i - 1];
      assert forall i :: 0 <= i < |ids| - 1 ==> ids[1..][i] == ids[i + 1];
    }
  }

  ghost predicate UniqueNames(leaves: seq<Leaf>)
  {
    forall x, y :: 0 <= x < y < |leaves| ==> leaves[x].name != leaves[y].name
  }

  /** A destructuring catch parameter blocks every name it binds exactly when no identifier sits directly under a
      default (binding a name twice is an early error). */
  lemma {:induction false} CatchNamesExact(p: Pattern)
    requires !p.Identifier? && UniqueNames(Leaves(p, true))
    ensures CatchNames(Some(p)) == BoundNames(p) <==>
            forall x :: 0 <= x < |Leaves(p, true)| ==> Leaves(p, true)[x].collected
  {
    hide Leaves, BoundNames, LeafNames;
    DescribesPattern(p);
    var leaves := Leaves(p, true);
    if CatchNames(Some(p)) == BoundNames(p) {
      forall x | 0 <= x < |leaves| ensures leaves[x].collected {
        assert leaves[x].name in BoundNames(p);
      }
    }
  }

  // ----- What a catch parameter keeps out of the walk -----

  /** The early error for catch clauses: the block must not declare a name the parameter binds. */
  predicate LegalCatch(p: Pattern, body: seq<Statement>)
  {
    BoundNames(p) !! LexicalNames(body, true)
  }

  predicate AllCollected(p: Pattern)
  {
    forall x :: 0 <= x < |Leaves(p, true)| ==> Leaves(p, true)[x].collected
  }

  /** No name the parameter binds is ever a candidate from the catch block. */
  ghost predicate KeepsOut(p: Pattern)
  {
    forall body, blocked, n :: LegalCatch(p, body) && n in BoundNames(p) ==>
      n !in OfBlock(body, blocked + CatchNames(Some(p)))
  }

  lemma {:induction false} BlockedNever(stmts: seq<Statement>, blocked: set<string>, n: string)
    requires n in blocked
    ensures n !in OfBlock(stmts, blocked)
  {
    hide OfBlock;
    assert blocked + {n} == blocked;
    BlockLocal(stmts, blocked, {n});
    WithoutMember(OfBlock(stmts, blocked), {n}, n);
  }

  function PlainFunction(n: string): (st: Statement)
  {
    FunctionDeclaration(Function(Some(n), false, false, false))
  }

  /** A function in a nested block is a candidate unless its name is blocked already. */
  lemma {:induction false} NestedFunction(n: string, blocked: set<string>)
    requires n !in blocked
    ensures n in OfBlock([BlockStatement([PlainFunction(n)])], blocked)
    ensures LexicalNames([BlockStatement([PlainFunction(n)])], true) == {}
  {
    var inner, outer := [PlainFunction(n)], [BlockStatement([PlainFunction(n)])];
    assert LexicalNames(inner, false) == {} + LexicalNames([], false);
    InBlock(inner, blocked, n);
    assert Declares(inner[0], n, blocked + LexicalNames(inner, false));
    assert LexicalNames(outer, false) == {} + LexicalNames([], false);
    assert LexicalNames(outer, true) == {} + LexicalNames([], true);
    InBlock(outer, blocked, n);
    assert blocked + {} + {} == blocked;
    assert n in OfStatement(outer[0], blocked);
  }

  /** Over all catch blocks the early error allows, the walk keeps every name of a destructuring parameter out exactly
      when no identifier sits directly under a default; and then over all blocks whatever. */
  lemma {:induction false} CatchWalkExact(p: Pattern)
    requires !p.Identifier? && UniqueNames(Leaves(p, true))
    ensures KeepsOut(p) <==> AllCollected(p)
    ensures AllCollected(p) ==>
              forall body, blocked, n :: n in BoundNames(p) ==> n !in OfBlock(body, blocked + CatchNames(Some(p)))
  {
    hide OfBlock, Leaves, BoundNames, CatchNames, LexicalNames;
    CatchNamesExact(p);
    if AllCollected(p) {
      forall body: seq<Statement>, blocked: set<string>, n: string | n in BoundNames(p)
        ensures n !in OfBlock(body, blocked + CatchNames(Some(p)))
      {
        BlockedNever(body, blocked + CatchNames(Some(p)), n);
      }
    } else {
      var n := MissedName(p);
      NestedFunction(n, {} + CatchNames(Some(p)));
      assert LegalCatch(p, [BlockStatement([PlainFunction(n)])]);
    }
  }

  lemma {:induction false} MissedName(p: Pattern) returns (n: string)
    requires !p.Identifier? && UniqueNames(Leaves(p, true)) && !AllCollected(p)
    ensures n in BoundNames(p) && n !in CatchNames(Some(p))
  {
    hide Leaves, BoundNames, LeafOrName;
    DescribesPattern(p);
    var leaves := Leaves(p, true);
    var x :| 0 <= x < |leaves| && !leaves[x].collected;
    n := leaves[x].name;
  }

  /** The gap is visible in a program the early errors allow: `try {} catch ({ a = 1 }) { { function a() {} } }` yields
      the candidate `a`, although the catch parameter declares `a`. Any name will do for `a`. */
  lemma {:induction false} DefaultedCatchNameEscapes(a: string)
    ensures var p := ObjectPattern([WithDefault(Identifier(a))], None);
            var body := [BlockStatement([PlainFunction(a)])];
            && BoundNames(p) == {a} && LegalCatch(p, body)
            && a in Candidates([TryStatement([], Some(Catch(Some(p), body)), NoFinalizer)], {})
  {
    hide OfStatement, OfBlock, OfList, Candidates, BoundNames, CatchNames;
    var p := ObjectPattern([WithDefault(Identifier(a))], None);
    var body := [BlockStatement([PlainFunction(a)])];
    DefaultedNames(a);
    NestedFunction(a, {});
    assert LexicalNames([PlainFunction(a)], false) == {} + LexicalNames([], false);
    assert LexicalNames(body, false) == {} + LexicalNames([], false);
    var stmts, path := [TryStatement([], Some(Catch(Some(p), body)), NoFinalizer)], [CatchItem(0), Item(0)];
    assert path[1..] == [Item(0)] && Unblocked(body[0], [Item(0)], a);
    assert Unblocked(stmts[0], path, a);
    ReachesExact(stmts[0], path, a);
    CandidatesAreReachable(stmts, {}, a);
    assert exists i, q :: 0 <= i < |stmts| && Reaches(stmts[i], q, a);
  }

  lemma {:induction false} DefaultedNames(n: string)
    ensures var p := ObjectPattern([WithDefault(Identifier(n))], None);
            BoundNames(p) == {n} && CatchNames(Some(p)) == {}
  {
    var values := [WithDefault(Identifier(n))];
    var p := ObjectPattern(values, None);
    assert BoundNames(values[0]) == BoundNames(Identifier(n)) == {n};
    assert LeafOrName(values[0]) == LeafNames(values[0]) == LeafNames(Identifier(n)) == {};
    assert values[1..] == [];
    assert ValueNames(values) == BoundNames(values[0]) + ValueNames([]);
    assert ValueLeaves(values) == LeafOrName(values[0]) + ValueLeaves([]);
    assert BoundNames(p) == ValueNames(values) + {} && LeafOrName(p) == LeafNames(p) == ValueLeaves(values) + {};
  }
}
