/**
  * Web-compatibility semantics of block-level functions (Annex B.3.3 of ECMA-262): which plain functions declared in
  * blocks also become `var` bindings of the enclosing function. The walk visits statements, never nested functions, and
  * carries a growing set of blocked names.
  */
module AnnexB {
  import opened Prelude

  // ----- Syntax -----

  /** A position of an array pattern; elisions bind nothing. */
  datatype Element = Hole | Element(pattern: Pattern)

  datatype Pattern =
    | Identifier(name: string)
    | WithDefault(left: Pattern)
    | ArrayPattern(elements: seq<Element>, rest: Option<Pattern>)
    | ObjectPattern(values: seq<Pattern>, rest: Option<Pattern>)

  datatype Function = Function(name: Option<string>, declare: bool, isAsync: bool, isGenerator: bool)
  {
    /** Only plain functions get the extension. */
    predicate Plain()
    {
      !declare && !isAsync && !isGenerator
    }
  }

  /** A variable declaration; `lexical` means `let` or `const`. */
  datatype Declaration = Declaration(lexical: bool, ids: seq<Pattern>)

  datatype Finalizer = NoFinalizer | Finalizer(body: seq<Statement>)

  datatype Case = Case(consequent: seq<Statement>)

  datatype Catch = Catch(param: Option<Pattern>, body: seq<Statement>)

  datatype Statement =
    | FunctionDeclaration(f: Function)
    | ClassDeclaration(id: Option<string>)
    | VariableDeclaration(d: Declaration)
    | BlockStatement(body: seq<Statement>)
    | IfStatement(consequent: Statement, alternate: Option<Statement>)
    | ForStatement(init: Option<Declaration>, loop: Statement)
    | ForInStatement(left: Option<Declaration>, loop: Statement)
    | ForOfStatement(left: Option<Declaration>, loop: Statement)
    | WhileStatement(loop: Statement)
    | DoWhileStatement(loop: Statement)
    | WithStatement(loop: Statement)
    | LabeledStatement(labeled: Statement)
    | TryStatement(block: seq<Statement>, handler: Option<Catch>, finalizer: Finalizer)
    | SwitchStatement(cases: seq<Case>)
    | OtherStatement

  // ----- Declared names -----

  /** Every name a pattern binds. */
  function BoundNames(p: Pattern): (names: set<string>)
  {
    match p
    case Identifier(name) => {name}
    case WithDefault(left) => BoundNames(left)
    case ArrayPattern(elements, rest) =>
      ElementNames(elements) + if rest.Some? then BoundNames(rest.value) else {}
    case ObjectPattern(values, rest) =>
      ValueNames(values) + if rest.Some? then BoundNames(rest.value) else {}
  }

  function ElementName(e: Element): (names: set<string>)
  {
    if e.Element? then BoundNames(e.pattern) else {}
  }

  function ElementNames(elements: seq<Element>): (names: set<string>)
  {
    if elements == [] then {}
    else ElementName(elements[0]) + ElementNames(elements[1..])
  }

  function ValueNames(values: seq<Pattern>): (names: set<string>)
  {
    if values == [] then {} else BoundNames(values[0]) + ValueNames(values[1..])
  }

  /** The leaf collector used for destructuring. A bare identifier is only collected by `LeafOrName`, so an identifier
      directly under a default is not collected at all. */
  function LeafNames(p: Pattern): (names: set<string>)
    decreases p, 0
  {
    match p
    case Identifier(_) => {}
    case WithDefault(left) => LeafNames(left)
    case ArrayPattern(elements, rest) =>
      ElementLeaves(elements) + if rest.Some? then LeafOrName(rest.value) else {}
    case ObjectPattern(values, rest) =>
      ValueLeaves(values) + if rest.Some? then LeafOrName(rest.value) else {}
  }

  function LeafOrName(p: Pattern): (names: set<string>)
    decreases p, 1
  {
    if p.Identifier? then {p.name} else LeafNames(p)
  }

  function ElementLeaf(e: Element): (names: set<string>)
    decreases e, 0
  {
    if e.Element? then LeafOrName(e.pattern) else {}
  }

  function ElementLeaves(elements: seq<Element>): (names: set<string>)
    decreases elements, 0
  {
    if elements == [] then {}
    else ElementLeaf(elements[0]) + ElementLeaves(elements[1..])
  }

  function ValueLeaves(values: seq<Pattern>): (names: set<string>)
    decreases values, 0
  {
    if values == [] then {} else LeafOrName(values[0]) + ValueLeaves(values[1..])
  }

  /** Names a declaration declares: all pattern leaves, then the destructured leaves once more. */
  function DeclarationNames(ids: seq<Pattern>): (names: set<string>)
  {
    if ids == [] then {} else BoundNames(ids[0]) + LeafNames(ids[0]) + DeclarationNames(ids[1..])
  }

  /** Names declared directly in a statement list: `let`, `const` and `class`, and functions when asked for. */
  function LexicalNames(stmts: seq<Statement>, includeFunctions: bool): (names: set<string>)
  {
    if stmts == [] then {}
    else
      (match stmts[0]
       case VariableDeclaration(d) => if d.lexical then DeclarationNames(d.ids) else {}
       case ClassDeclaration(id) => if id.Some? then {id.value} else {}
       case FunctionDeclaration(f) => if includeFunctions && f.name.Some? then {f.name.value} else {}
       case _ => {})
      + LexicalNames(stmts[1..], includeFunctions)
  }

  function CaseNames(cases: seq<Case>, includeFunctions: bool): (names: set<string>)
  {
    if cases == [] then {}
    else LexicalNames(cases[0].consequent, includeFunctions) + CaseNames(cases[1..], includeFunctions)
  }

  function HeadNames(head: Option<Declaration>): (names: set<string>)
  {
    if head.Some? && head.value.lexical then DeclarationNames(head.value.ids) else {}
  }

  /** A simple catch parameter blocks nothing; a destructuring one blocks the leaves the collector finds. */
  function CatchNames(param: Option<Pattern>): (names: set<string>)
  {
    if param.Some? && !param.value.Identifier? then LeafOrName(param.value) else {}
  }

  // ----- The walk as a list of candidate names in visiting order -----

  function Recorded(f: Function, blocked: set<string>): (names: seq<string>)
  {
    if f.Plain() && f.name.Some? && f.name.value !in blocked then [f.name.value] else []
  }

  function Direct(stmts: seq<Statement>, blocked: set<string>): (names: seq<string>)
  {
    if stmts == [] then []
    else (if stmts[0].FunctionDeclaration? then Recorded(stmts[0].f, blocked) else []) + Direct(stmts[1..], blocked)
  }

  function DirectInCases(cases: seq<Case>, blocked: set<string>): (names: seq<string>)
  {
    if cases == [] then [] else Direct(cases[0].consequent, blocked) + DirectInCases(cases[1..], blocked)
  }

  function OfStatement(st: Statement, blocked: set<string>): (names: seq<string>)
    decreases st, 0
  {
    match st
    case BlockStatement(body) => OfBlock(body, blocked)
    case IfStatement(consequent, alternate) =>
      OfBranch(consequent, blocked) + if alternate.Some? then OfBranch(alternate.value, blocked) else []
    case ForStatement(init, loop) => OfBranch(loop, blocked + HeadNames(init))
    case ForInStatement(left, loop) => OfBranch(loop, blocked + HeadNames(left))
    case ForOfStatement(left, loop) => OfBranch(loop, blocked + HeadNames(left))
    case WhileStatement(loop) => OfBranch(loop, blocked)
    case DoWhileStatement(loop) => OfBranch(loop, blocked)
    case WithStatement(loop) => OfBranch(loop, blocked)
    case LabeledStatement(labeled) => OfBranch(labeled, blocked)
    case TryStatement(block, handler, finalizer) =>
      OfBlock(block, blocked)
      + (if handler.Some? then OfBlock(handler.value.body, blocked + CatchNames(handler.value.param)) else [])
      + (if finalizer.Finalizer? then OfBlock(finalizer.body, blocked) else [])
    case SwitchStatement(cases) =>
      var here := blocked + CaseNames(cases, false);
      DirectInCases(cases, here) + OfCases(cases, here + CaseNames(cases, true))
    case _ => []
  }

  function OfBranch(st: Statement, blocked: set<string>): (names: seq<string>)
    decreases st, 1
  {
    if st.FunctionDeclaration? then Recorded(st.f, blocked) else OfStatement(st, blocked)
  }

  /** One statement-list scope: its own functions, then everything deeper with those functions blocked too. */
  function OfBlock(stmts: seq<Statement>, blocked: set<string>): (names: seq<string>)
    decreases stmts, 1
  {
    var here := blocked + LexicalNames(stmts, false);
    Direct(stmts, here) + OfList(stmts, here + LexicalNames(stmts, true))
  }

  function OfList(stmts: seq<Statement>, blocked: set<string>): (names: seq<string>)
    decreases stmts, 0
  {
    if stmts == [] then [] else OfStatement(stmts[0], blocked) + OfList(stmts[1..], blocked)
  }

  function OfCases(cases: seq<Case>, blocked: set<string>): (names: seq<string>)
    decreases cases, 0
  {
    if cases == [] then [] else OfList(cases[0].consequent, blocked) + OfCases(cases[1..], blocked)
  }

  // ----- Accumulating without duplicates -----

  function AddOne(out: seq<string>, name: string): (r: seq<string>)
  {
    if name in out then out else out + [name]
  }

  function AddAll(out: seq<string>, names: seq<string>): (r: seq<string>)
    decreases |names|
  {
    if names == [] then out else AddAll(AddOne(out, names[0]), names[1..])
  }

  /** The candidate list of a function, script or eval body. */
  function Candidates(stmts: seq<Statement>, blocked: set<string>): (names: seq<string>)
  {
    AddAll([], OfList(stmts, blocked))
  }

  lemma {:induction false} AddAllConcat(out: seq<string>, a: seq<string>, b: seq<string>)
    ensures AddAll(out, a + b) == AddAll(AddAll(out, a), b)
    decreases |a|
  {
    if a == [] {
      assert a + b == b;
    } else {
      assert (a + b)[0] == a[0] && (a + b)[1..] == a[1..] + b;
      AddAllConcat(AddOne(out, a[0]), a[1..], b);
    }
  }

  ghost predicate NoDuplicates(names: seq<string>)
  {
    forall i, j :: 0 <= i < j < |names| ==> names[i] != names[j]
  }

  lemma {:induction false} AddAllMembers(out: seq<string>, names: seq<string>)
    requires NoDuplicates(out)
    ensures NoDuplicates(AddAll(out, names))
    ensures forall n :: n in AddAll(out, names) <==> n in out || n in names
    decreases |names|
  {
    if names != [] {
      AddAllMembers(AddOne(out, names[0]), names[1..]);
    }
  }

  // ----- The walk -----

  /** The accumulators the walk shares: candidates found, and the names already among them. */
  class Collector {
    var out: seq<string>
    var seen: set<string>

    ghost predicate Valid()
      reads this
    {
      NoDuplicates(out) && forall n :: n in seen <==> n in out
    }

    constructor ()
      ensures Valid() && out == []
    {
      out, seen := [], {};
    }

    method RecordFunction(f: Function, blocked: set<string>)
      requires Valid()
      modifies this
      ensures Valid() && out == AddAll(old(out), Recorded(f, blocked))
    {
      if f.declare || f.isAsync || f.isGenerator { return; }
      if f.name.Some? {
        var name := f.name.value;
        assert AddAll(out, [name]) == AddOne(out, name);
        if name !in blocked && name !in seen {
          seen := seen + {name};
          out := out + [name];
        }
      }
    }

    method RecordDirect(stmts: seq<Statement>, blocked: set<string>)
      requires Valid()
      modifies this
      ensures Valid() && out == AddAll(old(out), Direct(stmts, blocked))
    {
      hide Recorded, AddAll;
      for i := 0 to |stmts|
        invariant Valid() && AddAll(out, Direct(stmts[i..], blocked)) == AddAll(old(out), Direct(stmts, blocked))
      {
        AddNothing(out);
        assert stmts[i..][1..] == stmts[i + 1..];
        if stmts[i].FunctionDeclaration? {
          AddAllConcat(out, Recorded(stmts[i].f, blocked), Direct(stmts[i + 1..], blocked));
          RecordFunction(stmts[i].f, blocked);
        } else {
          assert [] + Direct(stmts[i + 1..], blocked) == Direct(stmts[i + 1..], blocked);
        }
      }
      AddNothing(out);
    }

    method WalkList(stmts: seq<Statement>, blocked: set<string>)
      requires Valid()
      modifies this
      ensures Valid() && out == AddAll(old(out), OfList(stmts, blocked))
      decreases stmts, 0
    {
      hide OfStatement, AddAll;
      for i := 0 to |stmts|
        invariant Valid() && AddAll(out, OfList(stmts[i..], blocked)) == AddAll(old(out), OfList(stmts, blocked))
      {
        assert stmts[i..][1..] == stmts[i + 1..];
        AddAllConcat(out, OfStatement(stmts[i], blocked), OfList(stmts[i + 1..], blocked));
        WalkStatement(stmts[i], blocked);
      }
      AddNothing(out);
    }

    method WalkBlock(stmts: seq<Statement>, blocked: set<string>)
      requires Valid()
      modifies this
      ensures Valid() && out == AddAll(old(out), OfBlock(stmts, blocked))
      decreases stmts, 1
    {
      hide OfList, Direct, AddAll, LexicalNames;
      var here := blocked + LexicalNames(stmts, false);
      var nested := here + LexicalNames(stmts, true);
      AddAllConcat(out, Direct(stmts, here), OfList(stmts, nested));
      RecordDirect(stmts, here);
      WalkList(stmts, nested);
    }

    method WalkBranch(st: Statement, blocked: set<string>)
      requires Valid()
      modifies this
      ensures Valid() && out == AddAll(old(out), OfBranch(st, blocked))
      decreases st, 2
    {
      hide OfStatement, AddAll, Recorded;
      if st.FunctionDeclaration? {
        RecordFunction(st.f, blocked);
      } else {
        WalkStatement(st, blocked);
      }
    }

    method WalkSwitch(cases: seq<Case>, blocked: set<string>)
      requires Valid()
      modifies this
      ensures Valid()
      ensures var here := blocked + CaseNames(cases, false);
              out == AddAll(old(out), DirectInCases(cases, here) + OfCases(cases, here + CaseNames(cases, true)))
      decreases cases, 1
    {
      hide OfList, AddAll, LexicalNames, Direct;
      var here, functions := blocked, {};
      for i := 0 to |cases|
        invariant here + CaseNames(cases[i..], false) == blocked + CaseNames(cases, false)
        invariant functions + CaseNames(cases[i..], true) == CaseNames(cases, true)
      {
        assert cases[i..][1..] == cases[i + 1..];
        here := here + LexicalNames(cases[i].consequent, false);
        functions := functions + LexicalNames(cases[i].consequent, true);
      }
      assert here == blocked + CaseNames(cases, false) && functions == CaseNames(cases, true);
      var nested := here + functions;
      AddAllConcat(out, DirectInCases(cases, here), OfCases(cases, nested));
      for i := 0 to |cases|
        invariant Valid()
        invariant AddAll(out, DirectInCases(cases[i..], here)) == AddAll(old(out), DirectInCases(cases, here))
      {
        assert cases[i..][1..] == cases[i + 1..];
        AddAllConcat(out, Direct(cases[i].consequent, here), DirectInCases(cases[i + 1..], here));
        RecordDirect(cases[i].consequent, here);
      }
      AddNothing(out);
      ghost var recorded := out;
      for i := 0 to |cases|
        invariant Valid() && AddAll(out, OfCases(cases[i..], nested)) == AddAll(recorded, OfCases(cases, nested))
      {
        assert cases[i..][1..] == cases[i + 1..];
        AddAllConcat(out, OfList(cases[i].consequent, nested), OfCases(cases[i + 1..], nested));
        WalkList(cases[i].consequent, nested);
      }
      AddNothing(out);
    }

    method WalkTry(block: seq<Statement>, handler: Option<Catch>, finalizer: Finalizer, blocked: set<string>,
                   ghost st: Statement)
      requires Valid() && st == TryStatement(block, handler, finalizer)
      modifies this
      ensures Valid() && out == AddAll(old(out), OfStatement(st, blocked))
      decreases st, 0
    {
      hide OfBlock, AddAll, CatchNames;
      ghost var caught := if handler.None? then []
                          else OfBlock(handler.value.body, blocked + CatchNames(handler.value.param));
      ghost var last := if finalizer.Finalizer? then OfBlock(finalizer.body, blocked) else [];
      AddAllConcat(out, OfBlock(block, blocked) + caught, last);
      AddAllConcat(out, OfBlock(block, blocked), caught);
      WalkBlock(block, blocked);
      AddNothing(out);
      if handler.Some? {
        WalkBlock(handler.value.body, blocked + CatchNames(handler.value.param));
      }
      AddNothing(out);
      if finalizer.Finalizer? {
        WalkBlock(finalizer.body, blocked);
      }
    }

    /** Visit one statement with the names blocked on the way to it. */
    method WalkStatement(st: Statement, blocked: set<string>)
      requires Valid()
      modifies this
      ensures Valid() && out == AddAll(old(out), OfStatement(st, blocked))
      decreases st, 1
    {
      hide OfBlock, OfBranch, AddAll, OfCases, DirectInCases, CaseNames;
      AddNothing(out);
      match st
      case BlockStatement(body) => WalkBlock(body, blocked);
      case IfStatement(consequent, alternate) =>
        WalkBranch(consequent, blocked);
        if alternate.Some? {
          AddAllConcat(old(out), OfBranch(consequent, blocked), OfBranch(alternate.value, blocked));
          WalkBranch(alternate.value, blocked);
        } else {
          assert OfBranch(consequent, blocked) + [] == OfBranch(consequent, blocked);
        }
      case ForStatement(init, loop) => WalkBranch(loop, blocked + HeadNames(init));
      case ForInStatement(left, loop) => WalkBranch(loop, blocked + HeadNames(left));
      case ForOfStatement(left, loop) => WalkBranch(loop, blocked + HeadNames(left));
      case WhileStatement(loop) => WalkBranch(loop, blocked);
      case DoWhileStatement(loop) => WalkBranch(loop, blocked);
      case WithStatement(loop) => WalkBranch(loop, blocked);
      case LabeledStatement(labeled) => WalkBranch(labeled, blocked);
      case TryStatement(block, handler, finalizer) => WalkTry(block, handler, finalizer, blocked, st);
      case SwitchStatement(cases) => WalkSwitch(cases, blocked);
      case _ =>
    }
  }

  lemma {:induction false} AddNothing(out: seq<string>)
    ensures AddAll(out, []) == out
  {}

  method CollectAnnexBCandidates(stmts: seq<Statement>, blocked: set<string>) returns (names: seq<string>)
    ensures names == Candidates(stmts, blocked)
  {
    var c := new Collector();
    c.WalkList(stmts, blocked);
    return c.out;
  }
}
