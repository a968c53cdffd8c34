/**
  * Turning CPU samples into a call tree and into folded stack counts. A sample lists frames innermost first; the tree
  * is keyed from the outermost frame inward.
  */
module CpuProfile {
  import opened Prelude

  datatype Frame = Frame(functionName: string, moduleName: string, column: nat)

  datatype FrameKey = FrameKey(functionName: string, moduleName: string, line: nat, column: nat)

  datatype Node = Node(id: nat, key: FrameKey, hitCount: nat, children: map<FrameKey, nat>)

  type Path = seq<FrameKey>

  const ROOT_KEY := FrameKey("(root)", "", 0, 0)

  function KeyOf(f: Frame): (k: FrameKey)
  {
    FrameKey(f.functionName, f.moduleName, 0, f.column)
  }

  /** The call path of a sample, outermost frame first. */
  function Stack(sample: seq<Frame>): (p: Path)
    ensures |p| == |sample|
  {
    seq(|sample|, i requires 0 <= i < |sample| => KeyOf(sample[|sample| - 1 - i]))
  }

  function Stacks(samples: seq<seq<Frame>>): (ps: seq<Path>)
    ensures |ps| == |samples|
  {
    seq(|samples|, i requires 0 <= i < |samples| => Stack(samples[i]))
  }

  function Saturate(n: nat): (r: nat)
  {
    if n <= U32_MAX then n else U32_MAX
  }

  function CountOf<T(==)>(xs: seq<T>, x: T): (n: nat)
  {
    multiset(xs)[x]
  }

  // ----- Trees -----

  /** Node i hangs off its parent, for the path it extends the parent's path to. */
  ghost predicate LinkedAt(nodes: seq<Node>, paths: seq<Path>, parents: seq<nat>, i: nat)
    requires |nodes| == |paths| == |parents| && i < |nodes|
  {
    && parents[i] < i && paths[i] == paths[parents[i]] + [nodes[i].key]
    && nodes[i].key in nodes[parents[i]].children && nodes[parents[i]].children[nodes[i].key] == i
  }

  ghost predicate ChildrenAt(nodes: seq<Node>, paths: seq<Path>, i: nat)
    requires |nodes| == |paths| && i < |nodes|
  {
    forall key :: key in nodes[i].children ==>
      0 < nodes[i].children[key] < |nodes| && paths[nodes[i].children[key]] == paths[i] + [key]
  }

  ghost predicate DistinctPaths(paths: seq<Path>)
  {
    forall i, j :: 0 <= i < j < |paths| ==> paths[i] != paths[j]
  }

  /** Node i stands for `paths[i]`; `parents` leads to the root, and the child maps list exactly the other nodes. */
  ghost predicate IsTree(nodes: seq<Node>, paths: seq<Path>, parents: seq<nat>)
  {
    && |nodes| == |paths| == |parents| && |nodes| > 0
    && paths[0] == [] && nodes[0].key == ROOT_KEY && DistinctPaths(paths)
    && (forall i :: 0 <= i < |nodes| ==> nodes[i].id == Saturate(i + 1))
    && (forall i :: 0 < i < |nodes| ==> LinkedAt(nodes, paths, parents, i))
    && (forall i :: 0 <= i < |nodes| ==> ChildrenAt(nodes, paths, i))
  }

  lemma {:induction false} SnocInjective(a: Path, x: FrameKey, b: Path, y: FrameKey)
    ensures a + [x] == b + [y] ==> a == b && x == y
  {
    if a + [x] == b + [y] {
      assert a == (a + [x])[..|a|] && b == (b + [y])[..|b|];
      assert x == (a + [x])[|a|] && y == (b + [y])[|b|];
    }
  }

  lemma {:induction false} MissingChildIsNew(nodes: seq<Node>, paths: seq<Path>, parents: seq<nat>, i: nat,
                                             key: FrameKey)
    requires IsTree(nodes, paths, parents) && i < |nodes| && key !in nodes[i].children
    ensures paths[i] + [key] !in paths
  {
    forall j | 0 <= j < |paths|
      ensures paths[j] != paths[i] + [key]
    {
      if j > 0 {
        assert LinkedAt(nodes, paths, parents, j);
        SnocInjective(paths[parents[j]], nodes[j].key, paths[i], key);
      }
    }
  }

  // ----- Call paths through the nodes -----

  /** A chain of nodes from the root along child links, one node per frame from the outermost (last) frame of the sample
      to the innermost (first), each with that frame's function name, module and column, and line 0. */
  ghost predicate Spells(nodes: seq<Node>, chain: seq<nat>, sample: seq<Frame>)
  {
    && |chain| == |sample| + 1 && chain[0] == 0 && (forall j :: 0 <= j < |chain| ==> chain[j] < |nodes|)
    && forall j :: 0 <= j < |sample| ==> Link(nodes, chain[j], chain[j + 1], sample[|sample| - 1 - j])
  }

  /** Node `child` is the child of node `parent` for this frame. */
  predicate Link(nodes: seq<Node>, parent: nat, child: nat, frame: Frame)
  {
    && parent < |nodes| && child < |nodes|
    && nodes[child].key == FrameKey(frame.functionName, frame.moduleName, 0, frame.column)
    && nodes[child].key in nodes[parent].children && nodes[parent].children[nodes[child].key] == child
  }

  /** The call path of the sample leads to the node with this id. */
  ghost predicate CallPath(nodes: seq<Node>, sample: seq<Frame>, id: nat)
  {
    exists chain :: Spells(nodes, chain, sample) && nodes[chain[|sample|]].id == id
  }

  /** The way from the root to node `i`. */
  lemma {:induction false} ChainTo(nodes: seq<Node>, paths: seq<Path>, parents: seq<nat>, i: nat)
    returns (chain: seq<nat>)
    requires IsTree(nodes, paths, parents) && i < |nodes|
    ensures |chain| == |paths[i]| + 1 && chain[0] == 0 && chain[|paths[i]|] == i
    ensures forall j :: 0 <= j < |chain| ==> chain[j] < |nodes|
    ensures forall j :: 0 <= j < |paths[i]| ==>
              && nodes[chain[j + 1]].key == paths[i][j] && paths[i][j] in nodes[chain[j]].children
              && nodes[chain[j]].children[paths[i][j]] == chain[j + 1]
    decreases i
  {
    hide ChildrenAt, DistinctPaths;
    if i == 0 {
      chain := [0];
    } else {
      assert LinkedAt(nodes, paths, parents, i);
      var above := ChainTo(nodes, paths, parents, parents[i]);
      chain := above + [i];
    }
  }

  lemma {:induction false} NodeSpells(nodes: seq<Node>, paths: seq<Path>, parents: seq<nat>, sample: seq<Frame>, i: nat)
    requires IsTree(nodes, paths, parents) && i < |nodes| && paths[i] == Stack(sample)
    ensures CallPath(nodes, sample, nodes[i].id)
  {
    hide LinkedAt, ChildrenAt, DistinctPaths;
    var chain := ChainTo(nodes, paths, parents, i);
    forall j | 0 <= j < |sample|
      ensures Link(nodes, chain[j], chain[j + 1], sample[|sample| - 1 - j])
    {
      assert paths[i][j] == Stack(sample)[j] == KeyOf(sample[|sample| - 1 - j]);
    }
    assert Spells(nodes, chain, sample);
  }

  function Grow(nodes: seq<Node>, i: nat, key: FrameKey): (r: seq<Node>)
    requires i < |nodes|
    ensures |r| == |nodes| + 1 && r[|nodes|] == Node(Saturate(|nodes| + 1), key, 0, map[])
    ensures r[i] == nodes[i].(children := nodes[i].children[key := |nodes|])
    ensures forall j :: 0 <= j < |nodes| && j != i ==> r[j] == nodes[j]
  {
    nodes[i := nodes[i].(children := nodes[i].children[key := |nodes|])] + [Node(Saturate(|nodes| + 1), key, 0, map[])]
  }

  /** The node added for a new path. */
  lemma {:induction false} AddChild(nodes: seq<Node>, paths: seq<Path>, parents: seq<nat>, i: nat, key: FrameKey)
    requires IsTree(nodes, paths, parents) && i < |nodes| && key !in nodes[i].children
    ensures IsTree(Grow(nodes, i, key), paths + [paths[i] + [key]], parents + [i])
  {
    hide LinkedAt, ChildrenAt, Grow;
    var nodes', paths', parents' := Grow(nodes, i, key), paths + [paths[i] + [key]], parents + [i];
    MissingChildIsNew(nodes, paths, parents, i, key);
    forall j | 0 < j < |nodes'|
      ensures LinkedAt(nodes', paths', parents', j)
    {
      LinksKept(nodes, paths, parents, i, key, j);
    }
    forall j | 0 <= j < |nodes'|
      ensures ChildrenAt(nodes', paths', j)
    {
      ChildrenKept(nodes, paths, i, key, j);
    }
  }

  lemma {:induction false} LinksKept(nodes: seq<Node>, paths: seq<Path>, parents: seq<nat>, i: nat, key: FrameKey,
                                     j: nat)
    requires |nodes| == |paths| == |parents| && i < |nodes| && 0 < j <= |nodes| && key !in nodes[i].children
    requires j < |nodes| ==> LinkedAt(nodes, paths, parents, j)
    ensures LinkedAt(Grow(nodes, i, key), paths + [paths[i] + [key]], parents + [i], j)
  {
    hide Grow;
  }

  lemma {:induction false} ChildrenKept(nodes: seq<Node>, paths: seq<Path>, i: nat, key: FrameKey, j: nat)
    requires |nodes| == |paths| && i < |nodes| && j <= |nodes|
    requires j < |nodes| ==> ChildrenAt(nodes, paths, j)
    ensures ChildrenAt(Grow(nodes, i, key), paths + [paths[i] + [key]], j)
  {
    hide Grow;
  }

  /** A saturating 32-bit count. */
  function CountSample(hits: nat, here: bool): (r: nat)
  {
    if here then Saturate(hits + 1) else hits
  }

  /** Counting a hit does not change the tree. */
  lemma {:induction false} HitKeepsTree(nodes: seq<Node>, paths: seq<Path>, parents: seq<nat>, current: nat, hits: nat)
    requires IsTree(nodes, paths, parents) && current < |nodes|
    ensures IsTree(nodes[current := nodes[current].(hitCount := hits)], paths, parents)
  {
    hide DistinctPaths;
    var nodes' := nodes[current := nodes[current].(hitCount := hits)];
    assert forall i :: 0 <= i < |nodes| ==> nodes'[i].key == nodes[i].key && nodes'[i].children == nodes[i].children;
    forall i | 0 < i < |nodes|
      ensures LinkedAt(nodes', paths, parents, i)
    {
      assert LinkedAt(nodes, paths, parents, i);
    }
    forall i | 0 <= i < |nodes|
      ensures ChildrenAt(nodes', paths, i)
    {
      assert ChildrenAt(nodes, paths, i);
    }
  }

  predicate IsPrefix(p: Path, stack: Path)
  {
    p <= stack
  }

  lemma {:induction false} PrefixStep(stack: Path, k: nat)
    requires k < |stack|
    ensures stack[..k] + [stack[k]] == stack[..k + 1]
    ensures forall p: Path :: IsPrefix(p, stack[..k + 1]) <==> IsPrefix(p, stack[..k]) || p == stack[..k + 1]
  {
    forall p: Path
      ensures IsPrefix(p, stack[..k + 1]) <==> IsPrefix(p, stack[..k]) || p == stack[..k + 1]
    {
      assert |p| <= k ==> stack[..k + 1][..|p|] == stack[..|p|] && stack[..k][..|p|] == stack[..|p|];
    }
  }

  class ProfileBuilder {
    var nodes: seq<Node>
    var sampleIds: seq<nat>
    ghost var paths: seq<Path>
    ghost var parents: seq<nat>

    ghost predicate Valid()
      reads this
    {
      IsTree(nodes, paths, parents)
    }

    constructor ()
      ensures Valid() && sampleIds == [] && paths == [[]] && nodes[0].hitCount == 0
    {
      nodes := [Node(1, ROOT_KEY, 0, map[])];
      sampleIds, paths, parents := [], [[]], [0];
    }

    /** The child of `current` for `key`, added if there is none. */
    method Child(current: nat, key: FrameKey) returns (child: nat)
      requires Valid() && current < |nodes|
      modifies this`nodes, this`paths, this`parents
      ensures Valid() && child < |nodes| && paths[child] == old(paths)[current] + [key]
      ensures paths == old(paths) || paths == old(paths) + [paths[child]]
      ensures forall i :: 0 <= i < |nodes| ==>
                nodes[i].hitCount == if i < |old(nodes)| then old(nodes)[i].hitCount else 0
    {
      hide LinkedAt, DistinctPaths;
      assert ChildrenAt(nodes, paths, current);
      if key in nodes[current].children {
        child := nodes[current].children[key];
      } else {
        hide ChildrenAt;
        AddChild(nodes, paths, parents, current, key);
        child := |nodes|;
        nodes := nodes + [Node(Saturate(child + 1), key, 0, map[])];
        nodes := nodes[current := nodes[current].(children := nodes[current].children[key := child])];
        assert nodes == Grow(old(nodes), current, key);
        paths, parents := paths + [paths[current] + [key]], parents + [current];
      }
    }

    /** Walk a sample down from the root and count it at the node it ends in. */
    method AddSample(sample: seq<Frame>)
      requires Valid()
      modifies this
      ensures Valid() && old(paths) <= paths
      ensures forall p :: p in paths <==> p in old(paths) || IsPrefix(p, Stack(sample))
      ensures forall i :: 0 <= i < |nodes| ==>
                nodes[i].hitCount == CountSample(if i < |old(nodes)| then old(nodes)[i].hitCount else 0,
                                                 paths[i] == Stack(sample))
      ensures exists i :: 0 <= i < |nodes| && paths[i] == Stack(sample) && sampleIds == old(sampleIds) + [nodes[i].id]
      ensures |sampleIds| == |old(sampleIds)| + 1 && CallPath(nodes, sample, sampleIds[|old(sampleIds)|])
    {
      hide LinkedAt, ChildrenAt, DistinctPaths, CountSample;
      ghost var stack, before := Stack(sample), paths;
      var current, k := 0, 0;
      assert paths[0] in paths && stack[..0] == [];
      while k < |sample|
        invariant k <= |sample| && Valid() && current < |nodes| && paths[current] == stack[..k]
        invariant before <= paths && sampleIds == old(sampleIds)
        invariant forall p :: p in paths <==> p in before || IsPrefix(p, stack[..k])
        invariant forall i :: 0 <= i < |nodes| ==>
                    nodes[i].hitCount == if i < |old(nodes)| then old(nodes)[i].hitCount else 0
      {
        PrefixStep(stack, k);
        hide IsPrefix, Stack;
        current := Child(current, KeyOf(sample[|sample| - 1 - k]));
        assert paths[current] in paths;
        k := k + 1;
      }
      assert stack[..k] == stack;
      Hit(current);
      NodeSpells(nodes, paths, parents, sample, current);
    }

    /** One sample of the profile. */
    method Record(sample: seq<Frame>, ghost stacks: seq<Path>)
      requires Describes(nodes, paths, parents, sampleIds, stacks)
      modifies this
      ensures Describes(nodes, paths, parents, sampleIds, stacks + [Stack(sample)])
    {
      hide Describes, IsTree, IdFor, Stack, CountSample, IsPrefix;
      DescribesTree(nodes, paths, parents, sampleIds, stacks);
      ghost var nodes0, paths0, parents0, ids0 := nodes, paths, parents, sampleIds;
      AddSample(sample);
      TreeLengths(nodes, paths, parents);
      ghost var id := NewId(nodes, paths, Stack(sample), ids0, sampleIds);
      DescribesMore(nodes0, paths0, parents0, ids0, stacks, Stack(sample), nodes, paths, parents, id);
    }

    method Hit(current: nat)
      requires Valid() && current < |nodes|
      modifies this`nodes, this`sampleIds
      ensures Valid()
      ensures sampleIds == old(sampleIds) + [nodes[current].id]
      ensures forall i :: 0 <= i < |nodes| ==>
                nodes[i].hitCount == CountSample(old(nodes)[i].hitCount, paths[i] == paths[current])
      ensures |nodes| == |old(nodes)|
    {
      hide LinkedAt, ChildrenAt, Saturate;
      HitKeepsTree(nodes, paths, parents, current, CountSample(nodes[current].hitCount, true));
      nodes := nodes[current := nodes[current].(hitCount := CountSample(nodes[current].hitCount, true))];
      sampleIds := sampleIds + [nodes[current].id];
    }
  }

  // ----- A finished profile -----

  ghost predicate SomePrefix(p: Path, stacks: seq<Path>)
  {
    exists k :: 0 <= k < |stacks| && IsPrefix(p, stacks[k])
  }

  /** The sample with this path was given the id of the node for it. */
  ghost predicate IdFor(nodes: seq<Node>, paths: seq<Path>, stack: Path, id: nat)
  {
    exists i :: 0 <= i < |nodes| && i < |paths| && paths[i] == stack && nodes[i].id == id
  }

  /** The tree has one node per distinct stack prefix, the hits of a node are the samples that end there, and every
      sample has the id of its node. */
  ghost predicate Describes(nodes: seq<Node>, paths: seq<Path>, parents: seq<nat>, sampleIds: seq<nat>,
                            stacks: seq<Path>)
  {
    && IsTree(nodes, paths, parents) && |sampleIds| == |stacks|
    && (forall p :: p in paths <==> p == [] || SomePrefix(p, stacks))
    && (forall i :: 0 <= i < |nodes| ==> nodes[i].hitCount == Saturate(CountOf(stacks, paths[i])))
    && (forall k :: 0 <= k < |stacks| ==> IdFor(nodes, paths, stacks[k], sampleIds[k]))
  }

  lemma {:induction false} PrefixesGrow(stacks: seq<Path>, stack: Path, p: Path)
    ensures SomePrefix(p, stacks + [stack]) <==> SomePrefix(p, stacks) || IsPrefix(p, stack)
  {
    hide IsPrefix;
    var all := stacks + [stack];
    if SomePrefix(p, stacks) {
      var k :| 0 <= k < |stacks| && IsPrefix(p, stacks[k]);
      assert IsPrefix(p, all[k]);
    }
    if IsPrefix(p, stack) {
      assert IsPrefix(p, all[|stacks|]);
    }
  }

  lemma {:induction false} IdsKept(nodes: seq<Node>, paths: seq<Path>, nodes': seq<Node>, paths': seq<Path>,
                                   stack: Path, id: nat)
    requires IdFor(nodes, paths, stack, id) && |nodes| == |paths| && |nodes'| == |paths'| && paths <= paths'
    requires forall i :: 0 <= i < |nodes| ==> nodes'[i].id == nodes[i].id
    ensures IdFor(nodes', paths', stack, id)
  {
    var i :| 0 <= i < |nodes| && paths[i] == stack && nodes[i].id == id;
    assert paths'[i] == stack && nodes'[i].id == id;
  }

  lemma {:induction false} CountSnoc(stacks: seq<Path>, stack: Path, p: Path)
    ensures CountOf(stacks + [stack], p) == CountOf(stacks, p) + if p == stack then 1 else 0
  {}

  lemma {:induction false} CountNew(paths: seq<Path>, stacks: seq<Path>, p: Path)
    requires forall q :: q in paths <==> q == [] || SomePrefix(q, stacks)
    requires p !in paths
    ensures CountOf(stacks, p) == 0
  {
    forall k | 0 <= k < |stacks|
      ensures stacks[k] in paths
    {
      assert IsPrefix(stacks[k], stacks[k]);
    }
  }

  /** One more sample. */
  lemma {:induction false} DescribesMore(nodes: seq<Node>, paths: seq<Path>, parents: seq<nat>, sampleIds: seq<nat>,
                                         stacks: seq<Path>, stack: Path,
                                         nodes': seq<Node>, paths': seq<Path>, parents': seq<nat>, id: nat)
    requires Describes(nodes, paths, parents, sampleIds, stacks) && IsTree(nodes', paths', parents') && paths <= paths'
    requires forall p :: p in paths' <==> p in paths || IsPrefix(p, stack)
    requires forall i :: 0 <= i < |nodes'| ==>
               nodes'[i].hitCount == CountSample(if i < |nodes| then nodes[i].hitCount else 0, paths'[i] == stack)
    requires IdFor(nodes', paths', stack, id)
    ensures Describes(nodes', paths', parents', sampleIds + [id], stacks + [stack])
  {
    hide LinkedAt, ChildrenAt, CountOf, IsPrefix, SomePrefix, IdFor;
    var all, ids := stacks + [stack], sampleIds + [id];
    forall p: Path
      ensures p in paths' <==> p == [] || SomePrefix(p, all)
    {
      PrefixesGrow(stacks, stack, p);
    }
    forall i | 0 <= i < |nodes'|
      ensures nodes'[i].hitCount == Saturate(CountOf(all, paths'[i]))
    {
      CountSnoc(stacks, stack, paths'[i]);
      if i >= |nodes| {
        NewPath(paths, paths', i);
        CountNew(paths, stacks, paths'[i]);
      }
    }
    forall k | 0 <= k < |all|
      ensures IdFor(nodes', paths', all[k], ids[k])
    {
      if k < |stacks| {
        assert IdFor(nodes, paths, stacks[k], sampleIds[k]);
        IdsKept(nodes, paths, nodes', paths', stacks[k], sampleIds[k]);
      }
    }
  }

  lemma {:induction false} NewPath(paths: seq<Path>, paths': seq<Path>, i: nat)
    requires DistinctPaths(paths') && paths <= paths' && |paths| <= i < |paths'|
    ensures paths'[i] !in paths
  {
    forall j | 0 <= j < |paths|
      ensures paths[j] != paths'[i]
    {
      assert paths'[j] == paths[j];
    }
  }

  /** A tree and sample ids that describe the samples. */
  ghost predicate IsProfile(nodes: seq<Node>, sampleIds: seq<nat>, stacks: seq<Path>)
  {
    exists paths, parents :: Describes(nodes, paths, parents, sampleIds, stacks)
  }

  /** Build the whole tree. */
  method BuildProfile(samples: seq<seq<Frame>>) returns (nodes: seq<Node>, sampleIds: seq<nat>)
    ensures IsProfile(nodes, sampleIds, Stacks(samples))
    ensures |sampleIds| == |samples| && forall k :: 0 <= k < |samples| ==> CallPath(nodes, samples[k], sampleIds[k])
  {
    hide Describes, IsTree, CallPath;
    var b := new ProfileBuilder();
    var k := 0;
    EmptyProfile(b.nodes, b.paths, b.parents);
    assert Stacks(samples)[..0] == [];
    while k < |samples|
      invariant k <= |samples| && fresh(b)
      invariant Describes(b.nodes, b.paths, b.parents, b.sampleIds, Stacks(samples)[..k])
    {
      b.Record(samples[k], Stacks(samples)[..k]);
      assert Stacks(samples)[..k] + [Stack(samples[k])] == Stacks(samples)[..k + 1];
      k := k + 1;
    }
    assert Stacks(samples)[..k] == Stacks(samples);
    nodes, sampleIds := b.nodes, b.sampleIds;
    AllSpelled(nodes, b.paths, b.parents, sampleIds, samples);
  }

  /** In a finished profile every sample's call path leads to the node of its id. */
  lemma {:induction false} AllSpelled(nodes: seq<Node>, paths: seq<Path>, parents: seq<nat>, sampleIds: seq<nat>,
                                      samples: seq<seq<Frame>>)
    requires Describes(nodes, paths, parents, sampleIds, Stacks(samples))
    ensures |sampleIds| == |samples| && forall k :: 0 <= k < |samples| ==> CallPath(nodes, samples[k], sampleIds[k])
  {
    hide LinkedAt, ChildrenAt, DistinctPaths, CountOf, CallPath, Stack;
    forall k | 0 <= k < |samples|
      ensures CallPath(nodes, samples[k], sampleIds[k])
    {
      assert IdFor(nodes, paths, Stacks(samples)[k], sampleIds[k]);
      var i :| 0 <= i < |nodes| && paths[i] == Stack(samples[k]) && nodes[i].id == sampleIds[k];
      NodeSpells(nodes, paths, parents, samples[k], i);
    }
  }

  lemma {:induction false} EmptyProfile(nodes: seq<Node>, paths: seq<Path>, parents: seq<nat>)
    requires IsTree(nodes, paths, parents) && paths == [[]] && nodes[0].hitCount == 0
    ensures Describes(nodes, paths, parents, [], [])
  {
    hide LinkedAt, ChildrenAt;
  }

  lemma {:induction false} DescribesTree(nodes: seq<Node>, paths: seq<Path>, parents: seq<nat>, sampleIds: seq<nat>,
                                         stacks: seq<Path>)
    requires Describes(nodes, paths, parents, sampleIds, stacks)
    ensures IsTree(nodes, paths, parents)
  {}

  lemma {:induction false} TreeLengths(nodes: seq<Node>, paths: seq<Path>, parents: seq<nat>)
    requires IsTree(nodes, paths, parents)
    ensures |nodes| == |paths|
  {}

  lemma {:induction false} NewId(nodes: seq<Node>, paths: seq<Path>, stack: Path, ids0: seq<nat>, ids: seq<nat>)
    returns (id: nat)
    requires |nodes| == |paths|
    requires exists i :: 0 <= i < |nodes| && paths[i] == stack && ids == ids0 + [nodes[i].id]
    ensures IdFor(nodes, paths, stack, id) && ids == ids0 + [id]
  {
    var i :| 0 <= i < |nodes| && paths[i] == stack && ids == ids0 + [nodes[i].id];
    id := nodes[i].id;
  }

  // ----- Totals and ids -----

  /** Occurrences in `xs` of everything in `order`. */
  function SumCounts<T(==)>(order: seq<T>, xs: seq<T>): (n: nat)
  {
    if order == [] then 0 else CountOf(xs, order[0]) + SumCounts(order[1..], xs)
  }

  lemma {:induction false} SumSnoc<T>(order: seq<T>, xs: seq<T>, x: T)
    requires forall i, j :: 0 <= i < j < |order| ==> order[i] != order[j]
    ensures SumCounts(order, xs + [x]) == SumCounts(order, xs) + if x in order then 1 else 0
  {
    if order != [] {
      SumSnoc(order[1..], xs, x);
      assert x in order <==> x == order[0] || x in order[1..];
      if x == order[0] {
        assert x !in order[1..];
      }
    }
  }

  lemma {:induction false} SumNone<T>(order: seq<T>)
    ensures SumCounts(order, []) == 0
  {
    if order != [] {
      SumNone(order[1..]);
    }
  }

  /** Counting every distinct element counts everything. */
  lemma {:induction false} SumIsLength<T>(order: seq<T>, xs: seq<T>)
    requires forall i, j :: 0 <= i < j < |order| ==> order[i] != order[j]
    requires forall k :: 0 <= k < |xs| ==> xs[k] in order
    ensures SumCounts(order, xs) == |xs|
    decreases |xs|
  {
    if xs == [] {
      SumNone(order);
    } else {
      var n := |xs| - 1;
      SumIsLength(order, xs[..n]);
      SumSnoc(order, xs[..n], xs[n]);
      assert xs == xs[..n] + [xs[n]];
    }
  }

  function TotalHits(nodes: seq<Node>): (n: nat)
  {
    if nodes == [] then 0 else nodes[0].hitCount + TotalHits(nodes[1..])
  }

  /** No path occurs more often than 32 bits can count. */
  predicate CountsFit(paths: seq<Path>, stacks: seq<Path>)
  {
    forall i :: 0 <= i < |paths| ==> CountOf(stacks, paths[i]) <= U32_MAX
  }

  lemma {:induction false} HitsAgainstCounts(nodes: seq<Node>, paths: seq<Path>, stacks: seq<Path>)
    requires |nodes| == |paths|
    requires forall i :: 0 <= i < |nodes| ==> nodes[i].hitCount == Saturate(CountOf(stacks, paths[i]))
    ensures TotalHits(nodes) <= SumCounts(paths, stacks)
    ensures TotalHits(nodes) == SumCounts(paths, stacks) <==> CountsFit(paths, stacks)
  {
    hide CountOf;
    if nodes != [] {
      var tail := paths[1..];
      HitsAgainstCounts(nodes[1..], tail, stacks);
      assert forall i :: 0 <= i < |tail| ==> tail[i] == paths[i + 1];
      assert forall i :: 0 < i < |paths| ==> paths[i] == tail[i - 1];
      assert CountsFit(paths, stacks) <==> CountOf(stacks, paths[0]) <= U32_MAX && CountsFit(tail, stacks);
    }
  }

  /** The hits in the tree add up to the number of samples exactly when no node's count exceeds 32 bits. */
  lemma {:induction false} HitsAreSamples(nodes: seq<Node>, paths: seq<Path>, parents: seq<nat>, sampleIds: seq<nat>,
                                          stacks: seq<Path>)
    requires Describes(nodes, paths, parents, sampleIds, stacks)
    ensures TotalHits(nodes) == |stacks| <==> CountsFit(paths, stacks)
  {
    hide CountOf, LinkedAt, ChildrenAt, TotalHits, SumCounts;
    forall k | 0 <= k < |stacks|
      ensures stacks[k] in paths
    {
      assert IsPrefix(stacks[k], stacks[k]);
    }
    SumIsLength(paths, stacks);
    HitsAgainstCounts(nodes, paths, stacks);
  }

  /** While node ids fit 32 bits, two samples get the same id exactly when their call paths are equal. */
  lemma {:induction false} SameIdSameStack(nodes: seq<Node>, paths: seq<Path>, parents: seq<nat>,
                                           sampleIds: seq<nat>, stacks: seq<Path>, j: nat, k: nat)
    requires Describes(nodes, paths, parents, sampleIds, stacks) && |nodes| <= U32_MAX && j < |stacks| && k < |stacks|
    ensures sampleIds[j] == sampleIds[k] <==> stacks[j] == stacks[k]
  {
    hide LinkedAt, ChildrenAt, CountOf;
    assert IdFor(nodes, paths, stacks[j], sampleIds[j]) && IdFor(nodes, paths, stacks[k], sampleIds[k]);
    var x :| 0 <= x < |nodes| && paths[x] == stacks[j] && nodes[x].id == sampleIds[j];
    var y :| 0 <= y < |nodes| && paths[y] == stacks[k] && nodes[y].id == sampleIds[k];
  }

  lemma {:induction false} SampleAtNode(nodes: seq<Node>, paths: seq<Path>, parents: seq<nat>, sampleIds: seq<nat>,
                                        stacks: seq<Path>, i: nat, k: nat)
    requires Describes(nodes, paths, parents, sampleIds, stacks) && |nodes| <= U32_MAX && i < |nodes| && k < |stacks|
    ensures sampleIds[k] == nodes[i].id <==> stacks[k] == paths[i]
  {
    hide LinkedAt, ChildrenAt, CountOf;
    assert IdFor(nodes, paths, stacks[k], sampleIds[k]);
    var x :| 0 <= x < |nodes| && paths[x] == stacks[k] && nodes[x].id == sampleIds[k];
  }

  lemma {:induction false} DescribedLengths(nodes: seq<Node>, paths: seq<Path>, parents: seq<nat>,
                                            sampleIds: seq<nat>, stacks: seq<Path>)
    requires Describes(nodes, paths, parents, sampleIds, stacks)
    ensures |sampleIds| == |stacks| && |paths| == |nodes|
  {
    hide LinkedAt, ChildrenAt, CountOf;
  }

  lemma {:induction false} IdCounts(nodes: seq<Node>, paths: seq<Path>, parents: seq<nat>, sampleIds: seq<nat>,
                                    stacks: seq<Path>, i: nat, n: nat)
    requires Describes(nodes, paths, parents, sampleIds, stacks) && |nodes| <= U32_MAX && i < |nodes| && n <= |stacks|
    ensures |sampleIds| == |stacks| && |paths| == |nodes|
    ensures CountOf(sampleIds[..n], nodes[i].id) == CountOf(stacks[..n], paths[i])
    decreases n
  {
    hide Describes;
    DescribedLengths(nodes, paths, parents, sampleIds, stacks);
    if n > 0 {
      var k := n - 1;
      IdCounts(nodes, paths, parents, sampleIds, stacks, i, k);
      SampleAtNode(nodes, paths, parents, sampleIds, stacks, i, k);
      assert sampleIds[..n] == sampleIds[..k] + [sampleIds[k]] && stacks[..n] == stacks[..k] + [stacks[k]];
    }
  }

  /** The hits of a node are the number of samples with its id. */
  lemma {:induction false} HitsCountIds(nodes: seq<Node>, paths: seq<Path>, parents: seq<nat>, sampleIds: seq<nat>,
                                        stacks: seq<Path>, i: nat)
    requires Describes(nodes, paths, parents, sampleIds, stacks) && |nodes| <= U32_MAX && i < |nodes|
    ensures nodes[i].hitCount == Saturate(CountOf(sampleIds, nodes[i].id))
  {
    hide LinkedAt, ChildrenAt, CountOf;
    IdCounts(nodes, paths, parents, sampleIds, stacks, i, |stacks|);
    assert sampleIds[..|stacks|] == sampleIds && stacks[..|stacks|] == stacks;
  }

  /** Ids identify nodes exactly while there are at most 2^32 - 1 of them. */
  lemma {:induction false} IdsIdentifyNodes(nodes: seq<Node>, paths: seq<Path>, parents: seq<nat>)
    requires IsTree(nodes, paths, parents)
    ensures (forall i, j :: 0 <= i < j < |nodes| ==> nodes[i].id != nodes[j].id) <==> |nodes| <= U32_MAX
  {
    hide LinkedAt, ChildrenAt;
    if |nodes| > U32_MAX {
      assert nodes[U32_MAX - 1].id == nodes[U32_MAX].id;
    }
  }

  // ----- Folded stacks -----

  function Escaped(s: string): (r: string)
  {
    if s == "" then "" else (if s[0] == ';' then "\\;" else [s[0]]) + Escaped(s[1..])
  }

  function FoldedFrameName(f: Frame): (r: string)
  {
    Escaped(f.functionName) + if f.moduleName == "" then "" else " [" + Escaped(f.moduleName) + "]"
  }

  /** Frame names from the outermost inward, joined with semicolons. */
  function Joined(sample: seq<Frame>): (r: string)
  {
    if sample == [] then ""
    else if |sample| == 1 then FoldedFrameName(sample[0])
    else Joined(sample[1..]) + ";" + FoldedFrameName(sample[0])
  }

  function FoldedStack(sample: seq<Frame>): (r: string)
  {
    if sample == [] then "(idle)" else Joined(sample)
  }

  function FoldedStacks(samples: seq<seq<Frame>>): (names: seq<string>)
    ensures |names| == |samples|
  {
    seq(|samples|, i requires 0 <= i < |samples| => FoldedStack(samples[i]))
  }

  ghost predicate Counts(folded: map<string, nat>, names: seq<string>)
  {
    && (forall name :: name in folded <==> name in names)
    && (forall name :: name in folded ==> folded[name] == CountOf(names, name))
  }

  function Bumped(folded: map<string, nat>, name: string): (r: map<string, nat>)
  {
    folded[name := (if name in folded then folded[name] else 0) + 1]
  }

  lemma {:induction false} CountsMore(folded: map<string, nat>, names: seq<string>, name: string)
    requires Counts(folded, names)
    ensures Counts(Bumped(folded, name), names + [name])
  {
    hide CountOf;
    forall x: string
      ensures CountOf(names + [name], x) == CountOf(names, x) + if x == name then 1 else 0
      ensures x !in names ==> CountOf(names, x) == 0
    {
      CountOne(names, name, x);
    }
  }

  lemma {:induction false} CountOne(names: seq<string>, name: string, x: string)
    ensures CountOf(names + [name], x) == CountOf(names, x) + if x == name then 1 else 0
    ensures x !in names ==> CountOf(names, x) == 0
  {}

  lemma {:induction false} CountsNothing()
    ensures Counts(map[], [])
  {}

  method FoldProfile(samples: seq<seq<Frame>>) returns (folded: map<string, nat>)
    ensures Counts(folded, FoldedStacks(samples))
  {
    hide FoldedStack, Counts;
    folded := map[];
    var k := 0;
    CountsNothing();
    assert FoldedStacks(samples)[..0] == [];
    while k < |samples|
      invariant k <= |samples| && Counts(folded, FoldedStacks(samples)[..k])
    {
      ghost var names := FoldedStacks(samples);
      var name := FoldedStack(samples[k]);
      assert names[..k + 1] == names[..k] + [name];
      CountsMore(folded, names[..k], name);
      folded := folded[name := (if name in folded then folded[name] else 0) + 1];
      k := k + 1;
    }
    assert FoldedStacks(samples)[..k] == FoldedStacks(samples);
  }

  function TotalCount(order: seq<string>, folded: map<string, nat>): (n: nat)
    requires forall i :: 0 <= i < |order| ==> order[i] in folded
  {
    if order == [] then 0 else folded[order[0]] + TotalCount(order[1..], folded)
  }

  lemma {:induction false} TotalIsSum(order: seq<string>, folded: map<string, nat>, names: seq<string>)
    requires Counts(folded, names) && forall i :: 0 <= i < |order| ==> order[i] in folded
    ensures TotalCount(order, folded) == SumCounts(order, names)
  {
    if order != [] {
      TotalIsSum(order[1..], folded, names);
    }
  }

  /** The counts written out, in whatever order, add up to the number of samples. */
  lemma {:induction false} FoldedTotal(order: seq<string>, folded: map<string, nat>, names: seq<string>)
    requires Counts(folded, names)
    requires forall name :: name in order <==> name in folded
    requires forall i, j :: 0 <= i < j < |order| ==> order[i] != order[j]
    ensures TotalCount(order, folded) == |names|
  {
    TotalIsSum(order, folded, names);
    SumIsLength(order, names);
  }
}
