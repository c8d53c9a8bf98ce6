/** Reconciling operations of unknown outcome with a final read
    (dodb-soak/src/lib.rs). */
module Reconcile {
  import opened Lex
  import opened Pages

  /** The model keeps values as length and digest; short ones also in full. */
  datatype Fingerprint = Fingerprint(length: nat, digest: bytes, inline: Option<bytes>)

  datatype StateShape = Gone | Holding(value: Fingerprint)

  type Shapes = seq<StateShape>

  /** What one operation does when it is applied: shapes for some key positions. */
  type Effects = seq<(nat, StateShape)>

  datatype Resolution = Applied | NotApplied | Partial

  ghost predicate InBounds(ops: seq<Effects>, n: nat) {
    forall i, j :: 0 <= i < |ops| && 0 <= j < |ops[i]| ==> ops[i][j].0 < n
  }

  // ---------------------------------------------------------------- the effect of operations

  function ApplyOne(shapes: Shapes, e: Effects): (r: Shapes)
    requires forall j :: 0 <= j < |e| ==> e[j].0 < |shapes|
    ensures |r| == |shapes|
  {
    if e == [] then shapes
    else ApplyOne(shapes, e[..|e| - 1])[e[|e| - 1].0 := e[|e| - 1].1]
  }

  /** Some of the operations, each at most once, in some order. */
  ghost predicate Ordering(order: seq<nat>, n: nat) {
    && (forall i :: 0 <= i < |order| ==> order[i] < n)
    && (forall i, j :: 0 <= i < j < |order| ==> order[i] != order[j])
  }

  ghost function ApplyAll(shapes: Shapes, ops: seq<Effects>, order: seq<nat>): (r: Shapes)
    requires InBounds(ops, |shapes|) && Ordering(order, |ops|)
    ensures |r| == |shapes|
  {
    if order == [] then shapes
    else ApplyOne(ApplyAll(shapes, ops, order[..|order| - 1]), ops[order[|order| - 1]])
  }

  /** Some ordered subset of the operations, each applied as a whole, leads from
      the model to the read. */
  ghost predicate Explained(current: Shapes, ops: seq<Effects>, actual: Shapes)
    requires InBounds(ops, |current|)
  {
    exists order :: Ordering(order, |ops|) && ApplyAll(current, ops, order) == actual
  }

  method ApplyEffects(shapes: Shapes, e: Effects) returns (r: Shapes)
    requires forall j :: 0 <= j < |e| ==> e[j].0 < |shapes|
    ensures r == ApplyOne(shapes, e)
  {
    r := shapes;
    for j := 0 to |e|
      invariant r == ApplyOne(shapes, e[..j])
    {
      assert e[..j + 1][..j] == e[..j];
      r := r[e[j].0 := e[j].1];
    }
    assert e[..|e|] == e;
  }

  // ---------------------------------------------------------------- the search

  type Mask = seq<bool>

  /** A state of the search: the operations decided so far and the shapes. */
  type Node = (Mask, Shapes)

  function Unmarked(n: nat): Mask {
    seq(n, i => false)
  }

  function Full(n: nat): Mask {
    seq(n, i => true)
  }

  /** The shapes come from applying some of the decided operations. */
  ghost predicate Justified(current: Shapes, ops: seq<Effects>, node: Node)
    requires InBounds(ops, |current|)
  {
    |node.0| == |ops| && exists order :: JustifiedBy(current, ops, node, order)
  }

  ghost predicate JustifiedBy(current: Shapes, ops: seq<Effects>, node: Node, order: seq<nat>)
    requires InBounds(ops, |current|)
  {
    && |node.0| == |ops| && Ordering(order, |ops|)
    && (forall i :: 0 <= i < |order| ==> node.0[order[i]])
    && ApplyAll(current, ops, order) == node.1
  }

  /** The node after deciding operation i. */
  function Skip(node: Node, i: nat): Node
    requires i < |node.0|
  {
    (node.0[i := true], node.1)
  }

  function Take(node: Node, i: nat, e: Effects): Node
    requires i < |node.0| && forall j :: 0 <= j < |e| ==> e[j].0 < |node.1|
  {
    (node.0[i := true], ApplyOne(node.1, e))
  }

  lemma StartJustified(current: Shapes, ops: seq<Effects>)
    requires InBounds(ops, |current|)
    ensures Justified(current, ops, (Unmarked(|ops|), current))
  {
    assert JustifiedBy(current, ops, (Unmarked(|ops|), current), []);
  }

  lemma SkipJustified(current: Shapes, ops: seq<Effects>, node: Node, i: nat)
    requires InBounds(ops, |current|) && Justified(current, ops, node) && i < |ops|
    ensures Justified(current, ops, Skip(node, i))
  {
    var order :| JustifiedBy(current, ops, node, order);
    assert JustifiedBy(current, ops, Skip(node, i), order);
  }

  lemma TakeJustified(current: Shapes, ops: seq<Effects>, node: Node, i: nat)
    requires InBounds(ops, |current|) && Justified(current, ops, node) && i < |ops| && !node.0[i]
    ensures |node.1| == |current| && Justified(current, ops, Take(node, i, ops[i]))
  {
    var order :| JustifiedBy(current, ops, node, order);
    var order' := order + [i];
    assert order'[..|order|] == order;
    assert JustifiedBy(current, ops, Take(node, i, ops[i]), order');
  }

  // ---------------------------------------------------------------- the finite search space

  ghost function AllSeqs<T>(pool: set<T>, n: nat): set<seq<T>> {
    if n == 0 then {[]}
    else set s, x | s in AllSeqs(pool, n - 1) && x in pool :: s + [x]
  }

  lemma {:induction false} InAllSeqs<T>(pool: set<T>, s: seq<T>)
    requires forall i :: 0 <= i < |s| ==> s[i] in pool
    ensures s in AllSeqs(pool, |s|)
  {
    if s != [] {
      var n := |s| - 1;
      InAllSeqs(pool, s[..n]);
      assert s == s[..n] + [s[n]];
    }
  }

  ghost function Pool(current: Shapes, ops: seq<Effects>): set<StateShape> {
    (set i | 0 <= i < |current| :: current[i]) + (set i, j | 0 <= i < |ops| && 0 <= j < |ops[i]| :: ops[i][j].1)
  }

  ghost predicate FromPool(shapes: Shapes, pool: set<StateShape>) {
    forall i :: 0 <= i < |shapes| ==> shapes[i] in pool
  }

  lemma {:induction false} ApplyOneFromPool(shapes: Shapes, e: Effects, pool: set<StateShape>)
    requires FromPool(shapes, pool) && forall j :: 0 <= j < |e| ==> e[j].0 < |shapes| && e[j].1 in pool
    ensures FromPool(ApplyOne(shapes, e), pool)
  {
    if e != [] {
      ApplyOneFromPool(shapes, e[..|e| - 1], pool);
    }
  }

  ghost predicate InSpace(node: Node, current: Shapes, ops: seq<Effects>) {
    |node.0| == |ops| && |node.1| == |current| && FromPool(node.1, Pool(current, ops))
  }

  ghost function Space(current: Shapes, ops: seq<Effects>): set<Node> {
    set m, s | m in AllSeqs({true, false}, |ops|) && s in AllSeqs(Pool(current, ops), |current|) :: (m, s)
  }

  lemma SpaceHas(node: Node, current: Shapes, ops: seq<Effects>)
    requires InSpace(node, current, ops)
    ensures node in Space(current, ops)
  {
    forall i | 0 <= i < |node.0| ensures node.0[i] in {true, false} {
      if node.0[i] {
      }
    }
    InAllSeqs({true, false}, node.0);
    InAllSeqs(Pool(current, ops), node.1);
  }

  lemma TakeInSpace(node: Node, current: Shapes, ops: seq<Effects>, i: nat)
    requires InSpace(node, current, ops) && InBounds(ops, |current|) && i < |ops|
    ensures InSpace(Take(node, i, ops[i]), current, ops) && InSpace(Skip(node, i), current, ops)
  {
    forall j | 0 <= j < |ops[i]| ensures ops[i][j].0 < |node.1| && ops[i][j].1 in Pool(current, ops) {
    }
    ApplyOneFromPool(node.1, ops[i], Pool(current, ops));
  }

  // ---------------------------------------------------------------- searching

  ghost predicate Expanded(visited: set<Node>, ops: seq<Effects>, n: nat, node: Node, upto: nat)
    requires InBounds(ops, n) && |node.0| == |ops| && |node.1| == n && upto <= |ops|
  {
    forall i :: 0 <= i < upto && !node.0[i] ==> Skip(node, i) in visited && Take(node, i, ops[i]) in visited
  }

  /** What the search has established: everything visited is justified; what is
      no longer pending has been expanded and is not the goal. */
  ghost predicate Searched(current: Shapes, ops: seq<Effects>, actual: Shapes, visited: set<Node>, frontier: seq<Node>)
    requires InBounds(ops, |current|)
  {
    && (forall x :: x in visited ==> InSpace(x, current, ops) && Justified(current, ops, x))
    && (forall x :: x in frontier ==> x in visited)
    && (Unmarked(|ops|), current) in visited
    && (forall x :: x in visited && x !in frontier ==>
          Expanded(visited, ops, |current|, x, |ops|) && x != (Full(|ops|), actual))
  }

  /** Explores all ways to decide the operations one by one. */
  method Search(current: Shapes, ops: seq<Effects>, actual: Shapes) returns (found: bool)
    requires InBounds(ops, |current|)
    ensures found <==> Explained(current, ops, actual)
  {
    hide Justified, InSpace, Explained, Expanded;
    var start := (Unmarked(|ops|), current);
    var frontier: seq<Node> := [start];
    var visited: set<Node> := {start};
    StartSearched(current, ops, actual);
    while frontier != []
      invariant Searched(current, ops, actual, visited, frontier)
      decreases Space(current, ops) - visited, |frontier|
    {
      var node := frontier[|frontier| - 1];
      if node.0 == Full(|ops|) && node.1 == actual {
        FoundExplains(current, ops, actual, visited, frontier, node);
        return true;
      }
      ghost var visited0 := visited;
      BeginExpanding(current, ops, actual, visited, frontier);
      frontier, visited := Expand(current, ops, actual, node, frontier[..|frontier| - 1], visited);
      SpaceShrinks(current, ops, visited0, visited);
    }
    NothingFound(current, ops, actual, visited);
    return false;
  }

  lemma BeginExpanding(current: Shapes, ops: seq<Effects>, actual: Shapes, visited: set<Node>, frontier: seq<Node>)
    requires InBounds(ops, |current|) && Searched(current, ops, actual, visited, frontier) && frontier != []
    requires frontier[|frontier| - 1] != (Full(|ops|), actual)
    ensures Expanding(current, ops, actual, visited, frontier[..|frontier| - 1], frontier[|frontier| - 1], 0)
  {
    hide Justified;
    var node, rest := frontier[|frontier| - 1], frontier[..|frontier| - 1];
    assert frontier == rest + [node] && node in frontier;
    assert InSpace(node, current, ops);
    forall x | x in visited && x !in rest && x != node
      ensures |x.0| == |ops| && |x.1| == |current| && Expanded(visited, ops, |current|, x, |ops|) && x != (Full(|ops|), actual)
    {
      assert x !in frontier && InSpace(x, current, ops);
    }
  }

  lemma StartSearched(current: Shapes, ops: seq<Effects>, actual: Shapes)
    requires InBounds(ops, |current|)
    ensures Searched(current, ops, actual, {(Unmarked(|ops|), current)}, [(Unmarked(|ops|), current)])
  {
    StartJustified(current, ops);
  }

  lemma FoundExplains(current: Shapes, ops: seq<Effects>, actual: Shapes, visited: set<Node>, frontier: seq<Node>, node: Node)
    requires InBounds(ops, |current|) && Searched(current, ops, actual, visited, frontier) && node in frontier && node.1 == actual
    ensures Explained(current, ops, actual)
  {
    assert Justified(current, ops, node);
  }

  lemma SpaceShrinks(current: Shapes, ops: seq<Effects>, visited: set<Node>, visited': set<Node>)
    requires visited <= visited' && forall x :: x in visited' ==> InSpace(x, current, ops)
    ensures Space(current, ops) - visited' <= Space(current, ops) - visited
    ensures visited != visited' ==> Space(current, ops) - visited' < Space(current, ops) - visited
  {
    if visited != visited' {
      var x :| x in visited' && x !in visited;
      SpaceHas(x, current, ops);
      assert x in Space(current, ops) - visited;
    }
  }

  /** The same while `node` is being expanded and its first i operations are
      done. */
  ghost predicate Expanding(current: Shapes, ops: seq<Effects>, actual: Shapes, visited: set<Node>, frontier: seq<Node>, node: Node, i: nat)
    requires InBounds(ops, |current|)
  {
    && (forall x :: x in visited ==> InSpace(x, current, ops) && Justified(current, ops, x))
    && (forall x :: x in frontier ==> x in visited)
    && (Unmarked(|ops|), current) in visited && node in visited && i <= |ops| && |node.0| == |ops| && |node.1| == |current|
    && (forall x :: x in visited && x !in frontier && x != node ==>
          |x.0| == |ops| && |x.1| == |current| && Expanded(visited, ops, |current|, x, |ops|) && x != (Full(|ops|), actual))
    && Expanded(visited, ops, |current|, node, i) && node != (Full(|ops|), actual)
  }

  method Expand(current: Shapes, ops: seq<Effects>, actual: Shapes, node: Node, frontier0: seq<Node>, visited0: set<Node>)
    returns (frontier: seq<Node>, visited: set<Node>)
    requires InBounds(ops, |current|) && Expanding(current, ops, actual, visited0, frontier0, node, 0)
    ensures Searched(current, ops, actual, visited, frontier)
    ensures visited0 <= visited && (visited == visited0 ==> frontier == frontier0)
  {
    hide Justified, InSpace, Expanding, Searched;
    frontier, visited := frontier0, visited0;
    for i := 0 to |ops|
      invariant Expanding(current, ops, actual, visited, frontier, node, i)
      invariant visited0 <= visited && (visited == visited0 ==> frontier == frontier0)
    {
      NodeSizes(current, ops, actual, visited, frontier, node, i);
      if node.0[i] {
        ExpandDecided(current, ops, actual, visited, frontier, node, i);
        continue;
      }
      ghost var visited1, frontier1 := visited, frontier;
      var skipped := Skip(node, i);
      if skipped !in visited {
        visited, frontier := visited + {skipped}, frontier + [skipped];
      }
      var applied := ApplyEffects(node.1, ops[i]);
      var candidate := (node.0[i := true], applied);
      if candidate !in visited {
        visited, frontier := visited + {candidate}, frontier + [candidate];
      }
      ExpandStep(current, ops, actual, visited1, frontier1, node, i, visited, frontier);
    }
    ExpandDone(current, ops, actual, visited, frontier, node);
  }

  lemma NodeSizes(current: Shapes, ops: seq<Effects>, actual: Shapes, visited: set<Node>, frontier: seq<Node>, node: Node, i: nat)
    requires InBounds(ops, |current|) && Expanding(current, ops, actual, visited, frontier, node, i)
    ensures |node.0| == |ops| && |node.1| == |current|
  {
  }

  lemma ExpandDecided(current: Shapes, ops: seq<Effects>, actual: Shapes, visited: set<Node>, frontier: seq<Node>, node: Node, i: nat)
    requires InBounds(ops, |current|) && Expanding(current, ops, actual, visited, frontier, node, i) && i < |ops| && |node.0| == |ops| && node.0[i]
    ensures Expanding(current, ops, actual, visited, frontier, node, i + 1)
  {
    hide Justified, InSpace;
  }

  lemma ExpandedMore(visited: set<Node>, visited': set<Node>, ops: seq<Effects>, n: nat, node: Node, upto: nat)
    requires InBounds(ops, n) && |node.0| == |ops| && |node.1| == n && upto <= |ops| && visited <= visited'
    requires Expanded(visited, ops, n, node, upto)
    ensures Expanded(visited', ops, n, node, upto)
  {
  }

  lemma ExpandStep(current: Shapes, ops: seq<Effects>, actual: Shapes, visited: set<Node>, frontier: seq<Node>, node: Node, i: nat,
                   visited': set<Node>, frontier': seq<Node>)
    requires InBounds(ops, |current|) && Expanding(current, ops, actual, visited, frontier, node, i)
    requires i < |ops| && |node.0| == |ops| && |node.1| == |current| && !node.0[i]
    requires visited' == visited + {Skip(node, i), Take(node, i, ops[i])}
    requires forall x :: x in frontier' <==> x in frontier || (x in visited' && x !in visited)
    ensures Expanding(current, ops, actual, visited', frontier', node, i + 1)
  {
    SkipJustified(current, ops, node, i);
    TakeJustified(current, ops, node, i);
    TakeInSpace(node, current, ops, i);
    hide Justified, InSpace;
    ExpandedMore(visited, visited', ops, |current|, node, i);
    forall x | x in visited' && x !in frontier' && x != node
      ensures |x.0| == |ops| && |x.1| == |current| && Expanded(visited', ops, |current|, x, |ops|) && x != (Full(|ops|), actual)
    {
      ExpandedMore(visited, visited', ops, |current|, x, |ops|);
    }
  }

  lemma ExpandDone(current: Shapes, ops: seq<Effects>, actual: Shapes, visited: set<Node>, frontier: seq<Node>, node: Node)
    requires InBounds(ops, |current|) && Expanding(current, ops, actual, visited, frontier, node, |ops|)
    ensures Searched(current, ops, actual, visited, frontier)
  {
    hide Justified, Expanded;
  }

  // ---------------------------------------------------------------- completeness of the search

  ghost function MaskOf(order: seq<nat>, n: nat): Mask {
    seq(n, i => i in order)
  }

  ghost function MarkFirst(mask: Mask, k: nat): Mask {
    seq(|mask|, i requires 0 <= i < |mask| => i < k || mask[i])
  }

  ghost predicate Closed(current: Shapes, ops: seq<Effects>, visited: set<Node>)
    requires InBounds(ops, |current|)
  {
    forall x :: x in visited ==> |x.0| == |ops| && |x.1| == |current| && Expanded(visited, ops, |current|, x, |ops|)
  }

  lemma {:induction false} OrderVisited(current: Shapes, ops: seq<Effects>, visited: set<Node>, order: seq<nat>)
    requires InBounds(ops, |current|) && Closed(current, ops, visited) && (Unmarked(|ops|), current) in visited && Ordering(order, |ops|)
    ensures (MaskOf(order, |ops|), ApplyAll(current, ops, order)) in visited
  {
    if order == [] {
      assert MaskOf(order, |ops|) == Unmarked(|ops|);
    } else {
      var n := |order| - 1;
      OrderVisited(current, ops, visited, order[..n]);
      var node := (MaskOf(order[..n], |ops|), ApplyAll(current, ops, order[..n]));
      assert !node.0[order[n]];
      assert Take(node, order[n], ops[order[n]]) in visited;
      assert order == order[..n] + [order[n]];
      assert MaskOf(order, |ops|) == node.0[order[n] := true];
    }
  }

  lemma {:induction false} SkipsVisited(current: Shapes, ops: seq<Effects>, visited: set<Node>, node: Node, k: nat)
    requires InBounds(ops, |current|) && Closed(current, ops, visited) && node in visited && k <= |ops|
    ensures (MarkFirst(node.0, k), node.1) in visited
  {
    if k == 0 {
      assert MarkFirst(node.0, 0) == node.0;
    } else {
      SkipsVisited(current, ops, visited, node, k - 1);
      var before: Node := (MarkFirst(node.0, k - 1), node.1);
      if node.0[k - 1] {
        assert MarkFirst(node.0, k) == before.0;
      } else {
        assert Skip(before, k - 1) in visited;
        assert MarkFirst(node.0, k) == before.0[k - 1 := true];
      }
    }
  }

  /** When everything was explored without success, nothing explains the read. */
  lemma NothingFound(current: Shapes, ops: seq<Effects>, actual: Shapes, visited: set<Node>)
    requires InBounds(ops, |current|) && Searched(current, ops, actual, visited, [])
    ensures !Explained(current, ops, actual)
  {
    assert Closed(current, ops, visited) by {
      forall x | x in visited ensures |x.0| == |ops| && |x.1| == |current| && Expanded(visited, ops, |current|, x, |ops|) {
        assert InSpace(x, current, ops);
      }
    }
    forall order | Ordering(order, |ops|) ensures ApplyAll(current, ops, order) != actual {
      OrderVisited(current, ops, visited, order);
      SkipsVisited(current, ops, visited, (MaskOf(order, |ops|), ApplyAll(current, ops, order)), |ops|);
      assert MarkFirst(MaskOf(order, |ops|), |ops|) == Full(|ops|);
    }
  }

  // ---------------------------------------------------------------- operations on single keys

  ghost predicate SingleKey(ops: seq<Effects>) {
    forall i :: 0 <= i < |ops| ==> |ops[i]| == 1
  }

  /** Some operation leaves key k in the given shape. */
  ghost predicate Leaves(ops: seq<Effects>, k: nat, shape: StateShape) {
    exists i :: 0 <= i < |ops| && |ops[i]| == 1 && ops[i][0] == (k, shape)
  }

  /** The shortcut: every key is as it was or as some operation leaves it. */
  ghost predicate KeyByKey(current: Shapes, ops: seq<Effects>, actual: Shapes)
    requires |actual| == |current|
  {
    forall k :: 0 <= k < |current| ==> actual[k] == current[k] || Leaves(ops, k, actual[k])
  }

  method CheckKeys(current: Shapes, ops: seq<Effects>, actual: Shapes) returns (ok: bool)
    requires |actual| == |current| && SingleKey(ops)
    ensures ok <==> KeyByKey(current, ops, actual)
  {
    for k := 0 to |current|
      invariant forall j :: 0 <= j < k ==> actual[j] == current[j] || Leaves(ops, j, actual[j])
    {
      var possible := false;
      for i := 0 to |ops|
        invariant possible <==> exists j :: 0 <= j < i && |ops[j]| == 1 && ops[j][0] == (k, actual[k])
      {
        if ops[i][0].0 == k && ops[i][0].1 == actual[k] {
          possible := true;
        }
      }
      if actual[k] != current[k] && !possible {
        return false;
      }
    }
    return true;
  }

  lemma SingleApply(shapes: Shapes, e: Effects)
    requires |e| == 1 && e[0].0 < |shapes|
    ensures ApplyOne(shapes, e) == shapes[e[0].0 := e[0].1]
  {
    assert e[..0] == [];
  }

  /** Whatever is applied, a key ends as it was or as some operation leaves it. */
  lemma {:induction false} OrderKeyByKey(current: Shapes, ops: seq<Effects>, order: seq<nat>)
    requires InBounds(ops, |current|) && SingleKey(ops) && Ordering(order, |ops|)
    ensures KeyByKey(current, ops, ApplyAll(current, ops, order))
  {
    if order != [] {
      var n := |order| - 1;
      OrderKeyByKey(current, ops, order[..n]);
      var before, e := ApplyAll(current, ops, order[..n]), ops[order[n]];
      SingleApply(before, e);
      assert Leaves(ops, e[0].0, e[0].1);
    }
  }

  /** One operation for each key that changed explains the read. */
  lemma {:induction false} BuildOrder(current: Shapes, ops: seq<Effects>, actual: Shapes, n: nat) returns (order: seq<nat>)
    requires InBounds(ops, |current|) && SingleKey(ops) && |actual| == |current| && KeyByKey(current, ops, actual) && n <= |current|
    ensures Ordering(order, |ops|) && ApplyAll(current, ops, order) == actual[..n] + current[n..]
    ensures forall i :: 0 <= i < |order| ==> ops[order[i]][0].0 < n
  {
    if n == 0 {
      order := [];
      assert actual[..0] + current[0..] == current;
    } else {
      hide ApplyAll, ApplyOne;
      var before := BuildOrder(current, ops, actual, n - 1);
      var shapes := actual[..n - 1] + current[n - 1..];
      OneFurther(current, actual, n);
      if actual[n - 1] == current[n - 1] {
        order := before;
      } else {
        var i :| 0 <= i < |ops| && |ops[i]| == 1 && ops[i][0] == (n - 1, actual[n - 1]);
        order := before + [i];
        ApplyAllMore(current, ops, before, i);
        SingleApply(shapes, ops[i]);
      }
    }
  }

  lemma ApplyAllMore(current: Shapes, ops: seq<Effects>, order: seq<nat>, i: nat)
    requires InBounds(ops, |current|) && Ordering(order, |ops|) && i < |ops| && i !in order
    ensures Ordering(order + [i], |ops|)
    ensures ApplyAll(current, ops, order + [i]) == ApplyOne(ApplyAll(current, ops, order), ops[i])
  {
    assert (order + [i])[..|order|] == order;
  }

  lemma OneFurther(current: Shapes, actual: Shapes, n: nat)
    requires 0 < n <= |current| == |actual|
    ensures (actual[..n - 1] + current[n - 1..])[n - 1 := actual[n - 1]] == actual[..n] + current[n..]
    ensures actual[n - 1] == current[n - 1] ==> actual[..n - 1] + current[n - 1..] == actual[..n] + current[n..]
  {
  }

  /** For operations on single keys the shortcut gives the answer of the search,
      for any number of them. */
  lemma ShortcutExact(current: Shapes, ops: seq<Effects>, actual: Shapes)
    requires InBounds(ops, |current|) && SingleKey(ops) && |actual| == |current|
    ensures KeyByKey(current, ops, actual) <==> Explained(current, ops, actual)
  {
    if KeyByKey(current, ops, actual) {
      var order := BuildOrder(current, ops, actual, |current|);
      assert actual[..|current|] + current[|current|..] == actual;
    }
    if Explained(current, ops, actual) {
      var order :| Ordering(order, |ops|) && ApplyAll(current, ops, order) == actual;
      OrderKeyByKey(current, ops, order);
    }
  }

  // ---------------------------------------------------------------- reconciliation

  /** Every effect of every operation is visible in the read. */
  ghost predicate AllVisible(ops: seq<Effects>, actual: Shapes)
    requires InBounds(ops, |actual|)
  {
    forall i, j :: 0 <= i < |ops| && 0 <= j < |ops[i]| ==> actual[ops[i][j].0] == ops[i][j].1
  }

  method CheckAllVisible(ops: seq<Effects>, actual: Shapes) returns (ok: bool)
    requires InBounds(ops, |actual|)
    ensures ok <==> AllVisible(ops, actual)
  {
    for i := 0 to |ops|
      invariant forall a, j :: 0 <= a < i && 0 <= j < |ops[a]| ==> actual[ops[a][j].0] == ops[a][j].1
    {
      for j := 0 to |ops[i]|
        invariant forall b :: 0 <= b < j ==> actual[ops[i][b].0] == ops[i][b].1
      {
        if actual[ops[i][j].0] != ops[i][j].1 {
          return false;
        }
      }
    }
    return true;
  }

  ghost predicate Touches(e: Effects, k: nat) {
    exists j :: 0 <= j < |e| && e[j].0 == k
  }

  ghost predicate Touched(ops: seq<Effects>, k: nat) {
    exists i :: 0 <= i < |ops| && Touches(ops[i], k)
  }

  ghost predicate RestUntouched(current: Shapes, ops: seq<Effects>, actual: Shapes)
    requires |actual| == |current|
  {
    forall k :: 0 <= k < |current| && !Touched(ops, k) ==> actual[k] == current[k]
  }

  /** One operation, all of whose effects are visible. */
  lemma {:induction false} ApplyVisible(shapes: Shapes, e: Effects, actual: Shapes)
    requires |actual| == |shapes| && forall j :: 0 <= j < |e| ==> e[j].0 < |shapes| && actual[e[j].0] == e[j].1
    ensures forall k :: 0 <= k < |shapes| ==>
              ApplyOne(shapes, e)[k] == if Touches(e, k) then actual[k] else shapes[k]
  {
    if e != [] {
      ApplyVisible(shapes, e[..|e| - 1], actual);
    }
  }

  lemma {:induction false} ApplyAllVisible(current: Shapes, ops: seq<Effects>, actual: Shapes, n: nat) returns (order: seq<nat>)
    requires InBounds(ops, |current|) && |actual| == |current| && AllVisible(ops, actual) && n <= |ops|
    ensures Ordering(order, n)
    ensures forall k :: 0 <= k < |current| ==>
              ApplyAll(current, ops, order)[k] == if Touched(ops[..n], k) then actual[k] else current[k]
  {
    if n == 0 {
      order := [];
    } else {
      var before := ApplyAllVisible(current, ops, actual, n - 1);
      order := before + [n - 1];
      assert order[..|before|] == before;
      ApplyVisible(ApplyAll(current, ops, before), ops[n - 1], actual);
      forall k | 0 <= k < |current|
        ensures Touched(ops[..n], k) <==> Touched(ops[..n - 1], k) || Touches(ops[n - 1], k)
      {
        TouchedStep(ops, n, k);
      }
    }
  }

  lemma TouchedStep(ops: seq<Effects>, n: nat, k: nat)
    requires 0 < n <= |ops|
    ensures Touched(ops[..n], k) <==> Touched(ops[..n - 1], k) || Touches(ops[n - 1], k)
  {
    if Touched(ops[..n - 1], k) {
      var i :| 0 <= i < n - 1 && Touches(ops[..n - 1][i], k);
      assert Touches(ops[..n][i], k);
    }
    if Touches(ops[n - 1], k) {
      assert Touches(ops[..n][n - 1], k);
    }
    if Touched(ops[..n], k) {
      var i :| 0 <= i < n && Touches(ops[..n][i], k);
      assert i < n - 1 ==> Touches(ops[..n - 1][i], k);
    }
  }

  lemma {:induction false} ApplyOneFrame(shapes: Shapes, e: Effects, k: nat)
    requires k < |shapes| && forall j :: 0 <= j < |e| ==> e[j].0 < |shapes| && e[j].0 != k
    ensures ApplyOne(shapes, e)[k] == shapes[k]
  {
    if e != [] {
      ApplyOneFrame(shapes, e[..|e| - 1], k);
    }
  }

  lemma {:induction false} ApplyAllFrame(current: Shapes, ops: seq<Effects>, order: seq<nat>, k: nat)
    requires InBounds(ops, |current|) && Ordering(order, |ops|) && k < |current| && !Touched(ops, k)
    ensures ApplyAll(current, ops, order)[k] == current[k]
  {
    if order != [] {
      var n := |order| - 1;
      ApplyAllFrame(current, ops, order[..n], k);
      ApplyOneFrame(ApplyAll(current, ops, order[..n]), ops[order[n]], k);
    }
  }

  /** When the answer for a large set is Applied, it is right exactly when the
      keys that no operation touches are as they were. */
  lemma VisibleExplained(current: Shapes, ops: seq<Effects>, actual: Shapes)
    requires InBounds(ops, |current|) && |actual| == |current| && AllVisible(ops, actual)
    ensures Explained(current, ops, actual) <==> RestUntouched(current, ops, actual)
  {
    if RestUntouched(current, ops, actual) {
      var order := ApplyAllVisible(current, ops, actual, |ops|);
      assert ops[..|ops|] == ops;
      assert ApplyAll(current, ops, order) == actual;
    }
    if Explained(current, ops, actual) {
      var order :| Ordering(order, |ops|) && ApplyAll(current, ops, order) == actual;
      forall k | 0 <= k < |current| && !Touched(ops, k) ensures actual[k] == current[k] {
        ApplyAllFrame(current, ops, order, k);
      }
    }
  }

  // ---------------------------------------------------------------- when the answer for a large set is Partial

  ghost predicate VisibleOp(e: Effects, actual: Shapes) {
    forall j :: 0 <= j < |e| ==> e[j].0 < |actual| && actual[e[j].0] == e[j].1
  }

  /** Operations that touch the same key leave it with the same shape. */
  ghost predicate Compatible(ops: seq<Effects>) {
    forall i, a, j, b :: 0 <= i < |ops| && 0 <= a < |ops[i]| && 0 <= j < |ops| && 0 <= b < |ops[j]| && ops[i][a].0 == ops[j][b].0 ==>
      ops[i][a].1 == ops[j][b].1
  }

  /** A key is as it was, or some operation that is visible as a whole set it. */
  ghost predicate Accounted(current: Shapes, ops: seq<Effects>, actual: Shapes, k: nat)
    requires k < |current| == |actual|
  {
    actual[k] == current[k] || exists i :: 0 <= i < |ops| && VisibleOp(ops[i], actual) && Touches(ops[i], k)
  }

  /** Two operations that disagree on a key are never both visible: a large set
      with such a pair is answered Partial, even when all of it was applied. */
  lemma ConflictIsPartial(current: Shapes, ops: seq<Effects>, order: seq<nat>)
    requires InBounds(ops, |current|) && !Compatible(ops) && Ordering(order, |ops|)
    ensures Explained(current, ops, ApplyAll(current, ops, order)) && !AllVisible(ops, ApplyAll(current, ops, order))
  {
  }

  lemma {:induction false} ApplyOneAt(shapes: Shapes, e: Effects, k: nat)
    requires k < |shapes| && forall j :: 0 <= j < |e| ==> e[j].0 < |shapes|
    ensures !Touches(e, k) ==> ApplyOne(shapes, e)[k] == shapes[k]
    ensures Touches(e, k) ==> exists j :: 0 <= j < |e| && e[j].0 == k && ApplyOne(shapes, e)[k] == e[j].1
  {
    if e != [] {
      var n := |e| - 1;
      ApplyOneAt(shapes, e[..n], k);
      if e[n].0 != k {
        assert Touches(e, k) ==> Touches(e[..n], k) by {
          if Touches(e, k) {
            var j :| 0 <= j < |e| && e[j].0 == k;
            assert e[..n][j].0 == k;
          }
        }
        if Touches(e[..n], k) {
          var j :| 0 <= j < n && e[..n][j].0 == k && ApplyOne(shapes, e[..n])[k] == e[..n][j].1;
          assert e[j].0 == k && ApplyOne(shapes, e)[k] == e[j].1;
        }
      }
    }
  }

  /** Of compatible operations, every one that was applied is visible. */
  lemma {:induction false} AppliedVisible(current: Shapes, ops: seq<Effects>, order: seq<nat>, t: nat)
    requires InBounds(ops, |current|) && Compatible(ops) && Ordering(order, |ops|) && t < |order|
    ensures VisibleOp(ops[order[t]], ApplyAll(current, ops, order))
  {
    var n := |order| - 1;
    var before, e, last := ApplyAll(current, ops, order[..n]), ops[order[t]], ops[order[n]];
    if t < n {
      AppliedVisible(current, ops, order[..n], t);
    }
    forall j | 0 <= j < |e| ensures ApplyOne(before, last)[e[j].0] == e[j].1 {
      ApplyOneAt(before, last, e[j].0);
      if t == n {
        assert Touches(last, e[j].0);
      }
    }
  }

  lemma {:induction false} OrderTouches(current: Shapes, ops: seq<Effects>, order: seq<nat>, k: nat)
    requires InBounds(ops, |current|) && Ordering(order, |ops|) && k < |current| && ApplyAll(current, ops, order)[k] != current[k]
    ensures exists t :: 0 <= t < |order| && Touches(ops[order[t]], k)
  {
    if order != [] {
      var n := |order| - 1;
      ApplyOneAt(ApplyAll(current, ops, order[..n]), ops[order[n]], k);
      if !Touches(ops[order[n]], k) {
        OrderTouches(current, ops, order[..n], k);
        var t :| 0 <= t < n && Touches(ops[order[..n][t]], k);
        assert Touches(ops[order[t]], k);
      }
    }
  }

  /** The operations among the first n that are visible as a whole. */
  lemma {:induction false} VisibleOnes(current: Shapes, ops: seq<Effects>, actual: Shapes, n: nat) returns (order: seq<nat>)
    requires InBounds(ops, |current|) && |actual| == |current| && n <= |ops|
    ensures Ordering(order, n)
    ensures forall k :: 0 <= k < |current| ==>
              ApplyAll(current, ops, order)[k] == if TouchedVisibly(ops, actual, n, k) then actual[k] else current[k]
  {
    if n == 0 {
      order := [];
    } else {
      var before := VisibleOnes(current, ops, actual, n - 1);
      if VisibleOp(ops[n - 1], actual) {
        order := before + [n - 1];
        assert order[..|before|] == before;
        ApplyVisible(ApplyAll(current, ops, before), ops[n - 1], actual);
      } else {
        order := before;
      }
      forall k | 0 <= k < |current|
        ensures TouchedVisibly(ops, actual, n, k) <==>
                TouchedVisibly(ops, actual, n - 1, k) || (VisibleOp(ops[n - 1], actual) && Touches(ops[n - 1], k))
      {
      }
    }
  }

  ghost predicate TouchedVisibly(ops: seq<Effects>, actual: Shapes, n: nat, k: nat)
    requires n <= |ops|
  {
    exists i :: 0 <= i < n && VisibleOp(ops[i], actual) && Touches(ops[i], k)
  }

  /** For compatible operations the answer Partial for a large set is wrong
      exactly when every key is accounted for. */
  lemma CompatibleExplained(current: Shapes, ops: seq<Effects>, actual: Shapes)
    requires InBounds(ops, |current|) && |actual| == |current| && Compatible(ops)
    ensures Explained(current, ops, actual) <==> forall k :: 0 <= k < |current| ==> Accounted(current, ops, actual, k)
  {
    if forall k :: 0 <= k < |current| ==> Accounted(current, ops, actual, k) {
      var order := VisibleOnes(current, ops, actual, |ops|);
      forall k | 0 <= k < |current| ensures ApplyAll(current, ops, order)[k] == actual[k] {
        assert Accounted(current, ops, actual, k);
      }
      assert ApplyAll(current, ops, order) == actual;
    }
    if Explained(current, ops, actual) {
      var order :| Ordering(order, |ops|) && ApplyAll(current, ops, order) == actual;
      forall k | 0 <= k < |current| ensures Accounted(current, ops, actual, k) {
        if actual[k] != current[k] {
          OrderTouches(current, ops, order, k);
          var t :| 0 <= t < |order| && Touches(ops[order[t]], k);
          AppliedVisible(current, ops, order, t);
        }
      }
    }
  }

  method AllSingle(ops: seq<Effects>) returns (single: bool)
    ensures single <==> SingleKey(ops)
  {
    for i := 0 to |ops|
      invariant forall j :: 0 <= j < i ==> |ops[j]| == 1
    {
      if |ops[i]| != 1 {
        return false;
      }
    }
    return true;
  }

  const MAX_SEARCHED: nat := 12

  /** Reconciles the operations with the read.  `unchanged` says that the read
      equals the model, revisions included.  The answer is exact for operations
      on single keys and for up to twelve operations of any kind; beyond that
      it demands that every effect is visible. */
  method Resolve(current: Shapes, actual: Shapes, ops: seq<Effects>, same: bool) returns (r: Option<Resolution>)
    requires InBounds(ops, |current|)
    ensures r.None? <==> |actual| != |current| || ops == []
    ensures r.Some? && same ==> r.value == NotApplied
    ensures r.Some? && !same && (SingleKey(ops) || |ops| <= MAX_SEARCHED) ==>
              r.value == if Explained(current, ops, actual) then Applied else Partial
    ensures r.Some? && !same && !SingleKey(ops) && |ops| > MAX_SEARCHED ==>
              r.value == if AllVisible(ops, actual) then Applied else Partial
  {
    if |actual| != |current| || ops == [] {
      return None;
    }
    if same {
      return Some(NotApplied);
    }
    var single := AllSingle(ops);
    if single {
      ShortcutExact(current, ops, actual);
      var ok := CheckKeys(current, ops, actual);
      return Some(if ok then Applied else Partial);
    }
    if |ops| > MAX_SEARCHED {
      var ok := CheckAllVisible(ops, actual);
      return Some(if ok then Applied else Partial);
    }
    var found := Search(current, ops, actual);
    return Some(if found then Applied else Partial);
  }
}
