/** The syntax tree as `_ModuleFacts.__init__` walks it: parents, lexical scopes, and the nodes that
    belong to a function itself. */
module CypherTree {

  import opened Sequences

  datatype Kind = ModuleNode | FunctionNode | LambdaNode | ClassNode | OtherNode

  /** Nodes are numbered in the order of a breadth-first walk, so the module is node 0. */
  datatype Ast = Ast(kinds: seq<Kind>, children: seq<seq<nat>>)

  ghost predicate ChildAt(t: Ast, p: nat, n: nat) {
    p < |t.children| && n in t.children[p]
  }

  /** Every node but the module is listed once, under one parent that comes before it. */
  ghost predicate WellFormed(t: Ast) {
    && |t.kinds| == |t.children| > 0
    && (forall n | 0 <= n < |t.kinds| :: t.kinds[n].ModuleNode? <==> n == 0)
    && (forall p | 0 <= p < |t.children| :: Distinct(t.children[p]))
    && (forall p: nat, n: nat {:trigger ChildAt(t, p, n)} | ChildAt(t, p, n) :: p < n < |t.kinds|)
    && (forall p: nat, q: nat, n: nat {:trigger ChildAt(t, p, n), ChildAt(t, q, n)}
         | ChildAt(t, p, n) && ChildAt(t, q, n) :: p == q)
    && (forall n: nat {:trigger HasParent(t, n)} | 0 < n < |t.kinds| :: HasParent(t, n))
  }

  ghost predicate HasParent(t: Ast, n: nat) {
    exists p: nat :: ChildAt(t, p, n)
  }

  type Tree = t: Ast | WellFormed(t) ghost witness Ast([ModuleNode], [[]])

  ghost function ParentOf(t: Tree, n: nat): nat
    requires 0 < n < |t.kinds|
  {
    assert HasParent(t, n);
    var p: nat :| ChildAt(t, p, n);
    p
  }

  /** The node opens a lexical scope. */
  predicate IsScope(t: Tree, n: nat) {
    n < |t.kinds| && (t.kinds[n].ModuleNode? || t.kinds[n].FunctionNode? || t.kinds[n].LambdaNode?)
  }

  predicate IsStop(t: Tree, n: nat) {
    n < |t.kinds| && (t.kinds[n].FunctionNode? || t.kinds[n].LambdaNode? || t.kinds[n].ClassNode?)
  }

  ghost predicate Parents(t: Tree, parents: map<nat, nat>) {
    && (forall n: nat :: n in parents <==> 0 < n < |t.kinds|)
    && (forall n | n in parents :: ChildAt(t, parents[n], n))
  }

  /** The loops that fill `parents`. */
  method BuildParents(t: Tree) returns (parents: map<nat, nat>)
    ensures Parents(t, parents)
  {
    parents := map[];
    for p := 0 to |t.children|
      invariant forall n: nat :: n in parents <==> exists q: nat :: q < p && ChildAt(t, q, n)
      invariant forall n | n in parents :: ChildAt(t, parents[n], n)
    {
      for i := 0 to |t.children[p]|
        invariant forall n: nat :: n in parents <==>
                    (exists q: nat :: q < p && ChildAt(t, q, n)) || n in t.children[p][..i]
        invariant forall n | n in parents :: ChildAt(t, parents[n], n)
      {
        var n := t.children[p][i];
        assert ChildAt(t, p, n);
        assert t.children[p][..i + 1] == t.children[p][..i] + [n];
        parents := parents[n := p];
      }
      assert t.children[p][..|t.children[p]|] == t.children[p];
      forall n: nat ensures n in parents <==> exists q: nat :: q < p + 1 && ChildAt(t, q, n) {
        assert n in t.children[p] <==> ChildAt(t, p, n);
      }
    }
    forall n: nat | n in parents ensures 0 < n < |t.kinds| {
      assert ChildAt(t, parents[n], n);
    }
    forall n: nat | 0 < n < |t.kinds| ensures n in parents {
      assert HasParent(t, n);
    }
  }

  // ----- the nodes of a function itself -----

  /** `n` is below `root`, and no function, lambda or class stands between them. */
  ghost predicate Own(t: Tree, root: nat, n: nat)
    decreases n
  {
    0 < n < |t.kinds|
    && (ParentOf(t, n) == root || (!IsStop(t, ParentOf(t, n)) && Own(t, root, ParentOf(t, n))))
  }

  ghost predicate Reached(t: Tree, root: nat, nodes: seq<nat>, stack: seq<nat>) {
    && Distinct(nodes + stack)
    && (forall n {:trigger Own(t, root, n)} | n in nodes + stack :: Own(t, root, n))
    && (forall n {:trigger Own(t, root, n)} | n in nodes + stack :: ParentDone(t, root, nodes, n))
    && (forall n: nat {:trigger ParentDone(t, root, nodes, n)} | Own(t, root, n) && ParentDone(t, root, nodes, n) ::
          n in nodes + stack)
  }

  /** The parent has been taken from the stack and its children put there. */
  ghost predicate ParentDone(t: Tree, root: nat, nodes: seq<nat>, n: nat) {
    0 < n < |t.kinds| && (ParentOf(t, n) == root || (ParentOf(t, n) in nodes && !IsStop(t, ParentOf(t, n))))
  }

  /** `_own_nodes`: a walk with an explicit stack. */
  method OwnNodes(t: Tree, root: nat) returns (nodes: seq<nat>)
    requires root < |t.kinds|
    ensures Distinct(nodes)
    ensures forall n: nat :: n in nodes <==> Own(t, root, n)
  {
    var stack := t.children[root];
    nodes := [];
    StartReached(t, root);
    while stack != []
      invariant Reached(t, root, nodes, stack)
      decreases |t.kinds| - |nodes|
    {
      var node := stack[|stack| - 1];
      TakeReached(t, root, nodes, stack);
      stack := stack[..|stack| - 1];
      nodes := nodes + [node];
      assert stack + [] == stack;
      if !IsStop(t, node) {
        stack := stack + t.children[node];
      }
    }
    assert nodes + [] == nodes;
    forall n: nat ensures n in nodes <==> Own(t, root, n) {
      if Own(t, root, n) {
        AllReached(t, root, nodes, n);
      }
    }
  }

  lemma {:induction false} OwnBelow(t: Tree, root: nat, n: nat)
    requires Own(t, root, n)
    ensures root < n < |t.kinds|
  {
    if ParentOf(t, n) != root {
      OwnBelow(t, root, ParentOf(t, n));
    }
  }

  lemma UniqueParent(t: Tree, p: nat, n: nat)
    requires ChildAt(t, p, n)
    ensures 0 < n < |t.kinds| && ParentOf(t, n) == p
  {
    assert ChildAt(t, ParentOf(t, n), n);
  }

  lemma StartReached(t: Tree, root: nat)
    requires root < |t.kinds|
    ensures Reached(t, root, [], t.children[root])
  {
    var stack := t.children[root];
    assert [] + stack == stack;
    forall n | n in stack ensures Own(t, root, n) && ParentDone(t, root, [], n) {
      UniqueParent(t, root, n);
    }
    forall n: nat | Own(t, root, n) && ParentDone(t, root, [], n) ensures n in stack {
      assert ChildAt(t, root, n);
    }
  }

  lemma TakeReached(t: Tree, root: nat, nodes: seq<nat>, stack: seq<nat>)
    requires stack != [] && Reached(t, root, nodes, stack)
    ensures var node := stack[|stack| - 1];
            && node < |t.kinds|
            && |nodes| < |t.kinds|
            && Reached(t, root, nodes + [node],
                       stack[..|stack| - 1] + if IsStop(t, node) then [] else t.children[node])
  {
    var node, rest := stack[|stack| - 1], stack[..|stack| - 1];
    var all := nodes + stack;
    assert stack == rest + [node];
    assert node == all[|all| - 1] && node in all && Own(t, root, node);
    OwnBelow(t, root, node);
    var kids := if IsStop(t, node) then [] else t.children[node];
    var nodes', stack' := nodes + [node], rest + kids;
    forall i | 0 <= i < |nodes| ensures nodes[i] != node {
      assert all[i] == nodes[i];
    }
    forall n ensures n in nodes' + stack' <==> n in all || n in kids {
    }
    forall n | n in nodes' + stack' ensures Own(t, root, n) && ParentDone(t, root, nodes', n) {
      if n in kids {
        UniqueParent(t, node, n);
      } else {
        assert Own(t, root, n) && ParentDone(t, root, nodes, n);
      }
    }
    forall n: nat | Own(t, root, n) && ParentDone(t, root, nodes', n) ensures n in nodes' + stack' {
      if ParentDone(t, root, nodes, n) {
        assert n in all;
      } else {
        assert ChildAt(t, ParentOf(t, n), n);
      }
    }
    TakeDistinct(t, root, nodes, rest, node, kids);
    DistinctBelow(nodes + [node], |t.kinds|);
  }

  /** The children of a node that is taken are new. */
  lemma TakeDistinct(t: Tree, root: nat, nodes: seq<nat>, rest: seq<nat>, node: nat, kids: seq<nat>)
    requires Distinct(nodes + (rest + [node])) && node !in nodes && node < |t.kinds| && node != root
    requires forall n | n in nodes + (rest + [node]) :: ParentDone(t, root, nodes, n)
    requires kids == [] || kids == t.children[node]
    ensures Distinct(nodes + [node] + (rest + kids))
    ensures Distinct(nodes + [node])
    ensures forall n | n in nodes + [node] :: n < |t.kinds|
  {
    var s := nodes + (rest + [node]);
    forall n | n in kids ensures n !in s {
      UniqueParent(t, node, n);
      assert !ParentDone(t, root, nodes, n);
    }
    var r := nodes + [node] + (rest + kids);
    forall i, j | 0 <= i < j < |r| ensures r[i] != r[j] {
      assert r[i] == At(nodes, rest, node, kids, i) && r[j] == At(nodes, rest, node, kids, j);
      if j >= |s| {
        assert r[j] in kids;
        if i < |s| {
          assert r[i] in s;
        }
      } else {
        var a, b := Place(nodes, rest, i), Place(nodes, rest, j);
        assert r[i] == s[a] && r[j] == s[b] && a != b;
      }
    }
    forall i, j | 0 <= i < j < |nodes + [node]| ensures (nodes + [node])[i] != (nodes + [node])[j] {
      assert r[i] == (nodes + [node])[i] && r[j] == (nodes + [node])[j];
    }
    forall n | n in nodes + [node] ensures n < |t.kinds| {
      assert n in s;
    }
  }

  function At(nodes: seq<nat>, rest: seq<nat>, node: nat, kids: seq<nat>, i: nat): nat
    requires i < |nodes| + 1 + |rest| + |kids|
  {
    if i < |nodes| then nodes[i]
    else if i == |nodes| then node
    else if i < |nodes| + 1 + |rest| then rest[i - |nodes| - 1]
    else kids[i - |nodes| - 1 - |rest|]
  }

  /** Where position `i` of `nodes + [node] + rest` stood in `nodes + rest + [node]`. */
  function Place(nodes: seq<nat>, rest: seq<nat>, i: nat): nat {
    if i < |nodes| then i else if i == |nodes| then |nodes| + |rest| else i - 1
  }

  ghost function Below(n: nat): (s: set<nat>)
    ensures forall x: nat :: x in s <==> x < n
    ensures |s| == n
  {
    if n == 0 then {} else Below(n - 1) + {n - 1}
  }

  lemma DistinctBelow(s: seq<nat>, n: nat)
    requires Distinct(s) && forall x | x in s :: x < n
    ensures |s| <= n
  {
    ElementCount(s);
    assert Below(n) == Elements(s) + (Below(n) - Elements(s));
  }

  lemma {:induction false} AllReached(t: Tree, root: nat, nodes: seq<nat>, n: nat)
    requires Reached(t, root, nodes, []) && Own(t, root, n)
    ensures n in nodes
  {
    assert nodes + [] == nodes;
    if ParentOf(t, n) != root {
      AllReached(t, root, nodes, ParentOf(t, n));
    }
    assert ParentDone(t, root, nodes, n);
  }

  // ----- lexical scopes -----

  /** The nearest enclosing scope of a node, the node itself not counted; the module's is its own. */
  ghost function NearestScope(t: Tree, n: nat): (s: nat)
    requires n < |t.kinds|
    ensures IsScope(t, s) && s <= n && (n > 0 ==> s < n)
  {
    if n == 0 then 0
    else if IsScope(t, ParentOf(t, n)) then ParentOf(t, n)
    else NearestScope(t, ParentOf(t, n))
  }

  /** `scope_of` */
  method ScopeOf(t: Tree, parents: map<nat, nat>, node: nat) returns (s: nat)
    requires node < |t.kinds| && Parents(t, parents)
    ensures s == NearestScope(t, node)
  {
    var current: nat := node;
    while true
      invariant current <= node
      invariant current == node || !IsScope(t, current)
      invariant NearestScope(t, node) == NearestScope(t, current)
      decreases current
    {
      if current !in parents {
        return 0;
      }
      assert current > 0;
      UniqueParent(t, parents[current], current);
      current := parents[current];
      if IsScope(t, current) {
        return current;
      }
    }
  }

  /** The parent that the constructor gives to the scope of a function. */
  method ScopeParent(t: Tree, parents: map<nat, nat>, node: nat) returns (s: nat)
    requires 0 < node < |t.kinds| && Parents(t, parents)
    ensures s == NearestScope(t, node)
  {
    var parentNode := parents[node];
    UniqueParent(t, parentNode, node);
    if IsScope(t, parentNode) {
      s := parentNode;
    } else {
      s := ScopeOf(t, parents, parentNode);
    }
  }

  ghost predicate Above(t: Tree, a: nat, n: nat)
    decreases n
  {
    0 < n < |t.kinds| && (ParentOf(t, n) == a || Above(t, a, ParentOf(t, n)))
  }

  /** A scope the lookup of names climbs through. */
  ghost predicate InChain(t: Tree, r: nat, s: nat)
    requires s < |t.kinds|
    decreases s
  {
    r == s || (s > 0 && InChain(t, r, NearestScope(t, s)))
  }

  /** Some class stands between `s` and `n`, neither of them counted. */
  ghost predicate ClassBetween(t: Tree, s: nat, n: nat)
    decreases n
  {
    && 0 < n < |t.kinds| && ParentOf(t, n) != s
    && (t.kinds[ParentOf(t, n)].ClassNode? || ClassBetween(t, s, ParentOf(t, n)))
  }

  /** What the walk over a function yields is what belongs to its scope, except for the inside of classes:
      a node is in exactly one scope, but in the walk of that scope only if no class lies between. */
  lemma {:induction false} OwnExactly(t: Tree, s: nat, n: nat)
    requires IsScope(t, s) && n < |t.kinds|
    ensures Own(t, s, n) <==> n > 0 && NearestScope(t, n) == s && !ClassBetween(t, s, n)
    decreases n
  {
    if n > 0 && ParentOf(t, n) != s {
      var p := ParentOf(t, n);
      if p > 0 {
        OwnExactly(t, s, p);
      }
    }
  }

  /** Names are looked up in exactly the scopes that contain the function, so never in a sibling. */
  lemma {:induction false} ChainIsEnclosing(t: Tree, r: nat, s: nat)
    requires s < |t.kinds| && IsScope(t, s)
    ensures InChain(t, r, s) <==> r == s || (IsScope(t, r) && Above(t, r, s))
    decreases s
  {
    if s > 0 {
      var p := NearestScope(t, s);
      ChainIsEnclosing(t, r, p);
      AboveNearest(t, r, s);
    }
  }

  lemma {:induction false} AboveNearest(t: Tree, r: nat, n: nat)
    requires 0 < n < |t.kinds|
    ensures IsScope(t, r) ==> (Above(t, r, n) <==> r == NearestScope(t, n) || Above(t, r, NearestScope(t, n)))
    decreases n
  {
    var p := ParentOf(t, n);
    if !IsScope(t, p) && p > 0 {
      AboveNearest(t, r, p);
    }
  }

  /** Neither of two functions side by side sees the names of the other. */
  lemma SiblingsDoNotSee(t: Tree, a: nat, b: nat)
    requires IsScope(t, a) && IsScope(t, b) && a != b && !Above(t, a, b) && !Above(t, b, a)
    ensures !InChain(t, a, b) && !InChain(t, b, a)
  {
    ChainIsEnclosing(t, a, b);
    ChainIsEnclosing(t, b, a);
  }

  // ----- scopes in the order they are met -----

  /** How many scopes come before node `n`. */
  function Position(t: Tree, n: nat): nat
    requires n <= |t.kinds|
  {
    if n == 0 then 0 else Position(t, n - 1) + if IsScope(t, n - 1) then 1 else 0
  }

  lemma {:induction false} PositionGrows(t: Tree, a: nat, b: nat)
    requires a < b <= |t.kinds| && IsScope(t, a)
    ensures Position(t, a) < Position(t, b)
    decreases b
  {
    if a < b - 1 {
      PositionGrows(t, a, b - 1);
    }
  }

  /** Numbered by position, every scope but the module's has its parent before it. */
  lemma ScopeParentComesFirst(t: Tree, n: nat)
    requires 0 < n < |t.kinds| && IsScope(t, n)
    ensures Position(t, NearestScope(t, n)) < Position(t, n)
  {
    PositionGrows(t, NearestScope(t, n), n);
  }
}
