/**
 The iterative walk over a DOM snapshot that collects the scopes to query. It visits the nodes in the order of the
 recursive preorder and keeps the first occurrence of each node id.
 */
module ScopeWalk {
  import opened Wrappers

  type NodeId = int

  /** An optional list of nodes. */
  datatype NodeList = Absent | Listed(nodes: seq<Node>) {
    function All(): seq<Node> {
      if Listed? then nodes else []
    }
  }

  datatype Node = Node(nodeId: NodeId, children: NodeList, contentDocument: Option<Node>, shadowRoots: NodeList)

  // ----- The specification -----

  /** A node, then its children, then its content document, then its shadow roots, each subtree in turn. */
  function Preorder(n: Node): seq<NodeId>
    decreases n
  {
    [n.nodeId]
    + ((if n.children.Listed? then PreorderOfAll(n.children.nodes) else [])
       + ((if n.contentDocument.Some? then Preorder(n.contentDocument.value) else [])
          + (if n.shadowRoots.Listed? then PreorderOfAll(n.shadowRoots.nodes) else [])))
  }

  function PreorderOfAll(ns: seq<Node>): seq<NodeId>
    decreases ns
  {
    if ns == [] then [] else Preorder(ns[0]) + PreorderOfAll(ns[1..])
  }

  /** The first occurrence of each id. */
  function Dedup(ids: seq<NodeId>): seq<NodeId> {
    if ids == [] then []
    else
      var before, last := ids[..|ids| - 1], ids[|ids| - 1];
      if last in before then Dedup(before) else Dedup(before) + [last]
  }

  /** Where an id occurs first. */
  function FirstIndex(ids: seq<NodeId>, id: NodeId): (i: nat)
    requires id in ids
    ensures i < |ids| && ids[i] == id && forall j :: 0 <= j < i ==> ids[j] != id
  {
    if ids[0] == id then 0 else 1 + FirstIndex(ids[1..], id)
  }

  lemma FirstIndexInPrefix(a: seq<NodeId>, b: seq<NodeId>, id: NodeId)
    requires id in a
    ensures FirstIndex(a + b, id) == FirstIndex(a, id)
  {
    var i, j := FirstIndex(a, id), FirstIndex(a + b, id);
    assert (a + b)[i] == id;
    assert j < |a| ==> a[j] == id;
  }

  /** Deduplication keeps every id once, in the order of the first occurrences. */
  lemma {:induction false} DedupKeepsFirsts(ids: seq<NodeId>)
    ensures forall id :: id in Dedup(ids) <==> id in ids
    ensures forall i, j :: 0 <= i < j < |Dedup(ids)| ==>
      FirstIndex(ids, Dedup(ids)[i]) < FirstIndex(ids, Dedup(ids)[j])
  {
    if ids != [] {
      var before, last := ids[..|ids| - 1], ids[|ids| - 1];
      assert ids == before + [last];
      DedupKeepsFirsts(before);
      forall id | id in before ensures FirstIndex(ids, id) == FirstIndex(before, id) {
        FirstIndexInPrefix(before, [last], id);
      }
    }
  }

  // ----- Everything is visited -----

  ghost predicate Within(n: Node, root: Node)
    decreases root
  {
    || n == root
    || (root.children.Listed? && WithinAny(n, root.children.nodes))
    || (root.contentDocument.Some? && Within(n, root.contentDocument.value))
    || (root.shadowRoots.Listed? && WithinAny(n, root.shadowRoots.nodes))
  }

  ghost predicate WithinAny(n: Node, roots: seq<Node>)
    decreases roots
  {
    roots != [] && (Within(n, roots[0]) || WithinAny(n, roots[1..]))
  }

  lemma {:induction false} PreorderVisits(n: Node, root: Node)
    requires Within(n, root)
    ensures n.nodeId in Preorder(root)
    decreases root
  {
    if n != root {
      if root.children.Listed? && WithinAny(n, root.children.nodes) {
        PreorderOfAllVisits(n, root.children.nodes);
      } else if root.contentDocument.Some? && Within(n, root.contentDocument.value) {
        PreorderVisits(n, root.contentDocument.value);
      } else {
        PreorderOfAllVisits(n, root.shadowRoots.nodes);
      }
    }
  }

  lemma {:induction false} PreorderOfAllVisits(n: Node, roots: seq<Node>)
    requires WithinAny(n, roots)
    ensures n.nodeId in PreorderOfAll(roots)
    decreases roots
  {
    if Within(n, roots[0]) {
      PreorderVisits(n, roots[0]);
    } else {
      PreorderOfAllVisits(n, roots[1..]);
    }
  }

  /** Nothing else is visited. */
  lemma {:induction false} VisitedIsWithin(id: NodeId, root: Node) returns (n: Node)
    requires id in Preorder(root)
    ensures Within(n, root) && n.nodeId == id
    decreases root
  {
    if id == root.nodeId {
      n := root;
    } else if root.children.Listed? && id in PreorderOfAll(root.children.nodes) {
      n := VisitedIsWithinAny(id, root.children.nodes);
    } else if root.contentDocument.Some? && id in Preorder(root.contentDocument.value) {
      n := VisitedIsWithin(id, root.contentDocument.value);
    } else {
      n := VisitedIsWithinAny(id, root.shadowRoots.nodes);
    }
  }

  lemma {:induction false} VisitedIsWithinAny(id: NodeId, roots: seq<Node>) returns (n: Node)
    requires id in PreorderOfAll(roots)
    ensures WithinAny(n, roots) && n.nodeId == id
    decreases roots
  {
    if id in Preorder(roots[0]) {
      n := VisitedIsWithin(id, roots[0]);
    } else {
      n := VisitedIsWithinAny(id, roots[1..]);
    }
  }

  // ----- The walk -----

  function Reversed(ns: seq<Node>): seq<Node> {
    if ns == [] then [] else Reversed(ns[1..]) + [ns[0]]
  }

  /** The nodes the walk goes on to from a node, in the order it visits them. */
  function Next(n: Node): seq<Node> {
    n.children.All() + ((if n.contentDocument.Some? then [n.contentDocument.value] else []) + n.shadowRoots.All())
  }

  /** The number of nodes in a tree. */
  function Size(n: Node): (size: nat)
    ensures size > 0
    decreases n
  {
    1 + (if n.children.Listed? then SizeOfAll(n.children.nodes) else 0)
      + (if n.contentDocument.Some? then Size(n.contentDocument.value) else 0)
      + (if n.shadowRoots.Listed? then SizeOfAll(n.shadowRoots.nodes) else 0)
  }

  function SizeOfAll(ns: seq<Node>): nat
    decreases ns
  {
    if ns == [] then 0 else Size(ns[0]) + SizeOfAll(ns[1..])
  }

  lemma {:induction false} SizeOfConcat(a: seq<Node>, b: seq<Node>)
    ensures SizeOfAll(a + b) == SizeOfAll(a) + SizeOfAll(b)
  {
    if a == [] {
      assert a + b == b;
    } else {
      SizeOfConcat(a[1..], b);
      assert (a + b)[1..] == a[1..] + b;
    }
  }

  lemma {:induction false} PreorderOfConcat(a: seq<Node>, b: seq<Node>)
    ensures PreorderOfAll(a + b) == PreorderOfAll(a) + PreorderOfAll(b)
  {
    if a == [] {
      assert a + b == b;
    } else {
      PreorderOfConcat(a[1..], b);
      assert (a + b)[1..] == a[1..] + b;
      hide Preorder;
      var first, rest := Preorder(a[0]), PreorderOfAll(a[1..]);
      assert first + (rest + PreorderOfAll(b)) == (first + rest) + PreorderOfAll(b);
    }
  }

  lemma OneNode(n: Node)
    ensures SizeOfAll([n]) == Size(n) && PreorderOfAll([n]) == Preorder(n)
  {
    assert [n][1..] == [];
    hide Size, Preorder;
    assert Preorder(n) + [] == Preorder(n);
  }

  lemma VisitOne(n: Node)
    ensures Preorder(n) == [n.nodeId] + PreorderOfAll(Next(n))
    ensures Size(n) == 1 + SizeOfAll(Next(n))
  {
    var kids, doc, shadows :=
      n.children.All(), if n.contentDocument.Some? then [n.contentDocument.value] else [], n.shadowRoots.All();
    if n.contentDocument.Some? {
      OneNode(n.contentDocument.value);
    }
    PreorderOfConcat(kids, doc + shadows);
    PreorderOfConcat(doc, shadows);
    SizeOfConcat(kids, doc + shadows);
    SizeOfConcat(doc, shadows);
  }

  lemma {:induction false} ReversedConcat(a: seq<Node>, b: seq<Node>)
    ensures Reversed(a + b) == Reversed(b) + Reversed(a)
  {
    if a == [] {
      assert a + b == b;
    } else {
      ReversedConcat(a[1..], b);
      assert (a + b)[1..] == a[1..] + b;
    }
  }

  lemma {:induction false} ReversedTwice(ns: seq<Node>)
    ensures Reversed(Reversed(ns)) == ns
  {
    if ns != [] {
      ReversedTwice(ns[1..]);
      ReversedConcat(Reversed(ns[1..]), [ns[0]]);
      assert [ns[0]][1..] == [];
    }
  }

  /** Pushes nodes in reverse, so that the first of them is popped first. */
  method PushReversed(stack: seq<Node>, nodes: seq<Node>) returns (after: seq<Node>)
    ensures after == stack + Reversed(nodes)
  {
    after := stack;
    var i := |nodes|;
    assert nodes[i..] == [];
    while i > 0
      invariant 0 <= i <= |nodes|
      invariant after == stack + Reversed(nodes[i..])
    {
      i := i - 1;
      assert nodes[i..][1..] == nodes[i + 1..];
      after := after + [nodes[i]];
    }
  }

  lemma ReversedStack(below: seq<Node>, n: Node, next: seq<Node>)
    ensures Reversed(below + [n]) == [n] + Reversed(below)
    ensures Reversed(below + Reversed(next)) == next + Reversed(below)
  {
    ReversedConcat(below, [n]);
    assert [n][1..] == [] && Reversed([n]) == [n];
    ReversedConcat(below, Reversed(next));
    ReversedTwice(next);
  }

  lemma VisitFirst(n: Node, rest: seq<Node>)
    ensures PreorderOfAll([n] + rest) == [n.nodeId] + PreorderOfAll(Next(n) + rest)
    ensures SizeOfAll(Next(n) + rest) < SizeOfAll([n] + rest)
  {
    hide Next, Preorder;
    PreorderOfConcat([n], rest);
    PreorderOfConcat(Next(n), rest);
    SizeOfConcat([n], rest);
    SizeOfConcat(Next(n), rest);
    OneNode(n);
    VisitOne(n);
    hide *;
    var next, later := PreorderOfAll(Next(n)), PreorderOfAll(rest);
    assert ([n.nodeId] + next) + later == [n.nodeId] + (next + later);
  }

  /** Popping a node and pushing what it leads to leaves the rest of the preorder on the stack. */
  lemma PopAndPush(stack: seq<Node>)
    requires stack != []
    ensures var n, below := stack[|stack| - 1], stack[..|stack| - 1];
      var after := below + Reversed(Next(n));
      && PreorderOfAll(Reversed(stack)) == [n.nodeId] + PreorderOfAll(Reversed(after))
      && SizeOfAll(Reversed(after)) < SizeOfAll(Reversed(stack))
  {
    var n, below := stack[|stack| - 1], stack[..|stack| - 1];
    assert stack == below + [n];
    hide *;
    ReversedStack(below, n, Next(n));
    VisitFirst(n, Reversed(below));
  }

  lemma DedupSnoc(ids: seq<NodeId>, id: NodeId)
    ensures Dedup(ids + [id]) == if id in ids then Dedup(ids) else Dedup(ids) + [id]
  {
    assert (ids + [id])[..|ids|] == ids;
  }

  lemma ReversedFew(n: Node)
    ensures Reversed([]) == [] && Reversed([n]) == [n] && PreorderOfAll([]) == []
  {
    assert [n][1..] == [];
  }

  lemma ReversedNext(n: Node)
    ensures Reversed(Next(n)) ==
      Reversed(n.shadowRoots.All())
      + (if n.contentDocument.Some? then [n.contentDocument.value] else [])
      + Reversed(n.children.All())
  {
    var doc := if n.contentDocument.Some? then [n.contentDocument.value] else [];
    ReversedFew(if n.contentDocument.Some? then n.contentDocument.value else n);
    hide Reversed;
    ReversedConcat(n.children.All(), doc + n.shadowRoots.All());
    ReversedConcat(doc, n.shadowRoots.All());
  }

  /** Shadow roots first, then the content document, then the children, so that the children come off first. */
  method PushNext(stack: seq<Node>, n: Node) returns (after: seq<Node>)
    ensures after == stack + Reversed(Next(n))
  {
    hide Reversed, Next;
    ReversedFew(n);
    ReversedNext(n);
    after := stack;
    if n.shadowRoots.Listed? {
      after := PushReversed(after, n.shadowRoots.nodes);
    }
    assert after == stack + Reversed(n.shadowRoots.All());
    if n.contentDocument.Some? {
      after := after + [n.contentDocument.value];
    }
    if n.children.Listed? {
      after := PushReversed(after, n.children.nodes);
    }
  }

  ghost predicate Recorded(scopes: seq<NodeId>, seen: set<NodeId>, visited: seq<NodeId>) {
    scopes == Dedup(visited) && forall id :: id in seen <==> id in visited
  }

  /** Records an id unless it has been seen. */
  method Record(id: NodeId, scopes: seq<NodeId>, seen: set<NodeId>, ghost visited: seq<NodeId>)
    returns (scopes': seq<NodeId>, seen': set<NodeId>)
    requires Recorded(scopes, seen, visited)
    ensures Recorded(scopes', seen', visited + [id])
  {
    DedupSnoc(visited, id);
    hide Dedup;
    scopes', seen' := scopes, seen;
    if id !in seen {
      seen' := seen + {id};
      scopes' := scopes + [id];
    }
  }

  method CollectScopesIterative(root: Node) returns (scopes: seq<NodeId>)
    ensures scopes == Dedup(Preorder(root))
  {
    scopes := [];
    var seen: set<NodeId> := {};
    var stack := [root];
    ghost var visited: seq<NodeId> := [];
    ReversedFew(root);
    OneNode(root);
    assert Recorded(scopes, seen, visited);
    hide Preorder, PreorderOfAll, Reversed, Next, SizeOfAll, Recorded;
    while stack != []
      invariant Recorded(scopes, seen, visited)
      invariant visited + PreorderOfAll(Reversed(stack)) == Preorder(root)
      decreases SizeOfAll(Reversed(stack))
    {
      PopAndPush(stack);
      var n := stack[|stack| - 1];
      stack := stack[..|stack| - 1];
      scopes, seen := Record(n.nodeId, scopes, seen, visited);
      stack := PushNext(stack, n);
      ghost var rest := PreorderOfAll(Reversed(stack));
      assert (visited + [n.nodeId]) + rest == visited + ([n.nodeId] + rest);
      visited := visited + [n.nodeId];
    }
    assert visited + [] == visited;
    RecordedIsDedup(scopes, seen, visited);
  }

  lemma RecordedIsDedup(scopes: seq<NodeId>, seen: set<NodeId>, visited: seq<NodeId>)
    requires Recorded(scopes, seen, visited)
    ensures scopes == Dedup(visited)
  {
  }

  /** The scopes are the ids of the nodes of the tree. */
  lemma InScopeIff(id: NodeId, root: Node)
    ensures id in Dedup(Preorder(root)) <==> exists n :: Within(n, root) && n.nodeId == id
  {
    DedupKeepsFirsts(Preorder(root));
    if id in Preorder(root) {
      var n := VisitedIsWithin(id, root);
    }
    if n :| Within(n, root) && n.nodeId == id {
      PreorderVisits(n, root);
    }
  }

  function Leaf(id: NodeId): Node {
    Node(id, Absent, None, Absent)
  }

  lemma LeafOrder(id: NodeId)
    ensures Preorder(Leaf(id)) == [id]
  {
    var none: seq<NodeId> := [];
    assert none + (none + none) == none && [id] + none == [id];
  }

  /** A node comes before its children, these before its content document, and that before its shadow roots. */
  lemma ScopeOrder(a: NodeId, b: NodeId, c: NodeId, d: NodeId, e: NodeId)
    ensures Preorder(Node(a, Listed([Leaf(b), Leaf(c)]), Some(Leaf(d)), Listed([Leaf(e)]))) == [a, b, c, d, e]
  {
    LeafOrder(b);
    LeafOrder(c);
    LeafOrder(d);
    LeafOrder(e);
    OneNode(Leaf(c));
    OneNode(Leaf(e));
    assert [Leaf(b), Leaf(c)][1..] == [Leaf(c)];
    assert PreorderOfAll([Leaf(b), Leaf(c)]) == [b, c];
  }
}
