/**
 The prefix tree of the template miner (`drain.rs`): how a line is routed, where its
 template is filed, and which templates lie under a node.
 */
module DrainTree {
  import opened Sequences

  type Token = string

  const WILDCARD: Token := "<*>"

  datatype Node = Node(children: map<Token, Node>, clusters: seq<nat>)

  const EMPTY := Node(map[], [])

  /** The child a new template goes under: its own token, or `<*>` once the node is full. */
  function ChildKey(node: Node, token: Token, maxChildren: nat): Token
  {
    if token in node.children then token
    else if WILDCARD in node.children then
      if |node.children| < maxChildren then token else WILDCARD
    else if |node.children| + 1 < maxChildren then token
    else WILDCARD
  }

  function ChildAt(node: Node, key: Token): Node
  {
    if key in node.children then node.children[key] else EMPTY
  }

  /** File template `idx` under the leaf for this prefix, creating nodes on the way. */
  function Insert(node: Node, path: seq<Token>, maxChildren: nat, idx: nat): Node
    decreases |path|
  {
    if path == [] then node.(clusters := node.clusters + [idx])
    else
      var key := ChildKey(node, path[0], maxChildren);
      node.(children := node.children[key := Insert(ChildAt(node, key), path[1..], maxChildren, idx)])
  }

  // ------------------------------------------------------------------ everything under a node

  /** Lexicographic order, the iteration order of the children. */
  predicate Leq(a: Token, b: Token)
  {
    a == [] || (b != [] && (a[0] < b[0] || (a[0] == b[0] && Leq(a[1..], b[1..]))))
  }

  lemma {:induction false} LeqTotal(a: Token, b: Token)
    ensures Leq(a, b) || Leq(b, a)
  {
    if a != [] && b != [] && a[0] == b[0] {
      LeqTotal(a[1..], b[1..]);
    }
  }

  lemma {:induction false} LeqAntisymmetric(a: Token, b: Token)
    requires Leq(a, b) && Leq(b, a)
    ensures a == b
  {
    if a != [] {
      LeqAntisymmetric(a[1..], b[1..]);
      assert a == [a[0]] + a[1..] && b == [b[0]] + b[1..];
    }
  }

  lemma {:induction false} LeqTransitive(a: Token, b: Token, c: Token)
    requires Leq(a, b) && Leq(b, c)
    ensures Leq(a, c)
  {
    if a != [] && a[0] == b[0] && b[0] == c[0] {
      LeqTransitive(a[1..], b[1..], c[1..]);
    }
  }

  predicate IsLeast(k: Token, keys: set<Token>) {
    k in keys && forall x :: x in keys ==> Leq(k, x)
  }

  lemma {:induction false} LeastExists(keys: set<Token>)
    requires keys != {}
    ensures exists k :: IsLeast(k, keys)
    decreases |keys|
  {
    hide Leq;
    var y :| y in keys;
    var rest := keys - {y};
    LeqTotal(y, y);
    if rest == {} {
      assert keys == {y};
      assert IsLeast(y, keys);
    } else {
      LeastExists(rest);
      var m :| IsLeast(m, rest);
      LeqTotal(m, y);
      var k := if Leq(m, y) then m else y;
      forall x | x in keys ensures Leq(k, x) {
        if x != y && k == y {
          LeqTransitive(y, m, x);
        }
      }
      assert IsLeast(k, keys);
    }
  }

  lemma LeastUnique(keys: set<Token>)
    ensures forall k, l :: IsLeast(k, keys) && IsLeast(l, keys) ==> k == l
  {
    forall k, l | IsLeast(k, keys) && IsLeast(l, keys) ensures k == l {
      LeqAntisymmetric(k, l);
    }
  }

  function Least(keys: set<Token>): (k: Token)
    requires keys != {}
    ensures k in keys
  {
    LeastExists(keys);
    LeastUnique(keys);
    var k :| k in keys && IsLeast(k, keys);
    k
  }

  function Sorted(keys: set<Token>): (r: seq<Token>)
    ensures forall k :: k in r ==> k in keys
    ensures forall k :: k in keys ==> k in r
    decreases |keys|
  {
    if keys == {} then [] else [Least(keys)] + Sorted(keys - {Least(keys)})
  }

  /** The node and everything below it, in the order the worklist visits them. */
  function Nodes(node: Node): seq<Node>
    decreases node, 1, 0
  {
    [node] + NodesUnder(node, Sorted(node.children.Keys))
  }

  /** The last child pushed is the first one visited. */
  function NodesUnder(node: Node, keys: seq<Token>): seq<Node>
    requires forall k :: k in keys ==> k in node.children
    decreases node, 0, |keys|
  {
    if keys == [] then []
    else
      var last := keys[|keys| - 1];
      Nodes(node.children[last]) + NodesUnder(node, keys[..|keys| - 1])
  }

  function Clusters(nodes: seq<Node>): seq<nat>
  {
    if nodes == [] then [] else nodes[0].clusters + Clusters(nodes[1..])
  }

  const MAX_SCAN: nat := 512

  function Capped(s: seq<nat>): seq<nat>
  {
    if |s| > MAX_SCAN then s[..MAX_SCAN] else s
  }

  /** Templates under a node, at most 512 of them. */
  function Subtree(node: Node): seq<nat>
  {
    Capped(Clusters(Nodes(node)))
  }

  function StackNodes(stack: seq<Node>): seq<Node>
  {
    if stack == [] then [] else Nodes(stack[|stack| - 1]) + StackNodes(stack[..|stack| - 1])
  }

  /** Pushing a node's children puts exactly what lies below it on top of the stack. */
  lemma {:induction false} PushChildren(stack: seq<Node>, node: Node, keys: seq<Token>, pushed: seq<Node>)
    requires forall k :: k in keys ==> k in node.children
    requires |pushed| == |keys| && forall i :: 0 <= i < |keys| ==> pushed[i] == node.children[keys[i]]
    ensures StackNodes(stack + pushed) == NodesUnder(node, keys) + StackNodes(stack)
    decreases |keys|
  {
    hide Nodes, StackNodes;
    if keys == [] {
      assert stack + pushed == stack;
      Unit(StackNodes(stack));
    } else {
      var n := |keys| - 1;
      PushChildren(stack, node, keys[..n], pushed[..n]);
      PushOne(stack + pushed[..n], pushed[n]);
      assert stack + pushed[..n] + [pushed[n]] == stack + pushed;
      Assoc(Nodes(pushed[n]), NodesUnder(node, keys[..n]), StackNodes(stack));
    }
  }

  lemma PushOne(stack: seq<Node>, node: Node)
    ensures StackNodes(stack + [node]) == Nodes(node) + StackNodes(stack)
  {
    assert (stack + [node])[..|stack|] == stack;
  }

  lemma PopNode(stack: seq<Node>, node: Node)
    requires stack != [] && node == stack[|stack| - 1]
    ensures var keys := Sorted(node.children.Keys);
            StackNodes(stack) == [node] + (NodesUnder(node, keys) + StackNodes(stack[..|stack| - 1]))
  {
    var keys := Sorted(node.children.Keys);
    Assoc([node], NodesUnder(node, keys), StackNodes(stack[..|stack| - 1]));
  }

  /** The worklist scan, cut off once it has seen more than the cap. */
  method SubtreeClusters(node: Node) returns (out: seq<nat>)
    ensures out == Subtree(node)
  {
    ghost var total := Clusters(Nodes(node));
    out := [];
    var stack := [node];
    assert StackNodes(stack) == Nodes(node) by {
      assert stack[..0] == [];
      assert Nodes(node) + [] == Nodes(node);
    }
    while stack != []
      invariant out + Clusters(StackNodes(stack)) == total
      invariant |out| <= MAX_SCAN
      decreases |StackNodes(stack)|
    {
      var n := stack[|stack| - 1];
      var rest := stack[..|stack| - 1];
      PopNode(stack, n);
      var keys := Sorted(n.children.Keys);
      ghost var left := NodesUnder(n, keys) + StackNodes(rest);
      assert ([n] + left)[1..] == left;
      assert out + (n.clusters + Clusters(left)) == out + n.clusters + Clusters(left);
      out := out + n.clusters;
      if |out| > MAX_SCAN {
        out := out[..MAX_SCAN];
        assert total[..MAX_SCAN] == out;
        return;
      }
      var pushed := PushInOrder(n, keys);
      PushChildren(rest, n, keys, pushed);
      stack := rest + pushed;
    }
    assert out + [] == out;
  }

  method PushInOrder(node: Node, keys: seq<Token>) returns (pushed: seq<Node>)
    requires forall k :: k in keys ==> k in node.children
    ensures |pushed| == |keys|
    ensures forall i :: 0 <= i < |keys| ==> pushed[i] == node.children[keys[i]]
  {
    pushed := [];
    for i := 0 to |keys|
      invariant |pushed| == i
      invariant forall j :: 0 <= j < i ==> pushed[j] == node.children[keys[j]]
    {
      pushed := pushed + [node.children[keys[i]]];
    }
  }

  lemma LeastIs(keys: set<Token>)
    requires keys != {}
    ensures forall k :: k in keys ==> Leq(Least(keys), k)
  {
    hide Leq;
    LeastExists(keys);
    LeastUnique(keys);
    assert IsLeast(Least(keys), keys);
  }

  lemma {:induction false} SortedAscending(keys: set<Token>)
    ensures |Sorted(keys)| == |keys|
    ensures forall i, j :: 0 <= i < j < |Sorted(keys)| ==>
              Leq(Sorted(keys)[i], Sorted(keys)[j]) && Sorted(keys)[i] != Sorted(keys)[j]
    decreases |keys|
  {
    hide Leq;
    if keys != {} {
      var least := Least(keys);
      var rest := Sorted(keys - {least});
      SortedAscending(keys - {least});
      LeastIs(keys);
      assert Sorted(keys) == [least] + rest;
      hide Sorted, Least;
      forall j | 0 <= j < |rest| ensures Leq(least, rest[j]) && least != rest[j] {
        assert rest[j] in rest;
      }
    }
  }

  /** What lies under a later child is visited before what lies under an earlier one. */
  lemma {:induction false} LaterFirst(node: Node, keys: seq<Token>, i: nat, j: nat) returns (before: seq<Node>, between: seq<Node>, after: seq<Node>)
    requires forall k :: k in keys ==> k in node.children
    requires i < j < |keys|
    ensures NodesUnder(node, keys)
         == before + Nodes(node.children[keys[j]]) + between + Nodes(node.children[keys[i]]) + after
    decreases |keys|
  {
    hide Nodes;
    var n := |keys| - 1;
    var front, last := keys[..n], Nodes(node.children[keys[n]]);
    if j == n {
      var b, a := OneVisited(node, front, i);
      before, between, after := [], b, a;
      assert last + (b + Nodes(node.children[keys[i]]) + a) == [] + last + b + Nodes(node.children[keys[i]]) + a;
    } else {
      var b, m, a := LaterFirst(node, front, i, j);
      before, between, after := last + b, m, a;
      var x, y := Nodes(node.children[keys[j]]), Nodes(node.children[keys[i]]);
      assert last + (b + x + m + y + a) == last + b + x + m + y + a;
    }
  }

  lemma {:induction false} OneVisited(node: Node, keys: seq<Token>, i: nat) returns (before: seq<Node>, after: seq<Node>)
    requires (forall k :: k in keys ==> k in node.children) && i < |keys|
    ensures NodesUnder(node, keys) == before + Nodes(node.children[keys[i]]) + after
    decreases |keys|
  {
    hide Nodes;
    var n := |keys| - 1;
    var last := Nodes(node.children[keys[n]]);
    if i == n {
      before, after := [], NodesUnder(node, keys[..n]);
      Unit(last);
    } else {
      var b, a := OneVisited(node, keys[..n], i);
      before, after := last + b, a;
      var x := Nodes(node.children[keys[i]]);
      assert last + (b + x + a) == last + b + x + a;
    }
  }

  /** A scan visits the children of a node from the last in lexicographic order to the first. */
  lemma ScanOrder(node: Node, a: Token, b: Token) returns (before: seq<Node>, between: seq<Node>, after: seq<Node>)
    requires a in node.children && b in node.children && a != b && Leq(a, b)
    ensures Nodes(node) == [node] + before + Nodes(node.children[b]) + between + Nodes(node.children[a]) + after
  {
    hide Leq, Nodes, NodesUnder;
    var keys := Sorted(node.children.Keys);
    SortedAscending(node.children.Keys);
    hide Sorted;
    var i :| 0 <= i < |keys| && keys[i] == a;
    var j :| 0 <= j < |keys| && keys[j] == b;
    if j < i {
      LeqAntisymmetric(a, b);
    }
    before, between, after := LaterFirst(node, keys, i, j);
    NodesAre(node);
    FiveJoin([node], before, Nodes(node.children[b]), between, Nodes(node.children[a]), after);
  }

  lemma FiveJoin(n: seq<Node>, a: seq<Node>, b: seq<Node>, c: seq<Node>, d: seq<Node>, e: seq<Node>)
    ensures n + (a + b + c + d + e) == n + a + b + c + d + e
  {
  }

  lemma NodesAre(node: Node)
    ensures Nodes(node) == [node] + NodesUnder(node, Sorted(node.children.Keys))
  {
  }

  // ------------------------------------------------------------------ the candidates of a line

  /** The walk: what to compare against, and whether that goes beyond the line's own leaf. */
  function Gather(node: Node, path: seq<Token>, also: seq<nat>): (seq<nat>, bool)
    decreases |path|
  {
    if path == [] then (node.clusters + also, also != [])
    else
      var more :=
        if WILDCARD in node.children && path[0] != WILDCARD
        then also + Subtree(node.children[WILDCARD]) else also;
      if path[0] in node.children then Gather(node.children[path[0]], path[1..], more)
      else if WILDCARD in node.children then Gather(node.children[WILDCARD], path[1..], more)
      else (Subtree(node) + more, true)
  }

  // ------------------------------------------------------------------ leaves

  /** The templates filed at one address of the tree. */
  ghost function ClustersAt(node: Node, keys: seq<Token>): seq<nat>
    decreases |keys|
  {
    if keys == [] then node.clusters
    else if keys[0] in node.children then ClustersAt(node.children[keys[0]], keys[1..])
    else []
  }

  /** The address a new template with this prefix is filed at. */
  ghost function Address(node: Node, path: seq<Token>, maxChildren: nat): (keys: seq<Token>)
    ensures |keys| == |path|
    decreases |path|
  {
    if path == [] then []
    else
      var key := ChildKey(node, path[0], maxChildren);
      [key] + Address(ChildAt(node, key), path[1..], maxChildren)
  }

  lemma {:induction false} EmptyHasNone(keys: seq<Token>)
    ensures ClustersAt(EMPTY, keys) == []
  {
  }

  /** Filing a template changes exactly one address, by exactly that template. */
  lemma {:induction false} InsertAt(node: Node, path: seq<Token>, maxChildren: nat, idx: nat, keys: seq<Token>)
    ensures ClustersAt(Insert(node, path, maxChildren, idx), keys)
         == ClustersAt(node, keys) + if keys == Address(node, path, maxChildren) then [idx] else []
    decreases |path|
  {
    var s := ClustersAt(node, keys);
    assert s + [] == s;
    if path != [] {
      var key := ChildKey(node, path[0], maxChildren);
      var child := ChildAt(node, key);
      var where := Address(child, path[1..], maxChildren);
      if keys != [] && keys[0] == key {
        InsertAt(child, path[1..], maxChildren, idx, keys[1..]);
        EmptyHasNone(keys[1..]);
        assert keys == [key] + keys[1..];
        assert keys == [key] + where <==> keys[1..] == where by {
          assert ([key] + where)[1..] == where;
        }
      }
    }
  }

  // ------------------------------------------------------------------ routes never move

  /** The walk for this prefix ends in a leaf holding `idx`, by branches no insertion can divert. */
  ghost predicate Routed(node: Node, path: seq<Token>, maxChildren: nat, idx: nat)
    decreases |path|
  {
    if path == [] then idx in node.clusters
    else if path[0] in node.children then Routed(node.children[path[0]], path[1..], maxChildren, idx)
    else
      && WILDCARD in node.children && |node.children| >= maxChildren
      && Routed(node.children[WILDCARD], path[1..], maxChildren, idx)
  }

  lemma {:induction false} InsertRoutes(node: Node, path: seq<Token>, maxChildren: nat, idx: nat)
    ensures Routed(Insert(node, path, maxChildren, idx), path, maxChildren, idx)
    decreases |path|
  {
    if path != [] {
      var key := ChildKey(node, path[0], maxChildren);
      InsertRoutes(ChildAt(node, key), path[1..], maxChildren, idx);
    }
  }

  lemma {:induction false} RouteKept(node: Node, path: seq<Token>, maxChildren: nat, idx: nat, other: seq<Token>, new_: nat)
    requires Routed(node, path, maxChildren, idx)
    ensures Routed(Insert(node, other, maxChildren, new_), path, maxChildren, idx)
    decreases |path|
  {
    if path != [] && other != [] {
      var key := ChildKey(node, other[0], maxChildren);
      var next := if path[0] in node.children then path[0] else WILDCARD;
      if key == next {
        RouteKept(node.children[next], path[1..], maxChildren, idx, other[1..], new_);
      }
    }
  }

  /** A routed line finds its template among its candidates. */
  lemma {:induction false} RoutedGathers(node: Node, path: seq<Token>, maxChildren: nat, idx: nat, also: seq<nat>)
    requires Routed(node, path, maxChildren, idx)
    ensures idx in Gather(node, path, also).0
    decreases |path|
  {
    if path != [] {
      var more :=
        if WILDCARD in node.children && path[0] != WILDCARD
        then also + Subtree(node.children[WILDCARD]) else also;
      var next := if path[0] in node.children then path[0] else WILDCARD;
      RoutedGathers(node.children[next], path[1..], maxChildren, idx, more);
    }
  }

  // ------------------------------------------------------------------ nodes stay small

  ghost function Cap(maxChildren: nat): nat {
    if maxChildren < 1 then 1 else maxChildren
  }

  /** One place is kept for `<*>` until it is taken. */
  ghost predicate Narrow(node: Node, maxChildren: nat) {
    && |node.children| + (if WILDCARD in node.children then 0 else 1) <= Cap(maxChildren)
    && forall k :: k in node.children ==> Narrow(node.children[k], maxChildren)
  }

  lemma {:induction false} InsertNarrow(node: Node, path: seq<Token>, maxChildren: nat, idx: nat)
    requires Narrow(node, maxChildren)
    ensures Narrow(Insert(node, path, maxChildren, idx), maxChildren)
    decreases |path|
  {
    if path != [] {
      var key := ChildKey(node, path[0], maxChildren);
      var child := ChildAt(node, key);
      assert Narrow(child, maxChildren);
      InsertNarrow(child, path[1..], maxChildren, idx);
      var after := Insert(node, path, maxChildren, idx);
      assert after.children.Keys == node.children.Keys + {key};
      forall k | k in after.children ensures Narrow(after.children[k], maxChildren) {
        assert k != key ==> after.children[k] == node.children[k];
      }
    }
  }

  // ------------------------------------------------------------------ indices stay in range

  ghost predicate Bounded(node: Node, n: nat) {
    && (forall i :: i in node.clusters ==> i < n)
    && forall k :: k in node.children ==> Bounded(node.children[k], n)
  }

  lemma {:induction false} BoundedMore(node: Node, m: nat, n: nat)
    requires Bounded(node, m) && m <= n
    ensures Bounded(node, n)
  {
    forall k | k in node.children ensures Bounded(node.children[k], n) {
      BoundedMore(node.children[k], m, n);
    }
  }

  lemma {:induction false} InsertBounded(node: Node, path: seq<Token>, maxChildren: nat, idx: nat, n: nat)
    requires Bounded(node, n) && idx < n
    ensures Bounded(Insert(node, path, maxChildren, idx), n)
    decreases |path|
  {
    if path != [] {
      var key := ChildKey(node, path[0], maxChildren);
      assert Bounded(ChildAt(node, key), n);
      InsertBounded(ChildAt(node, key), path[1..], maxChildren, idx, n);
    }
  }

  ghost predicate Below(s: seq<nat>, n: nat) {
    forall i :: i in s ==> i < n
  }

  lemma {:induction false} NodesBelow(node: Node, n: nat)
    requires Bounded(node, n)
    ensures Below(Clusters(Nodes(node)), n)
    decreases node, 1, 0
  {
    var keys := Sorted(node.children.Keys);
    NodesUnderBelow(node, keys, n);
    var nodes := Nodes(node);
    assert nodes[1..] == NodesUnder(node, keys);
  }

  lemma {:induction false} NodesUnderBelow(node: Node, keys: seq<Token>, n: nat)
    requires Bounded(node, n) && forall k :: k in keys ==> k in node.children
    ensures Below(Clusters(NodesUnder(node, keys)), n)
    decreases node, 0, |keys|
  {
    if keys != [] {
      var last := keys[|keys| - 1];
      assert Bounded(node.children[last], n);
      NodesBelow(node.children[last], n);
      NodesUnderBelow(node, keys[..|keys| - 1], n);
      ClustersAppend(Nodes(node.children[last]), NodesUnder(node, keys[..|keys| - 1]));
    }
  }

  lemma {:induction false} ClustersAppend(a: seq<Node>, b: seq<Node>)
    ensures Clusters(a + b) == Clusters(a) + Clusters(b)
  {
    if a == [] {
      assert a + b == b;
      assert [] + Clusters(b) == Clusters(b);
    } else {
      assert (a + b)[1..] == a[1..] + b;
      ClustersAppend(a[1..], b);
      assert a[0].clusters + (Clusters(a[1..]) + Clusters(b)) == a[0].clusters + Clusters(a[1..]) + Clusters(b);
    }
  }

  lemma SubtreeBelow(node: Node, n: nat)
    requires Bounded(node, n)
    ensures Below(Subtree(node), n)
  {
    NodesBelow(node, n);
    var all := Clusters(Nodes(node));
    hide Nodes, Clusters;
    assert forall i :: i in Capped(all) ==> i in all;
  }

  lemma {:induction false} GatherBelow(node: Node, path: seq<Token>, also: seq<nat>, n: nat)
    requires Bounded(node, n) && Below(also, n)
    ensures Below(Gather(node, path, also).0, n)
    decreases |path|
  {
    hide Subtree;
    SubtreeBelow(node, n);
    if path != [] {
      if WILDCARD in node.children {
        assert Bounded(node.children[WILDCARD], n);
        SubtreeBelow(node.children[WILDCARD], n);
      }
      var more :=
        if WILDCARD in node.children && path[0] != WILDCARD
        then also + Subtree(node.children[WILDCARD]) else also;
      assert Below(more, n);
      if path[0] in node.children {
        assert Bounded(node.children[path[0]], n);
        GatherBelow(node.children[path[0]], path[1..], more, n);
      } else if WILDCARD in node.children {
        GatherBelow(node.children[WILDCARD], path[1..], more, n);
      }
    }
  }

  // ------------------------------------------------------------------ what a walk cannot miss

  /** What is filed under a node is found by scanning the node. */
  lemma {:induction false} FiledIsScanned(node: Node, keys: seq<Token>, i: nat)
    requires i in ClustersAt(node, keys)
    ensures i in Clusters(Nodes(node))
    decreases |keys|
  {
    var below := NodesUnder(node, Sorted(node.children.Keys));
    assert Nodes(node) == [node] + below && ([node] + below)[1..] == below;
    if keys != [] {
      FiledIsScanned(node.children[keys[0]], keys[1..], i);
      ChildIsScanned(node, Sorted(node.children.Keys), keys[0], i);
    }
  }

  lemma {:induction false} ChildIsScanned(node: Node, names: seq<Token>, key: Token, i: nat)
    requires (forall k :: k in names ==> k in node.children) && key in names
    requires i in Clusters(Nodes(node.children[key]))
    ensures i in Clusters(NodesUnder(node, names))
    decreases |names|
  {
    var n := |names| - 1;
    var last, front := names[n], names[..n];
    ClustersAppend(Nodes(node.children[last]), NodesUnder(node, front));
    if key != last {
      ChildIsScanned(node, front, key, i);
    }
  }

  /** The address agrees with the prefix wherever it is literal. */
  ghost predicate Covers(keys: seq<Token>, path: seq<Token>) {
    |keys| == |path| && forall j :: 0 <= j < |keys| ==> keys[j] == path[j] || keys[j] == WILDCARD
  }

  lemma {:induction false} AlsoIsGathered(node: Node, path: seq<Token>, also: seq<nat>, i: nat)
    requires i in also
    ensures i in Gather(node, path, also).0
    decreases |path|
  {
    hide Subtree;
    if path != [] {
      var more :=
        if WILDCARD in node.children && path[0] != WILDCARD
        then also + Subtree(node.children[WILDCARD]) else also;
      if path[0] in node.children {
        AlsoIsGathered(node.children[path[0]], path[1..], more, i);
      } else if WILDCARD in node.children {
        AlsoIsGathered(node.children[WILDCARD], path[1..], more, i);
      }
    }
  }

  /** What scanning a node finds is filed under it. */
  lemma {:induction false} ScannedIsFiled(node: Node, i: nat) returns (keys: seq<Token>)
    requires i in Clusters(Nodes(node))
    ensures i in ClustersAt(node, keys)
    decreases node, 1, 0
  {
    var names := Sorted(node.children.Keys);
    assert Nodes(node)[1..] == NodesUnder(node, names);
    if i in node.clusters {
      keys := [];
    } else {
      keys := UnderIsFiled(node, names, i);
    }
  }

  lemma {:induction false} UnderIsFiled(node: Node, names: seq<Token>, i: nat) returns (keys: seq<Token>)
    requires (forall k :: k in names ==> k in node.children) && i in Clusters(NodesUnder(node, names))
    ensures i in ClustersAt(node, keys)
    decreases node, 0, |names|
  {
    var last, front := names[|names| - 1], names[..|names| - 1];
    ClustersAppend(Nodes(node.children[last]), NodesUnder(node, front));
    if i in Clusters(NodesUnder(node, front)) {
      keys := UnderIsFiled(node, front, i);
    } else {
      var below := ScannedIsFiled(node.children[last], i);
      keys := [last] + below;
      assert keys[1..] == below;
    }
  }

  lemma SubtreeIsFiled(node: Node, i: nat) returns (keys: seq<Token>)
    requires i in Subtree(node)
    ensures i in ClustersAt(node, keys)
  {
    var all := Clusters(Nodes(node));
    hide Nodes, Clusters;
    assert i in all;
    keys := ScannedIsFiled(node, i);
  }

  ghost predicate NowhereIn(node: Node, i: nat) {
    forall keys :: i !in ClustersAt(node, keys)
  }

  lemma NowhereBelow(node: Node, i: nat, key: Token)
    requires NowhereIn(node, i) && key in node.children
    ensures NowhereIn(node.children[key], i)
  {
    forall keys ensures i !in ClustersAt(node.children[key], keys) {
      assert ([key] + keys)[1..] == keys;
      assert i !in ClustersAt(node, [key] + keys);
    }
  }

  /** A template filed nowhere under a node is not gathered there. */
  lemma {:induction false} NowhereIsNotGathered(node: Node, path: seq<Token>, also: seq<nat>, i: nat)
    requires NowhereIn(node, i) && i !in also
    ensures i !in Gather(node, path, also).0
    decreases |path|
  {
    hide Subtree;
    assert i !in node.clusters by {
      assert i !in ClustersAt(node, []);
    }
    if path != [] {
      NotScanned(node, i);
      if WILDCARD in node.children {
        NowhereBelow(node, i, WILDCARD);
        NotScanned(node.children[WILDCARD], i);
      }
      var more :=
        if WILDCARD in node.children && path[0] != WILDCARD
        then also + Subtree(node.children[WILDCARD]) else also;
      if path[0] in node.children {
        NowhereBelow(node, i, path[0]);
        NowhereIsNotGathered(node.children[path[0]], path[1..], more, i);
      } else if WILDCARD in node.children {
        NowhereIsNotGathered(node.children[WILDCARD], path[1..], more, i);
      }
    }
  }

  lemma NotScanned(node: Node, i: nat)
    requires NowhereIn(node, i)
    ensures i !in Subtree(node)
  {
    hide Subtree;
    if i in Subtree(node) {
      var keys := SubtreeIsFiled(node, i);
    }
  }

  /** Nothing but this address holds the template. */
  ghost predicate OnlyAt(node: Node, keys: seq<Token>, i: nat) {
    i in ClustersAt(node, keys) && forall k :: i in ClustersAt(node, k) ==> k == keys
  }

  lemma OnlyBelow(node: Node, keys: seq<Token>, i: nat, key: Token)
    requires OnlyAt(node, keys, i) && key in node.children
    ensures keys != [] && key == keys[0] ==> OnlyAt(node.children[key], keys[1..], i)
    ensures keys == [] || key != keys[0] ==> NowhereIn(node.children[key], i)
  {
    forall k | i in ClustersAt(node.children[key], k) ensures keys == [key] + k {
      assert ([key] + k)[1..] == k;
      assert i in ClustersAt(node, [key] + k);
    }
  }

  /**
   The template is within the walk's reach: the walk follows its address to the end, or passes
   by a wildcard branch whose first 512 templates include it.
   */
  ghost predicate Within(node: Node, path: seq<Token>, keys: seq<Token>, i: nat)
    requires |keys| == |path|
    decreases |path|
  {
    path == []
    || (&& keys[0] in node.children
        && (|| (keys[0] != path[0] && i in Subtree(node.children[keys[0]]))
            || ((keys[0] == path[0] || path[0] !in node.children)
                && Within(node.children[keys[0]], path[1..], keys[1..], i))))
  }

  /** A template filed at an address covering the line's prefix is a candidate exactly when it is within reach. */
  lemma {:induction false} CoveringIsGatheredIff(node: Node, path: seq<Token>, also: seq<nat>, keys: seq<Token>, i: nat)
    requires Covers(keys, path) && OnlyAt(node, keys, i) && i !in also
    ensures i in Gather(node, path, also).0 <==> Within(node, path, keys, i)
    decreases |path|
  {
    hide Subtree;
    if path != [] {
      OnlyBelow(node, keys, i, keys[0]);
      var more :=
        if WILDCARD in node.children && path[0] != WILDCARD
        then also + Subtree(node.children[WILDCARD]) else also;
      hide OnlyAt;
      if keys[0] == path[0] {
        if WILDCARD in node.children && path[0] != WILDCARD {
          OnlyBelow(node, keys, i, WILDCARD);
          NotScanned(node.children[WILDCARD], i);
        }
        CoveringIsGatheredIff(node.children[path[0]], path[1..], more, keys[1..], i);
      } else if i in Subtree(node.children[WILDCARD]) {
        AlsoIsGathered(node.children[if path[0] in node.children then path[0] else WILDCARD], path[1..], more, i);
      } else if path[0] in node.children {
        OnlyBelow(node, keys, i, path[0]);
        NowhereIsNotGathered(node.children[path[0]], path[1..], more, i);
      } else {
        CoveringIsGatheredIff(node.children[WILDCARD], path[1..], more, keys[1..], i);
      }
    }
  }

  /** No wildcard branch the walk passes by holds more templates than a scan returns. */
  ghost predicate Scannable(node: Node, path: seq<Token>)
    decreases |path|
  {
    path == []
    || (if path[0] in node.children then
          && (WILDCARD in node.children && path[0] != WILDCARD ==>
                |Clusters(Nodes(node.children[WILDCARD]))| <= MAX_SCAN)
          && Scannable(node.children[path[0]], path[1..])
        else WILDCARD in node.children ==> Scannable(node.children[WILDCARD], path[1..]))
  }

  /** Then every template filed at a covering address is within reach. */
  lemma {:induction false} SmallBranchesAreWithin(node: Node, path: seq<Token>, keys: seq<Token>, i: nat)
    requires Covers(keys, path) && i in ClustersAt(node, keys) && Scannable(node, path)
    ensures Within(node, path, keys, i)
    decreases |path|
  {
    hide Nodes, Clusters;
    if path != [] {
      if keys[0] != path[0] && path[0] in node.children {
        FiledIsScanned(node.children[WILDCARD], keys[1..], i);
      } else {
        SmallBranchesAreWithin(node.children[keys[0]], path[1..], keys[1..], i);
      }
    }
  }

  lemma LeafSubtree(leaf: Node)
    requires leaf.children == map[]
    ensures Subtree(leaf) == Capped(leaf.clusters)
  {
    var all := [leaf];
    assert Nodes(leaf) == all;
    assert all[1..] == [];
    assert Clusters(all) == leaf.clusters + Clusters([]);
    Unit(leaf.clusters);
  }
}
