/** The nodes of the string-builder graph: identity sets of successors and predecessors
    and a dead flag. The object graph is a map from node identity to node state. */
module StringBuilderNode {

  type NodeId = nat

  datatype Node = Node(successors: set<NodeId>, predecessors: set<NodeId>, isDead: bool)

  type Graph = map<NodeId, Node>

  /** A node as constructed: no edges, not dead. */
  function NewNode(): (n: Node)
    ensures !n.isDead && n.successors == {} && n.predecessors == {}
  {
    Node({}, {}, false)
  }

  /** Every node named by an edge is part of the graph. */
  ghost predicate Closed(g: Graph) {
    forall a :: a in g ==> g[a].successors <= g.Keys && g[a].predecessors <= g.Keys
  }

  /** Successor and predecessor sets mirror each other, restricted to the nodes in `live`. */
  ghost predicate SymmetricOn(g: Graph, live: set<NodeId>)
    requires live <= g.Keys
  {
    forall a, b :: a in live && b in live ==> (b in g[a].successors <==> a in g[b].predecessors)
  }

  predicate HasSingleSuccessor(n: Node) { |n.successors| == 1 }

  predicate HasSinglePredecessor(n: Node) { |n.predecessors| == 1 }

  lemma SingletonCharacterization(s: set<NodeId>)
    ensures |s| == 1 <==> exists x :: s == {x}
  {
    if |s| == 1 {
      var x :| x in s;
      assert |s - {x}| == 0;
      assert s == {x};
    }
  }

  /** `getSingleSuccessor`/`getSinglePredecessor` are defined exactly when the set is a
      singleton, and then they name its one element. */
  lemma SingleNeighbourIsUnique(n: Node)
    ensures HasSingleSuccessor(n) <==> exists s :: n.successors == {s}
    ensures HasSinglePredecessor(n) <==> exists p :: n.predecessors == {p}
  {
    SingletonCharacterization(n.successors);
    SingletonCharacterization(n.predecessors);
  }

  /** `a.addSuccessor(b)`: b becomes a successor of a and a a predecessor of b. */
  function AddSuccessor(g: Graph, a: NodeId, b: NodeId): (r: Graph)
    requires a in g && b in g
    ensures r.Keys == g.Keys
    ensures b in r[a].successors && a in r[b].predecessors
    ensures forall n :: n in g && n != a && n != b ==> r[n] == g[n]
    ensures r[a].predecessors == g[a].predecessors + (if a == b then {a} else {})
    ensures r[b].successors == g[b].successors + (if a == b then {b} else {})
  {
    var g1 := g[a := g[a].(successors := g[a].successors + {b})];
    g1[b := g1[b].(predecessors := g1[b].predecessors + {a})]
  }

  /** Adding a successor edge keeps the two edge directions in agreement. */
  lemma AddSuccessorPreservesSymmetry(g: Graph, a: NodeId, b: NodeId)
    requires a in g && b in g && SymmetricOn(g, g.Keys)
    ensures SymmetricOn(AddSuccessor(g, a, b), g.Keys)
  {
    var r := AddSuccessor(g, a, b);
    forall x, y | x in g && y in g
      ensures y in r[x].successors <==> x in r[y].predecessors
    {
      assert y in r[x].successors <==> y in g[x].successors || (x == a && y == b);
      assert x in r[y].predecessors <==> x in g[y].predecessors || (x == a && y == b);
    }
  }

  /** `n.addPredecessor(p)` touches only n's predecessor set. */
  function AddPredecessor(g: Graph, n: NodeId, p: NodeId): (r: Graph)
    requires n in g
    ensures r.Keys == g.Keys
    ensures forall m :: m in g && m != n ==> r[m] == g[m]
    ensures r[n].predecessors == g[n].predecessors + {p}
    ensures r[n].successors == g[n].successors && r[n].isDead == g[n].isDead
  {
    g[n := g[n].(predecessors := g[n].predecessors + {p})]
  }

  /** The state after `removeNode` on a node that is not its own neighbour: every
      successor trades `id` for id's predecessors, every predecessor trades `id` for id's
      successors, and the node itself is marked dead with its own sets left in place. */
  ghost function Removed(g: Graph, id: NodeId): Graph
    requires id in g
  {
    var preds := g[id].predecessors;
    var succs := g[id].successors;
    map n | n in g ::
      if n == id then g[n].(isDead := true)
      else g[n].(
        predecessors := if n in succs then g[n].predecessors - {id} + preds else g[n].predecessors,
        successors := if n in preds then g[n].successors - {id} + succs else g[n].successors)
  }

  /** The first loop of `removeNode`: each node of `targets` trades `id` for `others` in
      its predecessor set. */
  method ReplaceInPredecessors(g: Graph, targets: set<NodeId>, id: NodeId, others: set<NodeId>)
    returns (r: Graph)
    requires targets <= g.Keys
    ensures r.Keys == g.Keys
    ensures forall n :: n in g ==>
      r[n] == if n in targets then g[n].(predecessors := g[n].predecessors - {id} + others) else g[n]
  {
    r := g;
    var todo := targets;
    while todo != {}
      invariant todo <= targets
      invariant r.Keys == g.Keys
      invariant forall n :: n in g ==>
        r[n] == if n in targets && n !in todo
                then g[n].(predecessors := g[n].predecessors - {id} + others) else g[n]
      decreases todo
    {
      var s :| s in todo;
      r := r[s := r[s].(predecessors := r[s].predecessors - {id} + others)];
      todo := todo - {s};
    }
  }

  /** The second loop of `removeNode`: each node of `targets` trades `id` for `others` in
      its successor set. */
  method ReplaceInSuccessors(g: Graph, targets: set<NodeId>, id: NodeId, others: set<NodeId>)
    returns (r: Graph)
    requires targets <= g.Keys
    ensures r.Keys == g.Keys
    ensures forall n :: n in g ==>
      r[n] == if n in targets then g[n].(successors := g[n].successors - {id} + others) else g[n]
  {
    r := g;
    var todo := targets;
    while todo != {}
      invariant todo <= targets
      invariant r.Keys == g.Keys
      invariant forall n :: n in g ==>
        r[n] == if n in targets && n !in todo
                then g[n].(successors := g[n].successors - {id} + others) else g[n]
      decreases todo
    {
      var p :| p in todo;
      r := r[p := r[p].(successors := r[p].successors - {id} + others)];
      todo := todo - {p};
    }
  }

  method RemoveNode(g: Graph, id: NodeId) returns (r: Graph)
    requires id in g && Closed(g)
    requires id !in g[id].successors && id !in g[id].predecessors
    ensures r == Removed(g, id)
  {
    var preds := g[id].predecessors;
    var succs := g[id].successors;
    var r1 := ReplaceInPredecessors(g, succs, id, preds);
    var r2 := ReplaceInSuccessors(r1, preds, id, succs);
    r := r2[id := r2[id].(isDead := true)];
    forall n | n in g
      ensures r[n] == Removed(g, id)[n]
    {
    }
  }

  /** After the removal, the other nodes still agree on their edges, none of them names
      the removed node, and every predecessor is linked straight to every successor. */
  lemma RemovedSplicesNode(g: Graph, id: NodeId)
    requires id in g && Closed(g) && SymmetricOn(g, g.Keys)
    requires id !in g[id].successors && id !in g[id].predecessors
    ensures Removed(g, id)[id].isDead
    ensures SymmetricOn(Removed(g, id), g.Keys - {id})
    ensures forall n :: n in g && n != id ==>
      id !in Removed(g, id)[n].successors && id !in Removed(g, id)[n].predecessors
    ensures forall p, s :: p in g[id].predecessors && s in g[id].successors ==>
      s in Removed(g, id)[p].successors && p in Removed(g, id)[s].predecessors
  {
    var r := Removed(g, id);
    var P, S := g[id].predecessors, g[id].successors;
    forall n | n in g && n != id
      ensures id !in r[n].successors && id !in r[n].predecessors
    {
      if id in g[n].successors {
        assert n in P;
      }
      if id in g[n].predecessors {
        assert n in S;
      }
    }
  }
}
