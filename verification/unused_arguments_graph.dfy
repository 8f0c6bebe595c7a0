/** Nodes of the effectively-unused-arguments graph: one node per (method, argument index),
    with symmetric successor/predecessor identity sets and an unoptimizable flag. */
module EffectivelyUnusedArgumentsGraph {
  import opened Wrappers

  type NodeId = nat

  /** The parts of a method's definition and optimization info a node consults. */
  datatype MethodInfo = MethodInfo(
    isInstance: bool,
    unusedArguments: Option<set<nat>>,   // None: the info has no unused-arguments bit set
    nullableArguments: set<nat>)         // indices whose dynamic type is nullable

  datatype Node = Node(
    info: MethodInfo,
    argumentIndex: nat,
    successors: set<NodeId>,
    predecessors: set<NodeId>,
    unoptimizable: bool)

  type Graph = map<NodeId, Node>

  function NewNode(info: MethodInfo, argumentIndex: nat): (n: Node)
    ensures !n.unoptimizable && n.successors == {} && n.predecessors == {}
    ensures n.info == info && n.argumentIndex == argumentIndex
  {
    Node(info, argumentIndex, {}, {}, false)
  }

  ghost predicate Symmetric(g: Graph) {
    forall a, b :: a in g && b in g ==> (b in g[a].successors <==> a in g[b].predecessors)
  }

  ghost predicate Closed(g: Graph) {
    forall a :: a in g ==> g[a].successors <= g.Keys && g[a].predecessors <= g.Keys
  }

  predicate IsNullable(n: Node) {
    if n.info.isInstance && n.argumentIndex == 0 then false
    else n.argumentIndex in n.info.nullableArguments
  }

  /** The receiver of an instance method is never nullable, whatever its method's
      optimization info says about argument 0; for a static method, argument 0, and any
      later argument `k`, is nullable exactly when the info says so. */
  lemma ReceiverIsNeverNullable(info: MethodInfo, k: nat)
    ensures info.isInstance ==> !IsNullable(NewNode(info, 0))
    ensures !info.isInstance ==> (IsNullable(NewNode(info, 0)) <==> 0 in info.nullableArguments)
    ensures info.isInstance ==> !IsNullable(NewNode(info.(nullableArguments := info.nullableArguments + {0}), 0))
    ensures k > 0 ==> (IsNullable(NewNode(info, k)) <==> k in info.nullableArguments)
  {
  }

  /** Nullability belongs to the (method, argument) pair: recording unused arguments,
      marking a node unoptimizable and editing edges never change it. */
  lemma NodeUpdatesKeepNullability(n: Node)
    ensures IsNullable(SetUnused(n)) == IsNullable(n)
    ensures IsNullable(SetUnoptimizable(n)) == IsNullable(n)
  {
  }

  /** The argument a node stands for: its method's info and its index. */
  ghost predicate SameArguments(g: Graph, r: Graph) {
    r.Keys == g.Keys &&
    forall n :: n in g ==> r[n].info == g[n].info && r[n].argumentIndex == g[n].argumentIndex
  }

  lemma GraphUpdatesKeepNullability(g: Graph, id: NodeId, a: NodeId, b: NodeId)
    requires id in g && a in g && b in g && Closed(g) && Symmetric(g)
    ensures forall n :: n in g ==> IsNullable(AddSuccessor(g, a, b)[n]) == IsNullable(g[n])
    ensures forall n :: n in g ==> IsNullable(CleanForRemoval(g, id)[n]) == IsNullable(g[n])
    ensures forall n :: n in g ==> IsNullable(RemoveUnusedSuccessors(g, id)[n]) == IsNullable(g[n])
  {
    AddSuccessorKeepsArguments(g, a, b);
    CleanForRemovalKeepsArguments(g, id);
    RemoveUnusedSuccessorsKeepsArguments(g, id);
  }

  lemma AddSuccessorKeepsArguments(g: Graph, a: NodeId, b: NodeId)
    requires a in g && b in g && Symmetric(g)
    ensures SameArguments(g, AddSuccessor(g, a, b))
  {
  }

  lemma CleanForRemovalKeepsArguments(g: Graph, id: NodeId)
    requires id in g && Closed(g) && Symmetric(g)
    ensures SameArguments(g, CleanForRemoval(g, id))
  {
    var g1 := ClearSuccessors(g, id);
    ClearSuccessorsKeepsInvariants(g, id);
    assert SameArguments(g, g1);
    var r := ClearPredecessors(g1, id);
    forall n | n in g
      ensures r[n].info == g[n].info && r[n].argumentIndex == g[n].argumentIndex
    {
      assert r[n].info == g1[n].info && r[n].argumentIndex == g1[n].argumentIndex;
    }
  }

  lemma RemoveUnusedSuccessorsKeepsArguments(g: Graph, id: NodeId)
    requires id in g && Closed(g) && Symmetric(g)
    ensures SameArguments(g, RemoveUnusedSuccessors(g, id))
  {
  }

  predicate IsUnused(n: Node) {
    n.info.unusedArguments.Some? && n.argumentIndex in n.info.unusedArguments.value
  }

  /** Records the node's argument as unused in its method's info. */
  function SetUnused(n: Node): (r: Node)
    ensures IsUnused(r)
    ensures r.info.isInstance == n.info.isInstance
    ensures r.info.nullableArguments == n.info.nullableArguments
    ensures forall i :: IsUnused(n.(argumentIndex := i)) ==> IsUnused(r.(argumentIndex := i))
    ensures r.argumentIndex == n.argumentIndex && r.successors == n.successors
    ensures r.predecessors == n.predecessors && r.unoptimizable == n.unoptimizable
  {
    var unused := match n.info.unusedArguments
      case Some(s) => s + {n.argumentIndex}
      case None => {n.argumentIndex};
    n.(info := n.info.(unusedArguments := Some(unused)))
  }

  function SetUnoptimizable(n: Node): (r: Node)
    ensures r.unoptimizable
    ensures r.(unoptimizable := n.unoptimizable) == n
  {
    n.(unoptimizable := true)
  }

  /** `a.addSuccessor(b)`: adds the edge in both directions; adding it again is a no-op. */
  function AddSuccessor(g: Graph, a: NodeId, b: NodeId): (r: Graph)
    requires a in g && b in g && Symmetric(g)
    ensures r.Keys == g.Keys
    ensures b in r[a].successors && a in r[b].predecessors
    ensures forall n :: n in g && n != a && n != b ==> r[n] == g[n]
  {
    if b !in g[a].successors then
      var g1 := g[a := g[a].(successors := g[a].successors + {b})];
      g1[b := g1[b].(predecessors := g1[b].predecessors + {a})]
    else
      g
  }

  lemma AddSuccessorKeepsSymmetryAndIsIdempotent(g: Graph, a: NodeId, b: NodeId)
    requires a in g && b in g && Symmetric(g)
    ensures Symmetric(AddSuccessor(g, a, b))
    ensures AddSuccessor(AddSuccessor(g, a, b), a, b) == AddSuccessor(g, a, b)
  {
    var r := AddSuccessor(g, a, b);
    forall x, y | x in r && y in r
      ensures y in r[x].successors <==> x in r[y].predecessors
    {
      assert y in r[x].successors <==> y in g[x].successors || (x == a && y == b);
      assert x in r[y].predecessors <==> x in g[y].predecessors || (x == a && y == b);
    }
  }

  /** `n.clearSuccessors()`: every successor forgets n as a predecessor, then n forgets
      all its successors. */
  function ClearSuccessors(g: Graph, id: NodeId): (r: Graph)
    requires id in g && Closed(g) && Symmetric(g)
    ensures r.Keys == g.Keys
    ensures r[id].successors == {}
    ensures forall s :: s in g[id].successors ==> id !in r[s].predecessors
  {
    var succs := g[id].successors;
    var g1 := map n | n in g ::
      if n in succs then g[n].(predecessors := g[n].predecessors - {id}) else g[n];
    g1[id := g1[id].(successors := {})]
  }

  /** `n.clearPredecessors()`: the mirror image of `clearSuccessors`. */
  function ClearPredecessors(g: Graph, id: NodeId): (r: Graph)
    requires id in g && Closed(g) && Symmetric(g)
    ensures r.Keys == g.Keys
    ensures r[id].predecessors == {}
    ensures forall p :: p in g[id].predecessors ==> id !in r[p].successors
  {
    var preds := g[id].predecessors;
    var g1 := map n | n in g ::
      if n in preds then g[n].(successors := g[n].successors - {id}) else g[n];
    g1[id := g1[id].(predecessors := {})]
  }

  /** Clearing either direction keeps the graph closed and symmetric, and drops only the
      edges that touch the cleared node. */
  lemma ClearSuccessorsKeepsInvariants(g: Graph, id: NodeId)
    requires id in g && Closed(g) && Symmetric(g)
    ensures Closed(ClearSuccessors(g, id)) && Symmetric(ClearSuccessors(g, id))
    ensures forall a, b :: a in g && b in g ==>
      (b in ClearSuccessors(g, id)[a].successors <==> b in g[a].successors && a != id)
  {
    var r := ClearSuccessors(g, id);
    forall a, b | a in g && b in g
      ensures b in r[a].successors <==> b in g[a].successors && a != id
      ensures a in r[b].predecessors <==> a in g[b].predecessors && a != id
    {
    }
  }

  lemma ClearPredecessorsKeepsInvariants(g: Graph, id: NodeId)
    requires id in g && Closed(g) && Symmetric(g)
    ensures Closed(ClearPredecessors(g, id)) && Symmetric(ClearPredecessors(g, id))
    ensures forall a, b :: a in g && b in g ==>
      (a in ClearPredecessors(g, id)[b].predecessors <==> a in g[b].predecessors && b != id)
  {
    var r := ClearPredecessors(g, id);
    forall a, b | a in g && b in g
      ensures b in r[a].successors <==> b in g[a].successors && b != id
      ensures a in r[b].predecessors <==> a in g[b].predecessors && b != id
    {
    }
  }

  function CleanForRemoval(g: Graph, id: NodeId): (r: Graph)
    requires id in g && Closed(g) && Symmetric(g)
    ensures r.Keys == g.Keys
  {
    ClearSuccessorsKeepsInvariants(g, id);
    ClearPredecessors(ClearSuccessors(g, id), id)
  }

  /** After `cleanForRemoval` no node has an edge to or from the cleaned node. */
  lemma CleanForRemovalIsolatesNode(g: Graph, id: NodeId)
    requires id in g && Closed(g) && Symmetric(g)
    ensures CleanForRemoval(g, id)[id].successors == {}
    ensures CleanForRemoval(g, id)[id].predecessors == {}
    ensures Closed(CleanForRemoval(g, id)) && Symmetric(CleanForRemoval(g, id))
    ensures forall n :: n in g ==>
      id !in CleanForRemoval(g, id)[n].successors && id !in CleanForRemoval(g, id)[n].predecessors
  {
    var g1 := ClearSuccessors(g, id);
    ClearSuccessorsKeepsInvariants(g, id);
    ClearPredecessorsKeepsInvariants(g1, id);
    var r := CleanForRemoval(g, id);
  }

  /** `n.removeUnusedSuccessors()`: drops exactly the successors whose argument is unused,
      and removes n from their predecessors. */
  function RemoveUnusedSuccessors(g: Graph, id: NodeId): (r: Graph)
    requires id in g && Closed(g) && Symmetric(g)
    ensures r.Keys == g.Keys
    ensures forall s :: s in g[id].successors ==>
      (s in r[id].successors <==> !IsUnused(g[s]))
    ensures r[id].successors <= g[id].successors
  {
    var unused := set s | s in g[id].successors && IsUnused(g[s]);
    var g1 := map n | n in g ::
      if n in unused then g[n].(predecessors := g[n].predecessors - {id}) else g[n];
    g1[id := g1[id].(successors := g[id].successors - unused)]
  }

  lemma RemoveUnusedSuccessorsKeepsSymmetry(g: Graph, id: NodeId)
    requires id in g && Closed(g) && Symmetric(g)
    ensures Symmetric(RemoveUnusedSuccessors(g, id))
    ensures forall n :: n in g && n != id ==>
      RemoveUnusedSuccessors(g, id)[n].successors == g[n].successors
  {
    var r := RemoveUnusedSuccessors(g, id);
    forall a, b | a in g && b in g
      ensures b in r[a].successors <==> a in r[b].predecessors
    {
    }
  }
}
