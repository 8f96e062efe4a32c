/** Lists of node keys as graphs: topological arenas and the terms their positions stand for. */
module Arena {
  import opened Selection
  import opened Terms
  import opened Cells
  import opened Node
  import Engine

  /** Every node refers only to earlier nodes. */
  ghost predicate TopologicalKeys(nodes: seq<NodeKey>) {
    forall i :: 0 <= i < |nodes| ==> AllBelow(nodes[i].Inputs(), i)
  }

  /** A symbol for every node: its operator, or its operator token. */
  ghost predicate InputBlind<S>(sym: NodeKey -> S) {
    forall k: NodeKey, xs: seq<NodeId> :: sym(k.WithInputs(xs)) == sym(k)
  }

  ghost function CellsBy<S>(sym: NodeKey -> S, nodes: seq<NodeKey>): (cells: seq<Cell<S>>)
    ensures |cells| == |nodes|
    ensures forall i :: 0 <= i < |nodes| ==> cells[i] == Cell(sym(nodes[i]), nodes[i].Inputs())
    ensures TopologicalKeys(nodes) ==> Topological(cells)
  {
    seq(|nodes|, i requires 0 <= i < |nodes| => Cell(sym(nodes[i]), nodes[i].Inputs()))
  }

  function HeadOf(k: NodeKey): NodeKey { k.Head() }

  function TokenOf(k: NodeKey): string { k.Token() }

  lemma TokenInputBlind()
    ensures InputBlind(TokenOf)
  {
    forall k: NodeKey, xs: seq<NodeId>
      ensures TokenOf(k.WithInputs(xs)) == TokenOf(k)
    {
      TokenOfHead(k, xs);
    }
  }

  // ---- the theory over operators ----

  predicate SymmetricHead(k: NodeKey) {
    k.Op? && k.params == [] && k.name in Engine.SYMMETRIC_OPS
  }

  predicate IsIdentity(k: NodeKey) {
    k.Op? && Engine.IdentityToken(k.Token())
  }

  ghost function HeadTheory(): Theory<NodeKey> {
    Theory(SymmetricHead, IsIdentity)
  }

  lemma SameInputs(k: NodeKey)
    ensures k.WithInputs(k.Inputs()) == k
  {
  }
}
