/** The rewrite-engine boundary: the rule constants, the contract an engine meets, and the extraction
that keeps the earliest node of every equivalence class. */
module Engine {
  import opened Wrappers
  import opened Selection
  import opened Terms
  import opened Cells
  import Node

  datatype EngineNode = EngineNode(token: string, boundary: bool, inputs: seq<nat>)

  datatype EngineGraph = EngineGraph(nodes: seq<EngineNode>, outputs: seq<nat>)

  function CellOf(n: EngineNode): Cell<string> {
    Cell(n.token, n.inputs)
  }

  ghost function CellsOf(g: EngineGraph): (cells: seq<Cell<string>>)
    ensures |cells| == |g.nodes|
    ensures forall i :: 0 <= i < |g.nodes| ==> cells[i] == Cell(g.nodes[i].token, g.nodes[i].inputs)
  {
    Map(CellOf, g.nodes)
  }

  ghost predicate WellFormed(g: EngineGraph) {
    Topological(CellsOf(g)) && AllBelow(g.outputs, |g.nodes|)
  }

  // ---- the rules ----

  const SYMMETRIC_OPS: seq<string> := ["add", "mul", "and", "or", "eq", "ne", "maximum", "minimum"]

  const IDENTITY_TOKENS: seq<string> := [
    "op|add|scalar=f0000000000000000;side=sr",
    "op|add|scalar=f0000000000000000;side=sl",
    "op|mul|scalar=f3ff0000000000000;side=sr",
    "op|mul|scalar=f3ff0000000000000;side=sl"]

  /** The commute rules match the bare operator token, with two arguments. */
  predicate SymmetricToken(token: string) {
    "op|" <= token && token[3..] in SYMMETRIC_OPS
  }

  /** The identity rules match the whole token, with one argument. */
  predicate IdentityToken(token: string) {
    token in IDENTITY_TOKENS
  }

  ghost function TokenTheory(): Theory<string> {
    Theory(SymmetricToken, IdentityToken)
  }

  // ---- the contract ----

  /** An engine is what it decides: for every graph, which nodes are equivalent. */
  type RewriteEngine = EngineGraph -> seq<nat>

  /** The engine names a class for every node, and joins only provably equal nodes. */
  ghost predicate SoundEngine(engine: RewriteEngine) {
    forall g :: WellFormed(g) ==> |engine(g)| == |g.nodes| && SoundClasses(g, engine(g))
  }

  ghost predicate SoundClasses(g: EngineGraph, classes: seq<nat>)
    requires WellFormed(g) && |classes| == |g.nodes|
  {
    forall i, j :: 0 <= i < |classes| && 0 <= j < |classes| && classes[i] == classes[j] ==>
      Provable(TokenTheory(), Unfold(CellsOf(g), i), Unfold(CellsOf(g), j))
  }

  /** The engine also joins every provably equal pair: saturation was reached. */
  ghost predicate SaturatedEngine(engine: RewriteEngine) {
    forall g :: WellFormed(g) ==> |engine(g)| == |g.nodes| && SaturatedClasses(g, engine(g))
  }

  ghost predicate SaturatedClasses(g: EngineGraph, classes: seq<nat>)
    requires WellFormed(g) && |classes| == |g.nodes|
  {
    forall i, j :: 0 <= i < |classes| && 0 <= j < |classes| ==>
      (classes[i] == classes[j] <==> Provable(TokenTheory(), Unfold(CellsOf(g), i), Unfold(CellsOf(g), j)))
  }

  lemma SaturatedIsSound(engine: RewriteEngine)
    requires SaturatedEngine(engine)
    ensures SoundEngine(engine)
  {
  }

  ghost predicate FormClasses(g: EngineGraph, classes: seq<nat>)
    requires WellFormed(g) && |classes| == |g.nodes|
  {
    forall i, j :: 0 <= i < |classes| && 0 <= j < |classes| && classes[i] == classes[j] ==>
      Form(TokenTheory(), CellsOf(g), i) == Form(TokenTheory(), CellsOf(g), j)
  }

  lemma SoundClassesForms(g: EngineGraph, classes: seq<nat>)
    requires WellFormed(g) && |classes| == |g.nodes| && SoundClasses(g, classes)
    ensures FormClasses(g, classes)
  {
    forall i, j | 0 <= i < |classes| && 0 <= j < |classes| && classes[i] == classes[j]
      ensures Form(TokenTheory(), CellsOf(g), i) == Form(TokenTheory(), CellsOf(g), j)
    {
      NormalFormDecides(TokenTheory(), Unfold(CellsOf(g), i), Unfold(CellsOf(g), j));
    }
  }

  lemma SaturatedClassesForms(g: EngineGraph, classes: seq<nat>, i: nat, j: nat)
    requires WellFormed(g) && |classes| == |g.nodes| && SaturatedClasses(g, classes)
    requires i < |classes| && j < |classes|
    ensures classes[i] == classes[j] <==> Form(TokenTheory(), CellsOf(g), i) == Form(TokenTheory(), CellsOf(g), j)
  {
    NormalFormDecides(TokenTheory(), Unfold(CellsOf(g), i), Unfold(CellsOf(g), j));
  }

  /** A saturated engine exists, and saturated engines are sound. */
  ghost function FormEngine(g: EngineGraph): (classes: seq<nat>)
    ensures WellFormed(g) ==> |classes| == |g.nodes|
  {
    if WellFormed(g) then
      var forms := seq(|g.nodes|, i requires 0 <= i < |g.nodes| => Form(TokenTheory(), CellsOf(g), i));
      seq(|g.nodes|, i requires 0 <= i < |g.nodes| => Rep(forms, i))
    else []
  }

  lemma FormEngineSaturated(g: EngineGraph)
    requires WellFormed(g)
    ensures SaturatedClasses(g, FormEngine(g))
  {
    var forms := seq(|g.nodes|, i requires 0 <= i < |g.nodes| => Form(TokenTheory(), CellsOf(g), i));
    forall i, j | 0 <= i < |g.nodes| && 0 <= j < |g.nodes|
      ensures FormEngine(g)[i] == FormEngine(g)[j]
         <==> Provable(TokenTheory(), Unfold(CellsOf(g), i), Unfold(CellsOf(g), j))
    {
      NormalFormDecides(TokenTheory(), Unfold(CellsOf(g), i), Unfold(CellsOf(g), j));
      RepSame(forms, i, j);
    }
  }

  lemma SaturatedEngineExists()
    ensures exists engine: RewriteEngine :: SaturatedEngine(engine)
  {
    forall g | WellFormed(g)
      ensures |FormEngine(g)| == |g.nodes| && SaturatedClasses(g, FormEngine(g))
    {
      FormEngineSaturated(g);
    }
    assert SaturatedEngine(FormEngine);
  }

  // ---- extraction ----

  ghost function RewiredNodes<C>(g: EngineGraph, classes: seq<C>): (nodes: seq<EngineNode>)
    requires WellFormed(g) && |classes| == |g.nodes|
    ensures |nodes| == |g.nodes|
    ensures forall i :: 0 <= i < |nodes| ==> nodes[i] == EngineNode(
      g.nodes[i].token, Node.BoundaryFromToken(g.nodes[i].token), Renumber(NewIndex(classes), CellsOf(g)[i].inputs))
  {
    seq(|g.nodes|, i requires 0 <= i < |g.nodes| => EngineNode(
      g.nodes[i].token, Node.BoundaryFromToken(g.nodes[i].token), Renumber(NewIndex(classes), CellsOf(g)[i].inputs)))
  }

  /** The earliest node of every class, with inputs and outputs renumbered to their classes. */
  ghost function Extract<C>(g: EngineGraph, classes: seq<C>): EngineGraph
    requires WellFormed(g) && |classes| == |g.nodes|
  {
    EngineGraph(Select(RewiredNodes(g, classes), RepMask(classes)), Renumber(NewIndex(classes), g.outputs))
  }

  lemma ExtractCells<C>(g: EngineGraph, classes: seq<C>)
    requires WellFormed(g) && |classes| == |g.nodes|
    ensures CellsOf(Extract(g, classes)) == Quotient(CellsOf(g), classes)
  {
    SelectMap(CellOf, RewiredNodes(g, classes), RepMask(classes), |g.nodes|);
    assert Map(CellOf, RewiredNodes(g, classes)) == Requotient(CellsOf(g), classes);
  }

  /** Extraction is topologically safe for every assignment of classes. */
  lemma ExtractWellFormed<C>(g: EngineGraph, classes: seq<C>)
    requires WellFormed(g) && |classes| == |g.nodes|
    ensures WellFormed(Extract(g, classes))
    ensures AllBelow(NewIndex(classes), |Extract(g, classes).nodes|)
    ensures |Extract(g, classes).nodes| <= |g.nodes|
  {
    ExtractCells(g, classes);
    QuotientTopological(CellsOf(g), classes);
  }

  /** Every extracted node is a node of the input graph over renumbered inputs. */
  lemma ExtractFrom<C>(g: EngineGraph, classes: seq<C>, p: nat) returns (i: nat)
    requires WellFormed(g) && |classes| == |g.nodes| && p < |Extract(g, classes).nodes|
    ensures i < |g.nodes| && Extract(g, classes).nodes[p].token == g.nodes[i].token
    ensures |Extract(g, classes).nodes[p].inputs| == |g.nodes[i].inputs|
    ensures Extract(g, classes).nodes[p].boundary == Node.BoundaryFromToken(g.nodes[i].token)
  {
    i := Origin(RepMask(classes), p);
    SelectOrigin(RewiredNodes(g, classes), RepMask(classes), p);
  }

  /** Under sound classes every node, and so every output, keeps its term up to provable equality. */
  lemma ExtractSound(g: EngineGraph, classes: seq<nat>, i: nat)
    requires WellFormed(g) && |classes| == |g.nodes| && i < |g.nodes|
    requires SoundClasses(g, classes)
    requires WellFormed(Extract(g, classes)) && NewIndex(classes)[i] < |Extract(g, classes).nodes|
    ensures Provable(TokenTheory(), Unfold(CellsOf(Extract(g, classes)), NewIndex(classes)[i]), Unfold(CellsOf(g), i))
  {
    ExtractCells(g, classes);
    SoundClassesForms(g, classes);
    QuotientForms(TokenTheory(), CellsOf(g), classes, i);
    NormalFormDecides(TokenTheory(), Unfold(CellsOf(Extract(g, classes)), NewIndex(classes)[i]), Unfold(CellsOf(g), i));
  }

  /** The first index of every class. */
  method EarliestMembers(classes: seq<nat>) returns (repOfClass: map<nat, nat>)
    ensures forall j :: 0 <= j < |classes| ==> classes[j] in repOfClass && repOfClass[classes[j]] == Rep(classes, j)
  {
    repOfClass := map[];
    for i := 0 to |classes|
      invariant forall j :: 0 <= j < i ==> classes[j] in repOfClass && repOfClass[classes[j]] == Rep(classes, j)
      invariant forall c :: c in repOfClass ==> c in classes[..i]
    {
      if classes[i] !in repOfClass {
        assert forall j :: 0 <= j < i ==> classes[j] != classes[i];
        RepFacts(classes, i);
        repOfClass := repOfClass[classes[i] := i];
      } else {
        var j :| 0 <= j < i && classes[..i][j] == classes[i];
        RepSame(classes, i, j);
      }
    }
  }

  /** Translate indices through their classes' new positions. */
  method Translate(xs: seq<nat>, classes: seq<nat>, classToNew: map<nat, nat>) returns (ys: seq<nat>)
    requires AllBelow(xs, |classes|)
    requires forall k :: 0 <= k < |xs| ==>
      classes[xs[k]] in classToNew && classToNew[classes[xs[k]]] == NewIndex(classes)[xs[k]]
    ensures ys == Renumber(NewIndex(classes), xs)
  {
    ys := [];
    for k := 0 to |xs|
      invariant |ys| == k
      invariant forall l :: 0 <= l < k ==> ys[l] == NewIndex(classes)[xs[l]]
    {
      ys := ys + [classToNew[classes[xs[k]]]];
    }
  }

  /** What one index contributes: a new node if it is the earliest of its class, nothing otherwise. */
  lemma EmissionStep<T>(xs: seq<T>, classes: seq<nat>, i: nat)
    requires |xs| == |classes| && i < |classes|
    ensures Rep(classes, i) == i ==>
      && SelectTo(xs, RepMask(classes), i + 1) == SelectTo(xs, RepMask(classes), i) + [xs[i]]
      && NewIndex(classes)[i] == |SelectTo(xs, RepMask(classes), i)|
      && forall j :: 0 <= j < i ==> classes[j] != classes[i]
    ensures Rep(classes, i) != i ==>
      && SelectTo(xs, RepMask(classes), i + 1) == SelectTo(xs, RepMask(classes), i)
      && Rep(classes, i) < i && classes[Rep(classes, i)] == classes[i]
      && NewIndex(classes)[i] == NewIndex(classes)[Rep(classes, i)]
  {
    RepFacts(classes, i);
    RepIdempotent(classes, i);
  }

  /** The classes of the first `i` nodes are translated to their new positions. */
  ghost predicate TranslatedTo(classes: seq<nat>, classToNew: map<nat, nat>, i: nat)
    requires i <= |classes|
  {
    forall j :: 0 <= j < i ==> classes[j] in classToNew && classToNew[classes[j]] == NewIndex(classes)[j]
  }

  method RewireNode(g: EngineGraph, classes: seq<nat>, classToNew: map<nat, nat>, i: nat) returns (node: EngineNode)
    requires WellFormed(g) && |classes| == |g.nodes| && i < |g.nodes|
    requires TranslatedTo(classes, classToNew, i)
    ensures node == RewiredNodes(g, classes)[i]
  {
    assert AllBelow(CellsOf(g)[i].inputs, i);
    var inputs := Translate(g.nodes[i].inputs, classes, classToNew);
    node := EngineNode(g.nodes[i].token, Node.BoundaryFromToken(g.nodes[i].token), inputs);
  }

  lemma EmittedFirst<T>(xs: seq<T>, classes: seq<nat>, classToNew: map<nat, nat>, i: nat)
    requires |xs| == |classes| && i < |classes| && TranslatedTo(classes, classToNew, i) && Rep(classes, i) == i
    ensures var done := SelectTo(xs, RepMask(classes), i);
      && SelectTo(xs, RepMask(classes), i + 1) == done + [xs[i]]
      && TranslatedTo(classes, classToNew[classes[i] := |done|], i + 1)
  {
    EmissionStep(xs, classes, i);
  }

  lemma EmittedAgain<T>(xs: seq<T>, classes: seq<nat>, classToNew: map<nat, nat>, i: nat)
    requires |xs| == |classes| && i < |classes| && TranslatedTo(classes, classToNew, i) && Rep(classes, i) != i
    ensures SelectTo(xs, RepMask(classes), i + 1) == SelectTo(xs, RepMask(classes), i)
    ensures TranslatedTo(classes, classToNew, i + 1)
  {
    EmissionStep(xs, classes, i);
  }

  /** The extraction loop: first the representatives, then one pass that emits them. */
  method Canonicalize(g: EngineGraph, classes: seq<nat>) returns (out: EngineGraph)
    requires WellFormed(g) && |classes| == |g.nodes|
    ensures out == Extract(g, classes)
  {
    ghost var rewired := RewiredNodes(g, classes);
    var repOfClass := EarliestMembers(classes);
    var classToNew: map<nat, nat> := map[];
    var nodes: seq<EngineNode> := [];
    for i := 0 to |g.nodes|
      invariant nodes == SelectTo(rewired, RepMask(classes), i)
      invariant TranslatedTo(classes, classToNew, i)
    {
      if repOfClass[classes[i]] == i {
        EmittedFirst(rewired, classes, classToNew, i);
        var node := RewireNode(g, classes, classToNew, i);
        classToNew := classToNew[classes[i] := |nodes|];
        nodes := nodes + [node];
      } else {
        EmittedAgain(rewired, classes, classToNew, i);
      }
    }
    var outputs := Translate(g.outputs, classes, classToNew);
    out := EngineGraph(nodes, outputs);
  }
}
