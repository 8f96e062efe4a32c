/** Graphs as lists of cells, a cell being a symbol with the positions of its inputs.

Every graph of the optimizer (the recorded arena, the engine's view, the canonical arena) is such a
list; unfolding a position gives the term it stands for. */
module Cells {
  import opened Selection
  import opened Terms

  datatype Cell<S> = Cell(sym: S, inputs: seq<nat>)

  /** Inputs precede the cells that use them. */
  ghost predicate Topological<S>(g: seq<Cell<S>>) {
    forall i :: 0 <= i < |g| ==> AllBelow(g[i].inputs, i)
  }

  ghost function Unfold<S>(g: seq<Cell<S>>, i: nat): Term<S>
    requires Topological(g) && i < |g|
    decreases i, 1
  {
    App(g[i].sym, UnfoldAll(g, g[i].inputs, i))
  }

  ghost function UnfoldAll<S>(g: seq<Cell<S>>, xs: seq<nat>, bound: nat): (ts: seq<Term<S>>)
    requires Topological(g) && AllBelow(xs, bound) && bound <= |g|
    ensures |ts| == |xs|
    ensures forall k :: 0 <= k < |xs| ==> ts[k] == Unfold(g, xs[k])
    decreases bound, 0
  {
    seq(|xs|, k requires 0 <= k < |xs| => Unfold(g, xs[k]))
  }

  /** The normal form of the term at a position. */
  ghost function Form<S>(th: Theory<S>, g: seq<Cell<S>>, i: nat): NTerm<S>
    requires Topological(g) && i < |g|
  {
    NormalForm(th, Unfold(g, i))
  }

  ghost function Forms<S>(th: Theory<S>, g: seq<Cell<S>>, xs: seq<nat>): (nfs: seq<NTerm<S>>)
    requires Topological(g) && AllBelow(xs, |g|)
    ensures |nfs| == |xs|
    ensures forall k :: 0 <= k < |xs| ==> nfs[k] == Form(th, g, xs[k])
  {
    seq(|xs|, k requires 0 <= k < |xs| => Form(th, g, xs[k]))
  }

  /** The normal form of a cell is determined by its symbol and its inputs' normal forms. */
  lemma FormStep<S>(th: Theory<S>, g: seq<Cell<S>>, i: nat)
    requires Topological(g) && i < |g|
    ensures AllBelow(g[i].inputs, |g|)
    ensures Form(th, g, i) == Combine(th, g[i].sym, Forms(th, g, g[i].inputs))
  {
    assert NormalForms(th, UnfoldAll(g, g[i].inputs, i)) == Forms(th, g, g[i].inputs);
  }

  // ---- renumbered copies ----

  /** `g'` holds, at `f[i]`, the cell of `g` at every position `i` of the mask, with its inputs
      renumbered by `f`. */
  ghost predicate Embeds<S>(g: seq<Cell<S>>, g': seq<Cell<S>>, mask: seq<bool>, f: seq<nat>)
    requires Topological(g)
  {
    && |mask| == |f| == |g|
    && (forall i :: 0 <= i < |g| && mask[i] ==> f[i] < |g'|)
    && (forall i, k :: 0 <= i < |g| && mask[i] && 0 <= k < |g[i].inputs| ==> mask[g[i].inputs[k]])
    && (forall i :: 0 <= i < |g| && mask[i] ==> g'[f[i]] == Cell(g[i].sym, Renumber(f, g[i].inputs)))
  }

  /** A renumbered copy stands for the same terms. */
  lemma {:induction false} EmbedsTerms<S>(g: seq<Cell<S>>, g': seq<Cell<S>>, mask: seq<bool>, f: seq<nat>, i: nat)
    requires Topological(g) && Topological(g') && Embeds(g, g', mask, f)
    requires i < |g| && mask[i]
    ensures Unfold(g', f[i]) == Unfold(g, i)
    decreases i
  {
    var xs := g[i].inputs;
    forall k | 0 <= k < |xs|
      ensures Unfold(g', f[xs[k]]) == Unfold(g, xs[k])
    {
      EmbedsTerms(g, g', mask, f, xs[k]);
    }
    assert UnfoldAll(g', g'[f[i]].inputs, f[i]) == UnfoldAll(g, xs, i);
  }

  /** Appending cells leaves the earlier terms alone. */
  lemma {:induction false} PrefixTerms<S>(g: seq<Cell<S>>, g': seq<Cell<S>>, i: nat)
    requires Topological(g) && Topological(g') && g <= g'
    requires i < |g|
    ensures Unfold(g', i) == Unfold(g, i)
    decreases i
  {
    var xs := g[i].inputs;
    forall k | 0 <= k < |xs|
      ensures Unfold(g', xs[k]) == Unfold(g, xs[k])
    {
      PrefixTerms(g, g', xs[k]);
    }
    assert UnfoldAll(g', xs, i) == UnfoldAll(g, xs, i);
  }

  /** Cells with one symbol over the same terms stand for the same term, whatever their graphs. */
  lemma SameCellTerm<S>(g: seq<Cell<S>>, i: nat, h: seq<Cell<S>>, j: nat)
    requires Topological(g) && Topological(h) && i < |g| && j < |h|
    requires AllBelow(g[i].inputs, i) && AllBelow(h[j].inputs, j)
    requires g[i].sym == h[j].sym && |g[i].inputs| == |h[j].inputs|
    requires forall k :: 0 <= k < |g[i].inputs| ==> Unfold(g, g[i].inputs[k]) == Unfold(h, h[j].inputs[k])
    ensures Unfold(g, i) == Unfold(h, j)
  {
    assert UnfoldAll(g, g[i].inputs, i) == UnfoldAll(h, h[j].inputs, j);
  }

  // ---- hash-consed graphs ----

  /** No two positions hold the same cell. */
  ghost predicate HashConsed<S>(g: seq<Cell<S>>) {
    forall i, j :: 0 <= i < j < |g| ==> g[i] != g[j]
  }

  /** In a hash-consed graph the term determines the position. */
  lemma {:induction false} HashConsedTerms<S>(g: seq<Cell<S>>, i: nat, j: nat)
    requires Topological(g) && HashConsed(g)
    requires i < |g| && j < |g|
    requires Unfold(g, i) == Unfold(g, j)
    ensures i == j
    decreases i
  {
    var xs, ys := g[i].inputs, g[j].inputs;
    assert |UnfoldAll(g, xs, i)| == |UnfoldAll(g, ys, j)|;
    forall k | 0 <= k < |xs|
      ensures xs[k] == ys[k]
    {
      assert UnfoldAll(g, xs, i)[k] == UnfoldAll(g, ys, j)[k];
      HashConsedTerms(g, xs[k], ys[k]);
    }
    assert xs == ys;
    assert g[i] == g[j];
  }

  /** The terms of the first `n` positions. */
  ghost function TermsTo<S>(g: seq<Cell<S>>, n: nat): set<Term<S>>
    requires Topological(g) && n <= |g|
  {
    if n == 0 then {} else TermsTo(g, n - 1) + {Unfold(g, n - 1)}
  }

  lemma {:induction false} TermsToFrom<S>(g: seq<Cell<S>>, n: nat, t: Term<S>) returns (c: nat)
    requires Topological(g) && n <= |g| && t in TermsTo(g, n)
    ensures c < n && Unfold(g, c) == t
  {
    if t == Unfold(g, n - 1) {
      c := n - 1;
    } else {
      c := TermsToFrom(g, n - 1, t);
    }
  }

  lemma {:induction false} TermsToHas<S>(g: seq<Cell<S>>, n: nat, c: nat)
    requires Topological(g) && c < n <= |g|
    ensures Unfold(g, c) in TermsTo(g, n)
  {
    if c < n - 1 {
      TermsToHas(g, n - 1, c);
    }
  }

  /** A hash-consed graph has as many terms as positions. */
  lemma {:induction false} TermsCount<S>(g: seq<Cell<S>>, n: nat)
    requires Topological(g) && HashConsed(g) && n <= |g|
    ensures |TermsTo(g, n)| == n
  {
    if n > 0 {
      TermsCount(g, n - 1);
      NewTerm(g, n - 1);
    }
  }

  lemma NewTerm<S>(g: seq<Cell<S>>, n: nat)
    requires Topological(g) && HashConsed(g) && n < |g|
    ensures Unfold(g, n) !in TermsTo(g, n)
  {
    if Unfold(g, n) in TermsTo(g, n) {
      var c := TermsToFrom(g, n, Unfold(g, n));
      HashConsedTerms(g, c, n);
    }
  }

  /** Distinct terms make a hash-consed graph. */
  lemma DistinctTermsHashConsed<S>(g: seq<Cell<S>>)
    requires Topological(g)
    requires forall i, j :: 0 <= i < j < |g| ==> Unfold(g, i) != Unfold(g, j)
    ensures HashConsed(g)
  {
    forall i, j | 0 <= i < j < |g|
      ensures g[i] != g[j]
    {
      if g[i] == g[j] {
        assert UnfoldAll(g, g[i].inputs, i) == UnfoldAll(g, g[j].inputs, j);
        assert Unfold(g, i) == Unfold(g, j);
      }
    }
  }

  // ---- quotients ----

  /** The cell kept for class representatives: inputs renumbered to their classes' new positions. */
  ghost function Requotient<S, C>(g: seq<Cell<S>>, classes: seq<C>): (g': seq<Cell<S>>)
    requires Topological(g) && |classes| == |g|
    ensures |g'| == |g|
  {
    seq(|g|, i requires 0 <= i < |g| => Cell(g[i].sym, Renumber(NewIndex(classes), g[i].inputs)))
  }

  /** The earliest cell of every class, in order. */
  ghost function Quotient<S, C>(g: seq<Cell<S>>, classes: seq<C>): (g': seq<Cell<S>>)
    requires Topological(g) && |classes| == |g|
  {
    Select(Requotient(g, classes), RepMask(classes))
  }

  /** Keeping the earliest member of each class never meets an input whose class is not emitted yet,
      whatever the classes are. */
  lemma QuotientTopological<S, C>(g: seq<Cell<S>>, classes: seq<C>)
    requires Topological(g) && |classes| == |g|
    ensures Topological(Quotient(g, classes))
    ensures AllBelow(NewIndex(classes), |Quotient(g, classes)|)
  {
    var mask, f, g' := RepMask(classes), NewIndex(classes), Quotient(g, classes);
    forall i | 0 <= i < |g|
      ensures f[i] < |g'|
    {
      NewIndexFaithful(classes, i, i);
    }
    forall p, k | 0 <= p < |g'| && 0 <= k < |g'[p].inputs|
      ensures g'[p].inputs[k] < p
    {
      SelectOrigin(Requotient(g, classes), mask, p);
      var i := Origin(mask, p);
      var x := g[i].inputs[k];
      RankMonotone(mask, Rep(classes, x), i);
      RepIdempotent(classes, x);
    }
  }

  /** Where a position lands: the cell of its class's earliest member, renumbered. */
  lemma QuotientAt<S, C>(g: seq<Cell<S>>, classes: seq<C>, i: nat)
    requires Topological(g) && |classes| == |g| && i < |g|
    ensures NewIndex(classes)[i] < |Quotient(g, classes)|
    ensures Quotient(g, classes)[NewIndex(classes)[i]]
         == Cell(g[Rep(classes, i)].sym, Renumber(NewIndex(classes), g[Rep(classes, i)].inputs))
  {
    RepIdempotent(classes, i);
    SelectAt(Requotient(g, classes), RepMask(classes), Rep(classes, i));
  }

  /** Classes that only join provably equal terms preserve every term up to provable equality. */
  lemma {:induction false} QuotientForms<S, C>(th: Theory<S>, g: seq<Cell<S>>, classes: seq<C>, i: nat)
    requires Topological(g) && |classes| == |g| && i < |g|
    requires forall a, b :: 0 <= a < |g| && 0 <= b < |g| && classes[a] == classes[b] ==> Form(th, g, a) == Form(th, g, b)
    requires Topological(Quotient(g, classes)) && NewIndex(classes)[i] < |Quotient(g, classes)|
    ensures Form(th, Quotient(g, classes), NewIndex(classes)[i]) == Form(th, g, i)
    decreases i
  {
    var f, g', r := NewIndex(classes), Quotient(g, classes), Rep(classes, i);
    QuotientAt(g, classes, i);
    RepFacts(classes, i);
    var xs := g[r].inputs;
    forall k | 0 <= k < |xs|
      ensures f[xs[k]] < |g'| && Form(th, g', f[xs[k]]) == Form(th, g, xs[k])
    {
      QuotientAt(g, classes, xs[k]);
      QuotientForms(th, g, classes, xs[k]);
    }
    FormStep(th, g', f[i]);
    FormStep(th, g, r);
    assert Forms(th, g', g'[f[i]].inputs) == Forms(th, g, xs);
  }

  /** Classes that only join equal terms preserve every term exactly. */
  lemma {:induction false} QuotientTerms<S, C>(g: seq<Cell<S>>, classes: seq<C>, i: nat)
    requires Topological(g) && |classes| == |g| && i < |g|
    requires forall a, b :: 0 <= a < |g| && 0 <= b < |g| && classes[a] == classes[b] ==> Unfold(g, a) == Unfold(g, b)
    requires Topological(Quotient(g, classes)) && NewIndex(classes)[i] < |Quotient(g, classes)|
    ensures Unfold(Quotient(g, classes), NewIndex(classes)[i]) == Unfold(g, i)
    decreases i
  {
    var f, g', r := NewIndex(classes), Quotient(g, classes), Rep(classes, i);
    QuotientAt(g, classes, i);
    RepFacts(classes, i);
    var xs := g[r].inputs;
    forall k | 0 <= k < |xs|
      ensures f[xs[k]] < |g'| && Unfold(g', f[xs[k]]) == Unfold(g, xs[k])
    {
      QuotientAt(g, classes, xs[k]);
      QuotientTerms(g, classes, xs[k]);
    }
    assert UnfoldAll(g', g'[f[i]].inputs, f[i]) == UnfoldAll(g, xs, r);
  }

  /** If all classes are distinct the quotient is the graph itself. */
  lemma QuotientIdentity<S, C>(g: seq<Cell<S>>, classes: seq<C>)
    requires Topological(g) && |classes| == |g|
    requires forall i, j :: 0 <= i < j < |g| ==> classes[i] != classes[j]
    ensures forall i :: 0 <= i < |g| ==> NewIndex(classes)[i] == i && RepMask(classes)[i]
    ensures Quotient(g, classes) == g
  {
    var mask := RepMask(classes);
    forall i | 0 <= i < |g|
      ensures Rep(classes, i) == i
    {
      RepFacts(classes, i);
    }
    SelectAll(Requotient(g, classes), mask, |g|);
    forall i | 0 <= i < |g|
      ensures NewIndex(classes)[i] == i
    {
      SelectAll(Requotient(g, classes), mask, i);
    }
    forall i | 0 <= i < |g|
      ensures Requotient(g, classes)[i] == g[i]
    {
      assert Renumber(NewIndex(classes), g[i].inputs) == g[i].inputs;
    }
    assert Requotient(g, classes) == g;
  }
}
