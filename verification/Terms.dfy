/** Terms, the equational theory of the sound rewrite rules, and a normal form that decides it.

A term is what a graph node stands for once its inputs are unfolded.  The theory has congruence,
commutativity of the symmetric two-argument symbols and elimination of the unary identity symbols:
the rule set shared by the equality-saturation engine and the incremental reducer. */
module Terms {

  datatype Term<S> = App(sym: S, args: seq<Term<S>>)

  /** Which symbols commute (at two arguments) and which are identities (at one). */
  datatype Theory<!S> = Theory(symmetric: S -> bool, identity: S -> bool)

  /** Derivations of equations. */
  datatype Proof<S> =
    | Refl
    | Symm(p: Proof<S>)
    | Trans(p1: Proof<S>, mid: Term<S>, p2: Proof<S>)
    | Cong(ps: seq<Proof<S>>)
    | Commute
    | Identity

  ghost predicate Proves<S>(th: Theory<S>, p: Proof<S>, s: Term<S>, t: Term<S>)
    decreases p
  {
    match p
    case Refl => s == t
    case Symm(q) => Proves(th, q, t, s)
    case Trans(q, mid, r) => Proves(th, q, s, mid) && Proves(th, r, mid, t)
    case Cong(ps) =>
      && s.sym == t.sym
      && |s.args| == |t.args| == |ps|
      && forall i :: 0 <= i < |ps| ==> Proves(th, ps[i], s.args[i], t.args[i])
    case Commute => th.symmetric(s.sym) && |s.args| == 2 && t == App(s.sym, [s.args[1], s.args[0]])
    case Identity => th.identity(s.sym) && |s.args| == 1 && t == s.args[0]
  }

  ghost predicate Provable<S(!new)>(th: Theory<S>, s: Term<S>, t: Term<S>) {
    exists p :: Proves(th, p, s, t)
  }

  // ---- normal forms ----

  datatype NTerm<S(==)> = Plain(sym: S, args: seq<NTerm<S>>) | Unordered(sym: S, pair: multiset<NTerm<S>>)

  /** The normal form of `sym` applied to arguments already in normal form. */
  ghost function Combine<S>(th: Theory<S>, sym: S, nfs: seq<NTerm<S>>): NTerm<S> {
    if th.identity(sym) && |nfs| == 1 then nfs[0]
    else if th.symmetric(sym) && |nfs| == 2 then Unordered(sym, multiset{nfs[0], nfs[1]})
    else Plain(sym, nfs)
  }

  ghost function NormalForm<S>(th: Theory<S>, t: Term<S>): NTerm<S>
    decreases t
  {
    Combine(th, t.sym, NormalForms(th, t.args))
  }

  ghost function NormalForms<S>(th: Theory<S>, ts: seq<Term<S>>): (nfs: seq<NTerm<S>>)
    ensures |nfs| == |ts|
    ensures forall i :: 0 <= i < |ts| ==> nfs[i] == NormalForm(th, ts[i])
    decreases ts
  {
    seq(|ts|, i requires 0 <= i < |ts| => NormalForm(th, ts[i]))
  }

  /** Rules only ever equate terms with one normal form. */
  lemma {:induction false} NormalFormInvariant<S>(th: Theory<S>, p: Proof<S>, s: Term<S>, t: Term<S>)
    requires Proves(th, p, s, t)
    ensures NormalForm(th, s) == NormalForm(th, t)
    decreases p
  {
    match p
    case Refl =>
    case Symm(q) => NormalFormInvariant(th, q, t, s);
    case Trans(q, mid, r) =>
      NormalFormInvariant(th, q, s, mid);
      NormalFormInvariant(th, r, mid, t);
    case Cong(ps) =>
      forall i | 0 <= i < |ps|
        ensures NormalForm(th, s.args[i]) == NormalForm(th, t.args[i])
      {
        NormalFormInvariant(th, ps[i], s.args[i], t.args[i]);
      }
      assert NormalForms(th, s.args) == NormalForms(th, t.args);
    case Commute =>
      if th.identity(s.sym) && |s.args| == 1 {
      } else {
        var a, b := NormalForm(th, s.args[0]), NormalForm(th, s.args[1]);
        assert multiset{a, b} == multiset{b, a};
      }
    case Identity =>
  }

  lemma PairsEqual<T>(a: T, b: T, c: T, d: T)
    requires multiset{a, b} == multiset{c, d}
    ensures (a == c && b == d) || (a == d && b == c)
  {
    assert a in multiset{c, d};
    if a == c {
      assert multiset{a, b} - multiset{a} == multiset{c, d} - multiset{c};
      assert multiset{b} == multiset{d};
      assert b in multiset{d};
    } else {
      assert a == d;
      assert multiset{a, b} - multiset{a} == multiset{c, d} - multiset{d};
      assert multiset{b} == multiset{c};
      assert b in multiset{c};
    }
  }

  ghost function ProofOf<S(!new)>(th: Theory<S>, s: Term<S>, t: Term<S>): (p: Proof<S>)
    requires Provable(th, s, t)
    ensures Proves(th, p, s, t)
  {
    var p :| Proves(th, p, s, t);
    p
  }

  lemma ProvableTrans<S(!new)>(th: Theory<S>, s: Term<S>, m: Term<S>, t: Term<S>)
    requires Provable(th, s, m) && Provable(th, m, t)
    ensures Provable(th, s, t)
  {
    assert Proves(th, Trans(ProofOf(th, s, m), m, ProofOf(th, m, t)), s, t);
  }

  lemma ProvableSymm<S(!new)>(th: Theory<S>, s: Term<S>, t: Term<S>)
    requires Provable(th, s, t)
    ensures Provable(th, t, s)
  {
    assert Proves(th, Symm(ProofOf(th, s, t)), t, s);
  }

  lemma ProvableCong<S(!new)>(th: Theory<S>, s: Term<S>, t: Term<S>)
    requires s.sym == t.sym && |s.args| == |t.args|
    requires forall i :: 0 <= i < |s.args| ==> Provable(th, s.args[i], t.args[i])
    ensures Provable(th, s, t)
  {
    var ps := seq(|s.args|, i requires 0 <= i < |s.args| => ProofOf(th, s.args[i], t.args[i]));
    assert Proves(th, Cong(ps), s, t);
  }

  /** Terms with one normal form are provably equal. */
  lemma {:induction false} EqualFormsProvable<S(!new)>(th: Theory<S>, s: Term<S>, t: Term<S>)
    requires NormalForm(th, s) == NormalForm(th, t)
    ensures Provable(th, s, t)
    decreases s, t
  {
    if th.identity(s.sym) && |s.args| == 1 {
      EqualFormsProvable(th, s.args[0], t);
      assert Proves(th, Identity, s, s.args[0]);
      ProvableTrans(th, s, s.args[0], t);
    } else if th.identity(t.sym) && |t.args| == 1 {
      EqualFormsProvable(th, s, t.args[0]);
      assert Proves(th, Identity, t, t.args[0]);
      ProvableSymm(th, t, t.args[0]);
      ProvableTrans(th, s, t.args[0], t);
    } else if th.symmetric(s.sym) && |s.args| == 2 {
      UnorderedProvable(th, s, t);
    } else {
      assert NormalForms(th, s.args) == NormalForms(th, t.args);
      forall i | 0 <= i < |s.args|
        ensures Provable(th, s.args[i], t.args[i])
      {
        assert NormalForms(th, s.args)[i] == NormalForms(th, t.args)[i];
        EqualFormsProvable(th, s.args[i], t.args[i]);
      }
      ProvableCong(th, s, t);
    }
  }

  /** Two-argument terms of one symmetric symbol are provably equal if their arguments are, either way. */
  lemma PairProvable<S(!new)>(th: Theory<S>, s: Term<S>, t: Term<S>, crossed: bool)
    requires th.symmetric(s.sym) && s.sym == t.sym && |s.args| == |t.args| == 2
    requires Provable(th, s.args[0], t.args[if crossed then 1 else 0])
    requires Provable(th, s.args[1], t.args[if crossed then 0 else 1])
    ensures Provable(th, s, t)
  {
    if crossed {
      var swapped := App(s.sym, [s.args[1], s.args[0]]);
      assert Proves(th, Commute, s, swapped);
      ProvableCong(th, swapped, t);
      ProvableTrans(th, s, swapped, t);
    } else {
      ProvableCong(th, s, t);
    }
  }

  lemma {:induction false} UnorderedProvable<S(!new)>(th: Theory<S>, s: Term<S>, t: Term<S>)
    requires NormalForm(th, s) == NormalForm(th, t)
    requires th.symmetric(s.sym) && |s.args| == 2 && !(th.identity(s.sym) && |s.args| == 1)
    requires !(th.identity(t.sym) && |t.args| == 1)
    ensures Provable(th, s, t)
    decreases s, t, 0
  {
    UnorderedForm(th, s);
    assert |t.args| == 2 && t.sym == s.sym && th.symmetric(t.sym);
    UnorderedForm(th, t);
    var a, b, c, d := s.args[0], s.args[1], t.args[0], t.args[1];
    PairsEqual(NormalForm(th, a), NormalForm(th, b), NormalForm(th, c), NormalForm(th, d));
    var crossed := NormalForm(th, a) != NormalForm(th, c) || NormalForm(th, b) != NormalForm(th, d);
    EqualFormsProvable(th, a, if crossed then d else c);
    EqualFormsProvable(th, b, if crossed then c else d);
    PairProvable(th, s, t, crossed);
  }

  lemma UnorderedForm<S>(th: Theory<S>, s: Term<S>)
    requires th.symmetric(s.sym) && |s.args| == 2
    ensures NormalForm(th, s) == Unordered(s.sym, multiset{NormalForm(th, s.args[0]), NormalForm(th, s.args[1])})
  {
  }

  /** The normal form decides the equational theory. */
  lemma NormalFormDecides<S(!new)>(th: Theory<S>, s: Term<S>, t: Term<S>)
    ensures Provable(th, s, t) <==> NormalForm(th, s) == NormalForm(th, t)
  {
    if Provable(th, s, t) {
      NormalFormInvariant(th, ProofOf(th, s, t), s, t);
    }
    if NormalForm(th, s) == NormalForm(th, t) {
      EqualFormsProvable(th, s, t);
    }
  }

  // ---- algebras ----

  type Algebra<!S, !V> = (S, seq<V>) -> V

  ghost function Value<S, V>(alg: Algebra<S, V>, t: Term<S>): V
    decreases t
  {
    alg(t.sym, Values(alg, t.args))
  }

  ghost function Values<S, V>(alg: Algebra<S, V>, ts: seq<Term<S>>): (vs: seq<V>)
    ensures |vs| == |ts|
    ensures forall i :: 0 <= i < |ts| ==> vs[i] == Value(alg, ts[i])
    decreases ts
  {
    seq(|ts|, i requires 0 <= i < |ts| => Value(alg, ts[i]))
  }

  /** The algebra satisfies the commutativity and identity laws. */
  ghost predicate Lawful<S(!new), V(!new)>(th: Theory<S>, alg: Algebra<S, V>) {
    && (forall s, x, y :: th.symmetric(s) ==> alg(s, [x, y]) == alg(s, [y, x]))
    && (forall s, x :: th.identity(s) ==> alg(s, [x]) == x)
  }

  /** Provably equal terms have equal values in every lawful algebra. */
  lemma {:induction false} ProofSound<S(!new), V(!new)>(
      th: Theory<S>, alg: Algebra<S, V>, p: Proof<S>, s: Term<S>, t: Term<S>)
    requires Lawful(th, alg)
    requires Proves(th, p, s, t)
    ensures Value(alg, s) == Value(alg, t)
    decreases p
  {
    match p
    case Refl =>
    case Symm(q) => ProofSound(th, alg, q, t, s);
    case Trans(q, mid, r) =>
      ProofSound(th, alg, q, s, mid);
      ProofSound(th, alg, r, mid, t);
    case Cong(ps) =>
      forall i | 0 <= i < |ps|
        ensures Value(alg, s.args[i]) == Value(alg, t.args[i])
      {
        ProofSound(th, alg, ps[i], s.args[i], t.args[i]);
      }
      assert Values(alg, s.args) == Values(alg, t.args);
    case Commute =>
      var x, y := Value(alg, s.args[0]), Value(alg, s.args[1]);
      assert Values(alg, s.args) == [x, y];
      assert Values(alg, t.args) == [y, x];
    case Identity =>
      assert Values(alg, s.args) == [Value(alg, s.args[0])];
  }
}
