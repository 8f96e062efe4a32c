/** Keeping a subset of a list in order.

Dead-code elimination, extraction, hash-consing and stage emission all walk a list once, keep some
of its elements and renumber the rest.  A mask says which positions stay; `Rank` is the new number
of a kept position; `Select` is the compacted list. */
module Selection {
  import opened Wrappers

  /** The number of kept positions before `i`. */
  ghost function Rank(mask: seq<bool>, i: nat): (r: nat)
    requires i <= |mask|
    ensures r <= i
  {
    if i == 0 then 0 else Rank(mask, i - 1) + if mask[i - 1] then 1 else 0
  }

  /** The kept elements among the first `k`, in order. */
  ghost function SelectTo<T>(xs: seq<T>, mask: seq<bool>, k: nat): (r: seq<T>)
    requires k <= |xs| == |mask|
    ensures |r| == Rank(mask, k)
  {
    if k == 0 then [] else SelectTo(xs, mask, k - 1) + if mask[k - 1] then [xs[k - 1]] else []
  }

  ghost function Select<T>(xs: seq<T>, mask: seq<bool>): (r: seq<T>)
    requires |xs| == |mask|
    ensures |r| == Rank(mask, |mask|)
  {
    SelectTo(xs, mask, |xs|)
  }

  lemma {:induction false} RankMonotone(mask: seq<bool>, i: nat, j: nat)
    requires i <= j <= |mask|
    ensures Rank(mask, i) <= Rank(mask, j)
    ensures i < j && mask[i] ==> Rank(mask, i) < Rank(mask, j)
    decreases j
  {
    if i < j {
      RankMonotone(mask, i, j - 1);
    }
  }

  lemma {:induction false} SelectToAt<T>(xs: seq<T>, mask: seq<bool>, i: nat, k: nat)
    requires i < k <= |xs| == |mask|
    requires mask[i]
    ensures Rank(mask, i) < Rank(mask, k)
    ensures SelectTo(xs, mask, k)[Rank(mask, i)] == xs[i]
    decreases k
  {
    RankMonotone(mask, i, k);
    if i < k - 1 {
      SelectToAt(xs, mask, i, k - 1);
    }
  }

  /** A kept element sits at its rank. */
  lemma SelectAt<T>(xs: seq<T>, mask: seq<bool>, i: nat)
    requires i < |xs| == |mask|
    requires mask[i]
    ensures Rank(mask, i) < |Select(xs, mask)|
    ensures Select(xs, mask)[Rank(mask, i)] == xs[i]
  {
    SelectToAt(xs, mask, i, |xs|);
  }

  /** The position of the original list that ended up at place `p` of the compacted one. */
  ghost function Origin(mask: seq<bool>, p: nat): (i: nat)
    requires p < Rank(mask, |mask|)
    ensures i < |mask| && mask[i] && Rank(mask, i) == p
  {
    OriginTo(mask, p, |mask|)
  }

  ghost function OriginTo(mask: seq<bool>, p: nat, k: nat): (i: nat)
    requires k <= |mask| && p < Rank(mask, k)
    ensures i < k && mask[i] && Rank(mask, i) == p
  {
    if mask[k - 1] && Rank(mask, k - 1) == p then k - 1 else OriginTo(mask, p, k - 1)
  }

  lemma SelectOrigin<T>(xs: seq<T>, mask: seq<bool>, p: nat)
    requires |xs| == |mask| && p < Rank(mask, |mask|)
    ensures Select(xs, mask)[p] == xs[Origin(mask, p)]
  {
    SelectAt(xs, mask, Origin(mask, p));
  }

  /** Ranks of kept positions are injective. */
  lemma RankInjective(mask: seq<bool>, i: nat, j: nat)
    requires i < |mask| && j < |mask| && mask[i] && mask[j]
    requires Rank(mask, i) == Rank(mask, j)
    ensures i == j
  {
    if i < j {
      RankMonotone(mask, i, j);
    } else if j < i {
      RankMonotone(mask, j, i);
    }
  }

  /** Ranks of kept positions are in the order of the positions. */
  lemma RankOrder(mask: seq<bool>, i: nat, j: nat)
    requires i < |mask| && j < |mask| && mask[i] && mask[j]
    ensures Rank(mask, i) < Rank(mask, j) <==> i < j
  {
    if i <= j {
      RankMonotone(mask, i, j);
    } else {
      RankMonotone(mask, j, i);
    }
  }

  /** The new number of each position. */
  ghost function Ranks(mask: seq<bool>): (f: seq<nat>)
    ensures |f| == |mask|
    ensures forall i {:trigger f[i]} :: 0 <= i < |f| ==> f[i] == Rank(mask, i)
  {
    seq(|mask|, i requires 0 <= i < |mask| => Rank(mask, i))
  }

  /** Keeping everything changes nothing. */
  lemma {:induction false} SelectAll<T>(xs: seq<T>, mask: seq<bool>, k: nat)
    requires k <= |xs| == |mask|
    requires forall i :: 0 <= i < |mask| ==> mask[i]
    ensures SelectTo(xs, mask, k) == xs[..k] && Rank(mask, k) == k
  {
    if k > 0 {
      SelectAll(xs, mask, k - 1);
    }
  }

  // ---- what a rank counts ----

  ghost function Masked(mask: seq<bool>, n: nat): set<nat>
    requires n <= |mask|
  {
    set i: nat | i < n && mask[i]
  }

  /** A rank counts the kept positions. */
  lemma {:induction false} RankCounts(mask: seq<bool>, n: nat)
    requires n <= |mask|
    ensures Rank(mask, n) == |Masked(mask, n)|
  {
    if n > 0 {
      RankCounts(mask, n - 1);
      assert Masked(mask, n) == Masked(mask, n - 1) + if mask[n - 1] then {n - 1} else {};
    }
  }

  ghost function ClassSet<C>(classes: seq<C>, n: nat): set<C>
    requires n <= |classes|
  {
    set i: nat | i < n :: classes[i]
  }

  lemma ClassSetStep<C>(classes: seq<C>, n: nat)
    requires 0 < n <= |classes|
    ensures ClassSet(classes, n) == ClassSet(classes, n - 1) + {classes[n - 1]}
    ensures classes[n - 1] in ClassSet(classes, n - 1) <==> Rep(classes, n - 1) < n - 1
  {
    RepFacts(classes, n - 1);
    forall x | x in ClassSet(classes, n)
      ensures x in ClassSet(classes, n - 1) + {classes[n - 1]}
    {
      var j: nat :| j < n && classes[j] == x;
    }
  }

  /** There are as many earliest members as classes. */
  lemma {:induction false} RepsCount<C>(classes: seq<C>, n: nat)
    requires n <= |classes|
    ensures Rank(RepMask(classes), n) == |ClassSet(classes, n)|
  {
    if n > 0 {
      RepsCount(classes, n - 1);
      ClassSetStep(classes, n);
    }
  }

  /** Two lists that agree on the kept positions compact to the same list. */
  lemma {:induction false} SelectAgree<T>(xs: seq<T>, ys: seq<T>, mask: seq<bool>, k: nat)
    requires k <= |xs| == |ys| == |mask|
    requires forall i :: 0 <= i < k && mask[i] ==> xs[i] == ys[i]
    ensures SelectTo(xs, mask, k) == SelectTo(ys, mask, k)
  {
    if k > 0 {
      SelectAgree(xs, ys, mask, k - 1);
    }
  }

  /** Only the first `k` entries of the list and the mask matter. */
  lemma {:induction false} SelectPrefix<T>(xs: seq<T>, ys: seq<T>, mask: seq<bool>, mask': seq<bool>, k: nat)
    requires |xs| == |mask| && |ys| == |mask'| && k <= |xs| && k <= |ys|
    requires forall i :: 0 <= i < k ==> mask[i] == mask'[i]
    requires forall i :: 0 <= i < k && mask[i] ==> xs[i] == ys[i]
    ensures SelectTo(xs, mask, k) == SelectTo(ys, mask', k)
    ensures Rank(mask, k) == Rank(mask', k)
  {
    if k > 0 {
      SelectPrefix(xs, ys, mask, mask', k - 1);
    }
  }

  /** Selecting commutes with mapping. */
  lemma {:induction false} SelectMap<T, U>(f: T -> U, xs: seq<T>, mask: seq<bool>, k: nat)
    requires k <= |xs| == |mask|
    ensures Map(f, SelectTo(xs, mask, k)) == SelectTo(Map(f, xs), mask, k)
  {
    if k > 0 {
      SelectMap(f, xs, mask, k - 1);
    }
  }

  // ---- earliest members of classes ----

  /** The earliest position in the class of position `i`. */
  ghost function Rep<C>(classes: seq<C>, i: nat): (r: nat)
    requires i < |classes|
    ensures r <= i
  {
    RepFrom(classes, i, 0)
  }

  ghost function RepFrom<C>(classes: seq<C>, i: nat, j: nat): (r: nat)
    requires j <= i < |classes|
    ensures r <= i
    decreases i - j
  {
    if classes[j] == classes[i] then j else RepFrom(classes, i, j + 1)
  }

  lemma {:induction false} RepFromFacts<C>(classes: seq<C>, i: nat, j: nat)
    requires j <= i < |classes|
    requires forall l :: 0 <= l < j ==> classes[l] != classes[i]
    ensures var r := RepFrom(classes, i, j); classes[r] == classes[i] && forall l :: 0 <= l < r ==> classes[l] != classes[i]
    decreases i - j
  {
    if classes[j] != classes[i] {
      RepFromFacts(classes, i, j + 1);
    }
  }

  lemma RepFacts<C>(classes: seq<C>, i: nat)
    requires i < |classes|
    ensures var r := Rep(classes, i); classes[r] == classes[i] && forall l :: 0 <= l < r ==> classes[l] != classes[i]
  {
    RepFromFacts(classes, i, 0);
  }

  lemma RepSame<C>(classes: seq<C>, i: nat, j: nat)
    requires i < |classes| && j < |classes|
    ensures Rep(classes, i) == Rep(classes, j) <==> classes[i] == classes[j]
  {
    RepFacts(classes, i);
    RepFacts(classes, j);
  }

  ghost function RepMask<C>(classes: seq<C>): (mask: seq<bool>)
    ensures |mask| == |classes|
  {
    seq(|classes|, i requires 0 <= i < |classes| => Rep(classes, i) == i)
  }

  /** Where the class of each position lands once only the earliest members are kept. */
  ghost function NewIndex<C>(classes: seq<C>): (f: seq<nat>)
    ensures |f| == |classes|
  {
    seq(|classes|, i requires 0 <= i < |classes| => Rank(RepMask(classes), Rep(classes, i)))
  }

  lemma RepIdempotent<C>(classes: seq<C>, i: nat)
    requires i < |classes|
    ensures Rep(classes, Rep(classes, i)) == Rep(classes, i)
    ensures RepMask(classes)[Rep(classes, i)]
  {
    RepFacts(classes, i);
    RepSame(classes, Rep(classes, i), i);
  }

  /** New numbers are in range, and two positions share one exactly when they share a class. */
  lemma NewIndexFaithful<C>(classes: seq<C>, i: nat, j: nat)
    requires i < |classes| && j < |classes|
    ensures NewIndex(classes)[i] < Rank(RepMask(classes), |classes|)
    ensures NewIndex(classes)[i] == NewIndex(classes)[j] <==> classes[i] == classes[j]
  {
    var mask := RepMask(classes);
    RepIdempotent(classes, i);
    RepIdempotent(classes, j);
    RankMonotone(mask, Rep(classes, i), |mask|);
    RepSame(classes, i, j);
    if NewIndex(classes)[i] == NewIndex(classes)[j] {
      RankInjective(mask, Rep(classes, i), Rep(classes, j));
    }
  }

  /** The mask of earliest members depends only on which positions share a class. */
  lemma RepMaskSame<C, D>(cs: seq<C>, ds: seq<D>)
    requires |cs| == |ds|
    requires forall i, j :: 0 <= i < |cs| && 0 <= j < |cs| ==> (cs[i] == cs[j] <==> ds[i] == ds[j])
    ensures RepMask(cs) == RepMask(ds)
    ensures NewIndex(cs) == NewIndex(ds)
  {
    forall i | 0 <= i < |cs|
      ensures Rep(cs, i) == Rep(ds, i)
    {
      RepFacts(cs, i);
      RepFacts(ds, i);
      var r, s := Rep(cs, i), Rep(ds, i);
      assert cs[r] == cs[i] && ds[s] == ds[i];
      assert ds[r] == ds[i] && cs[s] == cs[i];
    }
    assert RepMask(cs) == RepMask(ds);
  }

  // ---- renumbering ----

  ghost predicate AllBelow(xs: seq<nat>, n: nat) {
    forall k :: 0 <= k < |xs| ==> xs[k] < n
  }

  function Renumber(f: seq<nat>, xs: seq<nat>): (ys: seq<nat>)
    requires AllBelow(xs, |f|)
    ensures |ys| == |xs|
    ensures forall k :: 0 <= k < |xs| ==> ys[k] == f[xs[k]]
  {
    seq(|xs|, k requires 0 <= k < |xs| => f[xs[k]])
  }
}
