/** Parsers over byte strings, and the three properties every part of the format has.

A parser turns a byte string into a value and the bytes it did not use, or into an error.  It *reads
back* a piece of output if it recovers the value from those bytes, whatever follows them.  It is *stable*
if cutting an input it accepts changes nothing when only unused bytes are lost, and is reported as
truncation when used ones are.  It *yields* a property if all values it returns have it. */
module Parsing {
  import opened Wrappers
  import opened Bytes

  datatype DecodeError = BadMagic | Truncated | BadTag(what: string, tag: nat) | BadUtf8 | BadNodeRef(id: nat)

  type Parsed<+T> = Result<(T, seq<byte>), DecodeError>

  type Parser<+T> = seq<byte> -> Parsed<T>

  function Return<T>(v: T): Parser<T> {
    bs => Ok((v, bs))
  }

  function Fail<T>(e: DecodeError): Parser<T> {
    bs => Err(e)
  }

  function Take(n: nat): Parser<seq<byte>> {
    bs => if n > |bs| then Err(Truncated) else Ok((bs[..n], bs[n..]))
  }

  function Bind<A, B>(p: Parser<A>, f: A -> Parser<B>): Parser<B> {
    bs =>
      match p(bs)
      case Err(e) => Err(e)
      case Ok((v, rest)) => f(v)(rest)
  }

  function Mapped<A, B>(p: Parser<A>, f: A -> B): Parser<B> {
    bs =>
      match p(bs)
      case Err(e) => Err(e)
      case Ok((v, rest)) => Ok((f(v), rest))
  }

  function Paired<A, B>(q: Parser<B>): A -> Parser<(A, B)> {
    v => Mapped(q, w => (v, w))
  }

  function Both<A, B>(p: Parser<A>, q: Parser<B>): Parser<(A, B)> {
    Bind(p, Paired(q))
  }

  function Prepend<T>(vw: (T, seq<T>)): seq<T> {
    [vw.0] + vw.1
  }

  /** The values of `p(i)`, ..., `p(n - 1)`, one after the other. */
  function Repeat<T>(p: nat -> Parser<T>, i: nat, n: nat): Parser<seq<T>>
    decreases n - i
  {
    if i >= n then Return([]) else Mapped(Both(p(i), Repeat(p, i + 1, n)), Prepend)
  }

  // ---- reading back ----

  ghost predicate ReadsBackBefore<T>(p: Parser<T>, bytes: seq<byte>, v: T, rest: seq<byte>) {
    p(bytes + rest) == Ok((v, rest))
  }

  ghost predicate ReadsBack<T>(p: Parser<T>, bytes: seq<byte>, v: T) {
    forall rest: seq<byte> :: ReadsBackBefore(p, bytes, v, rest)
  }

  lemma ReturnReadsBack<T>(v: T)
    ensures ReadsBack(Return(v), [], v)
  {
    forall rest: seq<byte>
      ensures ReadsBackBefore(Return(v), [], v, rest)
    {
      assert [] + rest == rest;
    }
  }

  lemma TakeReadsBack(bytes: seq<byte>)
    ensures ReadsBack(Take(|bytes|), bytes, bytes)
  {
  }

  lemma BindReadsBack<A, B>(p: Parser<A>, f: A -> Parser<B>, a: seq<byte>, v: A, b: seq<byte>, w: B)
    requires ReadsBack(p, a, v) && ReadsBack(f(v), b, w)
    ensures ReadsBack(Bind(p, f), a + b, w)
  {
    forall rest: seq<byte>
      ensures ReadsBackBefore(Bind(p, f), a + b, w, rest)
    {
      assert a + b + rest == a + (b + rest);
      assert ReadsBackBefore(p, a, v, b + rest) && ReadsBackBefore(f(v), b, w, rest);
    }
  }

  lemma MappedReadsBack<A, B>(p: Parser<A>, f: A -> B, a: seq<byte>, v: A)
    requires ReadsBack(p, a, v)
    ensures ReadsBack(Mapped(p, f), a, f(v))
  {
    forall rest: seq<byte>
      ensures ReadsBackBefore(Mapped(p, f), a, f(v), rest)
    {
      assert ReadsBackBefore(p, a, v, rest);
    }
  }

  lemma BothReadsBack<A, B>(p: Parser<A>, q: Parser<B>, a: seq<byte>, v: A, b: seq<byte>, w: B)
    requires ReadsBack(p, a, v) && ReadsBack(q, b, w)
    ensures ReadsBack(Both(p, q), a + b, (v, w))
  {
    forall rest: seq<byte>
      ensures ReadsBackBefore(Paired<A, B>(q)(v), b, (v, w), rest)
    {
      assert ReadsBackBefore(q, b, w, rest);
    }
    BindReadsBack(p, Paired<A, B>(q), a, v, b, (v, w));
  }

  function Concat(pieces: seq<seq<byte>>): seq<byte> {
    if pieces == [] then [] else pieces[0] + Concat(pieces[1..])
  }

  lemma RepeatStep<T>(p: nat -> Parser<T>, i: nat, n: nat, a: seq<byte>, v: T, b: seq<byte>, vs: seq<T>)
    requires i < n && ReadsBack(p(i), a, v) && ReadsBack(Repeat(p, i + 1, n), b, vs)
    ensures ReadsBack(Repeat(p, i, n), a + b, [v] + vs)
  {
    BothReadsBack(p(i), Repeat(p, i + 1, n), a, v, b, vs);
    MappedReadsBack(Both(p(i), Repeat(p, i + 1, n)), Prepend, a + b, (v, vs));
  }

  ghost predicate PiecesReadBack<T>(p: nat -> Parser<T>, i: nat, pieces: seq<seq<byte>>, vs: seq<T>) {
    |pieces| == |vs| && forall k: nat :: k < |vs| ==> ReadsBack(p(i + k), pieces[k], vs[k])
  }

  lemma PiecesTail<T>(p: nat -> Parser<T>, i: nat, pieces: seq<seq<byte>>, vs: seq<T>)
    requires PiecesReadBack(p, i, pieces, vs) && vs != []
    ensures ReadsBack(p(i), pieces[0], vs[0]) && PiecesReadBack(p, i + 1, pieces[1..], vs[1..])
  {
    assert ReadsBack(p(i + 0), pieces[0], vs[0]);
    forall k: nat | k < |vs[1..]|
      ensures ReadsBack(p(i + 1 + k), pieces[1..][k], vs[1..][k])
    {
      assert ReadsBack(p(i + (k + 1)), pieces[k + 1], vs[k + 1]);
    }
  }

  lemma {:induction false} RepeatReadsBack<T>(p: nat -> Parser<T>, i: nat, pieces: seq<seq<byte>>, vs: seq<T>)
    requires PiecesReadBack(p, i, pieces, vs)
    ensures ReadsBack(Repeat(p, i, i + |vs|), Concat(pieces), vs)
    decreases |vs|
  {
    if vs == [] {
      ReturnReadsBack(vs);
    } else {
      PiecesTail(p, i, pieces, vs);
      RepeatReadsBack(p, i + 1, pieces[1..], vs[1..]);
      RepeatStep(p, i, i + |vs|, pieces[0], vs[0], Concat(pieces[1..]), vs[1..]);
      assert vs == [vs[0]] + vs[1..];
    }
  }

  // ---- stability ----

  /** What cutting the input after `n` bytes does to the result of a parse. */
  ghost predicate CutFits<T>(bs: seq<byte>, n: nat, full: Parsed<T>, cut: Parsed<T>)
    requires n <= |bs|
  {
    full.Ok? ==>
      var (v, rest) := full.value;
      var used := |bs| - |rest|;
      && used >= 0 && rest == bs[used..]
      && cut == if n < used then Err(Truncated) else Ok((v, bs[used..n]))
  }

  ghost predicate StableAt<T>(p: Parser<T>, bs: seq<byte>, n: nat)
    requires n <= |bs|
  {
    CutFits(bs, n, p(bs), p(bs[..n]))
  }

  ghost predicate Stable<T>(p: Parser<T>) {
    forall bs: seq<byte>, n: nat :: n <= |bs| ==> StableAt(p, bs, n)
  }

  function Beyond(n: nat, used: int): nat {
    if n >= used then n - used else 0
  }

  /** Cutting a parse that goes on after a first part. */
  lemma CutThen<A, B>(bs: seq<byte>, n: nat, v: A, rest: seq<byte>, cut: Parsed<A>, second: Parsed<B>, secondCut: Parsed<B>)
    requires n <= |bs| && CutFits(bs, n, Ok((v, rest)), cut) && |rest| <= |bs|
    requires CutFits(rest, Beyond(n, |bs| - |rest|), second, secondCut)
    ensures CutFits(bs, n, second, if cut.Ok? then secondCut else Err(cut.error))
  {
    var used := |bs| - |rest|;
    if second.Ok? {
      var (w, rest') := second.value;
      var more := |rest| - |rest'|;
      assert rest[more..] == bs[used + more..];
      if n >= used + more {
        assert rest[more..n - used] == bs[used + more..n];
      }
    }
  }

  lemma ReturnStable<T>(v: T)
    ensures Stable(Return(v))
  {
  }

  lemma FailStable<T>(e: DecodeError)
    ensures Stable(Fail<T>(e))
  {
  }

  lemma TakeStable(k: nat)
    ensures Stable(Take(k))
  {
    forall bs: seq<byte>, n: nat | n <= |bs|
      ensures StableAt(Take(k), bs, n)
    {
      if k <= n {
        assert bs[..n][..k] == bs[..k] && bs[..n][k..] == bs[k..n];
      }
    }
  }

  lemma BindStableAt<A, B>(p: Parser<A>, f: A -> Parser<B>, bs: seq<byte>, n: nat, v: A, rest: seq<byte>)
    requires n <= |bs| && StableAt(p, bs, n) && p(bs) == Ok((v, rest)) && Stable(f(v))
    ensures StableAt(Bind(p, f), bs, n)
  {
    var m := Beyond(n, |bs| - |rest|);
    assert StableAt(f(v), rest, m);
    assert n >= |bs| - |rest| ==> bs[|bs| - |rest|..n] == rest[..m];
    CutThen(bs, n, v, rest, p(bs[..n]), f(v)(rest), f(v)(rest[..m]));
  }

  lemma BindStable<A(!new), B>(p: Parser<A>, f: A -> Parser<B>)
    requires Stable(p) && forall v :: Stable(f(v))
    ensures Stable(Bind(p, f))
  {
    forall bs: seq<byte>, n: nat | n <= |bs|
      ensures StableAt(Bind(p, f), bs, n)
    {
      assert StableAt(p, bs, n);
      if p(bs).Ok? {
        BindStableAt(p, f, bs, n, p(bs).value.0, p(bs).value.1);
      }
    }
  }

  lemma MappedStable<A, B>(p: Parser<A>, f: A -> B)
    requires Stable(p)
    ensures Stable(Mapped(p, f))
  {
    forall bs: seq<byte>, n: nat | n <= |bs|
      ensures StableAt(Mapped(p, f), bs, n)
    {
      assert StableAt(p, bs, n);
    }
  }

  lemma BothStable<A(!new), B>(p: Parser<A>, q: Parser<B>)
    requires Stable(p) && Stable(q)
    ensures Stable(Both(p, q))
  {
    forall v: A
      ensures Stable(Paired<A, B>(q)(v))
    {
      MappedStable(q, (w: B) => (v, w));
      assert Paired<A, B>(q)(v) == Mapped(q, (w: B) => (v, w));
    }
    BindStable(p, Paired<A, B>(q));
  }

  lemma {:induction false} RepeatStable<T(!new)>(p: nat -> Parser<T>, i: nat, n: nat)
    requires forall k :: Stable(p(k))
    ensures Stable(Repeat(p, i, n))
    decreases n - i
  {
    if i >= n {
      ReturnStable<seq<T>>([]);
    } else {
      RepeatStable(p, i + 1, n);
      BothStable(p(i), Repeat(p, i + 1, n));
      MappedStable(Both(p(i), Repeat(p, i + 1, n)), Prepend);
    }
  }

  // ---- yielding ----

  ghost predicate YieldsFrom<T>(p: Parser<T>, good: T -> bool, bs: seq<byte>) {
    p(bs).Ok? ==> good(p(bs).value.0)
  }

  ghost predicate Yields<T>(p: Parser<T>, good: T -> bool) {
    forall bs: seq<byte> :: YieldsFrom(p, good, bs)
  }

  lemma BindYields<A(!new), B>(p: Parser<A>, goodA: A -> bool, f: A -> Parser<B>, goodB: B -> bool)
    requires Yields(p, goodA) && forall v :: goodA(v) ==> Yields(f(v), goodB)
    ensures Yields(Bind(p, f), goodB)
  {
    forall bs: seq<byte>
      ensures YieldsFrom(Bind(p, f), goodB, bs)
    {
      assert YieldsFrom(p, goodA, bs);
      if p(bs).Ok? {
        var (v, rest) := p(bs).value;
        assert Yields(f(v), goodB) && YieldsFrom(f(v), goodB, rest);
      }
    }
  }

  lemma MappedYields<A(!new), B>(p: Parser<A>, goodA: A -> bool, f: A -> B, goodB: B -> bool)
    requires Yields(p, goodA) && forall v :: goodA(v) ==> goodB(f(v))
    ensures Yields(Mapped(p, f), goodB)
  {
    forall bs: seq<byte>
      ensures YieldsFrom(Mapped(p, f), goodB, bs)
    {
      assert YieldsFrom(p, goodA, bs);
    }
  }

  lemma BothYields<A(!new), B(!new)>(p: Parser<A>, goodA: A -> bool, q: Parser<B>, goodB: B -> bool, good: ((A, B)) -> bool)
    requires Yields(p, goodA) && Yields(q, goodB)
    requires forall v, w :: goodA(v) && goodB(w) ==> good((v, w))
    ensures Yields(Both(p, q), good)
  {
    forall bs: seq<byte>
      ensures YieldsFrom(Both(p, q), good, bs)
    {
      assert YieldsFrom(p, goodA, bs);
      if p(bs).Ok? {
        var (v, rest) := p(bs).value;
        assert YieldsFrom(q, goodB, rest);
      }
    }
  }

  /** What a successful repetition is made of. */
  lemma RepeatParts<T>(p: nat -> Parser<T>, i: nat, n: nat, bs: seq<byte>)
    requires i < n && Repeat(p, i, n)(bs).Ok?
    ensures p(i)(bs).Ok?
    ensures var (v, rest) := p(i)(bs).value; var tail := Repeat(p, i + 1, n)(rest);
      tail.Ok? && Repeat(p, i, n)(bs) == Ok(([v] + tail.value.0, tail.value.1))
  {
    var tail := Repeat(p, i + 1, n);
    assert Repeat(p, i, n)(bs) == Mapped(Both(p(i), tail), Prepend)(bs);
    assert Both(p(i), tail)(bs).Ok?;
    var (v, rest) := p(i)(bs).value;
    assert Both(p(i), tail)(bs) == Paired(tail)(v)(rest);
  }

  function At<T>(good: (nat, T) -> bool, k: nat): T -> bool {
    v => good(k, v)
  }

  lemma {:induction false} RepeatYields<T(!new)>(p: nat -> Parser<T>, good: (nat, T) -> bool, i: nat, n: nat, bs: seq<byte>)
    requires forall k :: Yields(p(k), At(good, k))
    requires Repeat(p, i, n)(bs).Ok?
    ensures var vs := Repeat(p, i, n)(bs).value.0;
      |vs| == (if i < n then n - i else 0) && forall k :: 0 <= k < |vs| ==> good(i + k, vs[k])
    decreases n - i
  {
    if i < n {
      RepeatParts(p, i, n, bs);
      var (v, rest) := p(i)(bs).value;
      assert Yields(p(i), At(good, i)) && YieldsFrom(p(i), At(good, i), bs);
      RepeatYields(p, good, i + 1, n, rest);
      var ws := Repeat(p, i + 1, n)(rest).value.0;
      forall k | 0 <= k < |[v] + ws|
        ensures good(i + k, ([v] + ws)[k])
      {
        assert k > 0 ==> good(i + 1 + (k - 1), ws[k - 1]);
      }
    }
  }
}
