/** When the bytes a parser accepts are the bytes a writer would have produced.

A *check* looks at bytes only.  It is *exact* for a parser and a writer if, among the bytes the parser
accepts, it singles out those that are what the writer makes of the parsed value, followed by what the
parser left. */
module Exactness {
  import opened Wrappers
  import opened Bytes
  import opened Parsing
  import opened Gir

  type Check = seq<byte> -> bool

  ghost predicate ExactAt<T>(p: Parser<T>, check: Check, write: T -> seq<byte>, bs: seq<byte>) {
    p(bs).Ok? ==> (check(bs) <==> bs == write(p(bs).value.0) + p(bs).value.1)
  }

  ghost predicate Exact<T>(p: Parser<T>, check: Check, write: T -> seq<byte>) {
    forall bs: seq<byte> :: ExactAt(p, check, write, bs)
  }

  /** Whatever the parser returns reads back from what the writer makes of it. */
  ghost predicate OwnAt<T>(p: Parser<T>, write: T -> seq<byte>, bs: seq<byte>) {
    p(bs).Ok? ==> ReadsBack(p, write(p(bs).value.0), p(bs).value.0)
  }

  ghost predicate Own<T>(p: Parser<T>, write: T -> seq<byte>) {
    forall bs: seq<byte> :: OwnAt(p, write, bs)
  }

  lemma OwnIfGood<T(!new)>(p: Parser<T>, good: T -> bool, write: T -> seq<byte>)
    requires Yields(p, good) && forall v :: good(v) ==> ReadsBack(p, write(v), v)
    ensures Own(p, write)
  {
    forall bs: seq<byte>
      ensures OwnAt(p, write, bs)
    {
      assert YieldsFrom(p, good, bs);
    }
  }

  /** Reading from what was written for `v` gives `v` and what follows. */
  lemma ReadBack<T>(p: Parser<T>, bytes: seq<byte>, v: T, rest: seq<byte>)
    requires ReadsBack(p, bytes, v)
    ensures p(bytes + rest) == Ok((v, rest))
  {
    assert ReadsBackBefore(p, bytes, v, rest);
  }

  // ---- checks and how they combine ----

  function Always(): Check {
    bs => true
  }

  /** Check a first part, then what the parser leaves of it. */
  function Then<T>(p: Parser<T>, first: Check, second: Check): Check {
    bs => first(bs) && p(bs).Ok? && second(p(bs).value.1)
  }

  /** Check the bytes and the value parsed from them. */
  function When<T>(p: Parser<T>, check: Check, ok: T -> bool): Check {
    bs => check(bs) && p(bs).Ok? && ok(p(bs).value.0)
  }

  /** Check a leading tag, then what follows it. */
  function Tagged(ok: nat -> bool, checks: nat -> Check): Check {
    bs => bs != [] && ok(bs[0]) && checks(bs[0])(bs[1..])
  }

  function Repeated<T>(p: nat -> Parser<T>, check: Check, i: nat, n: nat): Check
    decreases n - i
  {
    if i >= n then Always() else Then(p(i), check, Repeated(p, check, i + 1, n))
  }

  function Listed<T>(p: nat -> Parser<T>, check: Check): Check {
    bs => U32()(bs).Ok? && Repeated(p, check, 0, U32()(bs).value.0)(U32()(bs).value.1)
  }

  function BothBytes<A, B>(w: A -> seq<byte>, w': B -> seq<byte>): ((A, B)) -> seq<byte> {
    (ab: (A, B)) => w(ab.0) + w'(ab.1)
  }

  function AllBytes<T>(write: T -> seq<byte>): seq<T> -> seq<byte> {
    xs => Concat(Map(write, xs))
  }

  lemma BothExact<A, B>(p: Parser<A>, first: Check, w: A -> seq<byte>, q: Parser<B>, second: Check, w': B -> seq<byte>)
    requires Exact(p, first, w) && Own(p, w) && Exact(q, second, w')
    ensures Exact(Both(p, q), Then(p, first, second), BothBytes(w, w'))
  {
    forall bs: seq<byte>
      ensures ExactAt(Both(p, q), Then(p, first, second), BothBytes(w, w'), bs)
    {
      assert ExactAt(p, first, w, bs) && OwnAt(p, w, bs);
      if Both(p, q)(bs).Ok? {
        var (v, mid) := p(bs).value;
        assert ExactAt(q, second, w', mid);
        var (x, rest) := q(mid).value;
        assert Both(p, q)(bs) == Paired<A, B>(q)(v)(mid) == Ok(((v, x), rest));
        Reassociate(w(v), w'(x), rest);
        if bs == w(v) + w'(x) + rest {
          ReadBack(p, w(v), v, w'(x) + rest);
        }
      }
    }
  }

  lemma MappedExact<A(!new), B>(p: Parser<A>, check: Check, w: A -> seq<byte>, f: A -> B, w': B -> seq<byte>)
    requires Exact(p, check, w) && forall v :: w'(f(v)) == w(v)
    ensures Exact(Mapped(p, f), check, w')
  {
    forall bs: seq<byte>
      ensures ExactAt(Mapped(p, f), check, w', bs)
    {
      assert ExactAt(p, check, w, bs);
      if p(bs).Ok? {
        assert w'(f(p(bs).value.0)) == w(p(bs).value.0);
      }
    }
  }

  /** The values are changed to `g` of themselves before they are written. */
  lemma ChangedExact<A(!new), B>(p: Parser<A>, check: Check, w: A -> seq<byte>, ok: A -> bool, g: A -> A,
                           f: A -> B, w': B -> seq<byte>)
    requires Exact(p, check, w) && forall v :: w'(f(v)) == w(g(v)) && (ok(v) <==> g(v) == v)
    requires forall bs: seq<byte> :: p(bs).Ok? ==> ReadsBack(p, w(g(p(bs).value.0)), g(p(bs).value.0))
    ensures Exact(Mapped(p, f), When(p, check, ok), w')
  {
    forall bs: seq<byte>
      ensures ExactAt(Mapped(p, f), When(p, check, ok), w', bs)
    {
      assert ExactAt(p, check, w, bs);
      if p(bs).Ok? {
        var (v, rest) := p(bs).value;
        if bs == w(g(v)) + rest {
          ReadBack(p, w(g(v)), g(v), rest);
        }
      }
    }
  }

  /** A tag is written as it was read if it is acceptable, and otherwise as a different one. */
  ghost predicate TagWritten<T>(f: nat -> Parser<T>, ok: nat -> bool, body: T -> seq<byte>, write: T -> seq<byte>,
                                tag: byte, bs: seq<byte>) {
    f(tag)(bs).Ok? ==>
      var v := f(tag)(bs).value.0;
      && (ok(tag) ==> write(v) == [tag] + body(v))
      && (!ok(tag) ==> write(v) != [] && write(v)[0] != tag)
  }

  lemma TaggedExact<T>(f: nat -> Parser<T>, ok: nat -> bool, checks: nat -> Check, body: T -> seq<byte>, write: T -> seq<byte>)
    requires forall tag: byte :: ok(tag) ==> Exact(f(tag), checks(tag), body)
    requires forall tag: byte, bs: seq<byte> :: TagWritten(f, ok, body, write, tag, bs)
    ensures Exact(Bind(U8(), f), Tagged(ok, checks), write)
  {
    forall bs: seq<byte>
      ensures ExactAt(Bind(U8(), f), Tagged(ok, checks), write, bs)
    {
      if Bind(U8(), f)(bs).Ok? {
        FirstByte(bs);
        var tag, mid := bs[0], bs[1..];
        assert Bind(U8(), f)(bs) == f(tag)(mid);
        var (v, rest) := f(tag)(mid).value;
        assert TagWritten(f, ok, body, write, tag, mid);
        assert bs == [tag] + mid;
        if ok(tag) {
          assert Exact(f(tag), checks(tag), body) && ExactAt(f(tag), checks(tag), body, mid);
          Reassociate([tag], body(v), rest);
          assert ([tag] + (body(v) + rest))[1..] == body(v) + rest;
        } else {
          assert (write(v) + rest)[0] == write(v)[0];
        }
      }
    }
  }

  lemma FirstByte(bs: seq<byte>)
    requires U8()(bs).Ok?
    ensures bs != [] && U8()(bs) == Ok((bs[0], bs[1..]))
  {
    assert bs[..1] == [bs[0]];
    assert LeValue([bs[0]]) == bs[0];
  }

  lemma AllBytesStep<T>(write: T -> seq<byte>, x: T, xs: seq<T>)
    ensures AllBytes(write)([x] + xs) == write(x) + AllBytes(write)(xs)
  {
    assert Map(write, [x] + xs) == [write(x)] + Map(write, xs);
  }

  lemma {:induction false} RepeatExact<T(!new)>(p: nat -> Parser<T>, check: Check, write: T -> seq<byte>, i: nat, n: nat)
    requires forall k: nat :: Exact(p(k), check, write) && Own(p(k), write)
    ensures Exact(Repeat(p, i, n), Repeated(p, check, i, n), AllBytes(write))
    decreases n - i
  {
    if i >= n {
      forall bs: seq<byte>
        ensures ExactAt(Repeat(p, i, n), Repeated(p, check, i, n), AllBytes(write), bs)
      {
        assert [] + bs == bs;
      }
    } else {
      RepeatExact(p, check, write, i + 1, n);
      var rest := Repeat(p, i + 1, n);
      assert Exact(p(i), check, write) && Own(p(i), write);
      BothExact(p(i), check, write, rest, Repeated(p, check, i + 1, n), AllBytes(write));
      forall vw: (T, seq<T>)
        ensures AllBytes(write)(Prepend(vw)) == BothBytes(write, AllBytes(write))(vw)
      {
        AllBytesStep(write, vw.0, vw.1);
      }
      MappedExact(Both(p(i), rest), Then(p(i), check, Repeated(p, check, i + 1, n)),
                  BothBytes(write, AllBytes(write)), Prepend, AllBytes(write));
    }
  }

  function CountedBy<T>(write: T -> seq<byte>): seq<T> -> seq<byte> {
    xs => Counted(write, xs)
  }

  lemma {:induction false} RepeatCount<T>(p: nat -> Parser<T>, i: nat, n: nat, bs: seq<byte>)
    requires i <= n && Repeat(p, i, n)(bs).Ok?
    ensures |Repeat(p, i, n)(bs).value.0| == n - i
    decreases n - i
  {
    if i < n {
      RepeatParts(p, i, n, bs);
      RepeatCount(p, i + 1, n, p(i)(bs).value.1);
    }
  }

  /** A 32-bit word is always written as it was read. */
  lemma WordExact(bs: seq<byte>)
    requires U32()(bs).Ok?
    ensures |bs| >= 4 && U32()(bs) == Ok((LeValue(bs[..4]), bs[4..]))
    ensures LeBytes(U32()(bs).value.0, 4) == bs[..4] && bs == bs[..4] + bs[4..]
  {
    LeValueBytes(bs[..4]);
  }

  lemma ListExact<T(!new)>(p: nat -> Parser<T>, check: Check, write: T -> seq<byte>)
    requires forall k: nat :: Exact(p(k), check, write) && Own(p(k), write)
    ensures Exact(ListOf(p), Listed(p, check), CountedBy(write))
  {
    forall bs: seq<byte>
      ensures ExactAt(ListOf(p), Listed(p, check), CountedBy(write), bs)
    {
      if ListOf(p)(bs).Ok? {
        WordExact(bs);
        var n, mid := U32()(bs).value.0, U32()(bs).value.1;
        assert ListOf(p)(bs) == Repeat(p, 0, n)(mid);
        var (vs, rest) := Repeat(p, 0, n)(mid).value;
        RepeatExact(p, check, write, 0, n);
        assert ExactAt(Repeat(p, 0, n), Repeated(p, check, 0, n), AllBytes(write), mid);
        RepeatCount(p, 0, n, mid);
        Reassociate(LeBytes(n, 4), AllBytes(write)(vs), rest);
        assert (LeBytes(n, 4) + (AllBytes(write)(vs) + rest))[4..] == AllBytes(write)(vs) + rest;
      }
    }
  }
}
