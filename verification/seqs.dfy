/** Sequence helpers shared by the crawl and the database front end: every
    view of a log, and every filter over a list of stubs, is a concat-map. */
module Seqs {

  /** `f` applied to every element, the results concatenated in order. A
      filter-and-map is the case where each `f(x)` has at most one element. */
  function ConcatMap<A, B>(f: A -> seq<B>, xs: seq<A>): seq<B>
    decreases |xs|
  {
    if |xs| == 0 then [] else f(xs[0]) + ConcatMap(f, xs[1..])
  }

  /** A concat-map distributes over concatenation. */
  lemma {:induction false} ConcatMapAppend<A, B>(f: A -> seq<B>, a: seq<A>, b: seq<A>)
    ensures ConcatMap(f, a + b) == ConcatMap(f, a) + ConcatMap(f, b)
    decreases |a|
  {
    if |a| == 0 {
      assert a + b == b;
    } else {
      assert ConcatMap(f, a + b) == f(a[0]) + ConcatMap(f, a[1..] + b) by {
        assert (a + b)[0] == a[0];
        assert (a + b)[1..] == a[1..] + b;
      }
      ConcatMapAppend(f, a[1..], b);
      assert f(a[0]) + (ConcatMap(f, a[1..]) + ConcatMap(f, b)) == (f(a[0]) + ConcatMap(f, a[1..])) + ConcatMap(f, b);
    }
  }

  /** The first element contributes first. */
  lemma ConcatMapCons<A, B>(f: A -> seq<B>, x: A, xs: seq<A>)
    ensures ConcatMap(f, [x] + xs) == f(x) + ConcatMap(f, xs)
  {
  }

  /** A single element contributes exactly its own results. */
  lemma ConcatMapSingle<A, B>(f: A -> seq<B>, x: A)
    ensures ConcatMap(f, [x]) == f(x)
  {
    ConcatMapCons(f, x, []);
    assert [x] + [] == [x];
  }

  /** Distribution over a four-part concatenation. */
  lemma ConcatMapAppend4<A, B>(f: A -> seq<B>, a: seq<A>, b: seq<A>, c: seq<A>, d: seq<A>)
    ensures ConcatMap(f, a + b + c + d) == ConcatMap(f, a) + ConcatMap(f, b) + ConcatMap(f, c) + ConcatMap(f, d)
  {
    ConcatMapAppend(f, a, b);
    ConcatMapAppend(f, a + b, c);
    ConcatMapAppend(f, a + b + c, d);
  }

  /** When every element contributes at most one result, there are never
      more results than elements. */
  lemma {:induction false} ConcatMapAtMostOne<A, B>(f: A -> seq<B>, xs: seq<A>)
    requires forall x :: |f(x)| <= 1
    ensures |ConcatMap(f, xs)| <= |xs|
    decreases |xs|
  {
    if |xs| > 0 {
      ConcatMapAtMostOne(f, xs[1..]);
    }
  }
}
