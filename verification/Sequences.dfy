/** Concatenation of sequences of sequences. */
module Sequences {

  function Flatten<T>(xss: seq<seq<T>>): seq<T> {
    if xss == [] then [] else Flatten(xss[..|xss| - 1]) + xss[|xss| - 1]
  }

  lemma FlattenSnoc<T>(xss: seq<seq<T>>, last: seq<T>)
    ensures Flatten(xss + [last]) == Flatten(xss) + last
  {
    assert (xss + [last])[..|xss + [last]| - 1] == xss;
  }

  lemma {:induction false} FlattenAppend<T>(xss: seq<seq<T>>, yss: seq<seq<T>>)
    ensures Flatten(xss + yss) == Flatten(xss) + Flatten(yss)
  {
    if yss == [] {
      assert xss + yss == xss;
    } else {
      var prior, last := yss[..|yss| - 1], yss[|yss| - 1];
      FlattenAppend(xss, prior);
      FlattenSnoc(xss + prior, last);
      assert xss + yss == xss + prior + [last];
      Associative(Flatten(xss), Flatten(prior), last);
    }
  }

  lemma {:induction false} InFlatten<T>(xss: seq<seq<T>>, x: T)
    ensures x in Flatten(xss) <==> exists i :: 0 <= i < |xss| && x in xss[i]
  {
    if xss != [] {
      InFlatten(xss[..|xss| - 1], x);
      assert xss == xss[..|xss| - 1] + [xss[|xss| - 1]];
    }
  }

  function Map<A, B>(f: A -> B, xs: seq<A>): (ys: seq<B>)
    ensures |ys| == |xs| && forall k :: 0 <= k < |xs| ==> ys[k] == f(xs[k])
  {
    seq(|xs|, k requires 0 <= k < |xs| => f(xs[k]))
  }

  /** f on each element, the results concatenated. */
  function FlatMap<A, B>(f: A -> seq<B>, xs: seq<A>): seq<B> {
    Flatten(Map(f, xs))
  }

  lemma FlatMapAppend<A, B>(f: A -> seq<B>, xs: seq<A>, ys: seq<A>)
    ensures FlatMap(f, xs + ys) == FlatMap(f, xs) + FlatMap(f, ys)
  {
    assert Map(f, xs + ys) == Map(f, xs) + Map(f, ys);
    FlattenAppend(Map(f, xs), Map(f, ys));
  }

  lemma FlatMapSnoc<A, B>(f: A -> seq<B>, xs: seq<A>, x: A)
    ensures FlatMap(f, xs + [x]) == FlatMap(f, xs) + f(x)
  {
    assert Map(f, xs + [x]) == Map(f, xs) + [f(x)];
    FlattenSnoc(Map(f, xs), f(x));
  }

  lemma {:induction false} FlatMapEmpty<A, B>(f: A -> seq<B>, xs: seq<A>)
    requires forall x :: x in xs ==> f(x) == []
    ensures FlatMap(f, xs) == []
  {
    if xs != [] {
      var prior, x := xs[..|xs| - 1], xs[|xs| - 1];
      FlatMapEmpty(f, prior);
      assert xs == prior + [x];
      FlatMapSnoc(f, prior, x);
    }
  }

  lemma Associative<T>(a: seq<T>, b: seq<T>, c: seq<T>)
    ensures a + b + c == a + (b + c)
  {
  }

  /** The middle part can be moved to the end if it or the end is empty. */
  lemma MoveLast<T>(a: seq<T>, w: seq<T>, b: seq<T>)
    requires w == [] || b == []
    ensures a + w + b == a + b + w
  {
  }
}
