/**
 Keeping the elements of a sequence that pass a test and transforming each
 of them, in order: `xs.filter(keep).map(f)`. Its laws are proved here once,
 for any element types, and used by the normaliser's row ingestion.
 */
module Seqs {
  /** The images under `f` of the elements of `xs` that satisfy `keep`, in
      the order of `xs`. */
  function KeepMap<A, B>(xs: seq<A>, keep: A -> bool, f: A -> B): (r: seq<B>)
    ensures |r| <= |xs|
  {
    if xs == [] then []
    else
      var x := xs[|xs| - 1];
      KeepMap(xs[..|xs| - 1], keep, f) + (if keep(x) then [f(x)] else [])
  }

  /** Every result is the image of a kept element. */
  lemma {:induction false} KeepMapSound<A, B>(xs: seq<A>, keep: A -> bool, f: A -> B)
    ensures forall y :: y in KeepMap(xs, keep, f) ==> exists x :: x in xs && keep(x) && y == f(x)
  {
    if xs != [] {
      var init := xs[..|xs| - 1];
      var last := xs[|xs| - 1];
      KeepMapSound(init, keep, f);
      forall y | y in KeepMap(xs, keep, f)
        ensures exists x :: x in xs && keep(x) && y == f(x)
      {
        if y in KeepMap(init, keep, f) {
          var x :| x in init && keep(x) && y == f(x);
          assert x in xs by { assert xs == init + [last]; }
        } else {
          assert keep(last) && y == f(last);
          assert last in xs;
        }
      }
    }
  }

  /** The image of every kept element is among the results. */
  lemma {:induction false} KeepMapComplete<A, B>(xs: seq<A>, keep: A -> bool, f: A -> B)
    ensures forall x :: x in xs && keep(x) ==> f(x) in KeepMap(xs, keep, f)
  {
    if xs != [] {
      var init := xs[..|xs| - 1];
      var last := xs[|xs| - 1];
      KeepMapComplete(init, keep, f);
      forall x | x in xs && keep(x)
        ensures f(x) in KeepMap(xs, keep, f)
      {
        if x != last {
          assert x in init by { assert xs == init + [last]; }
        }
      }
    }
  }

  /** A single element is kept, transformed, exactly when it passes the test. */
  lemma KeepMapOne<A, B>(x: A, keep: A -> bool, f: A -> B)
    ensures KeepMap([x], keep, f) == if keep(x) then [f(x)] else []
  {
    assert [x][..0] == [];
  }

  /** The elements are handled one at a time: the results for `a + b` are
      the results for `a` followed by those for `b`. */
  lemma {:induction false} KeepMapAppend<A, B>(a: seq<A>, b: seq<A>, keep: A -> bool, f: A -> B)
    ensures KeepMap(a + b, keep, f) == KeepMap(a, keep, f) + KeepMap(b, keep, f)
    decreases |b|
  {
    if b == [] {
      assert a + b == a;
    } else {
      var b' := b[..|b| - 1];
      assert (a + b)[..|a + b| - 1] == a + b';
      assert (a + b)[|a + b| - 1] == b[|b| - 1];
      KeepMapAppend(a, b', keep, f);
    }
  }
}
