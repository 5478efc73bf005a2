/**
 * Mapping a sequence through a partial function and keeping the results
 * that are present: the shape of every "build a list, skipping what does
 * not qualify" loop of the scraper.
 */
module Sequences {
  import opened Wrappers

  /** `xs` mapped through `g`, keeping the present results, in order. */
  function FilterMap<A, B>(xs: seq<A>, g: A -> Option<B>): seq<B>
    decreases |xs|
  {
    if xs == [] then []
    else
      var prev := FilterMap(xs[..|xs| - 1], g);
      match g(xs[|xs| - 1])
      case Some(y) => prev + [y]
      case None => prev
  }

  lemma {:induction false} FilterMapAppend<A, B>(a: seq<A>, b: seq<A>, g: A -> Option<B>)
    ensures FilterMap(a + b, g) == FilterMap(a, g) + FilterMap(b, g)
    decreases |b|
  {
    if b == [] {
      assert a + b == a;
    } else {
      var b' := b[..|b| - 1];
      assert (a + b)[..|a + b| - 1] == a + b';
      assert (a + b)[|a + b| - 1] == b[|b| - 1];
      FilterMapAppend(a, b', g);
    }
  }

  lemma {:induction false} FilterMapMembers<A, B>(xs: seq<A>, g: A -> Option<B>)
    ensures |FilterMap(xs, g)| <= |xs|
    ensures forall y :: y in FilterMap(xs, g) ==> exists i :: 0 <= i < |xs| && g(xs[i]) == Some(y)
    decreases |xs|
  {
    if xs != [] {
      var init := xs[..|xs| - 1];
      FilterMapMembers(init, g);
      forall y | y in FilterMap(xs, g) ensures exists i :: 0 <= i < |xs| && g(xs[i]) == Some(y) {
        if y in FilterMap(init, g) {
          var i :| 0 <= i < |init| && g(init[i]) == Some(y);
          assert xs[i] == init[i];
        } else {
          assert g(xs[|xs| - 1]) == Some(y);
        }
      }
    }
  }

  /** One more element adds its result, if present, at the end. */
  lemma FilterMapStep<A, B>(xs: seq<A>, g: A -> Option<B>)
    requires xs != []
    ensures FilterMap(xs, g) == FilterMap(xs[..|xs| - 1], g) + (if g(xs[|xs| - 1]).Some? then [g(xs[|xs| - 1]).value] else [])
  {
  }

  /** Every present result appears in the output. */
  lemma {:induction false} FilterMapComplete<A, B>(xs: seq<A>, g: A -> Option<B>)
    ensures forall i :: 0 <= i < |xs| && g(xs[i]).Some? ==> g(xs[i]).value in FilterMap(xs, g)
    decreases |xs|
  {
    if xs != [] {
      var init := xs[..|xs| - 1];
      FilterMapComplete(init, g);
      forall i | 0 <= i < |xs| && g(xs[i]).Some? ensures g(xs[i]).value in FilterMap(xs, g) {
        if i < |init| {
          assert xs[i] == init[i];
        }
      }
    }
  }
}
