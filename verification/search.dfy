/** `findFromElement`: the direct children of an element whose class tokens
    contain the search string or whose id equals it, in child order. Only one
    level is searched; grandchildren are never inspected. */
module Search {
  import opened Nodes
  import opened Classes
  import opened Iteration

  /** The test `findFromElement` applies to each child. It reads only the
      child's class string and id, never its children. */
  predicate Matches(child: Element, s: string)
  {
    HasClass(child, s) || child.id == s
  }

  /** Reference definition: the matching children, in order. */
  function MatchingChildren(children: seq<Element>, s: string): (r: seq<Element>)
    ensures |r| <= |children|
  {
    if |children| == 0 then []
    else
      (if Matches(children[0], s) then [children[0]] else [])
      + MatchingChildren(children[1..], s)
  }

  /** `xs` is `ys` with some items left out and the rest kept in order. */
  predicate SubsequenceOf<T(==)>(xs: seq<T>, ys: seq<T>)
    decreases |ys|
  {
    if |xs| == 0 then true
    else if |ys| == 0 then false
    else (xs[0] == ys[0] && SubsequenceOf(xs[1..], ys[1..])) || SubsequenceOf(xs, ys[1..])
  }

  /** The callback `findFromElement` hands to `forEach`: push the child onto
      the results when it matches. */
  function Collect(s: string): (callback: (seq<Element>, nat, Element) -> seq<Element>)
  {
    (results: seq<Element>, i: nat, child: Element) =>
      if Matches(child, s) then results + [child] else results
  }

  /** `findFromElement`, built on `forEach` as the source is. */
  method FindFromElement(e: Element, s: string) returns (results: seq<Element>)
    ensures results == MatchingChildren(e.children, s)
    ensures forall x :: x in results <==> x in e.children && Matches(x, s)
    ensures SubsequenceOf(results, e.children)
    ensures e.children == [] ==> results == []
  {
    results := ForEach(e.children, [], Collect(s));
    CollectFilters(e.children, |e.children|, s);
    assert e.children[..|e.children|] == e.children;
    MatchingChildrenMembers(e.children, s);
    MatchingChildrenIsSubsequence(e.children, s);
  }

  /** A child is among the results exactly when it is a direct child that
      matches. */
  lemma {:induction false} MatchingChildrenMembers(children: seq<Element>, s: string)
    ensures forall x :: x in MatchingChildren(children, s) <==> x in children && Matches(x, s)
    decreases |children|
  {
    if |children| > 0 {
      MatchingChildrenMembers(children[1..], s);
      assert children == [children[0]] + children[1..];
    }
  }

  /** Filtering a list with one more item at the end. */
  lemma {:induction false} MatchingChildrenAppend(xs: seq<Element>, x: Element, s: string)
    ensures MatchingChildren(xs + [x], s)
         == MatchingChildren(xs, s) + (if Matches(x, s) then [x] else [])
    decreases |xs|
  {
    if |xs| == 0 {
      assert [x][1..] == [];
    } else {
      assert (xs + [x])[1..] == xs[1..] + [x];
      MatchingChildrenAppend(xs[1..], x, s);
    }
  }

  /** After the first `n` callback calls, the results hold exactly the
      matching children among the first `n`. */
  lemma {:induction false} CollectFilters(children: seq<Element>, n: nat, s: string)
    requires n <= |children|
    ensures Visit(children, n, [], Collect(s)) == MatchingChildren(children[..n], s)
  {
    if n > 0 {
      var prev := Visit(children, n - 1, [], Collect(s));
      var x := children[n - 1];
      CollectFilters(children, n - 1, s);
      assert Visit(children, n, [], Collect(s)) == Collect(s)(prev, n - 1, x);
      assert children[..n] == children[..n - 1] + [x];
      MatchingChildrenAppend(children[..n - 1], x, s);
    }
  }

  /** The results keep the children's order: they are a subsequence. */
  lemma {:induction false} MatchingChildrenIsSubsequence(children: seq<Element>, s: string)
    ensures SubsequenceOf(MatchingChildren(children, s), children)
    decreases |children|
  {
    if |children| > 0 {
      var r := MatchingChildren(children[1..], s);
      MatchingChildrenIsSubsequence(children[1..], s);
      if Matches(children[0], s) {
        assert ([children[0]] + r)[1..] == r;
      } else {
        assert [] + r == r;
      }
    }
  }

  /** Two child lists that agree on every child's class string and id. */
  predicate SameShallow(a: seq<Element>, b: seq<Element>)
  {
    && |a| == |b|
    && forall i :: 0 <= i < |a| ==> a[i].className == b[i].className && a[i].id == b[i].id
  }

  /** The search is shallow: changing any child's own children (the
      grandchildren) changes nothing about which children are found. */
  lemma {:induction false} SearchIgnoresGrandchildren(a: seq<Element>, b: seq<Element>, s: string)
    requires SameShallow(a, b)
    ensures SameShallow(MatchingChildren(a, s), MatchingChildren(b, s))
    decreases |a|
  {
    if |a| > 0 {
      assert SameShallow(a[1..], b[1..]) by {
        forall i | 0 <= i < |a| - 1
          ensures a[1..][i].className == b[1..][i].className && a[1..][i].id == b[1..][i].id
        {
          assert a[1..][i] == a[i + 1] && b[1..][i] == b[i + 1];
        }
      }
      SearchIgnoresGrandchildren(a[1..], b[1..], s);
      assert Matches(a[0], s) == Matches(b[0], s);
      var ra, rb := MatchingChildren(a[1..], s), MatchingChildren(b[1..], s);
      if Matches(a[0], s) {
        var xa, xb := [a[0]] + ra, [b[0]] + rb;
        forall i | 0 <= i < |xa|
          ensures xa[i].className == xb[i].className && xa[i].id == xb[i].id
        {
          if i > 0 {
            assert xa[i] == ra[i - 1] && xb[i] == rb[i - 1];
          }
        }
      } else {
        assert [] + ra == ra && [] + rb == rb;
      }
    }
  }
}
