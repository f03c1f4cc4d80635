/**
 A leaf of the bottom-up pipeline: stored and contextual tuples merged by object.  The merge drops a
 duplicate only when the comparison says equal, and the leaf's comparison never does.
 */
module LeafMerge {
  import opened SortedStreams
  import opened MergeSpec

  /** The merging iterator, for any comparison. */
  function Merge(compare: (Id, Id) -> int, a: seq<Id>, b: seq<Id>): seq<Id> {
    if a == [] then b
    else if b == [] then a
    else if compare(a[0], b[0]) < 0 then [a[0]] + Merge(compare, a[1..], b)
    else if compare(a[0], b[0]) > 0 then [b[0]] + Merge(compare, a, b[1..])
    else [a[0]] + Merge(compare, a[1..], b[1..])
  }

  function LeafCompare(a: Id, b: Id): int {
    if a < b then -1 else 1
  }

  function Leaf(stored: seq<Id>, contextual: seq<Id>): seq<Id> {
    Merge(LeafCompare, stored, contextual)
  }

  /** Nothing is lost and nothing is dropped. */
  lemma {:induction false} LeafKeepsAll(a: seq<Id>, b: seq<Id>)
    ensures multiset(Leaf(a, b)) == multiset(a) + multiset(b)
    decreases |a| + |b|
  {
    if a != [] && b != [] {
      assert a == [a[0]] + a[1..] && b == [b[0]] + b[1..];
      if a[0] < b[0] {
        LeafKeepsAll(a[1..], b);
      } else {
        LeafKeepsAll(a, b[1..]);
      }
    }
  }

  lemma LeafElems(a: seq<Id>, b: seq<Id>)
    ensures Elems(Leaf(a, b)) == Elems(a) + Elems(b)
  {
    LeafKeepsAll(a, b);
    forall x ensures x in Leaf(a, b) <==> x in a || x in b {
      assert x in Leaf(a, b) <==> x in multiset(Leaf(a, b));
      assert x in a <==> x in multiset(a);
      assert x in b <==> x in multiset(b);
    }
  }

  lemma {:induction false} LeafSorted(a: seq<Id>, b: seq<Id>)
    requires Sorted(false, a) && Sorted(false, b)
    ensures Sorted(false, Leaf(a, b))
    decreases |a| + |b|
  {
    if a != [] && b != [] {
      hide Sorted;
      SortedTail(false, a);
      SortedTail(false, b);
      if a[0] < b[0] {
        LeafSorted(a[1..], b);
        LeafElems(a[1..], b);
        SortedCons(false, a[0], Leaf(a[1..], b));
      } else {
        LeafSorted(a, b[1..]);
        LeafElems(a, b[1..]);
        SortedCons(false, b[0], Leaf(a, b[1..]));
      }
    }
  }

  /** A sequence sorted without regard to repetition is strictly sorted iff it repeats nothing. */
  lemma {:induction false} StrictIff(s: seq<Id>)
    requires Sorted(false, s)
    ensures Sorted(true, s) <==> forall x :: multiset(s)[x] <= 1
  {
    if s != [] {
      SortedTail(false, s);
      StrictIff(s[1..]);
      assert s == [s[0]] + s[1..];
      if Sorted(true, s) {
        StrictCounts(s);
      } else if Sorted(true, s[1..]) {
        assert |s| > 1 && s[0] == s[1];
        assert s[1] in multiset(s[1..]);
        assert multiset(s)[s[0]] == 1 + multiset(s[1..])[s[0]];
      } else {
        var x :| multiset(s[1..])[x] > 1;
        assert multiset(s)[x] >= multiset(s[1..])[x];
      }
    }
  }

  lemma CountsBoth(a: seq<Id>, b: seq<Id>, x: Id)
    requires Sorted(true, a) && Sorted(true, b)
    ensures multiset(Leaf(a, b))[x] == (if x in a then 1 else 0) + (if x in b then 1 else 0)
  {
    LeafKeepsAll(a, b);
    StrictCounts(a);
    StrictCounts(b);
    assert x in a <==> x in multiset(a);
    assert x in b <==> x in multiset(b);
  }

  /** A leaf is strictly increasing exactly if no object has both a stored and a contextual tuple. */
  lemma LeafStrictIff(stored: seq<Id>, contextual: seq<Id>)
    requires Sorted(true, stored) && Sorted(true, contextual)
    ensures Sorted(true, Leaf(stored, contextual)) <==> Elems(stored) !! Elems(contextual)
  {
    hide Sorted, Leaf;
    Relaxed(stored);
    Relaxed(contextual);
    LeafSorted(stored, contextual);
    StrictIff(Leaf(stored, contextual));
    forall x ensures multiset(Leaf(stored, contextual))[x] <= 1 <==> !(x in stored && x in contextual) {
      CountsBoth(stored, contextual, x);
    }
    if x :| x in Elems(stored) && x in Elems(contextual) {
      assert multiset(Leaf(stored, contextual))[x] > 1;
    } else {
      assert forall x :: x in stored ==> x in Elems(stored);
      assert forall x :: x in contextual ==> x in Elems(contextual);
    }
  }

  /**
   Subtracting from a leaf is exact exactly if no subtracted object has both a stored and a
   contextual tuple.
   */
  lemma LeafExclusionIff(stored: seq<Id>, contextual: seq<Id>, sub: seq<Id>)
    requires Sorted(true, stored) && Sorted(true, contextual) && Sorted(true, sub)
    ensures var base := Leaf(stored, contextual);
            Elems(DifferenceStream(base, sub)) == Elems(base) - Elems(sub)
            <==> Elems(stored) * Elems(contextual) * Elems(sub) == {}
  {
    hide Sorted, Leaf, DifferenceStream;
    Relaxed(stored);
    Relaxed(contextual);
    Relaxed(sub);
    LeafSorted(stored, contextual);
    DifferenceExactIff(Leaf(stored, contextual), sub);
    StrictCounts(sub);
    forall x | x in sub
      ensures multiset(Leaf(stored, contextual))[x] <= multiset(sub)[x] <==> !(x in stored && x in contextual)
    {
      CountsBoth(stored, contextual, x);
      assert x in multiset(sub);
    }
    if x :| x in Elems(stored) * Elems(contextual) * Elems(sub) {
      assert x in sub && multiset(Leaf(stored, contextual))[x] > multiset(sub)[x];
    } else {
      forall x | x in sub ensures !(x in stored && x in contextual) {
        assert x in stored && x in contextual ==> x in Elems(stored) * Elems(contextual) * Elems(sub);
      }
    }
  }

  /** An object with both tuples survives being subtracted. */
  lemma RepeatedBaseSurvives()
    ensures Leaf([5], [5]) == [5, 5] && DifferenceStream(Leaf([5], [5]), [5]) == [5]
  {}
}
