/**
 Sorted streams of object ids.  Ids are compared and tested for emptiness, never
 looked into, so an id is its rank in the order of the strings involved; rank 0 is
 the empty string.
 */
module SortedStreams {

  type Id = nat

  predicate Before(strict: bool, a: Id, b: Id) {
    a < b || (!strict && a == b)
  }

  /** Non-empty ids, strictly increasing, or merely non-decreasing. */
  predicate Sorted(strict: bool, s: seq<Id>) {
    s == [] || (s[0] > 0 && (|s| > 1 ==> Before(strict, s[0], s[1])) && Sorted(strict, s[1..]))
  }

  /** Everything in `s` comes before everything in `X`. */
  ghost predicate Ahead(strict: bool, s: seq<Id>, X: set<Id>) {
    forall a, b :: a in s && b in X ==> Before(strict, a, b)
  }

  function Elems(s: seq<Id>): set<Id> {
    set x | x in s
  }

  function AnyOf(ss: seq<seq<Id>>): set<Id> {
    set i, x | 0 <= i < |ss| && x in ss[i] :: x
  }

  function AllOf(ss: seq<seq<Id>>): set<Id>
    requires |ss| > 0
  {
    set x | x in ss[0] && forall i :: 0 <= i < |ss| ==> x in ss[i]
  }

  function Flatten(batches: seq<seq<Id>>): seq<Id> {
    if batches == [] then [] else batches[0] + Flatten(batches[1..])
  }

  lemma {:induction false} FlattenAppend(batches: seq<seq<Id>>, last: seq<Id>)
    ensures Flatten(batches + [last]) == Flatten(batches) + last
  {
    if batches == [] {
      assert batches + [last] == [last];
    } else {
      assert (batches + [last])[1..] == batches[1..] + [last];
      FlattenAppend(batches[1..], last);
    }
  }

  lemma {:induction false} SortedTail(strict: bool, s: seq<Id>)
    requires Sorted(strict, s) && s != []
    ensures s[0] > 0 && Sorted(strict, s[1..])
    ensures forall x :: x in s[1..] ==> Before(strict, s[0], x)
    ensures Elems(s) == {s[0]} + Elems(s[1..])
  {
    assert s == [s[0]] + s[1..];
    if |s| > 1 {
      assert s[1..] == [s[1]] + s[1..][1..];
      SortedTail(strict, s[1..]);
    }
  }

  lemma {:induction false} SortedPush(strict: bool, s: seq<Id>, x: Id)
    requires Sorted(strict, s) && x > 0 && Ahead(strict, s, {x})
    ensures Sorted(strict, s + [x])
    ensures Elems(s + [x]) == Elems(s) + {x}
  {
    if s != [] {
      assert (s + [x])[1..] == s[1..] + [x];
      assert forall a :: a in s[1..] ==> a in s;
      SortedPush(strict, s[1..], x);
      assert s[0] in s;
    }
  }

  lemma SortedCons(strict: bool, x: Id, s: seq<Id>)
    requires Sorted(strict, s) && x > 0
    requires forall y :: y in Elems(s) ==> Before(strict, x, y)
    ensures Sorted(strict, [x] + s)
    ensures Elems([x] + s) == {x} + Elems(s)
  {}

  /** A strictly increasing sequence is determined by its elements. */
  lemma {:induction false} SortedUnique(s: seq<Id>, t: seq<Id>)
    requires Sorted(true, s) && Sorted(true, t) && Elems(s) == Elems(t)
    ensures s == t
  {
    assert (s != [] ==> s[0] in Elems(s)) && (t != [] ==> t[0] in Elems(t));
    if s != [] && t != [] {
      SortedTail(true, s);
      SortedTail(true, t);
      assert s[0] in Elems(t) && t[0] in Elems(s);
      assert s[0] == t[0];
      assert Elems(s[1..]) == Elems(s) - {s[0]};
      assert Elems(t[1..]) == Elems(t) - {t[0]};
      SortedUnique(s[1..], t[1..]);
    }
  }

  /** The batcher never passes on an empty id. */
  function Proper(s: seq<Id>): seq<Id> {
    if s == [] then [] else if s[0] == 0 then Proper(s[1..]) else [s[0]] + Proper(s[1..])
  }

  lemma {:induction false} ProperSorted(strict: bool, s: seq<Id>)
    requires Sorted(strict, s)
    ensures Proper(s) == s
  {
    if s != [] {
      ProperSorted(strict, s[1..]);
    }
  }

  /** Passing on the next id moves it from what is to come to what was written. */
  lemma PassOn(written: seq<Id>, x: Id, rest: seq<Id>)
    ensures (if x == 0 then written else written + [x]) + Proper(rest) == written + Proper([x] + rest)
  {}

  // ---- How a step changes the ids still to come ---------------------------

  lemma AnyOfTail(ss: seq<seq<Id>>, i: nat)
    requires i < |ss| && ss[i] != []
    ensures AnyOf(ss) == AnyOf(ss[i := ss[i][1..]]) + {ss[i][0]}
  {
    var tt := ss[i := ss[i][1..]];
    assert ss[i] == [ss[i][0]] + ss[i][1..];
    assert ss[i][0] in ss[i] && ss[i][0] in AnyOf(ss);
    forall x | x in AnyOf(ss) ensures x in AnyOf(tt) + {ss[i][0]} {
      var k :| 0 <= k < |ss| && x in ss[k];
      if k != i { assert x in tt[k]; } else if x != ss[i][0] { assert x in tt[i]; }
    }
    forall x | x in AnyOf(tt) ensures x in AnyOf(ss) {
      var k :| 0 <= k < |tt| && x in tt[k];
      assert x in ss[k];
    }
  }

  /** How many ids are still to come. */
  function Total(ss: seq<seq<Id>>): nat {
    if ss == [] then 0 else |ss[0]| + Total(ss[1..])
  }

  lemma {:induction false} TotalTail(ss: seq<seq<Id>>, i: nat)
    requires i < |ss| && ss[i] != []
    ensures Total(ss[i := ss[i][1..]]) == Total(ss) - 1
  {
    var tt := ss[i := ss[i][1..]];
    if i > 0 {
      assert tt[1..] == ss[1..][i - 1 := ss[i][1..]];
      TotalTail(ss[1..], i - 1);
    } else {
      assert tt[1..] == ss[1..];
    }
  }

  lemma {:induction false} TotalLess(ss: seq<seq<Id>>, tt: seq<seq<Id>>, k: nat)
    requires |ss| == |tt| && k < |ss|
    requires forall i :: 0 <= i < |ss| ==> |tt[i]| <= |ss[i]|
    requires |tt[k]| < |ss[k]|
    ensures Total(tt) < Total(ss)
  {
    if k > 0 {
      TotalLess(ss[1..], tt[1..], k - 1);
    } else {
      TotalLeq(ss[1..], tt[1..]);
    }
  }

  lemma {:induction false} TotalLeq(ss: seq<seq<Id>>, tt: seq<seq<Id>>)
    requires |ss| == |tt|
    requires forall i :: 0 <= i < |ss| ==> |tt[i]| <= |ss[i]|
    ensures Total(tt) <= Total(ss)
  {
    if ss != [] {
      TotalLeq(ss[1..], tt[1..]);
    }
  }

  // ---- Skipping ahead -----------------------------------------------------

  /** What is left of a stream once everything below `target` at its front is dropped. */
  function DropBelow(s: seq<Id>, target: Id): (t: seq<Id>)
    ensures |t| <= |s| && t == s[|s| - |t|..]
    ensures t != [] ==> t[0] >= target
  {
    if s == [] || s[0] >= target then s else DropBelow(s[1..], target)
  }

  lemma {:induction false} DropBelowSorted(strict: bool, s: seq<Id>, target: Id)
    requires Sorted(strict, s)
    ensures Sorted(strict, DropBelow(s, target))
    ensures forall x :: x in DropBelow(s, target) <==> x in s && x >= target
  {
    hide Sorted;
    if s != [] {
      SortedTail(strict, s);
      HeadOrTail(s);
      if s[0] < target {
        DropBelowSorted(strict, s[1..], target);
      }
    }
  }

  lemma HeadOrTail(s: seq<Id>)
    requires s != []
    ensures forall x :: x in s <==> x == s[0] || x in s[1..]
  {}
}
