/**
 What the v2 set operators compute, as functions of the ids each operand still owes
 ("due"), and what that means for sorted operands.
 */
module MergeSpec {
  import opened SortedStreams

  ghost predicate AllSorted(strict: bool, ss: seq<seq<Id>>) {
    forall i :: 0 <= i < |ss| ==> Sorted(strict, ss[i])
  }

  predicate Increasing(s: seq<nat>) {
    forall i, j :: 0 <= i < j < |s| ==> s[i] < s[j]
  }

  // ---- union --------------------------------------------------------------

  /** `active` lists, in order, exactly the operands that still owe something. */
  predicate Lists(active: seq<nat>, due: seq<seq<Id>>) {
    && Increasing(active)
    && (forall a :: 0 <= a < |active| ==> active[a] < |due| && due[active[a]] != [])
    && (forall i :: 0 <= i < |due| && due[i] != [] ==> i in active)
  }

  /** The operands among the first `k` that owe something. */
  function OwingBelow(due: seq<seq<Id>>, k: nat): (active: seq<nat>)
    requires k <= |due|
    ensures Increasing(active)
    ensures forall a :: 0 <= a < |active| ==> active[a] < k && due[active[a]] != []
    ensures forall i :: 0 <= i < k && due[i] != [] ==> i in active
  {
    if k == 0 then []
    else
      var before := OwingBelow(due, k - 1);
      if due[k - 1] != [] then
        assert (before + [k - 1])[|before|] == k - 1;
        assert forall i :: i in before ==> i in before + [k - 1];
        before + [k - 1]
      else before
  }

  function Owing(due: seq<seq<Id>>): (active: seq<nat>)
    ensures Lists(active, due)
  {
    OwingBelow(due, |due|)
  }

  /** One pass over the active heads: those kept so far, and the least of them. */
  datatype Scan = Scan(due: seq<seq<Id>>, kept: seq<nat>, min: nat)

  predicate Scanning(s: Scan, todo: seq<nat>) {
    Lists(s.kept + todo, s.due) && (s.kept != [] ==> s.min in s.kept)
  }

  /** Weighs one head against the least so far; a head equal to it is dropped as a duplicate. */
  function Weigh(s: Scan, todo: seq<nat>): (t: Scan)
    requires Scanning(s, todo) && todo != []
    ensures Scanning(t, todo[1..]) && t.kept != []
  {
    var idx := todo[0];
    assert (s.kept + todo)[|s.kept|] == idx;
    assert s.kept != [] ==> exists a :: 0 <= a < |s.kept| && s.kept[a] == s.min && (s.kept + todo)[a] == s.min;
    assert s.kept + todo == s.kept + [idx] + todo[1..];
    if s.kept == [] || s.due[idx][0] < s.due[s.min][0] then
      Scan(s.due, s.kept + [idx], idx)
    else if s.due[idx][0] > s.due[s.min][0] then
      s.(kept := s.kept + [idx])
    else
      var due := s.due[idx := s.due[idx][1..]];
      if due[idx] != [] then
        Scan(due, s.kept + [idx], s.min)
      else
        DropOne(s.kept, idx, todo[1..], s.due);
        s.(due := due)
  }

  lemma DropOne(kept: seq<nat>, idx: nat, rest: seq<nat>, due: seq<seq<Id>>)
    requires Lists(kept + [idx] + rest, due)
    ensures idx < |due| && Lists(kept + rest, due[idx := []])
  {
    var all, less := kept + [idx] + rest, kept + rest;
    assert all[|kept|] == idx;
    forall a | 0 <= a < |less| ensures less[a] == all[if a < |kept| then a else a + 1] {}
    forall i | i in all && i != idx ensures i in less {
      var a :| 0 <= a < |all| && all[a] == i;
      assert i == less[if a < |kept| then a else a - 1];
    }
  }

  function ScanFrom(s: Scan, todo: seq<nat>): (t: Scan)
    requires Scanning(s, todo) && (s.kept != [] || todo != [])
    ensures Scanning(t, []) && t.kept != []
    decreases todo
  {
    if todo == [] then s else ScanFrom(Weigh(s, todo), todo[1..])
  }

  /** No other operand that owes something and lies in `range` has a head that comes earlier. */
  ghost predicate Least(strict: bool, due: seq<seq<Id>>, range: seq<nat>, min: nat) {
    && min in range
    && forall i :: i in range && i < |due| && min < |due| && due[i] != [] && due[min] != [] && i != min ==>
         Before(strict, due[min][0], due[i][0])
  }

  lemma WeighConserves(s: Scan, todo: seq<nat>)
    requires Scanning(s, todo) && todo != []
    ensures var t := Weigh(s, todo);
            |t.due| == |s.due| && AnyOf(t.due) == AnyOf(s.due) && Total(t.due) <= Total(s.due)
  {
    var idx, t := todo[0], Weigh(s, todo);
    assert (s.kept + todo)[|s.kept|] == idx;
    if s.kept != [] {
      var a :| 0 <= a < |s.kept| && s.kept[a] == s.min;
      assert (s.kept + todo)[a] == s.min;
      if s.due[idx][0] == s.due[s.min][0] {
        AnyOfTail(s.due, idx);
        TotalTail(s.due, idx);
        assert t.due[s.min][0] in t.due[s.min];
      }
    }
  }

  lemma WeighOrders(s: Scan, todo: seq<nat>, strict: bool)
    requires Scanning(s, todo) && todo != []
    requires AllSorted(strict, s.due) && (s.kept != [] ==> Least(strict, s.due, s.kept, s.min))
    ensures var t := Weigh(s, todo);
            AllSorted(strict, t.due) && Least(strict, t.due, t.kept, t.min)
  {
    var idx, t := todo[0], Weigh(s, todo);
    assert (s.kept + todo)[|s.kept|] == idx;
    SortedTail(strict, s.due[idx]);
    if s.kept != [] {
      var a :| 0 <= a < |s.kept| && s.kept[a] == s.min;
      assert (s.kept + todo)[a] == s.min;
      if s.due[idx][0] == s.due[s.min][0] && t.due[idx] != [] {
        assert t.due[idx][0] in s.due[idx][1..];
      }
    }
  }

  lemma {:induction false} ScanConserves(s: Scan, todo: seq<nat>)
    requires Scanning(s, todo) && (s.kept != [] || todo != [])
    ensures var t := ScanFrom(s, todo);
            |t.due| == |s.due| && AnyOf(t.due) == AnyOf(s.due) && Total(t.due) <= Total(s.due)
    decreases todo
  {
    if todo != [] {
      WeighConserves(s, todo);
      ScanConserves(Weigh(s, todo), todo[1..]);
    }
  }

  lemma {:induction false} ScanOrders(s: Scan, todo: seq<nat>, strict: bool)
    requires Scanning(s, todo) && (s.kept != [] || todo != [])
    requires AllSorted(strict, s.due) && (s.kept != [] ==> Least(strict, s.due, s.kept, s.min))
    ensures var t := ScanFrom(s, todo);
            AllSorted(strict, t.due) && Least(strict, t.due, t.kept, t.min)
    decreases todo
  {
    if todo != [] {
      WeighOrders(s, todo, strict);
      ScanOrders(Weigh(s, todo), todo[1..], strict);
    }
  }

  function Without(s: seq<nat>, x: nat): seq<nat> {
    if s == [] then [] else if s[0] == x then Without(s[1..], x) else [s[0]] + Without(s[1..], x)
  }

  lemma {:induction false} WithoutOne(s: seq<nat>, a: nat)
    requires Increasing(s) && a < |s|
    ensures Without(s, s[a]) == s[..a] + s[a + 1..]
  {
    if a == 0 {
      WithoutNone(s[1..], s[0]);
    } else {
      assert s[0] < s[a];
      WithoutOne(s[1..], a - 1);
    }
  }

  lemma {:induction false} WithoutNone(s: seq<nat>, x: nat)
    requires x !in s
    ensures Without(s, x) == s
  {
    if s != [] {
      WithoutNone(s[1..], x);
    }
  }

  /** The state once the least head has been emitted and its operand advanced. */
  function Emitted(s: Scan): (t: Scan)
    requires Scanning(s, []) && s.kept != []
    ensures Lists(t.kept, t.due) && |t.due| == |s.due| && Total(t.due) == Total(s.due) - 1
    ensures s.min < |s.due| && s.due[s.min] != [] && t.due == s.due[s.min := s.due[s.min][1..]]
  {
    assert s.kept + [] == s.kept;
    AdvanceOne(s.kept, s.min, s.due);
    var due := s.due[s.min := s.due[s.min][1..]];
    if due[s.min] != [] then s.(due := due) else Scan(due, Without(s.kept, s.min), s.min)
  }

  lemma AdvanceOne(kept: seq<nat>, min: nat, due: seq<seq<Id>>)
    requires Lists(kept, due) && min in kept
    ensures min < |due| && due[min] != []
    ensures var due' := due[min := due[min][1..]];
            && Total(due') == Total(due) - 1
            && Lists(if due'[min] != [] then kept else Without(kept, min), due')
  {
    hide Total;
    var a :| 0 <= a < |kept| && kept[a] == min;
    TotalTail(due, min);
    if due[min][1..] == [] {
      DropMin(kept, a, due);
    }
  }

  lemma DropMin(kept: seq<nat>, a: nat, due: seq<seq<Id>>)
    requires Lists(kept, due) && a < |kept|
    ensures Lists(Without(kept, kept[a]), due[kept[a] := []])
  {
    hide Lists;
    WithoutOne(kept, a) by { KeptIncreasing(kept, due); }
    assert kept == kept[..a] + [kept[a]] + kept[a + 1..];
    DropOne(kept[..a], kept[a], kept[a + 1..], due);
  }

  lemma KeptIncreasing(kept: seq<nat>, due: seq<seq<Id>>)
    requires Lists(kept, due)
    ensures Increasing(kept)
  {}

  /** The merge of `resolveUnion`. */
  function UnionStream(due: seq<seq<Id>>, active: seq<nat>): seq<Id>
    requires Lists(active, due)
    decreases Total(due)
  {
    if active == [] then []
    else
      assert [] + active == active;
      var s := ScanFrom(Scan(due, [], 0), active);
      ScanConserves(Scan(due, [], 0), active);
      var t := Emitted(s);
      [s.due[s.min][0]] + UnionStream(t.due, t.kept)
  }

  /** It yields exactly the ids of all operands, in order. */
  lemma {:induction false} UnionStreamMeaning(due: seq<seq<Id>>, active: seq<nat>, strict: bool)
    requires Lists(active, due) && AllSorted(strict, due)
    ensures Elems(UnionStream(due, active)) == AnyOf(due)
    ensures Sorted(strict, UnionStream(due, active))
    decreases Total(due)
  {
    if active != [] {
      assert [] + active == active;
      var s := ScanFrom(Scan(due, [], 0), active);
      ScanConserves(Scan(due, [], 0), active);
      ScanOrders(Scan(due, [], 0), active, strict);
      LeastComesFirst(s, strict);
      var t := Emitted(s);
      UnionStreamMeaning(t.due, t.kept, strict);
      SortedCons(strict, s.due[s.min][0], UnionStream(t.due, t.kept));
    } else {
      assert AnyOf(due) == {};
    }
  }

  lemma LeastComesFirst(s: Scan, strict: bool)
    requires Scanning(s, []) && s.kept != []
    requires AllSorted(strict, s.due) && Least(strict, s.due, s.kept, s.min)
    ensures s.min < |s.due| && s.due[s.min] != []
    ensures var rest := s.due[s.min := s.due[s.min][1..]];
            && s.due[s.min][0] > 0 && AllSorted(strict, rest)
            && AnyOf(s.due) == AnyOf(rest) + {s.due[s.min][0]}
            && forall x :: x in AnyOf(rest) ==> Before(strict, s.due[s.min][0], x)
  {
    assert s.kept + [] == s.kept;
    var rest := s.due[s.min := s.due[s.min][1..]];
    AnyOfTail(s.due, s.min);
    SortedTail(strict, s.due[s.min]);
    forall x | x in AnyOf(rest) ensures Before(strict, s.due[s.min][0], x) {
      var i :| 0 <= i < |rest| && x in rest[i];
      SortedTail(strict, s.due[i]);
      assert s.due[i] == [s.due[i][0]] + s.due[i][1..];
    }
  }

  // ---- intersection -------------------------------------------------------

  predicate AllOwe(due: seq<seq<Id>>) {
    forall i :: 0 <= i < |due| ==> due[i] != []
  }

  function Heads(due: seq<seq<Id>>): (heads: seq<Id>)
    requires AllOwe(due)
    ensures |heads| == |due|
  {
    seq(|due|, i requires 0 <= i < |due| => due[i][0])
  }

  function Largest(heads: seq<Id>): (max: Id)
    requires heads != []
    ensures max in heads && forall h :: h in heads ==> h <= max
  {
    if |heads| == 1 then heads[0]
    else
      var rest := Largest(heads[1..]);
      assert heads == [heads[0]] + heads[1..];
      if rest < heads[0] then heads[0] else rest
  }

  function Tails(due: seq<seq<Id>>): (tails: seq<seq<Id>>)
    requires AllOwe(due)
    ensures |tails| == |due| && forall i :: 0 <= i < |due| ==> tails[i] == due[i][1..]
  {
    seq(|due|, i requires 0 <= i < |due| => due[i][1..])
  }

  function CaughtUp(due: seq<seq<Id>>, target: Id): (later: seq<seq<Id>>)
    ensures |later| == |due| && forall i :: 0 <= i < |due| ==> later[i] == DropBelow(due[i], target)
  {
    seq(|due|, i requires 0 <= i < |due| => DropBelow(due[i], target))
  }

  predicate Level(heads: seq<Id>) {
    forall i :: 0 <= i < |heads| ==> heads[i] == heads[0]
  }

  /** The walk of `resolveIntersection`. */
  function IntersectionStream(due: seq<seq<Id>>): seq<Id>
    requires due != []
    decreases Total(due)
  {
    if !AllOwe(due) then []
    else if Level(Heads(due)) then
      TotalLess(due, Tails(due), 0);
      [due[0][0]] + IntersectionStream(Tails(due))
    else
      var max := Largest(Heads(due));
      var k :| 0 <= k < |due| && Heads(due)[k] != max;
      assert Heads(due)[k] in Heads(due);
      TotalLess(due, CaughtUp(due, max), k);
      IntersectionStream(CaughtUp(due, max))
  }

  lemma TailsMeaning(due: seq<seq<Id>>, strict: bool)
    requires due != [] && AllOwe(due) && AllSorted(strict, due) && Level(Heads(due))
    ensures AllSorted(strict, Tails(due)) && due[0][0] > 0
    ensures AllOf(due) == {due[0][0]} + AllOf(Tails(due))
    ensures forall x :: x in AllOf(Tails(due)) ==> Before(strict, due[0][0], x)
  {
    var tails, v := Tails(due), due[0][0];
    forall i | 0 <= i < |due| ensures Sorted(strict, tails[i]) && due[i] == [v] + tails[i] {
      assert Heads(due)[i] == v;
      SortedTail(strict, due[i]);
    }
    SortedTail(strict, due[0]);
    forall x | x in AllOf(due) && x != v ensures x in AllOf(tails) {
      forall i | 0 <= i < |due| ensures x in tails[i] { assert x in due[i]; }
    }
    forall x | x in AllOf(tails) ensures x in AllOf(due) {
      forall i | 0 <= i < |due| ensures x in due[i] { assert x in tails[i]; }
    }
    assert forall i :: 0 <= i < |due| ==> v in due[i];
  }

  ghost predicate KeepsFrom(t: seq<Id>, s: seq<Id>, target: Id) {
    forall x :: x in t <==> x in s && x >= target
  }

  lemma AllOfAbove(due: seq<seq<Id>>, later: seq<seq<Id>>, m: nat, max: Id)
    requires |later| == |due| && m < |due|
    requires forall i :: 0 <= i < |due| ==> KeepsFrom(later[i], due[i], max)
    requires KeepsFrom(due[m], due[m], max)
    ensures AllOf(later) == AllOf(due)
  {}

  lemma CaughtUpMeaning(due: seq<seq<Id>>, strict: bool)
    requires due != [] && AllOwe(due) && AllSorted(strict, due)
    ensures var later := CaughtUp(due, Largest(Heads(due)));
            AllSorted(strict, later) && AllOf(later) == AllOf(due)
  {
    var max := Largest(Heads(due));
    var later := CaughtUp(due, max);
    forall i | 0 <= i < |due| ensures Sorted(strict, later[i]) && KeepsFrom(later[i], due[i], max) {
      DropBelowSorted(strict, due[i], max);
    }
    var m :| 0 <= m < |due| && Heads(due)[m] == max;
    SortedStart(strict, due[m]);
    AllOfAbove(due, later, m, max);
  }

  lemma SortedStart(strict: bool, s: seq<Id>)
    requires Sorted(strict, s) && s != []
    ensures KeepsFrom(s, s, s[0])
  {
    SortedTail(strict, s);
    assert s == [s[0]] + s[1..];
  }

  /** It yields exactly the ids common to all operands, in order. */
  lemma {:induction false} IntersectionStreamMeaning(due: seq<seq<Id>>, strict: bool)
    requires due != [] && AllSorted(strict, due)
    ensures Elems(IntersectionStream(due)) == AllOf(due)
    ensures Sorted(strict, IntersectionStream(due))
    decreases Total(due)
  {
    if !AllOwe(due) {
      assert AllOf(due) == {};
    } else if Level(Heads(due)) {
      TotalLess(due, Tails(due), 0);
      TailsMeaning(due, strict);
      IntersectionStreamMeaning(Tails(due), strict);
      SortedCons(strict, due[0][0], IntersectionStream(Tails(due)));
    } else {
      var max := Largest(Heads(due));
      var k :| 0 <= k < |due| && Heads(due)[k] != max;
      assert Heads(due)[k] in Heads(due);
      TotalLess(due, CaughtUp(due, max), k);
      CaughtUpMeaning(due, strict);
      IntersectionStreamMeaning(CaughtUp(due, max), strict);
    }
  }

  // ---- exclusion ----------------------------------------------------------

  /** The walk of `resolveDifference`. */
  function DifferenceStream(base: seq<Id>, sub: seq<Id>): seq<Id>
    decreases |base| + |sub|
  {
    if base == [] || sub == [] then base
    else if base[0] == sub[0] then DifferenceStream(base[1..], sub[1..])
    else if base[0] < sub[0] then [base[0]] + DifferenceStream(base[1..], sub)
    else DifferenceStream(base, DropBelow(sub, base[0]))
  }

  lemma {:induction false} DifferenceSorted(strict: bool, base: seq<Id>, sub: seq<Id>)
    requires Sorted(strict, base)
    ensures Sorted(strict, DifferenceStream(base, sub))
    ensures Elems(DifferenceStream(base, sub)) <= Elems(base)
    decreases |base| + |sub|
  {
    if base != [] && sub != [] {
      SortedTail(strict, base);
      if base[0] == sub[0] {
        DifferenceSorted(strict, base[1..], sub[1..]);
      } else if base[0] < sub[0] {
        DifferenceSorted(strict, base[1..], sub);
        assert forall x :: x in Elems(base[1..]) ==> x in base[1..];
        SortedCons(strict, base[0], DifferenceStream(base[1..], sub));
      } else {
        DifferenceSorted(strict, base, DropBelow(sub, base[0]));
      }
    }
  }

  lemma SortedFrom(s: seq<Id>)
    requires Sorted(false, s) && s != []
    ensures forall x :: x in multiset(s) ==> x >= s[0]
  {
    SortedTail(false, s);
    assert s == [s[0]] + s[1..];
  }

  lemma CaughtUpCancels(base: seq<Id>, sub: seq<Id>)
    requires Sorted(false, base) && base != []
    ensures multiset(base) - multiset(DropBelow(sub, base[0])) == multiset(base) - multiset(sub)
  {
    SortedFrom(base);
    DropBelowCounts(sub, base[0]);
  }

  /** Each subtracted id cancels one occurrence of itself in the base. */
  lemma {:induction false} DifferenceCancels(base: seq<Id>, sub: seq<Id>)
    requires Sorted(false, base) && Sorted(false, sub)
    ensures multiset(DifferenceStream(base, sub)) == multiset(base) - multiset(sub)
    decreases |base| + |sub|
  {
    if base != [] && sub != [] {
      if base[0] == sub[0] {
        DifferenceCancels(base[1..], sub[1..]);
        HeadsCancel(base, sub);
      } else if base[0] < sub[0] {
        DifferenceCancels(base[1..], sub);
        HeadStays(base, sub);
      } else {
        DropBelowSorted(false, sub, base[0]);
        DifferenceCancels(base, DropBelow(sub, base[0]));
        CaughtUpCancels(base, sub);
      }
    }
  }

  lemma HeadsCancel(base: seq<Id>, sub: seq<Id>)
    requires base != [] && sub != [] && base[0] == sub[0]
    ensures multiset(base) - multiset(sub) == multiset(base[1..]) - multiset(sub[1..])
  {
    assert base == [base[0]] + base[1..] && sub == [sub[0]] + sub[1..];
  }

  lemma HeadStays(base: seq<Id>, sub: seq<Id>)
    requires base != [] && sub != [] && Sorted(false, sub) && base[0] < sub[0]
    ensures multiset(base) - multiset(sub) == multiset([base[0]]) + (multiset(base[1..]) - multiset(sub))
  {
    SortedFrom(sub);
    assert base[0] !in multiset(sub);
    assert base == [base[0]] + base[1..];
  }

  lemma {:induction false} DropBelowCounts(s: seq<Id>, target: Id)
    ensures forall x :: x >= target ==> multiset(DropBelow(s, target))[x] == multiset(s)[x]
  {
    if s != [] && s[0] < target {
      assert s == [s[0]] + s[1..];
      DropBelowCounts(s[1..], target);
    }
  }

  /**
   Exclusion is set difference exactly when no subtracted id occurs more often in the
   base than among the subtracted ones.
   */
  lemma DifferenceExactIff(base: seq<Id>, sub: seq<Id>)
    requires Sorted(false, base) && Sorted(false, sub)
    ensures Elems(DifferenceStream(base, sub)) == Elems(base) - Elems(sub)
            <==> forall x :: x in sub ==> multiset(base)[x] <= multiset(sub)[x]
  {
    hide Sorted, DifferenceStream;
    DifferenceCancels(base, sub);
    var out := DifferenceStream(base, sub);
    forall x ensures x in out <==> multiset(base)[x] > multiset(sub)[x] {
      assert x in out <==> x in multiset(out);
    }
    forall x ensures x in base <==> multiset(base)[x] > 0 {
      assert x in base <==> x in multiset(base);
    }
    forall x ensures x in sub <==> multiset(sub)[x] > 0 {
      assert x in sub <==> x in multiset(sub);
    }
    if x :| x in sub && multiset(base)[x] > multiset(sub)[x] {
      assert x in Elems(out) && x !in Elems(base) - Elems(sub);
    }
  }

  lemma {:induction false} StrictCounts(s: seq<Id>)
    requires Sorted(true, s)
    ensures forall x :: multiset(s)[x] <= 1
  {
    if s != [] {
      SortedTail(true, s);
      assert s == [s[0]] + s[1..];
      StrictCounts(s[1..]);
      assert s[0] !in multiset(s[1..]);
    }
  }

  /** A strictly increasing base leaves no room for repetition. */
  lemma DifferenceStreamMeaning(base: seq<Id>, sub: seq<Id>)
    requires Sorted(true, base) && Sorted(false, sub)
    ensures Elems(DifferenceStream(base, sub)) == Elems(base) - Elems(sub)
    ensures Sorted(true, DifferenceStream(base, sub))
  {
    DifferenceSorted(true, base, sub);
    StrictCounts(base);
    Relaxed(base);
    DifferenceExactIff(base, sub);
    forall x | x in sub ensures multiset(base)[x] <= multiset(sub)[x] {
      assert x in multiset(sub);
    }
  }

  lemma {:induction false} Relaxed(s: seq<Id>)
    requires Sorted(true, s)
    ensures Sorted(false, s)
  {
    if s != [] {
      Relaxed(s[1..]);
    }
  }
}
