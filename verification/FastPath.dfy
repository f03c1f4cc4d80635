/** The v1 set operators: rounds over the heads of buffered streams. */
module FastPath {
  import opened SortedStreams
  import opened MergeSpec
  import opened StreamBuffers

  const BATCH_THRESHOLD: nat := 100

  /** What an operator has sent and is about to send. */
  datatype Output = Output(sent: seq<seq<Id>>, batch: seq<Id>) {
    function Written(): seq<Id> {
      Flatten(sent) + batch
    }

    /** A full batch is sent. */
    function Append(items: seq<Id>): (o: Output)
      ensures o.Written() == Written() + items && |o.batch| <= BATCH_THRESHOLD
    {
      var all := batch + items;
      FlattenAppend(sent, all);
      assert Flatten(sent) + all == Written() + items;
      if |all| > BATCH_THRESHOLD then Output(sent + [all], []) else Output(sent, all)
    }

    function Flushed(): (out: seq<seq<Id>>)
      ensures Flatten(out) == Written()
    {
      FlattenAppend(sent, batch);
      assert batch == [] ==> Flatten(sent) == Written();
      if |batch| > 0 then sent + [batch] else sent
    }
  }

  ghost predicate AllReady(ss: seq<Stream>) {
    AllValid(ss) && forall i :: 0 <= i < |ss| ==> ss[i].buffer.Some? && ss[i].buffer.value != []
  }

  lemma ReadyOwes(ss: seq<Stream>)
    requires AllReady(ss)
    ensures AllOwe(Rests(ss))
    ensures forall i :: 0 <= i < |ss| ==> Rests(ss)[i][0] == ss[i].buffer.value[0]
  {}

  /** Looks at the head of every stream; stops at the first exhausted buffer. */
  method ReadHeads(st: Streams) returns (ok: bool, heads: seq<Id>)
    requires AllValid(st.streams) && AllBuffered(st.streams)
    modifies st
    ensures AllValid(st.streams) && |st.streams| == |old(st.streams)| && Rests(st.streams) == Rests(old(st.streams))
    ensures forall i :: 0 <= i < |st.streams| ==> st.streams[i].idx == old(st.streams)[i].idx
    ensures ok ==> st.streams == old(st.streams) && AllReady(st.streams)
    ensures ok ==> AllOwe(Rests(st.streams)) && heads == Heads(Rests(st.streams))
    ensures !ok ==> TotalWork(st.streams) < TotalWork(old(st.streams))
  {
    heads := [];
    for i := 0 to |st.streams|
      invariant st.streams == old(st.streams) && |heads| == i
      invariant forall k :: 0 <= k < i ==> st.streams[k].buffer.value != [] && heads[k] == st.streams[k].buffer.value[0]
    {
      var v := st.Head(i);
      if v.None? {
        assert Rests(st.streams) == Rests(old(st.streams));
        return false, heads;
      }
      heads := heads + [v.value];
    }
    ReadyOwes(st.streams);
    ok := true;
  }

  /** Takes the head of every stream whose head is `target`. */
  method TakeEqual(st: Streams, heads: seq<Id>, target: Id)
    requires AllReady(st.streams) && AllOwe(Rests(st.streams)) && heads == Heads(Rests(st.streams))
    modifies st
    ensures AllValid(st.streams) && |st.streams| == |old(st.streams)|
    ensures forall i :: 0 <= i < |st.streams| ==> st.streams[i].idx == old(st.streams)[i].idx
    ensures Rests(st.streams) == Behead(Rests(old(st.streams)), target)
    ensures target in heads ==> TotalWork(st.streams) < TotalWork(old(st.streams))
  {
    hide Stream.Rest, Stream.Work, TotalWork;
    ghost var due := Rests(st.streams);
    for i := 0 to |st.streams|
      invariant |st.streams| == |old(st.streams)| && AllValid(st.streams)
      invariant forall k :: 0 <= k < |st.streams| ==> st.streams[k].idx == old(st.streams)[k].idx
      invariant forall k :: 0 <= k < i ==> st.streams[k].Rest() == Behead(due, target)[k]
      invariant forall k :: i <= k < |st.streams| ==> st.streams[k] == old(st.streams)[k]
      invariant TotalWork(st.streams) <= TotalWork(old(st.streams))
      invariant target in heads[..i] ==> TotalWork(st.streams) < TotalWork(old(st.streams))
    {
      assert heads[..i + 1] == heads[..i] + [heads[i]];
      if heads[i] == target {
        var _ := st.Next(i);
      }
    }
    assert heads[..|heads|] == heads;
  }

  /** Every operand without its head, where that is `target`. */
  function Behead(due: seq<seq<Id>>, target: Id): (rest: seq<seq<Id>>)
    requires AllOwe(due)
    ensures |rest| == |due|
    ensures forall i :: 0 <= i < |due| ==> rest[i] == if due[i][0] == target then due[i][1..] else due[i]
  {
    seq(|due|, i requires 0 <= i < |due| => if due[i][0] == target then due[i][1..] else due[i])
  }

  // ---- union --------------------------------------------------------------

  ghost predicate UnionSoFar(written: seq<Id>, due: seq<seq<Id>>, target: set<Id>) {
    && Sorted(true, written) && AllSorted(true, due)
    && Ahead(true, written, AnyOf(due))
    && Elems(written) + AnyOf(due) == target
  }

  function Smallest(heads: seq<Id>): (min: Id)
    requires heads != []
    ensures min in heads && forall h :: h in heads ==> min <= h
  {
    if |heads| == 1 then heads[0]
    else
      var rest := Smallest(heads[1..]);
      assert heads == [heads[0]] + heads[1..];
      if heads[0] < rest then heads[0] else rest
  }

  lemma BeheadMeaning(due: seq<seq<Id>>, min: Id)
    requires due != [] && AllOwe(due) && AllSorted(true, due) && min == Smallest(Heads(due))
    ensures min > 0 && AllSorted(true, Behead(due, min))
    ensures AnyOf(due) == AnyOf(Behead(due, min)) + {min}
    ensures forall x :: x in AnyOf(Behead(due, min)) ==> min < x
  {
    hide Sorted;
    var rest := Behead(due, min);
    var m :| 0 <= m < |due| && Heads(due)[m] == min;
    assert min == due[m][0] && min in due[m];
    SortedTail(true, due[m]);
    forall i | 0 <= i < |due| ensures Beheaded(due[i], rest[i], min) {
      assert Heads(due)[i] in Heads(due);
      BeheadOne(due[i], min);
    }
    forall x | x in AnyOf(due) && x != min ensures x in AnyOf(rest) {
      var i :| 0 <= i < |due| && x in due[i];
      assert Beheaded(due[i], rest[i], min);
    }
    forall x | x in AnyOf(rest) ensures x in AnyOf(due) && min < x {
      var i :| 0 <= i < |rest| && x in rest[i];
      assert Beheaded(due[i], rest[i], min);
    }
  }

  ghost predicate Beheaded(s: seq<Id>, r: seq<Id>, min: Id) {
    && min > 0 && Sorted(true, r)
    && (forall x :: x in r ==> min < x && x in s)
    && (forall x :: x in s && x != min ==> x in r)
  }

  lemma BeheadOne(s: seq<Id>, min: Id)
    requires Sorted(true, s) && s != [] && min <= s[0] && min > 0
    ensures Beheaded(s, if s[0] == min then s[1..] else s, min)
  {
    hide Sorted;
    SortedTail(true, s);
    HeadOrTail(s);
  }

  lemma UnionEmits(written: seq<Id>, due: seq<seq<Id>>, target: set<Id>, min: Id)
    requires due != [] && AllOwe(due) && UnionSoFar(written, due, target) && min == Smallest(Heads(due))
    ensures min > 0 && UnionSoFar(written + [min], Behead(due, min), target)
  {
    BeheadMeaning(due, min);
    assert min in AnyOf(due);
    SortedPush(true, written, min);
  }

  /** A stream is active exactly if some fetched stream that is not done equals it. */
  lemma ActiveFrom(before: seq<Stream>, fetched: seq<Stream>, i: nat) returns (j: nat)
    requires AllValid(before) && |fetched| == |before|
    requires forall i :: 0 <= i < |fetched| ==> fetched[i] == before[i].Fetched()
    requires i < |Active(fetched)|
    ensures j < |before| && Rests(Active(fetched))[i] == Rests(before)[j]
  {
    assert Active(fetched)[i] in fetched;
    j :| 0 <= j < |fetched| && fetched[j] == Active(fetched)[i];
  }

  lemma StaysActive(before: seq<Stream>, fetched: seq<Stream>, j: nat) returns (i: nat)
    requires AllValid(before) && |fetched| == |before|
    requires forall i :: 0 <= i < |fetched| ==> fetched[i] == before[i].Fetched()
    requires j < |before| && before[j].Rest() != []
    ensures i < |Active(fetched)| && Rests(Active(fetched))[i] == Rests(before)[j]
  {
    assert fetched[j] in Active(fetched);
    i :| 0 <= i < |Active(fetched)| && Active(fetched)[i] == fetched[j];
  }

  /** Dropping streams that are done loses nothing. */
  lemma ActiveOwe(before: seq<Stream>, fetched: seq<Stream>)
    requires AllValid(before) && |fetched| == |before|
    requires forall i :: 0 <= i < |fetched| ==> fetched[i] == before[i].Fetched()
    ensures AnyOf(Rests(Active(fetched))) == AnyOf(Rests(before))
    ensures AllSorted(true, Rests(before)) ==> AllSorted(true, Rests(Active(fetched)))
  {
    hide Active;
    var after := Active(fetched);
    forall x | x in AnyOf(Rests(after)) ensures x in AnyOf(Rests(before)) {
      var i :| 0 <= i < |after| && x in Rests(after)[i];
      var j := ActiveFrom(before, fetched, i);
    }
    forall x | x in AnyOf(Rests(before)) ensures x in AnyOf(Rests(after)) {
      var j :| 0 <= j < |before| && x in Rests(before)[j];
      var i := StaysActive(before, fetched, j);
    }
    forall i | 0 <= i < |after| && AllSorted(true, Rests(before)) ensures Sorted(true, Rests(after)[i]) {
      var j := ActiveFrom(before, fetched, i);
    }
  }

  lemma UnionCleans(written: seq<Id>, before: seq<Stream>, fetched: seq<Stream>, target: set<Id>)
    requires AllValid(before) && |fetched| == |before|
    requires forall i :: 0 <= i < |fetched| ==> fetched[i] == before[i].Fetched()
    requires UnionSoFar(written, Rests(before), target)
    ensures UnionSoFar(written, Rests(Active(fetched)), target)
  {
    ActiveOwe(before, fetched);
  }

  method FastPathUnion(st: Streams) returns (out: seq<seq<Id>>)
    requires AllValid(st.streams) && AllSorted(true, Rests(st.streams))
    modifies st
    ensures Sorted(true, Flatten(out))
    ensures Elems(Flatten(out)) == AnyOf(Rests(old(st.streams)))
  {
    hide UnionSoFar, Output.Written, Output.Append, AllReady, Stream.Rest, Stream.Work, TotalWork, Active, Sorted,
      AnyOf;
    ghost var target := AnyOf(Rests(st.streams));
    var o := Output([], []);
    UnionStarts(Rests(st.streams));
    while |st.streams| > 0
      invariant AllValid(st.streams) && UnionSoFar(o.Written(), Rests(st.streams), target)
      decreases TotalWork(st.streams)
    {
      ghost var before := st.streams;
      ghost var fetched := st.CleanDone();
      UnionCleans(o.Written(), before, fetched, target);
      var ok, heads := ReadHeads(st);
      if ok && heads != [] {
        var min := Smallest(heads);
        UnionEmits(o.Written(), Rests(st.streams), target, min);
        TakeEqual(st, heads, min);
        o := o.Append([min]);
      }
    }
    UnionDone(o.Written(), Rests(st.streams), target);
    out := o.Flushed();
  }

  lemma UnionStarts(due: seq<seq<Id>>)
    requires AllSorted(true, due)
    ensures UnionSoFar(Output([], []).Written(), due, AnyOf(due))
  {}

  lemma UnionDone(written: seq<Id>, due: seq<seq<Id>>, target: set<Id>)
    requires UnionSoFar(written, due, target) && due == []
    ensures Sorted(true, written) && Elems(written) == target
  {}

  // ---- intersection -------------------------------------------------------

  ghost predicate CommonSoFar(written: seq<Id>, due: seq<seq<Id>>, target: set<Id>) {
    && due != []
    && Sorted(true, written) && AllSorted(true, due)
    && Ahead(true, written, AllOf(due))
    && Elems(written) + AllOf(due) == target
  }

  lemma CommonStarts(due: seq<seq<Id>>)
    requires due != [] && AllSorted(true, due)
    ensures CommonSoFar(Output([], []).Written(), due, AllOf(due))
  {}

  lemma CommonEmits(written: seq<Id>, due: seq<seq<Id>>, target: set<Id>, max: Id)
    requires CommonSoFar(written, due, target) && AllOwe(due) && Level(Heads(due)) && max == Heads(due)[0]
    ensures max > 0 && CommonSoFar(written + [max], Behead(due, max), target)
  {
    assert Behead(due, max) == Tails(due) by {
      forall i | 0 <= i < |due| ensures Behead(due, max)[i] == Tails(due)[i] { assert Heads(due)[i] == max; }
    }
    TailsMeaning(due, true);
    SortedPush(true, written, max);
  }

  lemma CommonSkips(written: seq<Id>, due: seq<seq<Id>>, later: seq<seq<Id>>, target: set<Id>, max: Id)
    requires CommonSoFar(written, due, target) && AllOwe(due) && max == Largest(Heads(due))
    requires |later| == |due| && forall i :: 0 <= i < |due| ==> Dropped(due[i], later[i], max)
    ensures CommonSoFar(written, later, target)
  {
    forall i | 0 <= i < |due|
      ensures Sorted(true, later[i]) && Covers(due[i], later[i], max)
    {
      DroppedMeaning(due[i], later[i], max);
    }
    var m :| 0 <= m < |due| && Heads(due)[m] == max;
    SortedStart(true, due[m]);
    CoversAll(due, later, m, max);
  }

  ghost predicate Covers(s: seq<Id>, t: seq<Id>, target: Id) {
    (forall x :: x in t ==> x in s) && (forall x :: x in s && x >= target ==> x in t)
  }

  lemma CoversAll(due: seq<seq<Id>>, later: seq<seq<Id>>, m: nat, max: Id)
    requires |later| == |due| && m < |due|
    requires forall i :: 0 <= i < |due| ==> Covers(due[i], later[i], max)
    requires KeepsFrom(due[m], due[m], max)
    ensures AllOf(later) == AllOf(due)
  {}

  /** Cleaning either keeps every stream, or one was done and nothing common is left. */
  lemma CommonCleans(written: seq<Id>, before: seq<Stream>, fetched: seq<Stream>, target: set<Id>)
    requires AllValid(before) && |fetched| == |before|
    requires forall i :: 0 <= i < |fetched| ==> fetched[i] == before[i].Fetched()
    requires CommonSoFar(written, Rests(before), target)
    ensures |Active(fetched)| == |before| ==> CommonSoFar(written, Rests(Active(fetched)), target)
    ensures |Active(fetched)| != |before| ==> Elems(written) == target
    ensures Sorted(true, written)
  {
    if |Active(fetched)| == |before| {
      assert Rests(Active(fetched)) == Rests(before);
    } else {
      var j := SomeDone(fetched);
      assert Rests(before)[j] == [];
      assert AllOf(Rests(before)) == {};
    }
  }

  lemma {:induction false} SomeDone(ss: seq<Stream>) returns (j: nat)
    requires |Active(ss)| != |ss|
    ensures j < |ss| && ss[j].Done()
  {
    if ss[0].Done() {
      j := 0;
    } else {
      j := SomeDone(ss[1..]);
      j := j + 1;
    }
  }

  method SkipAll(st: Streams, max: Id)
    requires AllReady(st.streams) && AllOwe(Rests(st.streams))
    modifies st
    ensures AllValid(st.streams) && |st.streams| == |old(st.streams)|
    ensures forall i :: 0 <= i < |st.streams| ==> Dropped(Rests(old(st.streams))[i], Rests(st.streams)[i], max)
    ensures (exists i :: 0 <= i < |st.streams| && Rests(old(st.streams))[i][0] < max) ==>
              TotalWork(st.streams) < TotalWork(old(st.streams))
  {
    hide Stream.Rest, Stream.Work, TotalWork, Dropped;
    for i := 0 to |st.streams|
      invariant |st.streams| == |old(st.streams)| && AllValid(st.streams)
      invariant forall k :: 0 <= k < i ==> Dropped(old(st.streams)[k].Rest(), st.streams[k].Rest(), max)
      invariant forall k :: i <= k < |st.streams| ==> st.streams[k] == old(st.streams)[k]
      invariant TotalWork(st.streams) <= TotalWork(old(st.streams))
      invariant (exists k :: 0 <= k < i && old(st.streams)[k].Rest()[0] < max) ==>
                  TotalWork(st.streams) < TotalWork(old(st.streams))
    {
      st.SkipToTarget(i, max);
    }
  }

  /**
   One round of the loop; `short` says that a stream was done.  Over no streams at all a round changes
   neither the streams nor the output, so the loop's guard stays true and the loop never ends.
   */
  method IntersectionRound(st: Streams, childrenTotal: nat, o: Output, ghost target: set<Id>)
    returns (o': Output, short: bool)
    requires AllValid(st.streams) && |st.streams| == childrenTotal
    requires childrenTotal > 0 ==> CommonSoFar(o.Written(), Rests(st.streams), target)
    modifies st
    ensures childrenTotal == 0 ==> st.streams == [] && o' == o && !short
    ensures childrenTotal > 0 && short ==> Sorted(true, o'.Written()) && Elems(o'.Written()) == target
    ensures childrenTotal > 0 && !short ==>
              && AllValid(st.streams) && |st.streams| == childrenTotal
              && CommonSoFar(o'.Written(), Rests(st.streams), target)
              && TotalWork(st.streams) < TotalWork(old(st.streams))
  {
    hide CommonSoFar, Output.Written, Output.Append, AllReady, Stream.Rest, Stream.Work, TotalWork, Active, Sorted,
      AllOf;
    o' := o;
    ghost var before := st.streams;
    ghost var fetched := st.CleanDone();
    if childrenTotal > 0 {
      CommonCleans(o.Written(), before, fetched, target);
    }
    if |st.streams| != childrenTotal {
      return o, true;
    }
    short := false;
    var ok, heads := ReadHeads(st);
    if ok && heads != [] {
      o' := CommonRound(st, heads, o, target);
    }
  }

  method FastPathIntersection(st: Streams) returns (out: seq<seq<Id>>)
    requires AllValid(st.streams) && AllSorted(true, Rests(st.streams)) && st.streams != []
    modifies st
    ensures Sorted(true, Flatten(out))
    ensures Elems(Flatten(out)) == AllOf(Rests(old(st.streams)))
  {
    hide CommonSoFar, Output.Written, Output.Append, Stream.Rest, Stream.Work, TotalWork, Sorted, AllOf;
    ghost var target := AllOf(Rests(st.streams));
    var childrenTotal := |st.streams|;
    var o, short := Output([], []), false;
    CommonStarts(Rests(st.streams));
    while |st.streams| == childrenTotal
      invariant AllValid(st.streams) && |st.streams| == childrenTotal
      invariant CommonSoFar(o.Written(), Rests(st.streams), target)
      decreases TotalWork(st.streams)
    {
      o, short := IntersectionRound(st, childrenTotal, o, target);
      if short {
        return o.Flushed();
      }
    }
  }

  /** One round on all heads: take them if they agree, otherwise move up to the largest. */
  method CommonRound(st: Streams, heads: seq<Id>, o: Output, ghost target: set<Id>) returns (o': Output)
    requires AllReady(st.streams) && st.streams != [] && AllOwe(Rests(st.streams)) && heads == Heads(Rests(st.streams))
    requires CommonSoFar(o.Written(), Rests(st.streams), target)
    modifies st
    ensures AllValid(st.streams) && |st.streams| == |old(st.streams)|
    ensures CommonSoFar(o'.Written(), Rests(st.streams), target)
    ensures TotalWork(st.streams) < TotalWork(old(st.streams))
  {
    hide CommonSoFar, Output.Written, Output.Append, AllReady, Stream.Rest, Stream.Work, TotalWork, Dropped;
    ghost var due := Rests(st.streams);
    var max := Largest(heads);
    if forall i :: 0 <= i < |heads| ==> heads[i] == max {
      CommonEmits(o.Written(), due, target, max);
      TakeEqual(st, heads, max);
      o' := o.Append([max]);
    } else {
      Lagging(due, max);
      SkipAll(st, max);
      CommonSkips(o.Written(), due, Rests(st.streams), target, max);
      o' := o;
    }
  }

  lemma Lagging(due: seq<seq<Id>>, max: Id)
    requires due != [] && AllOwe(due) && max == Largest(Heads(due))
    requires !forall i :: 0 <= i < |due| ==> Heads(due)[i] == max
    ensures exists i :: 0 <= i < |due| && due[i][0] < max
  {
    var i :| 0 <= i < |due| && Heads(due)[i] != max;
    assert Heads(due)[i] in Heads(due);
    assert due[i][0] < max;
  }

  // ---- exclusion ----------------------------------------------------------

  ghost predicate RemainingSoFar(written: seq<Id>, base: seq<Id>, sub: seq<Id>, target: set<Id>) {
    && Sorted(true, written) && Sorted(true, base) && Sorted(true, sub)
    && Ahead(true, written, Elems(base))
    && Elems(written) + (Elems(base) - Elems(sub)) == target
  }

  /** At most the base (idx 0) and the subtracted stream (idx 1), in that order. */
  predicate BaseAndSub(ss: seq<Stream>) {
    && |ss| <= 2
    && (|ss| == 2 ==> ss[0].idx == 0 && ss[1].idx == 1)
    && (|ss| == 1 ==> ss[0].idx <= 1)
  }

  function RestOf(ss: seq<Stream>, idx: nat): seq<Id> {
    if ss == [] then [] else if ss[0].idx == idx then ss[0].Rest() else RestOf(ss[1..], idx)
  }

  lemma RemainingCleans(before: seq<Stream>, fetched: seq<Stream>)
    requires AllValid(before) && |fetched| == |before| && BaseAndSub(before)
    requires forall i :: 0 <= i < |fetched| ==> fetched[i] == before[i].Fetched()
    ensures BaseAndSub(Active(fetched))
    ensures RestOf(Active(fetched), 0) == RestOf(before, 0) && RestOf(Active(fetched), 1) == RestOf(before, 1)
  {}

  lemma RestOfBoth(ss: seq<Stream>)
    requires |ss| == 2 && BaseAndSub(ss)
    ensures RestOf(ss, 0) == ss[0].Rest() && RestOf(ss, 1) == ss[1].Rest()
  {}

  lemma RemainingEqual(written: seq<Id>, b: seq<Id>, s: seq<Id>, target: set<Id>)
    requires RemainingSoFar(written, b, s, target) && b != [] && s != [] && b[0] == s[0]
    ensures RemainingSoFar(written, b[1..], s[1..], target)
  {
    SortedTail(true, b);
    SortedTail(true, s);
    assert Elems(b) - Elems(s) == Elems(b[1..]) - Elems(s[1..]);
  }

  lemma RemainingKeeps(written: seq<Id>, b: seq<Id>, s: seq<Id>, target: set<Id>)
    requires RemainingSoFar(written, b, s, target) && b != [] && (s == [] || b[0] < s[0])
    ensures RemainingSoFar(written + [b[0]], b[1..], s, target)
  {
    SortedTail(true, b);
    if s != [] { SortedTail(true, s); }
    assert b[0] in Elems(b) && b[0] !in Elems(s);
    SortedPush(true, written, b[0]);
  }

  lemma RemainingSkips(written: seq<Id>, b: seq<Id>, s: seq<Id>, t: seq<Id>, target: set<Id>)
    requires RemainingSoFar(written, b, s, target) && b != [] && Dropped(s, t, b[0])
    ensures RemainingSoFar(written, b, t, target)
  {
    DroppedMeaning(s, t, b[0]);
    SortedStart(true, b);
    assert Elems(b) - Elems(s) == Elems(b) - Elems(t);
  }

  lemma {:induction false} RemainingDrains(written: seq<Id>, items: seq<Id>, rest: seq<Id>, target: set<Id>)
    requires RemainingSoFar(written, items + rest, [], target)
    ensures RemainingSoFar(written + items, rest, [], target)
    decreases items
  {
    if items == [] {
      assert items + rest == rest && written + items == written;
    } else {
      assert (items + rest)[1..] == items[1..] + rest;
      RemainingKeeps(written, items + rest, [], target);
      RemainingDrains(written + [items[0]], items[1..], rest, target);
      assert (written + [items[0]]) + items[1..] == written + items;
    }
  }

  method FastPathDifference(st: Streams) returns (out: seq<seq<Id>>)
    requires AllValid(st.streams) && AllSorted(true, Rests(st.streams))
    requires |st.streams| == 2 && BaseAndSub(st.streams)
    modifies st
    ensures Sorted(true, Flatten(out))
    ensures Elems(Flatten(out)) == Elems(old(st.streams)[0].Rest()) - Elems(old(st.streams)[1].Rest())
  {
    hide RemainingSoFar, Output.Written, Output.Append, Stream.Rest, Stream.Work, TotalWork, Active, Sorted, Elems;
    ghost var target := Elems(st.streams[0].Rest()) - Elems(st.streams[1].Rest());
    var o := SubtractBoth(st, target);
    ghost var before := st.streams;
    ghost var fetched := st.CleanDone();
    RemainingCleans(before, fetched);
    if |st.streams| == 1 && st.streams[0].idx == 0 {
      assert RestOf(st.streams[1..], 1) == [];
      o := DrainBase(st, o, target);
      RemainingDone(o.Written(), [], target);
    } else {
      assert |st.streams| == 1 ==> RestOf(st.streams[1..], 0) == [];
      RemainingDone(o.Written(), RestOf(st.streams, 1), target);
    }
    out := o.Flushed();
  }

  lemma RemainingDone(written: seq<Id>, sub: seq<Id>, target: set<Id>)
    requires RemainingSoFar(written, [], sub, target)
    ensures Sorted(true, written) && Elems(written) == target
  {}

  lemma RemainingStarts(b: seq<Id>, s: seq<Id>)
    requires Sorted(true, b) && Sorted(true, s)
    ensures RemainingSoFar(Output([], []).Written(), b, s, Elems(b) - Elems(s))
  {}

  /** One round on two heads. */
  method SubtractRound(st: Streams, heads: seq<Id>, o: Output, ghost target: set<Id>) returns (o': Output)
    requires AllReady(st.streams) && AllOwe(Rests(st.streams)) && heads == Heads(Rests(st.streams))
    requires |st.streams| == 2 && BaseAndSub(st.streams)
    requires RemainingSoFar(o.Written(), st.streams[0].Rest(), st.streams[1].Rest(), target)
    modifies st
    ensures AllValid(st.streams) && |st.streams| == 2 && BaseAndSub(st.streams)
    ensures RemainingSoFar(o'.Written(), st.streams[0].Rest(), st.streams[1].Rest(), target)
    ensures TotalWork(st.streams) < TotalWork(old(st.streams))
  {
    hide RemainingSoFar, Output.Written, Output.Append, AllReady, Stream.Rest, Stream.Work, TotalWork;
    assert AllBuffered(st.streams) && AllValid(st.streams) by { AllReadyFacts(st.streams); }
    o' := o;
    ghost var b, s := st.streams[0].Rest(), st.streams[1].Rest();
    var base, diff := heads[0], heads[1];
    assert base == b[0] && diff == s[0] && base in heads;
    if base == diff {
      RemainingEqual(o.Written(), b, s, target);
      TakeEqual(st, heads, base);
      TakenBoth(st.streams, [b, s], base);
    } else if diff > base {
      RemainingKeeps(o.Written(), b, s, target);
      TakeEqual(st, heads, base);
      TakenBoth(st.streams, [b, s], base);
      o' := o.Append([base]);
    } else {
      st.SkipToTarget(1, base);
      RemainingSkips(o.Written(), b, s, st.streams[1].Rest(), target);
    }
  }

  lemma AllReadyFacts(ss: seq<Stream>)
    requires AllReady(ss)
    ensures AllValid(ss) && AllBuffered(ss)
  {}

  lemma TakenBoth(ss: seq<Stream>, due: seq<seq<Id>>, target: Id)
    requires |ss| == |due| == 2 && AllOwe(due) && Rests(ss) == Behead(due, target)
    ensures ss[0].Rest() == if due[0][0] == target then due[0][1..] else due[0]
    ensures ss[1].Rest() == if due[1][0] == target then due[1][1..] else due[1]
  {}

  /** While base and subtracted stream both have something. */
  method SubtractBoth(st: Streams, ghost target: set<Id>) returns (o: Output)
    requires AllValid(st.streams) && AllSorted(true, Rests(st.streams))
    requires |st.streams| == 2 && BaseAndSub(st.streams)
    requires target == Elems(st.streams[0].Rest()) - Elems(st.streams[1].Rest())
    modifies st
    ensures AllValid(st.streams) && |st.streams| < 2 && BaseAndSub(st.streams)
    ensures RemainingSoFar(o.Written(), RestOf(st.streams, 0), RestOf(st.streams, 1), target)
  {
    hide RemainingSoFar, Output.Written, Output.Append, AllReady, Stream.Rest, Stream.Work, TotalWork, RestOf,
      Active, Sorted, Elems;
    o := Output([], []);
    assert Rests(st.streams)[0] == st.streams[0].Rest() && Rests(st.streams)[1] == st.streams[1].Rest();
    RestOfBoth(st.streams);
    RemainingStarts(RestOf(st.streams, 0), RestOf(st.streams, 1));
    while |st.streams| == 2
      invariant AllValid(st.streams) && BaseAndSub(st.streams)
      invariant RemainingSoFar(o.Written(), RestOf(st.streams, 0), RestOf(st.streams, 1), target)
      decreases TotalWork(st.streams)
    {
      ghost var before := st.streams;
      ghost var fetched := st.CleanDone();
      RemainingCleans(before, fetched);
      if |st.streams| != 2 {
        break;
      }
      RestOfBoth(st.streams);
      ghost var due := Rests(st.streams);
      var ok, heads := ReadHeads(st);
      assert st.streams[0].Rest() == due[0] && st.streams[1].Rest() == due[1];
      if ok {
        o := SubtractRound(st, heads, o, target);
      }
      RestOfBoth(st.streams);
    }
  }

  method DrainBase(st: Streams, o0: Output, ghost target: set<Id>) returns (o: Output)
    requires AllValid(st.streams) && AllBuffered(st.streams) && BaseAndSub(st.streams)
    requires |st.streams| == 1 && st.streams[0].idx == 0
    requires RemainingSoFar(o0.Written(), RestOf(st.streams, 0), [], target)
    modifies st
    ensures RemainingSoFar(o.Written(), [], [], target)
  {
    o := o0;
    while |st.streams| == 1
      invariant AllValid(st.streams) && AllBuffered(st.streams) && |st.streams| <= 1
      invariant |st.streams| == 1 ==> st.streams[0].idx == 0
      invariant RemainingSoFar(o.Written(), RestOf(st.streams, 0), [], target)
      decreases TotalWork(st.streams)
    {
      hide RemainingSoFar, Output.Written, Output.Append;
      ghost var b := st.streams[0].Rest();
      var items := st.Drain(0);
      RemainingDrains(o.Written(), items, st.streams[0].Rest(), target);
      o := o.Append(items);
      ghost var before := st.streams;
      ghost var fetched := st.CleanDone();
      RemainingCleans(before, fetched);
      assert |before| == 1;
    }
  }
}
