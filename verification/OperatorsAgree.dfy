/**
 The v1 and the v2 set operators write the same ids in the same order, however each of
 them gets its operands cut into batches.
 */
module OperatorsAgree {
  import opened Options
  import opened SortedStreams
  import opened MergeSpec
  import opened ChannelIterators
  import opened StreamBuffers
  import BottomUp
  import FastPath

  type Batches = seq<seq<Id>>

  /** The same strictly sorted operands, batched in two ways. */
  ghost predicate SameOperands(a: seq<Batches>, b: seq<Batches>) {
    && |a| == |b|
    && forall i :: 0 <= i < |a| ==> Flatten(a[i]) == Flatten(b[i]) && Sorted(true, Flatten(a[i]))
  }

  function Operands(a: seq<Batches>): (streams: seq<seq<Id>>)
    ensures |streams| == |a| && forall i :: 0 <= i < |a| ==> streams[i] == Flatten(a[i])
  {
    seq(|a|, i requires 0 <= i < |a| => Flatten(a[i]))
  }

  method OpenStreams(a: seq<Batches>) returns (st: Streams)
    ensures fresh(st) && AllValid(st.streams) && Rests(st.streams) == Operands(a)
    ensures |st.streams| == |a| && forall i :: 0 <= i < |a| ==> st.streams[i].idx == i
  {
    st := new Streams(seq(|a|, i requires 0 <= i < |a| => Stream(i, None, a[i], false)));
    forall i | 0 <= i < |a| ensures st.streams[i].Rest() == Operands(a)[i] {
      assert [] + Flatten(a[i]) == Flatten(a[i]);
    }
  }

  method OpenIterators(a: seq<Batches>) returns (iters: seq<ChannelIterator>)
    ensures |iters| == |a| && BottomUp.Distinct(iters)
    ensures forall i :: 0 <= i < |a| ==> fresh(iters[i]) && iters[i].Rest() == Operands(a)[i]
  {
    hide ChannelIterator.Rest;
    iters := [];
    for k := 0 to |a|
      invariant |iters| == k && BottomUp.Distinct(iters)
      invariant forall i :: 0 <= i < k ==> fresh(iters[i]) && iters[i].Rest() == Operands(a)[i]
    {
      var iter := new ChannelIterator.FromChannel(a[k]);
      iters := iters + [iter];
    }
  }

  method Unions(a: seq<Batches>, b: seq<Batches>) returns (v1: Batches, v2: Batches)
    requires SameOperands(a, b)
    ensures Flatten(v1) == Flatten(v2)
  {
    ghost var streams := Operands(b);
    assert Operands(a) == streams;
    var st := OpenStreams(a);
    v1 := FastPath.FastPathUnion(st);
    var iters := OpenIterators(b);
    v2 := BottomUp.ResolveUnion(iters, streams);
    UnionStreamMeaning(streams, Owing(streams), true);
    ProperSorted(true, UnionStream(streams, Owing(streams)));
    SortedUnique(Flatten(v1), Flatten(v2));
  }

  method Intersections(a: seq<Batches>, b: seq<Batches>) returns (v1: Batches, v2: Batches)
    requires SameOperands(a, b) && a != []
    ensures Flatten(v1) == Flatten(v2)
  {
    ghost var streams := Operands(b);
    assert Operands(a) == streams;
    var st := OpenStreams(a);
    v1 := FastPath.FastPathIntersection(st);
    var iters := OpenIterators(b);
    v2 := BottomUp.ResolveIntersection(iters, streams);
    IntersectionStreamMeaning(streams, true);
    ProperSorted(true, IntersectionStream(streams));
    SortedUnique(Flatten(v1), Flatten(v2));
  }

  method Differences(a: seq<Batches>, b: seq<Batches>) returns (v1: Batches, v2: Batches)
    requires SameOperands(a, b) && |a| == 2
    ensures Flatten(v1) == Flatten(v2)
  {
    ghost var streams := Operands(b);
    assert Operands(a) == streams;
    var st := OpenStreams(a);
    assert Rests(st.streams)[0] == streams[0] && Rests(st.streams)[1] == streams[1];
    v1 := FastPath.FastPathDifference(st);
    var iters := OpenIterators(b);
    v2 := BottomUp.ResolveDifference(iters, streams);
    Relaxed(streams[1]);
    DifferenceStreamMeaning(streams[0], streams[1]);
    ProperSorted(true, DifferenceStream(streams[0], streams[1]));
    SortedUnique(Flatten(v1), Flatten(v2));
  }
}
