/** The v2 set operators: loops over channel iterators that write to a batched channel. */
module BottomUp {
  import opened Options
  import opened SortedStreams
  import opened MergeSpec
  import opened ChannelIterators

  ghost predicate Distinct(iters: seq<ChannelIterator>) {
    forall i, j :: 0 <= i < j < |iters| ==> iters[i] != iters[j]
  }

  /** Where an iterator owes something, its head has been read into `heads` and the rest is still behind it. */
  ghost predicate Tied(iters: seq<ChannelIterator>, heads: seq<Id>, due: seq<seq<Id>>)
    reads iters
  {
    && |heads| == |due| == |iters|
    && forall i :: 0 <= i < |iters| && due[i] != [] ==> due[i][0] == heads[i] && iters[i].Rest() == due[i][1..]
  }

  /** Reads the next head of one iterator. */
  method Advance(iters: seq<ChannelIterator>, idx: nat, heads: seq<Id>, ghost due: seq<seq<Id>>)
    returns (ok: bool, heads': seq<Id>)
    requires Distinct(iters) && Tied(iters, heads, due)
    requires idx < |iters| && due[idx] != []
    modifies iters[idx]
    ensures ok <==> due[idx][1..] != []
    ensures Tied(iters, heads', due[idx := due[idx][1..]])
  {
    var v := iters[idx].Next();
    ok := v.Some?;
    heads' := if ok then heads[idx := v.value] else heads;
  }

  // ---- union --------------------------------------------------------------

  /** The positions a scan looks at are in range. */
  lemma ScanningAt(s: Scan, todo: seq<nat>)
    requires Scanning(s, todo) && todo != []
    ensures todo[0] < |s.due| && s.due[todo[0]] != []
    ensures s.kept != [] ==> s.min < |s.due| && s.due[s.min] != []
  {
    assert (s.kept + todo)[|s.kept|] == todo[0];
    if s.kept != [] {
      var a :| 0 <= a < |s.kept| && s.kept[a] == s.min;
      assert (s.kept + todo)[a] == s.min;
    }
  }

  method WeighHead(iters: seq<ChannelIterator>, heads: seq<Id>, todo: seq<nat>, kept: seq<nat>, min: nat,
                   ghost due: seq<seq<Id>>)
    returns (heads': seq<Id>, kept': seq<nat>, min': nat, ghost due': seq<seq<Id>>)
    requires Distinct(iters) && Tied(iters, heads, due)
    requires Scanning(Scan(due, kept, min), todo) && todo != []
    modifies iters
    ensures Scan(due', kept', min') == Weigh(Scan(due, kept, min), todo)
    ensures Tied(iters, heads', due')
  {
    ScanningAt(Scan(due, kept, min), todo);
    var idx, keep := todo[0], true;
    heads', min', due' := heads, min, due;
    if kept == [] || heads[idx] < heads[min] {
      min' := idx;
    } else if heads[idx] == heads[min] {
      keep, heads' := Advance(iters, idx, heads, due);
      due' := due[idx := due[idx][1..]];
    }
    kept' := if keep then kept + [idx] else kept;
  }

  /** One pass over the active heads, dropping duplicates of the least one so far. */
  method ScanHeads(iters: seq<ChannelIterator>, heads: seq<Id>, active: seq<nat>, ghost due: seq<seq<Id>>)
    returns (heads': seq<Id>, kept: seq<nat>, min: nat, ghost due': seq<seq<Id>>)
    requires Distinct(iters) && Tied(iters, heads, due)
    requires Scanning(Scan(due, [], 0), active) && active != []
    modifies iters
    ensures Scan(due', kept, min) == ScanFrom(Scan(due, [], 0), active)
    ensures Tied(iters, heads', due')
  {
    heads', kept, min, due' := heads, [], 0, due;
    var todo := active;
    while todo != []
      invariant Scanning(Scan(due', kept, min), todo) && (kept != [] || todo != [])
      invariant ScanFrom(Scan(due', kept, min), todo) == ScanFrom(Scan(due, [], 0), active)
      invariant Tied(iters, heads', due')
    {
      heads', kept, min, due' := WeighHead(iters, heads', todo, kept, min, due');
      todo := todo[1..];
    }
  }

  /** Reads the first head of every iterator. */
  method ReadHeads(iters: seq<ChannelIterator>, ghost streams: seq<seq<Id>>) returns (heads: seq<Id>, active: seq<nat>)
    requires Distinct(iters) && |streams| == |iters|
    requires forall i :: 0 <= i < |iters| ==> iters[i].Rest() == streams[i]
    modifies iters
    ensures Tied(iters, heads, streams) && active == Owing(streams)
  {
    hide ChannelIterator.Rest, Batcher.Written, Increasing, Lists;
    heads, active := [], [];
    for idx := 0 to |iters|
      invariant |heads| == idx && active == OwingBelow(streams, idx)
      invariant forall i :: 0 <= i < idx && streams[i] != [] ==>
                  heads[i] == streams[i][0] && iters[i].Rest() == streams[i][1..]
      invariant forall i :: idx <= i < |iters| ==> iters[i].Rest() == streams[i]
    {
      var v := iters[idx].Next();
      if v.Some? {
        heads, active := heads + [v.value], active + [idx];
      } else {
        heads := heads + [0];
      }
    }
  }

  lemma UnionStreamStep(due: seq<seq<Id>>, active: seq<nat>)
    requires Lists(active, due) && active != []
    ensures Scanning(Scan(due, [], 0), active)
    ensures var s := ScanFrom(Scan(due, [], 0), active);
            var t := Emitted(s);
            UnionStream(due, active) == [s.due[s.min][0]] + UnionStream(t.due, t.kept)
  {}

  /** One round of the merge: the least head, and everything moved past it. */
  method NextLeast(iters: seq<ChannelIterator>, heads: seq<Id>, active: seq<nat>, ghost due: seq<seq<Id>>)
    returns (value: Id, heads': seq<Id>, active': seq<nat>, ghost due': seq<seq<Id>>)
    requires Distinct(iters) && Tied(iters, heads, due)
    requires Lists(active, due) && active != []
    modifies iters
    ensures Tied(iters, heads', due') && Lists(active', due') && Total(due') < Total(due)
    ensures UnionStream(due, active) == [value] + UnionStream(due', active')
  {
    hide ChannelIterator.Rest, ScanFrom, UnionStream, Total, Increasing, Without;
    assert [] + active == active;
    ghost var s := ScanFrom(Scan(due, [], 0), active);
    ScanConserves(Scan(due, [], 0), active);
    ghost var t := Emitted(s);
    UnionStreamStep(due, active);
    var kept, min, ok;
    heads', kept, min, due' := ScanHeads(iters, heads, active, due);
    value := heads'[min];
    ok, heads' := Advance(iters, min, heads', due');
    active' := if ok then kept else Without(kept, min);
    due' := t.due;
  }

  method MergeInto(batch: Batcher, iters: seq<ChannelIterator>, heads0: seq<Id>, active0: seq<nat>,
                   ghost streams: seq<seq<Id>>)
    requires Distinct(iters) && Tied(iters, heads0, streams) && Lists(active0, streams)
    modifies iters, batch
    ensures batch.Written() == old(batch.Written()) + Proper(UnionStream(streams, active0))
  {
    var heads, active := heads0, active0;
    ghost var due := streams;
    while active != []
      invariant Tied(iters, heads, due) && Lists(active, due)
      invariant batch.Written() + Proper(UnionStream(due, active)) ==
                  old(batch.Written()) + Proper(UnionStream(streams, active0))
      decreases Total(due)
    {
      var value;
      value, heads, active, due := NextLeast(iters, heads, active, due);
      PassOn(batch.Written(), value, UnionStream(due, active));
      batch.Add(value);
    }
    assert batch.Written() + [] == batch.Written();
  }

  method ResolveUnion(iters: seq<ChannelIterator>, ghost streams: seq<seq<Id>>) returns (out: seq<seq<Id>>)
    requires Distinct(iters) && |streams| == |iters|
    requires forall i :: 0 <= i < |iters| ==> iters[i].Rest() == streams[i]
    modifies iters
    ensures Flatten(out) == Proper(UnionStream(streams, Owing(streams)))
  {
    var batch := new Batcher();
    var heads, active := ReadHeads(iters, streams);
    MergeInto(batch, iters, heads, active, streams);
    out := batch.Close();
  }

  // ---- intersection -------------------------------------------------------

  method Compare(heads: seq<Id>) returns (max: Id, same: bool)
    requires heads != []
    ensures max == Largest(heads) && (same <==> Level(heads))
  {
    max, same := heads[0], true;
    for i := 1 to |heads|
      invariant max in heads[..i] && forall h :: h in heads[..i] ==> h <= max
      invariant same <==> Level(heads[..i])
      invariant same ==> max == heads[0]
    {
      assert heads[..i + 1] == heads[..i] + [heads[i]];
      if max != heads[i] {
        same := false;
        if max < heads[i] {
          max := heads[i];
        }
      }
    }
    assert heads[..|heads|] == heads;
  }

  /** Reads the first head of every iterator, giving up at the first that has none. */
  method FirstHeads(iters: seq<ChannelIterator>, ghost streams: seq<seq<Id>>) returns (ok: bool, heads: seq<Id>)
    requires Distinct(iters) && |streams| == |iters|
    requires forall i :: 0 <= i < |iters| ==> iters[i].Rest() == streams[i]
    modifies iters
    ensures ok <==> AllOwe(streams)
    ensures ok ==> Tied(iters, heads, streams)
  {
    heads := [];
    for idx := 0 to |iters|
      invariant |heads| == idx
      invariant forall i :: 0 <= i < idx ==>
                  streams[i] != [] && heads[i] == streams[i][0] && iters[i].Rest() == streams[i][1..]
      invariant forall i :: idx <= i < |iters| ==> iters[i].Rest() == streams[i]
    {
      var v := iters[idx].Next();
      if v.None? {
        return false, heads;
      }
      heads := heads + [v.value];
    }
    ok := true;
  }

  /** Moves every iterator on by one, giving up at the first that is done. */
  method AdvanceAll(iters: seq<ChannelIterator>, heads: seq<Id>, ghost due: seq<seq<Id>>)
    returns (ok: bool, heads': seq<Id>)
    requires Distinct(iters) && Tied(iters, heads, due) && AllOwe(due)
    modifies iters
    ensures ok <==> AllOwe(Tails(due))
    ensures ok ==> Tied(iters, heads', Tails(due))
  {
    heads' := heads;
    for idx := 0 to |iters|
      invariant |heads'| == |iters|
      invariant forall i :: 0 <= i < idx ==>
                  due[i][1..] != [] && heads'[i] == due[i][1] && iters[i].Rest() == due[i][2..]
      invariant forall i :: idx <= i < |iters| ==> iters[i].Rest() == due[i][1..]
    {
      var v := iters[idx].Next();
      if v.None? {
        assert Tails(due)[idx] == [];
        return false, heads';
      }
      heads' := heads'[idx := v.value];
    }
    ok := true;
  }

  /** Moves one iterator whose head is behind `max` up to it. */
  method CatchUp(iter: ChannelIterator, head: Id, max: Id, ghost due: seq<Id>) returns (v: Option<Id>)
    requires due != [] && head == due[0] && iter.Rest() == due[1..]
    modifies iter
    ensures v.Some? <==> DropBelow(due, max) != []
    ensures v.Some? ==> v.value == DropBelow(due, max)[0] && iter.Rest() == DropBelow(due, max)[1..]
  {
    hide ChannelIterator.Rest;
    if head < max {
      v := SkipTo(iter, max);
    } else {
      v := Some(head);
    }
  }

  /** Moves every iterator behind `max` up to it, giving up at the first that is done. */
  method CatchUpAll(iters: seq<ChannelIterator>, heads: seq<Id>, max: Id, ghost due: seq<seq<Id>>)
    returns (ok: bool, heads': seq<Id>)
    requires Distinct(iters) && Tied(iters, heads, due) && AllOwe(due)
    modifies iters
    ensures ok <==> AllOwe(CaughtUp(due, max))
    ensures ok ==> Tied(iters, heads', CaughtUp(due, max))
  {
    hide ChannelIterator.Rest, Batcher.Written, DropBelow;
    heads' := heads;
    ghost var later := CaughtUp(due, max);
    for idx := 0 to |iters|
      invariant |heads'| == |iters|
      invariant forall i :: 0 <= i < idx ==>
                  later[i] != [] && heads'[i] == later[i][0] && iters[i].Rest() == later[i][1..]
      invariant forall i :: idx <= i < |iters| ==> heads'[i] == due[i][0] && iters[i].Rest() == due[i][1..]
    {
      var v := CatchUp(iters[idx], heads'[idx], max, due[idx]);
      if v.None? {
        assert later[idx] == [];
        return false, heads';
      }
      heads' := heads'[idx := v.value];
    }
    ok := true;
  }

  /** One round: the id all heads agree on, if they do, and everything moved past it or up to the largest. */
  method NextCommon(iters: seq<ChannelIterator>, heads: seq<Id>, ghost due: seq<seq<Id>>)
    returns (found: Option<Id>, ok: bool, heads': seq<Id>, ghost due': seq<seq<Id>>)
    requires Distinct(iters) && iters != [] && Tied(iters, heads, due) && AllOwe(due)
    modifies iters
    ensures |due'| == |due| && Total(due') < Total(due) && (ok <==> AllOwe(due'))
    ensures ok ==> Tied(iters, heads', due')
    ensures IntersectionStream(due) ==
              if found.Some? then [found.value] + IntersectionStream(due') else IntersectionStream(due')
  {
    assert heads == Heads(due);
    var max, same := Compare(heads);
    if same {
      TotalLess(due, Tails(due), 0);
      ok, heads' := AdvanceAll(iters, heads, due);
      due', found := Tails(due), Some(max);
    } else {
      CaughtUpLess(due);
      ok, heads' := CatchUpAll(iters, heads, max, due);
      due', found := CaughtUp(due, max), None;
    }
  }

  method IntersectInto(batch: Batcher, iters: seq<ChannelIterator>, heads0: seq<Id>, ghost streams: seq<seq<Id>>)
    requires Distinct(iters) && iters != [] && Tied(iters, heads0, streams) && AllOwe(streams)
    modifies iters, batch
    ensures batch.Written() == old(batch.Written()) + Proper(IntersectionStream(streams))
  {
    hide ChannelIterator.Rest, Batcher.Written;
    var heads, ok := heads0, true;
    ghost var due := streams;
    while ok
      invariant |due| == |iters| && (ok <==> AllOwe(due)) && (ok ==> Tied(iters, heads, due))
      invariant batch.Written() + Proper(IntersectionStream(due)) ==
                  old(batch.Written()) + Proper(IntersectionStream(streams))
      decreases ok, Total(due)
    {
      var found;
      found, ok, heads, due := NextCommon(iters, heads, due);
      if found.Some? {
        PassOn(batch.Written(), found.value, IntersectionStream(due));
        batch.Add(found.value);
      }
    }
    assert batch.Written() + [] == batch.Written();
  }

  lemma CaughtUpLess(due: seq<seq<Id>>)
    requires due != [] && AllOwe(due) && !Level(Heads(due))
    ensures Total(CaughtUp(due, Largest(Heads(due)))) < Total(due)
  {
    var max := Largest(Heads(due));
    var k :| 0 <= k < |due| && Heads(due)[k] != max;
    assert Heads(due)[k] in Heads(due);
    TotalLess(due, CaughtUp(due, max), k);
  }

  method ResolveIntersection(iters: seq<ChannelIterator>, ghost streams: seq<seq<Id>>) returns (out: seq<seq<Id>>)
    requires Distinct(iters) && |streams| == |iters|
    requires forall i :: 0 <= i < |iters| ==> iters[i].Rest() == streams[i]
    modifies iters
    ensures Flatten(out) == if iters == [] then [] else Proper(IntersectionStream(streams))
  {
    var batch := new Batcher();
    if iters != [] {
      var ok, heads := FirstHeads(iters, streams);
      if ok {
        IntersectInto(batch, iters, heads, streams);
      }
    }
    out := batch.Close();
  }

  // ---- exclusion ----------------------------------------------------------

  /** Passes on the base once nothing is left to subtract. */
  method DrainBase(batch: Batcher, iter: ChannelIterator, head: Id)
    modifies iter, batch
    ensures batch.Written() == old(batch.Written()) + Proper([head] + old(iter.Rest()))
  {
    hide ChannelIterator.Rest, Batcher.Written;
    var value := Some(head);
    ghost var due := [head] + iter.Rest();
    while value.Some?
      invariant value.Some? <==> due != []
      invariant value.Some? ==> value.value == due[0] && iter.Rest() == due[1..]
      invariant batch.Written() + Proper(due) == old(batch.Written()) + Proper([head] + old(iter.Rest()))
      decreases |due|
    {
      assert due == [due[0]] + due[1..];
      PassOn(batch.Written(), due[0], due[1..]);
      batch.Add(value.value);
      value := iter.Next();
      due := due[1..];
    }
    assert batch.Written() + [] == batch.Written();
  }

  /** Where `iter` owes something, `head` is the first of it. */
  ghost predicate Owes(iter: ChannelIterator, head: Option<Id>, due: seq<Id>)
    reads iter
  {
    && (head.Some? <==> due != [])
    && (head.Some? ==> head.value == due[0] && iter.Rest() == due[1..])
  }

  /** One round of the exclusion walk while both sides owe something. */
  method NextRemaining(base: ChannelIterator, sub: ChannelIterator, head: Id, subHead: Id, ghost b: seq<Id>,
                       ghost s: seq<Id>)
    returns (found: Option<Id>, head': Option<Id>, subHead': Option<Id>, ghost b': seq<Id>, ghost s': seq<Id>)
    requires base != sub && Owes(base, Some(head), b) && Owes(sub, Some(subHead), s)
    modifies base, sub
    ensures Owes(base, head', b') && (b' != [] ==> Owes(sub, subHead', s')) && |b'| + |s'| < |b| + |s|
    ensures DifferenceStream(b, s) ==
              if found.Some? then [found.value] + DifferenceStream(b', s') else DifferenceStream(b', s')
  {
    hide ChannelIterator.Rest;
    found, head', subHead', b', s' := None, Some(head), Some(subHead), b, s;
    if head == subHead {
      b', s' := b[1..], s[1..];
      head' := base.Next();
      if head'.Some? {
        subHead' := sub.Next();
      }
    } else if subHead > head {
      found, b' := Some(head), b[1..];
      head' := base.Next();
    } else {
      s' := DropBelow(s, head);
      assert s' == DropBelow(s[1..], head);
      subHead' := SkipTo(sub, head);
    }
  }

  method SubtractInto(batch: Batcher, base: ChannelIterator, sub: ChannelIterator, head0: Id, subHead0: Id,
                      ghost b0: seq<Id>, ghost s0: seq<Id>)
    requires base != sub && Owes(base, Some(head0), b0) && Owes(sub, Some(subHead0), s0)
    modifies base, sub, batch
    ensures batch.Written() == old(batch.Written()) + Proper(DifferenceStream(b0, s0))
  {
    hide ChannelIterator.Rest, Batcher.Written;
    var head, subHead := Some(head0), Some(subHead0);
    ghost var b, s := b0, s0;
    while head.Some? && subHead.Some?
      invariant Owes(base, head, b) && (head.Some? ==> Owes(sub, subHead, s))
      invariant batch.Written() + Proper(DifferenceStream(b, s)) ==
                  old(batch.Written()) + Proper(DifferenceStream(b0, s0))
      decreases |b| + |s|
    {
      var found;
      found, head, subHead, b, s := NextRemaining(base, sub, head.value, subHead.value, b, s);
      if found.Some? {
        PassOn(batch.Written(), found.value, DifferenceStream(b, s));
        batch.Add(found.value);
      }
    }
    if head.Some? {
      assert b == [head.value] + base.Rest();
      DrainBase(batch, base, head.value);
    } else {
      assert batch.Written() + [] == batch.Written();
    }
  }

  method ResolveDifference(iters: seq<ChannelIterator>, ghost streams: seq<seq<Id>>) returns (out: seq<seq<Id>>)
    requires Distinct(iters) && |streams| == |iters| && 1 <= |iters| <= 2
    requires forall i :: 0 <= i < |iters| ==> iters[i].Rest() == streams[i]
    modifies iters
    ensures Flatten(out) == Proper(DifferenceStream(streams[0], if |iters| == 2 then streams[1] else []))
  {
    hide ChannelIterator.Rest, Batcher.Written;
    var batch := new Batcher();
    var b := iters[0].Next();
    if b.Some? {
      assert streams[0] == [b.value] + iters[0].Rest();
      if |iters| == 2 {
        var s := iters[1].Next();
        if s.Some? {
          assert streams[1] == [s.value] + iters[1].Rest();
          SubtractInto(batch, iters[0], iters[1], b.value, s.value, streams[0], streams[1]);
        } else {
          DrainBase(batch, iters[0], b.value);
        }
      } else {
        DrainBase(batch, iters[0], b.value);
      }
    }
    out := batch.Close();
  }
}
