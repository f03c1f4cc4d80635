/** The v1 streams: a channel of batches read through a buffer, several of them side by side. */
module StreamBuffers {
  import opened Options
  import opened SortedStreams

  /** `source` holds the batches still in the channel; `closed` is set once the channel's end was seen. */
  datatype Stream = Stream(idx: nat, buffer: Option<seq<Id>>, source: seq<seq<Id>>, closed: bool) {
    function Rest(): seq<Id> {
      (if buffer.Some? then buffer.value else []) + Flatten(source)
    }

    predicate Done() {
      closed && buffer.None?
    }

    predicate Valid() {
      closed ==> source == []
    }

    /** Bounds the rounds that can still touch this stream. */
    function Work(): nat {
      1 + |Rest()| + 2 * |source| + (if buffer.Some? then 1 else 0) + (if closed then 0 else 1)
    }

    function Fetched(): (s: Stream)
      requires Valid()
      ensures s.Valid() && s.Rest() == Rest() && s.idx == idx
      ensures s.buffer.Some? || s.Done()
      ensures s.Work() <= Work()
    {
      if buffer.Some? || closed then this
      else if source == [] then this.(closed := true)
      else this.(buffer := Some(source[0]), source := source[1..])
    }
  }

  predicate AllValid(ss: seq<Stream>) {
    forall i :: 0 <= i < |ss| ==> ss[i].Valid()
  }

  predicate AllBuffered(ss: seq<Stream>) {
    forall i :: 0 <= i < |ss| ==> ss[i].buffer.Some?
  }

  function Rests(ss: seq<Stream>): (due: seq<seq<Id>>)
    ensures |due| == |ss| && forall i :: 0 <= i < |ss| ==> due[i] == ss[i].Rest()
  {
    seq(|ss|, i requires 0 <= i < |ss| => ss[i].Rest())
  }

  function TotalWork(ss: seq<Stream>): nat {
    if ss == [] then 0 else ss[0].Work() + TotalWork(ss[1..])
  }

  lemma {:induction false} WorkUpdate(ss: seq<Stream>, i: nat, s: Stream)
    requires i < |ss|
    ensures TotalWork(ss[i := s]) == TotalWork(ss) - ss[i].Work() + s.Work()
  {
    if i == 0 {
      assert ss[i := s][1..] == ss[1..];
    } else {
      assert ss[i := s][1..] == ss[1..][i - 1 := s];
      WorkUpdate(ss[1..], i - 1, s);
    }
  }

  /** The streams that are not done, in order. */
  function Active(ss: seq<Stream>): (active: seq<Stream>)
    ensures TotalWork(active) <= TotalWork(ss) && |active| <= |ss|
    ensures TotalWork(active) < TotalWork(ss) || active == ss
    ensures forall s :: s in active <==> s in ss && !s.Done()
    ensures |active| == |ss| ==> active == ss
  {
    if ss == [] then []
    else
      assert ss == [ss[0]] + ss[1..];
      if ss[0].Done() then Active(ss[1..])
      else
        var rest := Active(ss[1..]);
        assert ([ss[0]] + rest)[1..] == rest;
        [ss[0]] + rest
  }

  class Streams {
    var streams: seq<Stream>

    constructor (ss: seq<Stream>)
      ensures streams == ss
    {
      streams := ss;
    }

    /** Fetches a batch for every stream that has none, and drops the streams that are done. */
    method CleanDone() returns (ghost fetched: seq<Stream>)
      requires AllValid(streams)
      modifies this
      ensures |fetched| == |old(streams)|
      ensures forall i :: 0 <= i < |fetched| ==> fetched[i] == old(streams)[i].Fetched()
      ensures streams == Active(fetched) && AllValid(streams) && AllBuffered(streams)
      ensures TotalWork(streams) <= TotalWork(old(streams))
      ensures |streams| < |old(streams)| ==> TotalWork(streams) < TotalWork(old(streams))
    {
      for i := 0 to |streams|
        invariant |streams| == |old(streams)|
        invariant forall k :: 0 <= k < i ==> streams[k] == old(streams)[k].Fetched()
        invariant forall k :: i <= k < |streams| ==> streams[k] == old(streams)[k]
        invariant TotalWork(streams) <= TotalWork(old(streams))
      {
        WorkUpdate(streams, i, streams[i].Fetched());
        streams := streams[i := streams[i].Fetched()];
      }
      fetched := streams;
      streams := Active(streams);
      forall k | 0 <= k < |streams| ensures streams[k].Valid() && streams[k].buffer.Some? {
        assert streams[k] in fetched;
      }
    }

    /** The first buffered id of a stream; an exhausted buffer is given up. */
    method Head(i: nat) returns (v: Option<Id>)
      requires i < |streams| && streams[i].buffer.Some? && AllValid(streams)
      modifies this
      ensures v.Some? ==>
                streams == old(streams) && streams[i].buffer.value != [] && v.value == streams[i].buffer.value[0]
      ensures v.None? ==>
                streams == old(streams)[i := old(streams)[i].(buffer := None)] && old(streams)[i].buffer.value == []
      ensures v.None? ==> TotalWork(streams) < TotalWork(old(streams))
      ensures streams[i].Rest() == old(streams)[i].Rest() && streams[i].idx == old(streams)[i].idx && AllValid(streams)
      ensures v.Some? ==> streams[i].Rest() != [] && v.value == streams[i].Rest()[0]
    {
      if streams[i].buffer.value == [] {
        WorkUpdate(streams, i, streams[i].(buffer := None));
        streams := streams[i := streams[i].(buffer := None)];
        return None;
      }
      return Some(streams[i].buffer.value[0]);
    }

    /** Takes the first buffered id of a stream. */
    method Next(i: nat) returns (v: Id)
      requires i < |streams| && streams[i].buffer.Some? && streams[i].buffer.value != [] && AllValid(streams)
      modifies this
      ensures v == old(streams)[i].Rest()[0]
      ensures |streams| == |old(streams)| && AllValid(streams)
      ensures streams == old(streams)[i := streams[i]] && streams[i].idx == old(streams)[i].idx
      ensures streams[i] == old(streams)[i].(buffer := Some(old(streams)[i].buffer.value[1..]))
      ensures streams[i].Rest() == old(streams)[i].Rest()[1..]
      ensures TotalWork(streams) < TotalWork(old(streams))
    {
      var s := streams[i];
      v := s.buffer.value[0];
      var t := s.(buffer := Some(s.buffer.value[1..]));
      assert s.Rest() == [v] + t.Rest();
      WorkUpdate(streams, i, t);
      streams := streams[i := t];
    }

    /** Moves on within the buffer until its head is at least `target`; an exhausted buffer is given up. */
    method SkipToTarget(i: nat, target: Id)
      requires i < |streams| && streams[i].buffer.Some? && AllValid(streams)
      modifies this
      ensures |streams| == |old(streams)| && AllValid(streams)
      ensures streams == old(streams)[i := streams[i]] && streams[i].idx == old(streams)[i].idx
      ensures Dropped(old(streams)[i].Rest(), streams[i].Rest(), target)
      ensures TotalWork(streams) <= TotalWork(old(streams))
      ensures old(streams)[i].Rest() != [] && old(streams)[i].Rest()[0] < target ==>
                TotalWork(streams) < TotalWork(old(streams))
      ensures streams[i].buffer.Some? ==> streams[i].buffer.value != [] && streams[i].buffer.value[0] >= target
    {
      hide Stream.Rest, Stream.Work, TotalWork;
      ghost var s := streams[i].Rest();
      while true
        invariant |streams| == |old(streams)| && AllValid(streams) && streams[i].buffer.Some?
        invariant streams == old(streams)[i := streams[i]] && streams[i].idx == old(streams)[i].idx
        invariant Dropped(s, streams[i].Rest(), target)
        invariant streams == old(streams) || TotalWork(streams) < TotalWork(old(streams))
        decreases TotalWork(streams)
      {
        var v := Head(i);
        if v.None? || v.value >= target {
          return;
        }
        DroppedStep(s, streams[i].Rest(), target);
        var _ := Next(i);
      }
    }

    /** Everything that is left in the buffer. */
    method Drain(i: nat) returns (items: seq<Id>)
      requires i < |streams| && streams[i].buffer.Some? && AllValid(streams)
      modifies this
      ensures |streams| == |old(streams)| && AllValid(streams)
      ensures streams == old(streams)[i := streams[i]] && streams[i].idx == old(streams)[i].idx
      ensures old(streams)[i].Rest() == items + streams[i].Rest()
      ensures items == old(streams)[i].buffer.value && streams[i] == old(streams)[i].(buffer := None)
      ensures TotalWork(streams) < TotalWork(old(streams))
    {
      items := [];
      while true
        invariant |streams| == |old(streams)| && AllValid(streams) && streams[i].buffer.Some?
        invariant streams == old(streams)[i := streams[i]] && streams[i].idx == old(streams)[i].idx
        invariant old(streams)[i].Rest() == items + streams[i].Rest()
        invariant streams[i] == old(streams)[i].(buffer := streams[i].buffer)
        invariant old(streams)[i].buffer.value == items + streams[i].buffer.value
        invariant TotalWork(streams) <= TotalWork(old(streams))
        decreases TotalWork(streams)
      {
        var v := Head(i);
        if v.None? {
          return;
        }
        assert streams[i].Rest() == [v.value] + streams[i].Rest()[1..];
        var w := Next(i);
        items := items + [w];
      }
    }
  }

  /** `t` is `s` without some ids below `target` at its front. */
  ghost predicate Dropped(s: seq<Id>, t: seq<Id>, target: Id) {
    t == s || (s != [] && s[0] < target && Dropped(s[1..], t, target))
  }

  lemma {:induction false} DroppedStep(s: seq<Id>, t: seq<Id>, target: Id)
    requires Dropped(s, t, target) && t != [] && t[0] < target
    ensures Dropped(s, t[1..], target)
  {
    if t != s {
      DroppedStep(s[1..], t, target);
    }
  }

  lemma {:induction false} DroppedMeaning(s: seq<Id>, t: seq<Id>, target: Id)
    requires Dropped(s, t, target) && Sorted(true, s)
    ensures Sorted(true, t)
    ensures forall x :: x in t ==> x in s
    ensures forall x :: x in s && x >= target ==> x in t
  {
    if t != s {
      assert s == [s[0]] + s[1..];
      DroppedMeaning(s[1..], t, target);
    }
  }
}
