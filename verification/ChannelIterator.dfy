/** Reading a channel of batches as one stream, and writing a stream in batches. */
module ChannelIterators {
  import opened Options
  import opened SortedStreams

  const BATCH_THRESHOLD: nat := 100

  /** `source` holds the batches still in the channel, which is closed behind the last one. */
  class ChannelIterator {
    var source: seq<seq<Id>>
    var current: Option<seq<Id>>

    function Rest(): seq<Id>
      reads this
    {
      (if current.Some? then current.value else []) + Flatten(source)
    }

    constructor FromChannel(batches: seq<seq<Id>>)
      ensures Rest() == Flatten(batches)
    {
      source, current := batches, None;
    }

    method Next() returns (v: Option<Id>)
      modifies this
      ensures old(Rest()) == [] ==> v.None? && Rest() == []
      ensures old(Rest()) != [] ==> v == Some(old(Rest())[0]) && Rest() == old(Rest())[1..]
    {
      while true
        invariant Rest() == old(Rest())
        decreases |source|, if current.Some? then 1 else 0
      {
        if current.None? {
          if source == [] {
            return None;
          }
          current, source := Some(source[0]), source[1..];
          continue;
        }
        if current.value == [] {
          current := None;
          continue;
        }
        v := Some(current.value[0]);
        assert Rest() == [current.value[0]] + (current.value[1..] + Flatten(source));
        current := Some(current.value[1..]);
        return;
      }
    }
  }

  class Batcher {
    var items: seq<Id>
    var sent: seq<seq<Id>>

    function Written(): seq<Id>
      reads this
    {
      Flatten(sent) + items
    }

    /** Every batch on the channel is full, and what waits would not fill one. */
    predicate Tidy()
      reads this
    {
      |items| < BATCH_THRESHOLD && forall batch <- sent :: |batch| == BATCH_THRESHOLD
    }

    constructor ()
      ensures Written() == [] && items == [] && sent == [] && Tidy()
    {
      items, sent := [], [];
    }

    method Add(val: Id)
      modifies this
      ensures Written() == if val == 0 then old(Written()) else old(Written()) + [val]
      ensures old(Tidy()) ==> Tidy()
    {
      if val == 0 {
        return;
      }
      items := items + [val];
      assert Written() == old(Written()) + [val];
      if |items| >= BATCH_THRESHOLD {
        Flush();
      }
    }

    method Flush()
      modifies this
      ensures Written() == old(Written()) && items == []
      ensures sent == old(sent) + if old(items) == [] then [] else [old(items)]
    {
      if |items| > 0 {
        FlattenAppend(sent, items);
        sent, items := sent + [items], [];
      }
    }

    /** The channel's content once it is closed. */
    method Close() returns (out: seq<seq<Id>>)
      modifies this
      ensures Flatten(out) == old(Written())
      ensures old(Tidy()) ==> forall i :: 0 <= i < |out| ==>
                0 < |out[i]| <= BATCH_THRESHOLD && (i < |out| - 1 ==> |out[i]| == BATCH_THRESHOLD)
    {
      Flush();
      out := sent;
    }
  }

  method SkipTo(iter: ChannelIterator, target: Id) returns (v: Option<Id>)
    modifies iter
    ensures var due := DropBelow(old(iter.Rest()), target);
            if due == [] then v.None? && iter.Rest() == []
            else v == Some(due[0]) && iter.Rest() == due[1..]
  {
    while true
      invariant DropBelow(iter.Rest(), target) == DropBelow(old(iter.Rest()), target)
      decreases |iter.Rest()|
    {
      var t := iter.Next();
      if t.None? || t.value >= target {
        return t;
      }
    }
  }
}
