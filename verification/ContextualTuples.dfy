/**
 A request's contextual tuples, indexed twice: by user with each bucket sorted by object, and by
 object with each bucket sorted by user.  Direct lookups binary-search a bucket.
 */
module ContextualTuples {
  import opened Options

  datatype Tuple = Tuple(obj: string, relation: string, user: string, condition: string)

  // How object and user strings name their types.
  datatype Typing = Typing(ofObject: string -> string, ofUser: string -> string)

  datatype Side = ByUser | ByObject

  datatype Key = Key(id: string, relation: string, typ: string)

  function KeyOf(typing: Typing, side: Side, t: Tuple): Key {
    match side
    case ByUser => Key(t.user, t.relation, typing.ofObject(t.obj))
    case ByObject => Key(t.obj, t.relation, typing.ofUser(t.user))
  }

  function SortKey(side: Side, t: Tuple): string {
    match side
    case ByUser => t.obj
    case ByObject => t.user
  }

  // ---- String order -------------------------------------------------------

  predicate Less(a: string, b: string) {
    b != [] && (a == [] || a[0] < b[0] || (a[0] == b[0] && Less(a[1..], b[1..])))
  }

  lemma {:induction false} LessTransitive(a: string, b: string, c: string)
    requires Less(a, b) && Less(b, c)
    ensures Less(a, c)
  {
    if a != [] && a[0] == b[0] && b[0] == c[0] {
      LessTransitive(a[1..], b[1..], c[1..]);
    }
  }

  lemma {:induction false} LessTotal(a: string, b: string)
    ensures Less(a, b) || a == b || Less(b, a)
    ensures !(Less(a, b) && Less(b, a)) && !Less(a, a)
  {
    if a != [] {
      LessTotal(a[1..], a[1..]);
      if b != [] && a[0] == b[0] {
        LessTotal(a[1..], b[1..]);
        assert a == [a[0]] + a[1..] && b == [b[0]] + b[1..];
      }
    }
  }

  // ---- Buckets ------------------------------------------------------------

  predicate Ascending(side: Side, bucket: seq<Tuple>) {
    forall i, j :: 0 <= i < j < |bucket| ==> Less(SortKey(side, bucket[i]), SortKey(side, bucket[j]))
  }

  /** The first tuple of a list with the given bucket and sort key. */
  function First(typing: Typing, side: Side, ts: seq<Tuple>, key: Key, x: string): Option<Tuple> {
    if ts == [] then None
    else
      var earlier, t := First(typing, side, ts[..|ts| - 1], key, x), ts[|ts| - 1];
      if earlier.Some? then earlier
      else if KeyOf(typing, side, t) == key && SortKey(side, t) == x then Some(t)
      else None
  }

  lemma {:induction false} FirstIsFirst(typing: Typing, side: Side, ts: seq<Tuple>, key: Key, x: string)
    ensures match First(typing, side, ts, key, x)
            case None => forall t <- ts :: !(KeyOf(typing, side, t) == key && SortKey(side, t) == x)
            case Some(t) =>
              exists i :: 0 <= i < |ts| && ts[i] == t && KeyOf(typing, side, t) == key && SortKey(side, t) == x
                && forall j :: 0 <= j < i ==> !(KeyOf(typing, side, ts[j]) == key && SortKey(side, ts[j]) == x)
  {
    if ts != [] {
      var init, t := ts[..|ts| - 1], ts[|ts| - 1];
      FirstIsFirst(typing, side, init, key, x);
      assert ts == init + [t];
      if First(typing, side, init, key, x).None? {
        assert forall j :: 0 <= j < |init| ==> ts[j] in init;
      }
    }
  }

  /** A bucket is sorted and holds, for each sort key, the first tuple of `ts` that has it. */
  ghost predicate Indexes(typing: Typing, side: Side, ts: seq<Tuple>, key: Key, bucket: seq<Tuple>) {
    && Ascending(side, bucket)
    && (forall t <- bucket :: First(typing, side, ts, key, SortKey(side, t)) == Some(t))
    && (forall x :: First(typing, side, ts, key, x).Some? ==> First(typing, side, ts, key, x).value in bucket)
  }

  /** The binary search of Go's `sort.Search`. */
  method LowerBound(side: Side, bucket: seq<Tuple>, x: string) returns (i: nat)
    requires Ascending(side, bucket)
    ensures i <= |bucket|
    ensures forall j :: 0 <= j < i ==> Less(SortKey(side, bucket[j]), x)
    ensures forall j :: i <= j < |bucket| ==> !Less(SortKey(side, bucket[j]), x)
  {
    i := 0;
    var hi := |bucket|;
    while i < hi
      invariant i <= hi <= |bucket|
      invariant forall j :: 0 <= j < i ==> Less(SortKey(side, bucket[j]), x)
      invariant forall j :: hi <= j < |bucket| ==> !Less(SortKey(side, bucket[j]), x)
    {
      var h := (i + hi) / 2;
      if Less(SortKey(side, bucket[h]), x) {
        forall j | 0 <= j < h ensures Less(SortKey(side, bucket[j]), x) {
          LessTransitive(SortKey(side, bucket[j]), SortKey(side, bucket[h]), x);
        }
        i := h + 1;
      } else {
        forall j | h < j < |bucket| ensures !Less(SortKey(side, bucket[j]), x) {
          if Less(SortKey(side, bucket[j]), x) {
            LessTransitive(SortKey(side, bucket[h]), SortKey(side, bucket[j]), x);
          }
        }
        hi := h;
      }
    }
  }

  function Extended(bucket: seq<Tuple>, i: nat, t: Tuple): seq<Tuple>
    requires i <= |bucket|
  {
    bucket[..i] + [t] + bucket[i..]
  }

  lemma ExtendedAscending(side: Side, bucket: seq<Tuple>, i: nat, t: Tuple)
    requires Ascending(side, bucket) && i <= |bucket|
    requires forall j :: 0 <= j < i ==> Less(SortKey(side, bucket[j]), SortKey(side, t))
    requires forall j :: i <= j < |bucket| ==> !Less(SortKey(side, bucket[j]), SortKey(side, t))
    requires i < |bucket| ==> SortKey(side, bucket[i]) != SortKey(side, t)
    ensures Ascending(side, Extended(bucket, i, t))
  {
    forall j | i <= j < |bucket| ensures Less(SortKey(side, t), SortKey(side, bucket[j])) {
      LessTotal(SortKey(side, bucket[j]), SortKey(side, t));
      if j > i {
        LessTotal(SortKey(side, bucket[i]), SortKey(side, t));
        LessTransitive(SortKey(side, t), SortKey(side, bucket[i]), SortKey(side, bucket[j]));
      }
    }
  }

  lemma OtherBucket(typing: Typing, side: Side, ts: seq<Tuple>, t: Tuple, key: Key, bucket: seq<Tuple>)
    requires Indexes(typing, side, ts, key, bucket) && KeyOf(typing, side, t) != key
    ensures Indexes(typing, side, ts + [t], key, bucket)
  {}

  lemma Duplicate(typing: Typing, side: Side, ts: seq<Tuple>, t: Tuple, bucket: seq<Tuple>)
    requires var key := KeyOf(typing, side, t);
             Indexes(typing, side, ts, key, bucket) && First(typing, side, ts, key, SortKey(side, t)).Some?
    ensures Indexes(typing, side, ts + [t], KeyOf(typing, side, t), bucket)
  {}

  lemma Inserted(typing: Typing, side: Side, ts: seq<Tuple>, t: Tuple, bucket: seq<Tuple>, i: nat)
    requires var key := KeyOf(typing, side, t);
             Indexes(typing, side, ts, key, bucket) && First(typing, side, ts, key, SortKey(side, t)).None?
    requires i <= |bucket| && Ascending(side, Extended(bucket, i, t))
    ensures Indexes(typing, side, ts + [t], KeyOf(typing, side, t), Extended(bucket, i, t))
  {}

  method InsertSorted(typing: Typing, side: Side, ghost ts: seq<Tuple>, bucket: seq<Tuple>, t: Tuple)
    returns (bucket': seq<Tuple>)
    requires Indexes(typing, side, ts, KeyOf(typing, side, t), bucket)
    ensures Indexes(typing, side, ts + [t], KeyOf(typing, side, t), bucket')
  {
    hide First, KeyOf;
    var i := LowerBound(side, bucket, SortKey(side, t));
    if i < |bucket| && SortKey(side, bucket[i]) == SortKey(side, t) {
      Duplicate(typing, side, ts, t, bucket);
      return bucket;
    }
    Absent(typing, side, ts, t, bucket, i);
    ExtendedAscending(side, bucket, i, t);
    Inserted(typing, side, ts, t, bucket, i);
    bucket' := bucket[..i] + [t] + bucket[i..];
  }

  lemma Absent(typing: Typing, side: Side, ts: seq<Tuple>, t: Tuple, bucket: seq<Tuple>, i: nat)
    requires Indexes(typing, side, ts, KeyOf(typing, side, t), bucket) && i <= |bucket|
    requires forall j :: 0 <= j < i ==> Less(SortKey(side, bucket[j]), SortKey(side, t))
    requires i < |bucket| ==> SortKey(side, bucket[i]) != SortKey(side, t)
    requires forall j :: i <= j < |bucket| ==> !Less(SortKey(side, bucket[j]), SortKey(side, t))
    ensures First(typing, side, ts, KeyOf(typing, side, t), SortKey(side, t)).None?
  {
    ExtendedAscending(side, bucket, i, t);
    var x := SortKey(side, t);
    var first := First(typing, side, ts, KeyOf(typing, side, t), x);
    if first.Some? {
      FirstIsFirst(typing, side, ts, KeyOf(typing, side, t), x);
      var j :| 0 <= j < |bucket| && bucket[j] == first.value;
      var bucket' := Extended(bucket, i, t);
      assert bucket'[i] == t && bucket'[if j < i then j else j + 1] == first.value;
      LessTotal(x, x);
      assert false;
    }
  }

  // ---- The request --------------------------------------------------------

  type Index = map<Key, seq<Tuple>>

  function BucketOf(index: Index, key: Key): seq<Tuple> {
    if key in index then index[key] else []
  }

  /** Every bucket, present or not, indexes `ts`. */
  ghost predicate Complete(typing: Typing, side: Side, ts: seq<Tuple>, index: Index) {
    forall key :: Indexes(typing, side, ts, key, BucketOf(index, key))
  }

  method Insert(typing: Typing, side: Side, ghost ts: seq<Tuple>, index: Index, t: Tuple) returns (index': Index)
    requires Complete(typing, side, ts, index)
    ensures Complete(typing, side, ts + [t], index')
  {
    hide Indexes, KeyOf;
    var key := KeyOf(typing, side, t);
    var bucket := InsertSorted(typing, side, ts, BucketOf(index, key), t);
    index' := index[key := bucket];
    forall k ensures Indexes(typing, side, ts + [t], k, BucketOf(index', k)) {
      if k != key {
        OtherBucket(typing, side, ts, t, k, BucketOf(index, k));
      }
    }
  }

  /** The first contextual tuple for exactly this object, relation and user. */
  function FirstMatch(ts: seq<Tuple>, obj: string, relation: string, user: string): Option<Tuple> {
    if ts == [] then None
    else if ts[0].obj == obj && ts[0].relation == relation && ts[0].user == user then Some(ts[0])
    else FirstMatch(ts[1..], obj, relation, user)
  }

  lemma {:induction false} FirstMatchPush(ts: seq<Tuple>, t: Tuple, obj: string, relation: string, user: string)
    ensures FirstMatch(ts + [t], obj, relation, user)
            == if FirstMatch(ts, obj, relation, user).Some? then FirstMatch(ts, obj, relation, user)
               else FirstMatch([t], obj, relation, user)
  {
    if ts != [] {
      assert (ts + [t])[1..] == ts[1..] + [t];
      FirstMatchPush(ts[1..], t, obj, relation, user);
    } else {
      assert ts + [t] == [t];
    }
  }

  /** A bucket key and sort key pin down the tuple key, whatever the types are. */
  lemma {:induction false} FirstIsFirstMatch(typing: Typing, ts: seq<Tuple>, obj: string, relation: string,
                                             user: string)
    ensures First(typing, ByUser, ts, Key(user, relation, typing.ofObject(obj)), obj) ==
              FirstMatch(ts, obj, relation, user)
  {
    if ts != [] {
      var init, t := ts[..|ts| - 1], ts[|ts| - 1];
      FirstIsFirstMatch(typing, init, obj, relation, user);
      FirstMatchPush(init, t, obj, relation, user);
      assert ts == init + [t];
    }
  }

  class Request {
    const typing: Typing
    const contextual: seq<Tuple>
    var byUser: Index
    var byObject: Index

    ghost predicate Valid()
      reads this
    {
      Complete(typing, ByUser, contextual, byUser) && Complete(typing, ByObject, contextual, byObject)
    }

    constructor (typing: Typing, contextual: seq<Tuple>)
      ensures this.typing == typing && this.contextual == contextual && Valid()
    {
      this.typing, this.contextual := typing, contextual;
      byUser, byObject := map[], map[];
      new;
      BuildContextualTupleMaps();
    }

    method BuildContextualTupleMaps()
      requires byUser == map[] && byObject == map[]
      modifies this
      ensures Valid()
    {
      hide Complete;
      NothingIndexed(typing, ByUser);
      NothingIndexed(typing, ByObject);
      for n := 0 to |contextual|
        invariant Complete(typing, ByUser, contextual[..n], byUser)
        invariant Complete(typing, ByObject, contextual[..n], byObject)
      {
        assert contextual[..n + 1] == contextual[..n] + [contextual[n]];
        byUser := Insert(typing, ByUser, contextual[..n], byUser, contextual[n]);
        byObject := Insert(typing, ByObject, contextual[..n], byObject, contextual[n]);
      }
      assert contextual[..|contextual|] == contextual;
    }

    /** The lookup of a specific user's tuple among the contextual ones. */
    method Lookup(obj: string, relation: string, user: string) returns (found: Option<Tuple>)
      requires Valid()
      ensures found == FirstMatch(contextual, obj, relation, user)
    {
      var key := Key(user, relation, typing.ofObject(obj));
      FirstIsFirstMatch(typing, contextual, obj, relation, user);
      found := None;
      if key in byUser {
        var bucket := byUser[key];
        assert Indexes(typing, ByUser, contextual, key, BucketOf(byUser, key));
        var i := LowerBound(ByUser, bucket, obj);
        Pinpoints(typing, contextual, key, bucket, obj, i);
        if i < |bucket| && bucket[i].obj == obj {
          found := Some(bucket[i]);
        }
      } else {
        assert Indexes(typing, ByUser, contextual, key, BucketOf(byUser, key));
      }
    }
  }

  lemma NothingIndexed(typing: Typing, side: Side)
    ensures Complete(typing, side, [], map[])
  {}

  lemma Pinpoints(typing: Typing, ts: seq<Tuple>, key: Key, bucket: seq<Tuple>, obj: string, i: nat)
    requires Indexes(typing, ByUser, ts, key, bucket) && i <= |bucket|
    requires forall j :: 0 <= j < i ==> Less(bucket[j].obj, obj)
    requires forall j :: i <= j < |bucket| ==> !Less(bucket[j].obj, obj)
    ensures First(typing, ByUser, ts, key, obj)
            == if i < |bucket| && bucket[i].obj == obj then Some(bucket[i]) else None
  {
    var first := First(typing, ByUser, ts, key, obj);
    if first.Some? {
      FirstIsFirst(typing, ByUser, ts, key, obj);
      var j :| 0 <= j < |bucket| && bucket[j] == first.value;
      LessTotal(obj, obj);
      assert i <= j;
    }
  }
}
