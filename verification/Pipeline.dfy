/**
 The bottom-up pipeline: every node of the flattened model is a set operator reading
 its operands' channels, and the leaves are sorted reads of the tuples starting at the
 user.  Channels are read by one consumer each and no operator looks at timing, so the
 network is run operand by operand.
 */
module Pipeline {
  import opened SortedStreams
  import opened MergeSpec
  import opened ChannelIterators
  import opened BottomUp
  import Weight2

  /** An operand edge is skipped when the user's type cannot be reached through it. */
  datatype Edge = Edge(reachable: bool, to: Node)

  datatype Node =
    | Leaf(batches: seq<seq<Id>>)
    | Any(edges: seq<Edge>)
    | All(edges: seq<Edge>)
    | ButNot(base: Edge, sub: Edge)

  /** The objects a node stands for; nothing can be reached through an unreachable edge. */
  function Denote(node: Node): set<Id> {
    match node
    case Leaf(batches) => Elems(Flatten(batches))
    case Any(edges) => set i, x | 0 <= i < |edges| && x in DenoteEdge(edges[i]) :: x
    case All(edges) =>
      if edges == [] then {}
      else set x | x in DenoteEdge(edges[0]) && forall i :: 0 <= i < |edges| ==> x in DenoteEdge(edges[i])
    case ButNot(base, sub) => DenoteEdge(base) - DenoteEdge(sub)
  }

  function DenoteEdge(edge: Edge): set<Id> {
    if edge.reachable then Denote(edge.to) else {}
  }

  /**
   The objects the operators put on a node's channel.  An unreachable operand is not there at all:
   an intersection runs over the operands that are, and an exclusion takes the first of them for
   its base.
   */
  function Emits(node: Node): set<Id> {
    match node
    case Leaf(batches) => Elems(Flatten(batches))
    case Any(edges) => set i, x | 0 <= i < |edges| && x in EmitsEdge(edges[i]) :: x
    case All(edges) =>
      set i, x | 0 <= i < |edges| && x in EmitsEdge(edges[i])
                 && forall j :: 0 <= j < |edges| && edges[j].reachable ==> x in EmitsEdge(edges[j]) :: x
    case ButNot(base, sub) => if base.reachable then EmitsEdge(base) - EmitsEdge(sub) else EmitsEdge(sub)
  }

  function EmitsEdge(edge: Edge): set<Id> {
    if edge.reachable then Emits(edge.to) else {}
  }

  /**
   Leaves are sorted, strictly where an exclusion has both operands, and every exclusion has an
   operand that can be reached.
   */
  predicate Ready(node: Node, strict: bool) {
    match node
    case Leaf(batches) => Sorted(strict, Flatten(batches))
    case Any(edges) => forall i :: 0 <= i < |edges| ==> ReadyEdge(edges[i], strict)
    case All(edges) => forall i :: 0 <= i < |edges| ==> ReadyEdge(edges[i], strict)
    case ButNot(base, sub) =>
      && (base.reachable || sub.reachable) && (base.reachable && sub.reachable ==> strict)
      && ReadyEdge(base, strict) && ReadyEdge(sub, strict)
  }

  predicate ReadyEdge(edge: Edge, strict: bool) {
    edge.reachable ==> Ready(edge.to, strict)
  }

  function Live(edges: seq<Edge>): (live: seq<Edge>)
    ensures forall e :: e in live <==> e in edges && e.reachable
    ensures (forall i :: 0 <= i < |edges| ==> edges[i].reachable) ==> live == edges
  {
    if edges == [] then []
    else
      assert edges == [edges[0]] + edges[1..];
      if edges[0].reachable then [edges[0]] + Live(edges[1..]) else Live(edges[1..])
  }

  lemma {:induction false} LivePush(edges: seq<Edge>, e: Edge)
    ensures Live(edges + [e]) == if e.reachable then Live(edges) + [e] else Live(edges)
  {
    if edges == [] {
      assert edges + [e] == [e] && [e][1..] == [];
    } else {
      assert (edges + [e])[1..] == edges[1..] + [e];
      LivePush(edges[1..], e);
    }
  }

  /** `streams` are sorted and stand for the edges' objects, one for one. */
  ghost predicate Feeds(streams: seq<seq<Id>>, edges: seq<Edge>, strict: bool) {
    && |streams| == |edges|
    && forall i :: 0 <= i < |edges| ==> Sorted(strict, streams[i]) && Elems(streams[i]) == EmitsEdge(edges[i])
  }

  lemma NothingFed(strict: bool)
    ensures Feeds([], Live([]), strict)
  {}

  lemma FeedsPush(streams: seq<seq<Id>>, edges: seq<Edge>, s: seq<Id>, e: Edge, strict: bool)
    requires Feeds(streams, edges, strict)
    requires Sorted(strict, s) && Elems(s) == EmitsEdge(e)
    ensures Feeds(streams + [s], edges + [e], strict)
  {}

  /** Resolves every reachable operand and wraps its channel as an iterator. */
  method SetUp(parent: Node, edges: seq<Edge>, ghost strict: bool)
    returns (iters: seq<ChannelIterator>, ghost streams: seq<seq<Id>>)
    requires forall i :: 0 <= i < |edges| ==> edges[i] < parent && ReadyEdge(edges[i], strict)
    ensures |iters| == |streams| && Distinct(iters) && Feeds(streams, Live(edges), strict)
    ensures forall i :: 0 <= i < |iters| ==> fresh(iters[i]) && iters[i].Rest() == streams[i]
    decreases parent, 0
  {
    hide Feeds, Live, ChannelIterator.Rest, Emits, Sorted, Flatten, Ready;
    NothingFed(strict);
    iters, streams := [], [];
    for k := 0 to |edges|
      invariant |iters| == |streams| && Distinct(iters) && Feeds(streams, Live(edges[..k]), strict)
      invariant forall i :: 0 <= i < |iters| ==> fresh(iters[i]) && iters[i].Rest() == streams[i]
    {
      assert edges[..k + 1] == edges[..k] + [edges[k]];
      LivePush(edges[..k], edges[k]);
      if edges[k].reachable {
        var out := Resolve(edges[k].to, strict);
        var iter := new ChannelIterator.FromChannel(out);
        FeedsPush(streams, Live(edges[..k]), Flatten(out), edges[k], strict);
        iters, streams := iters + [iter], streams + [Flatten(out)];
      }
    }
    assert edges[..|edges|] == edges;
  }

  /** Every tree of operators puts exactly what it emits on its channel, sorted. */
  method Resolve(node: Node, ghost strict: bool) returns (out: seq<seq<Id>>)
    requires Ready(node, strict)
    ensures Sorted(strict, Flatten(out))
    ensures Elems(Flatten(out)) == Emits(node)
    decreases node
  {
    hide Sorted, ChannelIterator.Rest, UnionStream, IntersectionStream, DifferenceStream;
    match node
    case Leaf(batches) =>
      out := batches;
    case Any(edges) =>
      var iters, streams := SetUp(node, edges, strict);
      out := ResolveUnion(iters, streams);
      UnionStreamMeaning(streams, Owing(streams), strict);
      ProperSorted(strict, UnionStream(streams, Owing(streams)));
      AnyFed(streams, edges, strict);
    case All(edges) =>
      var iters, streams := SetUp(node, edges, strict);
      out := ResolveIntersection(iters, streams);
      AllFed(streams, edges, strict);
      if streams == [] {
        NothingSorted(strict);
      } else {
        IntersectionStreamMeaning(streams, strict);
        ProperSorted(strict, IntersectionStream(streams));
      }
    case ButNot(base, sub) =>
      var iters, streams := SetUp(node, [base, sub], strict);
      LivePair(base, sub);
      out := ResolveDifference(iters, streams);
      Subtracted(streams, strict);
  }

  lemma NothingSorted(strict: bool)
    ensures Sorted(strict, [])
  {}

  lemma LivePair(base: Edge, sub: Edge)
    ensures Live([base, sub]) == (if base.reachable then [base] else []) + (if sub.reachable then [sub] else [])
  {
    assert [base, sub][1..] == [sub] && [sub][1..] == [];
  }

  /** The exclusion walk over one or two operands. */
  lemma Subtracted(streams: seq<seq<Id>>, strict: bool)
    requires 1 <= |streams| <= 2 && (|streams| == 2 ==> strict) && AllSorted(strict, streams)
    ensures var out := Proper(DifferenceStream(streams[0], if |streams| == 2 then streams[1] else []));
            && Sorted(strict, out)
            && Elems(out) == Elems(streams[0]) - if |streams| == 2 then Elems(streams[1]) else {}
  {
    if |streams| == 2 {
      Relaxed(streams[1]);
      DifferenceStreamMeaning(streams[0], streams[1]);
      ProperSorted(true, DifferenceStream(streams[0], streams[1]));
    } else {
      ProperSorted(strict, streams[0]);
    }
  }

  lemma AnyFed(streams: seq<seq<Id>>, edges: seq<Edge>, strict: bool)
    requires Feeds(streams, Live(edges), strict)
    ensures AnyOf(streams) == Emits(Any(edges))
  {
    var live := Live(edges);
    forall x | x in AnyOf(streams) ensures x in Emits(Any(edges)) {
      var i :| 0 <= i < |streams| && x in streams[i];
      assert x in Elems(streams[i]) && live[i] in live;
      var j :| 0 <= j < |edges| && edges[j] == live[i];
      assert x in EmitsEdge(edges[j]);
    }
    forall x | x in Emits(Any(edges)) ensures x in AnyOf(streams) {
      var j :| 0 <= j < |edges| && x in EmitsEdge(edges[j]);
      assert edges[j] in live;
      var i :| 0 <= i < |live| && live[i] == edges[j];
      assert x in Elems(streams[i]);
    }
  }

  /** What an intersection emits, said of the operands that are there. */
  lemma EmittedByAll(edges: seq<Edge>, x: Id)
    ensures x in Emits(All(edges)) <==> Live(edges) != [] && forall e :: e in Live(edges) ==> x in EmitsEdge(e)
  {
    hide Live;
    var live := Live(edges);
    if x in Emits(All(edges)) {
      var i :| 0 <= i < |edges| && x in EmitsEdge(edges[i]);
      assert edges[i] in live;
      forall e | e in live ensures x in EmitsEdge(e) {
        var j :| 0 <= j < |edges| && edges[j] == e;
      }
    }
    if live != [] && forall e :: e in live ==> x in EmitsEdge(e) {
      assert live[0] in live;
      var i :| 0 <= i < |edges| && edges[i] == live[0];
      assert x in EmitsEdge(edges[i]);
    }
  }

  lemma AllFed(streams: seq<seq<Id>>, edges: seq<Edge>, strict: bool)
    requires Feeds(streams, Live(edges), strict)
    ensures Emits(All(edges)) == if streams == [] then {} else AllOf(streams)
  {
    hide Emits, EmitsEdge, Live, Sorted;
    var live := Live(edges);
    forall x ensures x in Emits(All(edges)) <==> streams != [] && forall i :: 0 <= i < |streams| ==> x in streams[i] {
      EmittedByAll(edges, x);
      forall i | 0 <= i < |streams| ensures x in streams[i] <==> x in EmitsEdge(live[i]) {
        assert x in streams[i] <==> x in Elems(streams[i]);
      }
      assert forall i :: 0 <= i < |streams| ==> live[i] in live;
      assert forall e :: e in live ==> exists i :: 0 <= i < |streams| && live[i] == e;
    }
  }

  /** Trees that emit the same objects without repetition put the same sequence on the channel. */
  method ResolveBoth(node: Node, node': Node) returns (out: seq<seq<Id>>, out': seq<seq<Id>>)
    requires Ready(node, true) && Ready(node', true) && Emits(node) == Emits(node')
    ensures Flatten(out) == Flatten(out')
  {
    out := Resolve(node, true);
    out' := Resolve(node', true);
    SortedUnique(Flatten(out), Flatten(out'));
  }

  // ---- Exactly when a node emits what it stands for -----------------------

  ghost predicate ChildrenExact(node: Node) {
    match node
    case Leaf(_) => true
    case Any(edges) => forall i :: 0 <= i < |edges| ==> EmitsEdge(edges[i]) == DenoteEdge(edges[i])
    case All(edges) => forall i :: 0 <= i < |edges| ==> EmitsEdge(edges[i]) == DenoteEdge(edges[i])
    case ButNot(base, sub) => EmitsEdge(base) == DenoteEdge(base) && EmitsEdge(sub) == DenoteEdge(sub)
  }

  /**
   An intersection whose operands can all be reached, or whose reachable operands share nothing;
   an exclusion whose base can be reached, or that has nothing to subtract.
   */
  ghost predicate Faithful(node: Node) {
    match node
    case Leaf(_) => true
    case Any(_) => true
    case All(edges) => (forall i :: 0 <= i < |edges| ==> edges[i].reachable) || NothingShared(edges)
    case ButNot(base, sub) => base.reachable || DenoteEdge(sub) == {}
  }

  ghost predicate NothingShared(edges: seq<Edge>) {
    forall i, x :: 0 <= i < |edges| && x in DenoteEdge(edges[i]) ==>
      exists j :: 0 <= j < |edges| && edges[j].reachable && x !in DenoteEdge(edges[j])
  }

  lemma ExactIff(node: Node)
    requires ChildrenExact(node)
    ensures Emits(node) == Denote(node) <==> Faithful(node)
  {
    match node
    case Leaf(_) =>
    case Any(_) =>
    case All(edges) => ExactAllIff(edges);
    case ButNot(base, sub) =>
  }

  lemma ExactAllIff(edges: seq<Edge>)
    requires ChildrenExact(All(edges))
    ensures Emits(All(edges)) == Denote(All(edges)) <==> Faithful(All(edges))
  {
    if j :| 0 <= j < |edges| && !edges[j].reachable {
      assert forall x :: x in Denote(All(edges)) ==> x in DenoteEdge(edges[j]);
      assert Denote(All(edges)) == {};
      if !NothingShared(edges) {
        var i, x :| 0 <= i < |edges| && x in DenoteEdge(edges[i])
                    && !exists j :: 0 <= j < |edges| && edges[j].reachable && x !in DenoteEdge(edges[j]);
        assert x in EmitsEdge(edges[i]);
        assert x in Emits(All(edges));
      }
    }
  }

  ghost predicate FaithfulThroughout(node: Node) {
    && Faithful(node)
    && match node
       case Leaf(_) => true
       case Any(edges) => forall i :: 0 <= i < |edges| && edges[i].reachable ==> FaithfulThroughout(edges[i].to)
       case All(edges) => forall i :: 0 <= i < |edges| && edges[i].reachable ==> FaithfulThroughout(edges[i].to)
       case ButNot(base, sub) =>
         && (base.reachable ==> FaithfulThroughout(base.to))
         && (sub.reachable ==> FaithfulThroughout(sub.to))
  }

  /** A tree that is faithful at every reachable node emits its denotation. */
  lemma {:induction false} ExactTree(node: Node)
    requires FaithfulThroughout(node)
    ensures Emits(node) == Denote(node)
  {
    match node
    case Leaf(_) =>
    case Any(edges) =>
      forall i | 0 <= i < |edges| && edges[i].reachable { ExactTree(edges[i].to); }
      ExactIff(node);
    case All(edges) =>
      forall i | 0 <= i < |edges| && edges[i].reachable { ExactTree(edges[i].to); }
      ExactIff(node);
    case ButNot(base, sub) =>
      if base.reachable { ExactTree(base.to); }
      if sub.reachable { ExactTree(sub.to); }
      ExactIff(node);
  }

  /** An exclusion whose base cannot be reached emits what it should subtract. */
  lemma SubtractedInsteadOfBase()
    ensures var node := ButNot(Edge(false, Leaf([])), Edge(true, Leaf([[5]])));
            Ready(node, true) && Denote(node) == {} && Emits(node) == {5}
  {
    assert [[5]][1..] == [];
    assert Flatten([[5]]) == [5];
  }

  // ---- The whole check ----------------------------------------------------

  /** Does the object point to one of the objects the user reaches through `node`? */
  method Check(node: Node, right: seq<Id>, ordered: bool, ghost strict: bool) returns (allowed: bool)
    requires Ready(node, strict)
    requires ordered ==> Sorted(false, right)
    ensures allowed <==> exists v :: v in Emits(node) && v in right
    ensures FaithfulThroughout(node) ==> (allowed <==> exists v :: v in Denote(node) && v in right)
  {
    hide FaithfulThroughout, Emits, Denote;
    var left := Resolve(node, strict);
    Loosened(strict, Flatten(left));
    allowed := Weight2.Execute(left, right, ordered);
    assert forall v :: v in Flatten(left) <==> v in Elems(Flatten(left));
    if FaithfulThroughout(node) {
      ExactTree(node);
    }
  }

  lemma Loosened(strict: bool, s: seq<Id>)
    requires Sorted(strict, s)
    ensures Sorted(false, s)
  {}
}
