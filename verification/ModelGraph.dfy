/** Flattening a model node into the terminal edges below it. */
module ModelGraph {

  type Name = string

  datatype Operator = UnionOperator | IntersectionOperator | ExclusionOperator

  datatype NodeKind =
    | SpecificType
    | SpecificTypeWildcard
    | SpecificTypeAndRelation
    | OperatorNode(operator: Operator)
    | LogicalDirectGrouping
    | LogicalTTUGrouping

  datatype EdgeKind = DirectEdge | RewriteEdge | TTUEdge | ComputedEdge | DirectLogicalEdge | TTULogicalEdge

  /** `weights` and `wildcards` are the user types that can be reached through the edge, and publicly so. */
  datatype Edge = Edge(kind: EdgeKind, to: Name, toKind: NodeKind, weights: set<Name>, wildcards: set<Name>,
                       recursiveRelation: Name)

  type Graph = map<Name, seq<Edge>>

  datatype Flat = GraphError | Edges(edges: seq<Edge>)

  datatype Query = Query(userType: Name, wildcard: bool, skip: Name)

  predicate Pruned(q: Query, e: Edge) {
    q.userType !in e.weights || (q.wildcard && q.userType !in e.wildcards)
  }

  predicate CanFlatten(e: Edge) {
    match e.kind
    case ComputedEdge => true
    case DirectLogicalEdge => true
    case TTULogicalEdge => true
    case RewriteEdge => e.toKind == SpecificTypeAndRelation || e.toKind == OperatorNode(UnionOperator)
    case _ => false
  }

  predicate Opens(q: Query, e: Edge) {
    !Pruned(q, e) && CanFlatten(e)
  }

  predicate Listed(q: Query, e: Edge) {
    q.skip == "" || e.recursiveRelation != q.skip
  }

  /** The edges that are opened form no cycle: each leads to a node of smaller rank. */
  ghost predicate Ranked(g: Graph, q: Query, rank: Name -> nat) {
    forall n, i :: n in g && 0 <= i < |g[n]| && Opens(q, g[n][i]) ==> rank(g[n][i].to) < rank(n)
  }

  /** Every opened edge of `es` leads below `bound`. */
  ghost predicate Below(q: Query, rank: Name -> nat, es: seq<Edge>, bound: nat) {
    forall i :: 0 <= i < |es| && Opens(q, es[i]) ==> rank(es[i].to) < bound
  }

  function Join(a: Flat, b: Flat): Flat {
    if a.Edges? && b.Edges? then Edges(a.edges + b.edges) else GraphError
  }

  // ---- The recursive reading ----------------------------------------------

  /** Left to right, depth first. */
  ghost function FlattenAll(g: Graph, q: Query, rank: Name -> nat, es: seq<Edge>, bound: nat): Flat
    requires Ranked(g, q, rank) && Below(q, rank, es, bound)
    decreases bound, |es|
  {
    if es == [] then Edges([])
    else Join(FlattenOne(g, q, rank, es[0]), FlattenAll(g, q, rank, es[1..], bound))
  }

  ghost function FlattenOne(g: Graph, q: Query, rank: Name -> nat, e: Edge): Flat
    requires Ranked(g, q, rank)
    decreases if Opens(q, e) then rank(e.to) + 1 else 0, 0
  {
    if Pruned(q, e) then Edges([])
    else if CanFlatten(e) then
      if e.to in g then FlattenAll(g, q, rank, g[e.to], rank(e.to)) else GraphError
    else if Listed(q, e) then Edges([e])
    else Edges([])
  }

  /** The number of edges an explicit stack will see below `es`. */
  ghost function Size(g: Graph, q: Query, rank: Name -> nat, es: seq<Edge>, bound: nat): nat
    requires Ranked(g, q, rank) && Below(q, rank, es, bound)
    decreases bound, |es|
  {
    if es == [] then 0
    else
      1 + (if Opens(q, es[0]) && es[0].to in g then Size(g, q, rank, g[es[0].to], rank(es[0].to)) else 0)
      + Size(g, q, rank, es[1..], bound)
  }

  lemma {:induction false} FlattenAppend(g: Graph, q: Query, rank: Name -> nat, es: seq<Edge>, fs: seq<Edge>,
                                         bound: nat)
    requires Ranked(g, q, rank) && Below(q, rank, es, bound) && Below(q, rank, fs, bound)
    ensures Below(q, rank, es + fs, bound)
    ensures FlattenAll(g, q, rank, es + fs, bound) ==
              Join(FlattenAll(g, q, rank, es, bound), FlattenAll(g, q, rank, fs, bound))
    ensures Size(g, q, rank, es + fs, bound) == Size(g, q, rank, es, bound) + Size(g, q, rank, fs, bound)
    decreases es
  {
    assert Below(q, rank, es + fs, bound) by {
      forall i | 0 <= i < |es + fs| && Opens(q, (es + fs)[i]) ensures rank((es + fs)[i].to) < bound {
        if i < |es| { assert (es + fs)[i] == es[i]; } else { assert (es + fs)[i] == fs[i - |es|]; }
      }
    }
    if es == [] {
      assert es + fs == fs;
      var tail := FlattenAll(g, q, rank, fs, bound);
      assert tail.Edges? ==> [] + tail.edges == tail.edges;
    } else {
      assert (es + fs)[0] == es[0] && (es + fs)[1..] == es[1..] + fs;
      FlattenAppend(g, q, rank, es[1..], fs, bound);
      JoinAssociates(FlattenOne(g, q, rank, es[0]), FlattenAll(g, q, rank, es[1..], bound),
        FlattenAll(g, q, rank, fs, bound));
    }
  }

  lemma JoinAssociates(a: Flat, b: Flat, c: Flat)
    ensures Join(a, Join(b, c)) == Join(Join(a, b), c)
  {}

  /** The bound only serves termination. */
  lemma {:induction false} BoundIrrelevant(g: Graph, q: Query, rank: Name -> nat, es: seq<Edge>, b: nat, c: nat)
    requires Ranked(g, q, rank) && Below(q, rank, es, b) && Below(q, rank, es, c)
    ensures FlattenAll(g, q, rank, es, b) == FlattenAll(g, q, rank, es, c)
    ensures Size(g, q, rank, es, b) == Size(g, q, rank, es, c)
    decreases es
  {
    if es != [] {
      BoundIrrelevant(g, q, rank, es[1..], b, c);
    }
  }

  // ---- The explicit stack -------------------------------------------------

  function Reversed(es: seq<Edge>): (r: seq<Edge>)
    ensures |r| == |es| && forall i :: 0 <= i < |es| ==> r[i] == es[|es| - 1 - i]
  {
    seq(|es|, i requires 0 <= i < |es| => es[|es| - 1 - i])
  }

  /** What has been listed, followed by what flattening `todo` gives, is the whole. */
  ghost predicate Owes(g: Graph, q: Query, rank: Name -> nat, result: seq<Edge>, todo: seq<Edge>, bound: nat,
                       whole: Flat)
    requires Ranked(g, q, rank)
  {
    Below(q, rank, todo, bound) && Join(Edges(result), FlattenAll(g, q, rank, todo, bound)) == whole
  }

  ghost function SizeOf(g: Graph, q: Query, rank: Name -> nat, todo: seq<Edge>, bound: nat): nat
    requires Ranked(g, q, rank)
  {
    if Below(q, rank, todo, bound) then Size(g, q, rank, todo, bound) else 0
  }

  /** The top edge gives `listed` by itself. */
  lemma Consume(g: Graph, q: Query, rank: Name -> nat, result: seq<Edge>, todo: seq<Edge>, bound: nat, whole: Flat,
                listed: seq<Edge>)
    requires Ranked(g, q, rank) && Owes(g, q, rank, result, todo, bound, whole) && todo != []
    requires !Opens(q, todo[0]) && FlattenOne(g, q, rank, todo[0]) == Edges(listed)
    ensures Owes(g, q, rank, result + listed, todo[1..], bound, whole)
    ensures SizeOf(g, q, rank, todo[1..], bound) < SizeOf(g, q, rank, todo, bound)
  {}

  /** The top edge is replaced by the edges of the node it leads to. */
  lemma Open(g: Graph, q: Query, rank: Name -> nat, result: seq<Edge>, todo: seq<Edge>, bound: nat, whole: Flat)
    requires Ranked(g, q, rank) && Owes(g, q, rank, result, todo, bound, whole) && todo != []
    requires Opens(q, todo[0]) && todo[0].to in g
    ensures Owes(g, q, rank, result, g[todo[0].to] + todo[1..], bound, whole)
    ensures SizeOf(g, q, rank, g[todo[0].to] + todo[1..], bound) < SizeOf(g, q, rank, todo, bound)
  {
    hide Ranked;
    Push(g, q, rank, todo[0], todo[1..], bound);
  }

  /** The stack's top is its last element. */
  method FlattenNode(g: Graph, node: Name, q: Query, ghost rank: Name -> nat) returns (r: Flat)
    requires Ranked(g, q, rank)
    ensures r == if node in g then FlattenAll(g, q, rank, g[node], rank(node)) else GraphError
  {
    if node !in g {
      return GraphError;
    }
    var result, stack := [], Reversed(g[node]);
    ghost var bound := rank(node);
    ghost var todo := g[node];
    ghost var whole := FlattenAll(g, q, rank, todo, bound);
    hide Ranked, FlattenAll, Owes, SizeOf;
    assert Owes(g, q, rank, result, todo, bound, whole) by { StartsWhole(g, q, rank, todo, bound); }
    while |stack| > 0
      invariant stack == Reversed(todo) && Owes(g, q, rank, result, todo, bound, whole)
      decreases SizeOf(g, q, rank, todo, bound)
    {
      var edge := stack[|stack| - 1];
      stack := stack[..|stack| - 1];
      assert todo[0] == edge && stack == Reversed(todo[1..]);
      if Pruned(q, edge) {
        Consume(g, q, rank, result, todo, bound, whole, []);
        assert result + [] == result;
        todo := todo[1..];
        continue;
      }
      if CanFlatten(edge) {
        if edge.to !in g {
          Missing(g, q, rank, result, todo, bound, whole);
          return GraphError;
        }
        Open(g, q, rank, result, todo, bound, whole);
        todo := g[edge.to] + todo[1..];
        stack := stack + Reversed(g[edge.to]);
      } else if Listed(q, edge) {
        Consume(g, q, rank, result, todo, bound, whole, [edge]);
        result, todo := result + [edge], todo[1..];
      } else {
        Consume(g, q, rank, result, todo, bound, whole, []);
        assert result + [] == result;
        todo := todo[1..];
      }
    }
    Finished(g, q, rank, result, bound, whole);
    return Edges(result);
  }

  lemma StartsWhole(g: Graph, q: Query, rank: Name -> nat, todo: seq<Edge>, bound: nat)
    requires Ranked(g, q, rank) && Below(q, rank, todo, bound)
    ensures Owes(g, q, rank, [], todo, bound, FlattenAll(g, q, rank, todo, bound))
  {}

  lemma Missing(g: Graph, q: Query, rank: Name -> nat, result: seq<Edge>, todo: seq<Edge>, bound: nat, whole: Flat)
    requires Ranked(g, q, rank) && Owes(g, q, rank, result, todo, bound, whole) && todo != []
    requires Opens(q, todo[0]) && todo[0].to !in g
    ensures whole == GraphError
  {
    assert FlattenOne(g, q, rank, todo[0]) == GraphError;
  }

  lemma Finished(g: Graph, q: Query, rank: Name -> nat, result: seq<Edge>, bound: nat, whole: Flat)
    requires Ranked(g, q, rank) && Owes(g, q, rank, result, [], bound, whole)
    ensures whole == Edges(result)
  {}

  lemma Push(g: Graph, q: Query, rank: Name -> nat, edge: Edge, rest: seq<Edge>, bound: nat)
    requires Ranked(g, q, rank) && Opens(q, edge) && edge.to in g && rank(edge.to) < bound
    requires Below(q, rank, rest, bound)
    ensures Below(q, rank, g[edge.to] + rest, bound)
    ensures FlattenAll(g, q, rank, g[edge.to] + rest, bound) ==
              Join(FlattenOne(g, q, rank, edge), FlattenAll(g, q, rank, rest, bound))
    ensures Size(g, q, rank, g[edge.to] + rest, bound) ==
              Size(g, q, rank, g[edge.to], rank(edge.to)) + Size(g, q, rank, rest, bound)
  {
    BoundIrrelevant(g, q, rank, g[edge.to], rank(edge.to), bound);
    FlattenAppend(g, q, rank, g[edge.to], rest, bound);
  }

  // ---- Meaning ------------------------------------------------------------

  /** A direct or tuple-to-userset edge is decided by tuples; any other edge stands for the node it leads to. */
  predicate ReadsTuples(e: Edge) {
    e.kind.DirectEdge? || e.kind.TTUEdge?
  }

  /** A model graph together with the kinds of its nodes. */
  datatype Model = Model(g: Graph, kind: Name -> NodeKind)
  {
    ghost predicate EdgeFits(e: Edge) {
      && e.toKind == kind(e.to)
      && match e.kind
         case DirectEdge => true
         case TTUEdge => true
         case ComputedEdge => e.toKind == SpecificTypeAndRelation
         case RewriteEdge => e.toKind == SpecificTypeAndRelation || e.toKind.OperatorNode?
         case DirectLogicalEdge => e.toKind == LogicalDirectGrouping
         case TTULogicalEdge => e.toKind == LogicalTTUGrouping
    }

    /** Edges lead where their kind says, to nodes that are there, and rewrites do not run in circles. */
    ghost predicate Valid(rank: Name -> nat) {
      forall n, i :: n in g && 0 <= i < |g[n]| ==>
        EdgeFits(g[n][i]) && (!ReadsTuples(g[n][i]) ==> g[n][i].to in g && rank(g[n][i].to) < rank(n))
    }

    /**
     What a node means, given what the tuples grant: an intersection holds if all its edges do, an
     exclusion if its first edge does and no other, every other node if one of its edges does.
     */
    ghost predicate NodeTrue(rank: Name -> nat, grants: Edge -> bool, n: Name)
      requires Valid(rank) && n in g
      decreases rank(n), 1
    {
      match kind(n)
      case OperatorNode(IntersectionOperator) =>
        forall i :: 0 <= i < |g[n]| ==> EdgeTrue(rank, grants, n, i)
      case OperatorNode(ExclusionOperator) =>
        g[n] != [] && EdgeTrue(rank, grants, n, 0) && forall i :: 0 < i < |g[n]| ==> !EdgeTrue(rank, grants, n, i)
      case _ =>
        exists i :: 0 <= i < |g[n]| && EdgeTrue(rank, grants, n, i)
    }

    /** What the `i`-th edge of `n` means. */
    ghost predicate EdgeTrue(rank: Name -> nat, grants: Edge -> bool, n: Name, i: nat)
      requires Valid(rank) && n in g && i < |g[n]|
      decreases rank(n), 0
    {
      if ReadsTuples(g[n][i]) then grants(g[n][i]) else NodeTrue(rank, grants, g[n][i].to)
    }

    ghost predicate Alternatives(n: Name) {
      kind(n) != OperatorNode(IntersectionOperator) && kind(n) != OperatorNode(ExclusionOperator)
    }

    /** What an edge found anywhere in the graph means. */
    ghost predicate Means(rank: Name -> nat, grants: Edge -> bool, e: Edge)
      requires Valid(rank)
    {
      if ReadsTuples(e) then grants(e) else e.to in g && NodeTrue(rank, grants, e.to)
    }
  }

  /** Something of the user's type, and publicly so if the request is for a wildcard, lies beyond the edge. */
  predicate Carries(q: Query, e: Edge) {
    q.userType in e.weights && (q.wildcard ==> q.userType in e.wildcards)
  }

  /**
   The weights are right: tuples grant only where an edge carries the user's type, and an edge to a node
   carries what that node's edges carry: all of them for an intersection, the first for an exclusion, one
   of them for any other node.
   */
  ghost predicate Weighted(m: Model, q: Query, rank: Name -> nat, grants: Edge -> bool)
    requires m.Valid(rank)
  {
    forall n, i :: n in m.g && 0 <= i < |m.g[n]| && !Carries(q, m.g[n][i]) ==>
      if ReadsTuples(m.g[n][i]) then !grants(m.g[n][i]) else NothingBeyond(m, q, m.g[n][i].to)
  }

  ghost predicate NothingBeyond(m: Model, q: Query, n: Name) {
    n in m.g &&
    match m.kind(n)
    case OperatorNode(IntersectionOperator) => exists i :: 0 <= i < |m.g[n]| && !Carries(q, m.g[n][i])
    case OperatorNode(ExclusionOperator) => m.g[n] == [] || !Carries(q, m.g[n][0])
    case _ => forall i :: 0 <= i < |m.g[n]| ==> !Carries(q, m.g[n][i])
  }

  /** So what is pruned is never true. */
  lemma {:induction false} PrunedIsFalse(
      m: Model, q: Query, rank: Name -> nat, grants: Edge -> bool, n: Name, i: nat)
    requires m.Valid(rank) && Weighted(m, q, rank, grants) && n in m.g && i < |m.g[n]|
    requires Pruned(q, m.g[n][i])
    ensures !m.EdgeTrue(rank, grants, n, i)
    decreases rank(n)
  {
    assert !Carries(q, m.g[n][i]);
    if !ReadsTuples(m.g[n][i]) {
      var to := m.g[n][i].to;
      assert NothingBeyond(m, q, to);
      forall j | 0 <= j < |m.g[to]| && !Carries(q, m.g[to][j]) ensures !m.EdgeTrue(rank, grants, to, j) {
        PrunedIsFalse(m, q, rank, grants, to, j);
      }
      if m.kind(to) == OperatorNode(IntersectionOperator) {
        var j :| 0 <= j < |m.g[to]| && !Carries(q, m.g[to][j]);
        assert !m.EdgeTrue(rank, grants, to, j);
      }
      assert !m.NodeTrue(rank, grants, to);
    }
  }

  lemma ValidIsRanked(m: Model, q: Query, rank: Name -> nat)
    requires m.Valid(rank)
    ensures Ranked(m.g, q, rank) && forall n <- m.g :: Below(q, rank, m.g[n], rank(n))
  {}

  /** An edge the flattening ends at: decided by tuples, or leading to an intersection or an exclusion. */
  predicate Terminal(e: Edge) {
    || ReadsTuples(e)
    || (e.kind.RewriteEdge? && e.toKind.OperatorNode? && !e.toKind.operator.UnionOperator?)
  }

  /** Everything flattening `es` lists can be listed, carries the user's type and meets the request. */
  ghost predicate ListsOnly(q: Query, r: Flat) {
    r.Edges? && forall e :: e in r.edges ==> Terminal(e) && Carries(q, e) && Listed(q, e)
  }

  ghost predicate SomeMeans(m: Model, rank: Name -> nat, grants: Edge -> bool, es: seq<Edge>)
    requires m.Valid(rank)
  {
    exists e :: e in es && m.Means(rank, grants, e)
  }

  ghost predicate SomeTrue(m: Model, rank: Name -> nat, grants: Edge -> bool, n: Name, k: nat)
    requires m.Valid(rank) && n in m.g
  {
    exists i :: k <= i < |m.g[n]| && m.EdgeTrue(rank, grants, n, i)
  }

  lemma SomeMeansJoins(m: Model, rank: Name -> nat, grants: Edge -> bool, es: seq<Edge>, fs: seq<Edge>)
    requires m.Valid(rank)
    ensures SomeMeans(m, rank, grants, es + fs) <==> SomeMeans(m, rank, grants, es) || SomeMeans(m, rank, grants, fs)
  {
    hide Model.Valid, Model.Means;
    assert forall e :: e in es + fs <==> e in es || e in fs;
  }

  lemma SomeTrueFrom(m: Model, rank: Name -> nat, grants: Edge -> bool, n: Name, k: nat)
    requires m.Valid(rank) && n in m.g && k < |m.g[n]|
    ensures SomeTrue(m, rank, grants, n, k) <==>
              m.EdgeTrue(rank, grants, n, k) || SomeTrue(m, rank, grants, n, k + 1)
  {}

  /** What one edge flattens to means what the edge means. */
  lemma {:induction false} FlattenEdge(
      m: Model, q: Query, rank: Name -> nat, grants: Edge -> bool, n: Name, k: nat)
    requires m.Valid(rank) && Weighted(m, q, rank, grants) && n in m.g && k < |m.g[n]|
    ensures Ranked(m.g, q, rank)
    ensures var r := FlattenOne(m.g, q, rank, m.g[n][k]);
            && ListsOnly(q, r)
            && (q.skip == "" ==> (SomeMeans(m, rank, grants, r.edges) <==> m.EdgeTrue(rank, grants, n, k)))
    decreases rank(n), 0
  {
    ValidIsRanked(m, q, rank);
    var e := m.g[n][k];
    assert m.EdgeFits(e);
    if Pruned(q, e) {
      PrunedIsFalse(m, q, rank, grants, n, k);
    } else if CanFlatten(e) {
      FlattenFrom(m, q, rank, grants, e.to, 0);
      assert m.g[e.to][0..] == m.g[e.to];
      assert m.NodeTrue(rank, grants, e.to) <==> SomeTrue(m, rank, grants, e.to, 0);
    } else if Listed(q, e) {
      assert e in [e] && (m.Means(rank, grants, e) <==> m.EdgeTrue(rank, grants, n, k));
    }
  }

  /** The same for the edges of a node, from the `k`-th on. */
  lemma {:induction false} FlattenFrom(
      m: Model, q: Query, rank: Name -> nat, grants: Edge -> bool, n: Name, k: nat)
    requires m.Valid(rank) && Weighted(m, q, rank, grants) && n in m.g && k <= |m.g[n]|
    ensures Ranked(m.g, q, rank) && Below(q, rank, m.g[n][k..], rank(n))
    ensures var r := FlattenAll(m.g, q, rank, m.g[n][k..], rank(n));
            && ListsOnly(q, r)
            && (q.skip == "" ==> (SomeMeans(m, rank, grants, r.edges) <==> SomeTrue(m, rank, grants, n, k)))
    decreases rank(n), 1, |m.g[n]| - k
  {
    ValidIsRanked(m, q, rank);
    if k < |m.g[n]| {
      hide Model.Valid, Weighted, SomeMeans, SomeTrue, Ranked, FlattenOne;
      var es := m.g[n];
      assert es[k..][0] == es[k] && es[k..][1..] == es[k + 1..];
      FlattenEdge(m, q, rank, grants, n, k);
      FlattenFrom(m, q, rank, grants, n, k + 1);
      SomeTrueFrom(m, rank, grants, n, k);
      SomeMeansJoins(m, rank, grants, FlattenOne(m.g, q, rank, es[k]).edges,
        FlattenAll(m.g, q, rank, es[k + 1..], rank(n)).edges);
    }
  }

  /**
   Flattening a node of alternatives succeeds and keeps its meaning: the node holds iff one of the edges
   listed does.  Each of them is terminal, and something of the user's type lies beyond it.
   */
  lemma FlattenPreservesMeaning(m: Model, q: Query, rank: Name -> nat, grants: Edge -> bool, node: Name)
    requires m.Valid(rank) && Weighted(m, q, rank, grants) && node in m.g
    ensures Ranked(m.g, q, rank)
    ensures var r := FlattenAll(m.g, q, rank, m.g[node], rank(node));
            && ListsOnly(q, r)
            && (q.skip == "" && m.Alternatives(node) ==>
                  (m.NodeTrue(rank, grants, node) <==> exists e :: e in r.edges && m.Means(rank, grants, e)))
  {
    FlattenFrom(m, q, rank, grants, node, 0);
    assert m.g[node][0..] == m.g[node];
    if m.Alternatives(node) {
      assert m.NodeTrue(rank, grants, node) <==> SomeTrue(m, rank, grants, node, 0);
    }
  }

  function Without(es: seq<Edge>, relation: Name): seq<Edge> {
    if es == [] then []
    else if es[0].recursiveRelation == relation then Without(es[1..], relation)
    else [es[0]] + Without(es[1..], relation)
  }

  lemma {:induction false} WithoutJoins(es: seq<Edge>, fs: seq<Edge>, relation: Name)
    ensures Without(es + fs, relation) == Without(es, relation) + Without(fs, relation)
  {
    if es == [] {
      assert es + fs == fs;
    } else {
      assert (es + fs)[1..] == es[1..] + fs;
      WithoutJoins(es[1..], fs, relation);
    }
  }

  /** Skipping a recursive relation leaves out exactly its own terminal edges, however deep. */
  lemma {:induction false} SkipIsFilter(g: Graph, q: Query, rank: Name -> nat, es: seq<Edge>, bound: nat)
    requires q.skip != ""
    requires Ranked(g, q, rank) && Below(q, rank, es, bound)
    ensures var all := q.(skip := "");
            && Ranked(g, all, rank) && Below(all, rank, es, bound)
            && var unskipped := FlattenAll(g, all, rank, es, bound);
               FlattenAll(g, q, rank, es, bound) ==
                 if unskipped.Edges? then Edges(Without(unskipped.edges, q.skip)) else GraphError
    decreases bound, |es|
  {
    var all := q.(skip := "");
    assert forall e :: Opens(all, e) == Opens(q, e);
    if es != [] {
      SkipIsFilter(g, q, rank, es[1..], bound);
      if Opens(q, es[0]) && es[0].to in g {
        SkipIsFilter(g, q, rank, g[es[0].to], rank(es[0].to));
      }
      var first, rest := FlattenOne(g, all, rank, es[0]), FlattenAll(g, all, rank, es[1..], bound);
      if first.Edges? && rest.Edges? {
        WithoutJoins(first.edges, rest.edges, q.skip);
      }
    }
  }
}
