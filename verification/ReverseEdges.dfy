/**
 The search that walks an authorization model backwards from a target relation and collects the
 edges a source can enter by.  One `visited` set is shared by the whole search.
 */
module ReverseEdges {
  import opened Options

  datatype Restriction = Plain(typ: string) | Userset(typ: string, relation: string) | Wildcard(typ: string)
  {
    function RelationName(): string {
      if Userset? then relation else ""
    }
  }

  datatype Ref = Ref(typ: string, relation: string)

  datatype Rewrite =
    | This
    | Computed(relation: string)
    | FromTupleset(tupleset: string, computed: string)
    | Union(children: seq<Rewrite>)
    | Intersection(children: seq<Rewrite>)
    | Difference(base: Rewrite, subtract: Rewrite)

  datatype Relation = Relation(rewrite: Rewrite, restrictions: seq<Restriction>)

  datatype Model = Model(types: set<string>, relations: map<Ref, Relation>)
  {
    predicate Defined(r: Ref) {
      r.typ in types && r in relations
    }

    /** Lookup errors read as no restrictions. */
    function Restrictions(r: Ref): seq<Restriction> {
      if Defined(r) then relations[r].restrictions else []
    }
  }

  datatype Kind = Direct | ComputedUserset | TupleToUserset(tupleset: string)

  datatype Edge = Edge(kind: Kind, target: Ref)

  datatype Mode = AllEdges | AnyEdge

  datatype Query = Query(model: Model, source: Restriction, mode: Mode)

  // ---- What one relation contributes, and where it leads ------------------

  predicate DirectlyRelated(q: Query, target: Ref) {
    var restrictions := q.model.Restrictions(target);
    q.source in restrictions || Wildcard(q.source.typ) in restrictions
  }

  function UsersetsOf(restrictions: seq<Restriction>): seq<Ref> {
    if restrictions == [] then []
    else
      var rest, r := UsersetsOf(restrictions[..|restrictions| - 1]), restrictions[|restrictions| - 1];
      if r.RelationName() != "" then rest + [Ref(r.typ, r.relation)] else rest
  }

  /** A parent type that lacks the computed relation is passed over; an unknown type is not. */
  predicate Skipped(q: Query, parent: Restriction, computed: string) {
    parent.typ in q.model.types && Ref(parent.typ, computed) !in q.model.relations
  }

  function ParentsOf(q: Query, parents: seq<Restriction>, computed: string): seq<Ref> {
    if parents == [] then []
    else
      var rest, p := ParentsOf(q, parents[..|parents| - 1], computed), parents[|parents| - 1];
      if Skipped(q, p, computed) then rest else rest + [Ref(p.typ, computed)]
  }

  predicate Enters(q: Query, typ: string, relation: string) {
    typ == q.source.typ && relation == q.source.RelationName()
  }

  function ParentEdges(q: Query, target: Ref, tupleset: string, parents: seq<Restriction>,
                       computed: string): seq<Edge> {
    if parents == [] then []
    else
      var rest, p := ParentEdges(q, target, tupleset, parents[..|parents| - 1], computed), parents[|parents| - 1];
      if q.model.Defined(Ref(p.typ, computed)) && Enters(q, p.typ, computed)
      then rest + [Edge(TupleToUserset(tupleset), target)] else rest
  }

  function Operands(mode: Mode, children: seq<Rewrite>): (ops: seq<Rewrite>)
    ensures ops == children || (|children| > 1 && ops == children[..1])
  {
    if mode.AnyEdge? && |children| > 1 then children[..1] else children
  }

  function LocalEdges(q: Query, target: Ref, rewrite: Rewrite): seq<Edge> {
    match rewrite
    case This => if DirectlyRelated(q, target) then [Edge(Direct, target)] else []
    case Computed(relation) => if Enters(q, target.typ, relation) then [Edge(ComputedUserset, target)] else []
    case FromTupleset(tupleset, computed) =>
      ParentEdges(q, target, tupleset, q.model.Restrictions(Ref(target.typ, tupleset)), computed)
    case Union(children) => LocalEdgesOfAll(q, target, children)
    case Intersection(children) => LocalEdgesOfAll(q, target, Operands(q.mode, children))
    case Difference(base, subtract) =>
      var kept := LocalEdges(q, target, base);
      if q.mode.AnyEdge? then kept else kept + LocalEdges(q, target, subtract)
  }

  function LocalEdgesOfAll(q: Query, target: Ref, rewrites: seq<Rewrite>): seq<Edge> {
    if rewrites == [] then []
    else LocalEdgesOfAll(q, target, rewrites[..|rewrites| - 1]) + LocalEdges(q, target, rewrites[|rewrites| - 1])
  }

  function Successors(q: Query, target: Ref, rewrite: Rewrite): seq<Ref> {
    match rewrite
    case This => UsersetsOf(q.model.Restrictions(target))
    case Computed(relation) => [Ref(target.typ, relation)]
    case FromTupleset(tupleset, computed) =>
      ParentsOf(q, q.model.Restrictions(Ref(target.typ, tupleset)), computed)
    case Union(children) => SuccessorsOfAll(q, target, children)
    case Intersection(children) => SuccessorsOfAll(q, target, Operands(q.mode, children))
    case Difference(base, subtract) =>
      var kept := Successors(q, target, base);
      if q.mode.AnyEdge? then kept else kept + Successors(q, target, subtract)
  }

  function SuccessorsOfAll(q: Query, target: Ref, rewrites: seq<Rewrite>): seq<Ref> {
    if rewrites == [] then []
    else SuccessorsOfAll(q, target, rewrites[..|rewrites| - 1]) + Successors(q, target, rewrites[|rewrites| - 1])
  }

  function EdgesOf(q: Query, r: Ref): seq<Edge> {
    if q.model.Defined(r) then LocalEdges(q, r, q.model.relations[r].rewrite) else []
  }

  function Next(q: Query, r: Ref): seq<Ref> {
    if q.model.Defined(r) then Successors(q, r, q.model.relations[r].rewrite) else []
  }

  function EdgesOfAll(q: Query, order: seq<Ref>): multiset<Edge> {
    if order == [] then multiset{} else EdgesOfAll(q, order[..|order| - 1]) + multiset(EdgesOf(q, order[|order| - 1]))
  }

  lemma {:induction false} EdgesOfConcat(q: Query, a: seq<Ref>, b: seq<Ref>)
    ensures EdgesOfAll(q, a + b) == EdgesOfAll(q, a) + EdgesOfAll(q, b)
  {
    if b == [] {
      assert a + b == a;
    } else {
      var init := b[..|b| - 1];
      assert (a + b)[..|a + b| - 1] == a + init;
      EdgesOfConcat(q, a, init);
    }
  }

  // ---- Which edges and successors these are -------------------------------

  /**
   How often a leaf occurs in a rewrite where the mode looks: everywhere, or, when pruned, only in the
   first operand of an intersection and in the base of an exclusion.
   */
  function Times(mode: Mode, leaf: Rewrite, rewrite: Rewrite): nat {
    match rewrite
    case Union(children) => TimesAll(mode, leaf, children)
    case Intersection(children) =>
      if mode.AllEdges? then TimesAll(mode, leaf, children)
      else if children == [] then 0 else Times(mode, leaf, children[0])
    case Difference(base, subtract) =>
      Times(mode, leaf, base) + if mode.AllEdges? then Times(mode, leaf, subtract) else 0
    case _ => if rewrite == leaf then 1 else 0
  }

  function TimesAll(mode: Mode, leaf: Rewrite, rewrites: seq<Rewrite>): nat {
    if rewrites == [] then 0
    else TimesAll(mode, leaf, rewrites[..|rewrites| - 1]) + Times(mode, leaf, rewrites[|rewrites| - 1])
  }

  /** The leaf that gives edges of a kind, where the source enters. */
  function LeafOf(q: Query, kind: Kind): Rewrite {
    match kind
    case Direct => This
    case ComputedUserset => Computed(q.source.RelationName())
    case TupleToUserset(tupleset) => FromTupleset(tupleset, q.source.RelationName())
  }

  function OfType(restrictions: seq<Restriction>, typ: string): nat {
    if restrictions == [] then 0
    else
      OfType(restrictions[..|restrictions| - 1], typ)
      + if restrictions[|restrictions| - 1].typ == typ then 1 else 0
  }

  /**
   How many edges of a kind one occurrence of its leaf gives: one if the source or its type's wildcard is
   assignable, one if the source is of the target's type, one per restriction of the tupleset to the
   source's type if the source's relation is defined.
   */
  function PerLeaf(q: Query, target: Ref, kind: Kind): nat {
    match kind
    case Direct =>
      var assignable := q.model.Restrictions(target);
      if q.source in assignable || Wildcard(q.source.typ) in assignable then 1 else 0
    case ComputedUserset => if q.source.typ == target.typ then 1 else 0
    case TupleToUserset(tupleset) =>
      if q.model.Defined(Ref(q.source.typ, q.source.RelationName()))
      then OfType(q.model.Restrictions(Ref(target.typ, tupleset)), q.source.typ) else 0
  }

  /** How often a relation contributes an edge. */
  function Contributes(q: Query, e: Edge): nat {
    if q.model.Defined(e.target)
    then Times(q.mode, LeafOf(q, e.kind), q.model.relations[e.target].rewrite) * PerLeaf(q, e.target, e.kind)
    else 0
  }

  lemma {:induction false} ParentEdgesCount(
      q: Query, target: Ref, tupleset: string, parents: seq<Restriction>, computed: string, e: Edge)
    ensures multiset(ParentEdges(q, target, tupleset, parents, computed))[e] ==
              if e == Edge(TupleToUserset(tupleset), target) && computed == q.source.RelationName()
                 && q.model.Defined(Ref(q.source.typ, computed))
              then OfType(parents, q.source.typ) else 0
  {
    if parents != [] {
      ParentEdgesCount(q, target, tupleset, parents[..|parents| - 1], computed, e);
    }
  }

  /** The edges that `times` occurrences of its leaf give. */
  function Share(q: Query, target: Ref, e: Edge, times: nat): nat {
    if e.target == target then times * PerLeaf(q, target, e.kind) else 0
  }

  lemma ShareAdds(q: Query, target: Ref, e: Edge, a: nat, b: nat)
    ensures Share(q, target, e, 0) == 0 && Share(q, target, e, a + b) == Share(q, target, e, a) + Share(q, target, e, b)
  {}

  lemma LeafCount(q: Query, target: Ref, leaf: Rewrite, e: Edge)
    requires leaf.This? || leaf.Computed? || leaf.FromTupleset?
    ensures multiset(LocalEdges(q, target, leaf))[e] == Share(q, target, e, Times(q.mode, LeafOf(q, e.kind), leaf))
  {
    hide Share, LocalEdges, ParentEdges;
    assert Times(q.mode, LeafOf(q, e.kind), leaf) == if leaf == LeafOf(q, e.kind) then 1 else 0;
    ShareOnce(q, target, e);
    match leaf {
      case This => DirectCount(q, target, e);
      case Computed(relation) => ComputedCount(q, target, relation, e);
      case FromTupleset(tupleset, computed) => TuplesetCount(q, target, tupleset, computed, e);
    }
  }

  lemma TuplesetCount(q: Query, target: Ref, tupleset: string, computed: string, e: Edge)
    ensures multiset(LocalEdges(q, target, FromTupleset(tupleset, computed)))[e] ==
              if e == Edge(TupleToUserset(tupleset), target) && computed == q.source.RelationName()
              then PerLeaf(q, target, TupleToUserset(tupleset)) else 0
  {
    ParentEdgesCount(q, target, tupleset, q.model.Restrictions(Ref(target.typ, tupleset)), computed, e);
  }

  lemma ShareOnce(q: Query, target: Ref, e: Edge)
    ensures Share(q, target, e, 0) == 0
    ensures Share(q, target, e, 1) == if e.target == target then PerLeaf(q, target, e.kind) else 0
  {}

  lemma DirectCount(q: Query, target: Ref, e: Edge)
    ensures multiset(LocalEdges(q, target, This))[e] ==
              if e == Edge(Direct, target) then PerLeaf(q, target, Direct) else 0
  {}

  lemma ComputedCount(q: Query, target: Ref, relation: string, e: Edge)
    ensures multiset(LocalEdges(q, target, Computed(relation)))[e] ==
              if e == Edge(ComputedUserset, target) && relation == q.source.RelationName()
              then PerLeaf(q, target, ComputedUserset) else 0
  {}

  lemma {:induction false} LocalEdgesCount(q: Query, target: Ref, rewrite: Rewrite, e: Edge)
    ensures multiset(LocalEdges(q, target, rewrite))[e] ==
              Share(q, target, e, Times(q.mode, LeafOf(q, e.kind), rewrite))
    decreases rewrite
  {
    hide Share, LeafOf, PerLeaf, ParentEdges, DirectlyRelated;
    var leaf := LeafOf(q, e.kind);
    ShareAdds(q, target, e, 0, 0);
    match rewrite
    case Union(children) => LocalEdgesOfAllCount(q, target, children, e);
    case Intersection(children) =>
      if q.mode.AllEdges? {
        LocalEdgesOfAllCount(q, target, children, e);
      } else if children != [] {
        FirstOperand(q, target, children);
        LocalEdgesCount(q, target, children[0], e);
      }
    case Difference(base, subtract) =>
      LocalEdgesCount(q, target, base, e);
      LocalEdgesCount(q, target, subtract, e);
      ShareAdds(q, target, e, Times(q.mode, leaf, base), Times(q.mode, leaf, subtract));
    case _ => LeafCount(q, target, rewrite, e);
  }

  /** Pruned, an intersection is its first operand. */
  lemma FirstOperand(q: Query, target: Ref, children: seq<Rewrite>)
    requires q.mode.AnyEdge? && children != []
    ensures LocalEdges(q, target, Intersection(children)) == LocalEdges(q, target, children[0])
    ensures Successors(q, target, Intersection(children)) == Successors(q, target, children[0])
  {
    var ops := Operands(q.mode, children);
    assert ops == [children[0]] && ops[..0] == [];
    assert LocalEdgesOfAll(q, target, ops[..0]) == [] && SuccessorsOfAll(q, target, ops[..0]) == [];
  }

  lemma {:induction false} LocalEdgesOfAllCount(q: Query, target: Ref, rewrites: seq<Rewrite>, e: Edge)
    ensures multiset(LocalEdgesOfAll(q, target, rewrites))[e] ==
              Share(q, target, e, TimesAll(q.mode, LeafOf(q, e.kind), rewrites))
    decreases rewrites
  {
    hide Share, LeafOf, LocalEdges, Times;
    ShareAdds(q, target, e, 0, 0);
    if rewrites != [] {
      var init, last, leaf := rewrites[..|rewrites| - 1], rewrites[|rewrites| - 1], LeafOf(q, e.kind);
      LocalEdgesOfAllCount(q, target, init, e);
      LocalEdgesCount(q, target, last, e);
      ShareAdds(q, target, e, TimesAll(q.mode, leaf, init), Times(q.mode, leaf, last));
    }
  }

  lemma EdgesOfCount(q: Query, r: Ref, e: Edge)
    ensures multiset(EdgesOf(q, r))[e] == if e.target == r then Contributes(q, e) else 0
  {
    if q.model.Defined(r) {
      LocalEdgesCount(q, r, q.model.relations[r].rewrite, e);
    }
  }

  lemma {:induction false} EdgesOfAllCount(q: Query, order: seq<Ref>, e: Edge)
    requires NoRepeats(order)
    ensures EdgesOfAll(q, order)[e] == if e.target in order then Contributes(q, e) else 0
  {
    if order != [] {
      hide EdgesOf, Contributes;
      var init, last := order[..|order| - 1], order[|order| - 1];
      EdgesOfAllCount(q, init, e);
      EdgesOfCount(q, last, e);
      assert order == init + [last] && last !in init;
    }
  }

  /** A userset of the target, its own computed relation, or a parent's. */
  ghost predicate LeadsTo(q: Query, target: Ref, rewrite: Rewrite, s: Ref) {
    || (&& Times(q.mode, This, rewrite) > 0 && s.relation != ""
        && Userset(s.typ, s.relation) in q.model.Restrictions(target))
    || (s.typ == target.typ && Times(q.mode, Computed(s.relation), rewrite) > 0)
    || (exists tupleset :: Times(q.mode, FromTupleset(tupleset, s.relation), rewrite) > 0
          && HasParent(q, Ref(target.typ, tupleset), s))
  }

  /** A type the tupleset is restricted to is unknown or has the relation. */
  predicate HasParent(q: Query, tupleset: Ref, s: Ref) {
    && (exists p <- q.model.Restrictions(tupleset) :: p.typ == s.typ)
    && (s.typ in q.model.types ==> s in q.model.relations)
  }

  lemma {:induction false} UsersetsOfMeaning(restrictions: seq<Restriction>, s: Ref)
    ensures s in UsersetsOf(restrictions) <==> s.relation != "" && Userset(s.typ, s.relation) in restrictions
  {
    if restrictions != [] {
      UsersetsOfMeaning(restrictions[..|restrictions| - 1], s);
      assert restrictions == restrictions[..|restrictions| - 1] + [restrictions[|restrictions| - 1]];
    }
  }

  lemma {:induction false} ParentsOfMeaning(q: Query, parents: seq<Restriction>, computed: string, s: Ref)
    ensures s in ParentsOf(q, parents, computed) <==>
              && s.relation == computed && (exists p <- parents :: p.typ == s.typ)
              && (s.typ in q.model.types ==> s in q.model.relations)
  {
    if parents != [] {
      var init, last := parents[..|parents| - 1], parents[|parents| - 1];
      ParentsOfMeaning(q, init, computed, s);
      assert parents == init + [last] && last in parents;
    }
  }

  /** The successors of a rewrite are what its occurring leaves lead to. */
  lemma {:induction false} SuccessorsMeaning(q: Query, target: Ref, rewrite: Rewrite, s: Ref)
    ensures s in Successors(q, target, rewrite) <==> LeadsTo(q, target, rewrite, s)
    decreases rewrite
  {
    match rewrite
    case This => UsersetsOfMeaning(q.model.Restrictions(target), s);
    case Computed(_) =>
    case FromTupleset(tupleset, computed) =>
      ParentsOfMeaning(q, q.model.Restrictions(Ref(target.typ, tupleset)), computed, s);
      if s.relation == computed {
        assert Times(q.mode, FromTupleset(tupleset, s.relation), rewrite) == 1;
      }
    case Union(children) => SuccessorsOfAllMeaning(q, target, children, s);
    case Intersection(children) =>
      if q.mode.AllEdges? {
        SuccessorsOfAllMeaning(q, target, children, s);
      } else if children != [] {
        FirstOperand(q, target, children);
        SuccessorsMeaning(q, target, children[0], s);
        SameLeads(q, target, rewrite, children[0], s);
      }
    case Difference(base, subtract) =>
      SuccessorsMeaning(q, target, base, s);
      SuccessorsMeaning(q, target, subtract, s);
      BothLead(q, target, rewrite, s);
  }

  lemma SameLeads(q: Query, target: Ref, a: Rewrite, b: Rewrite, s: Ref)
    requires forall leaf :: Times(q.mode, leaf, a) == Times(q.mode, leaf, b)
    ensures LeadsTo(q, target, a, s) <==> LeadsTo(q, target, b, s)
  {
    hide Times;
  }

  lemma BothLead(q: Query, target: Ref, rewrite: Rewrite, s: Ref)
    requires rewrite.Difference?
    ensures LeadsTo(q, target, rewrite, s) <==>
              || LeadsTo(q, target, rewrite.base, s)
              || (q.mode.AllEdges? && LeadsTo(q, target, rewrite.subtract, s))
  {
    forall leaf
      ensures Times(q.mode, leaf, rewrite) ==
                Times(q.mode, leaf, rewrite.base)
                + if q.mode.AllEdges? then Times(q.mode, leaf, rewrite.subtract) else 0
    {}
    if q.mode.AllEdges? {
      TimesAdd(q, target, rewrite, rewrite.base, rewrite.subtract, s);
    } else {
      SameLeads(q, target, rewrite, rewrite.base, s);
    }
  }

  lemma TimesAdd(q: Query, target: Ref, whole: Rewrite, a: Rewrite, b: Rewrite, s: Ref)
    requires forall leaf :: Times(q.mode, leaf, whole) == Times(q.mode, leaf, a) + Times(q.mode, leaf, b)
    ensures LeadsTo(q, target, whole, s) <==> LeadsTo(q, target, a, s) || LeadsTo(q, target, b, s)
  {
    hide Times, HasParent;
  }

  lemma {:induction false} SuccessorsOfAllMeaning(q: Query, target: Ref, rewrites: seq<Rewrite>, s: Ref)
    ensures s in SuccessorsOfAll(q, target, rewrites) <==> LeadsTo(q, target, Union(rewrites), s)
    decreases rewrites
  {
    var whole := Union(rewrites);
    assert forall leaf :: Times(q.mode, leaf, whole) == TimesAll(q.mode, leaf, rewrites);
    if rewrites != [] {
      hide Successors;
      var init, last := rewrites[..|rewrites| - 1], rewrites[|rewrites| - 1];
      assert forall leaf :: Times(q.mode, leaf, Union(init)) == TimesAll(q.mode, leaf, init);
      SuccessorsOfAllMeaning(q, target, init, s);
      SuccessorsMeaning(q, target, last, s);
      TimesAdd(q, target, whole, Union(init), last, s);
    }
  }

  /** A relation is followed to exactly these. */
  lemma NextMeaning(q: Query, r: Ref, s: Ref)
    ensures s in Next(q, r) <==> q.model.Defined(r) && LeadsTo(q, r, q.model.relations[r].rewrite, s)
  {
    if q.model.Defined(r) {
      SuccessorsMeaning(q, r, q.model.relations[r].rewrite, s);
    }
  }

  // ---- Reachability -------------------------------------------------------

  ghost predicate IsPath(q: Query, path: seq<Ref>) {
    path != [] && forall i :: 0 <= i < |path| - 1 ==> path[i + 1] in Next(q, path[i])
  }

  ghost predicate Reaches(q: Query, from: Ref, to: Ref) {
    exists path :: IsPath(q, path) && path[0] == from && path[|path| - 1] == to
  }

  ghost predicate ReachesAny(q: Query, starts: seq<Ref>, to: Ref) {
    exists s :: s in starts && Reaches(q, s, to)
  }

  ghost predicate Broken(q: Query, starts: seq<Ref>) {
    exists r :: ReachesAny(q, starts, r) && !q.model.Defined(r)
  }

  lemma ReachesSelf(q: Query, r: Ref)
    ensures Reaches(q, r, r)
  {
    assert IsPath(q, [r]) && [r][0] == r && [r][|[r]| - 1] == r;
  }

  lemma ReachesAhead(q: Query, from: Ref, to: Ref)
    requires ReachesAny(q, Next(q, from), to)
    ensures Reaches(q, from, to)
  {
    hide Next;
    var s :| s in Next(q, from) && Reaches(q, s, to);
    var path :| IsPath(q, path) && path[0] == s && path[|path| - 1] == to;
    var longer := [from] + path;
    forall i | 0 <= i < |longer| - 1 ensures longer[i + 1] in Next(q, longer[i]) {
      if i > 0 {
        assert longer[i] == path[i - 1] && longer[i + 1] == path[i - 1 + 1];
      }
    }
    assert IsPath(q, longer) && longer[0] == from && longer[|longer| - 1] == to;
  }

  lemma BrokenMore(q: Query, a: seq<Ref>, b: seq<Ref>)
    requires Broken(q, a) && forall s <- a :: s in b
    ensures Broken(q, b)
  {}

  lemma BrokenAhead(q: Query, target: Ref)
    requires Broken(q, Next(q, target))
    ensures Broken(q, [target])
  {
    var r :| ReachesAny(q, Next(q, target), r) && !q.model.Defined(r);
    ReachesAhead(q, target, r);
    assert target in [target];
    assert ReachesAny(q, [target], r);
  }

  // ---- What a finished part of the search has done ------------------------

  function SetOf(order: seq<Ref>): set<Ref> { set r <- order }

  predicate NoRepeats(order: seq<Ref>) {
    forall i, j :: 0 <= i < j < |order| ==> order[i] != order[j]
  }

  /** `order` lists the relations newly visited; `starts` is what the search set out from. */
  ghost predicate Walked(q: Query, visited: set<Ref>, order: seq<Ref>, visited': set<Ref>, starts: seq<Ref>) {
    && NoRepeats(order)
    && visited !! SetOf(order)
    && visited' == visited + SetOf(order)
    && (forall s <- starts :: s in visited')
    && (forall r <- order :: q.model.Defined(r) && ReachesAny(q, starts, r))
    && (forall r, s :: r in order && s in Next(q, r) ==> s in visited')
  }

  ghost predicate Collected(q: Query, edges: seq<Edge>, own: seq<Edge>, order: seq<Ref>) {
    multiset(edges) == multiset(own) + EdgesOfAll(q, order)
  }

  lemma WalkedThen(q: Query, v0: set<Ref>, o1: seq<Ref>, v1: set<Ref>, s1: seq<Ref>, o2: seq<Ref>, v2: set<Ref>,
                   s2: seq<Ref>)
    requires Walked(q, v0, o1, v1, s1) && Walked(q, v1, o2, v2, s2)
    ensures Walked(q, v0, o1 + o2, v2, s1 + s2)
  {
    var order := o1 + o2;
    forall i, j | 0 <= i < j < |order| ensures order[i] != order[j] {
      if i < |o1| <= j {
        assert o1[i] in SetOf(o1) && o2[j - |o1|] in SetOf(o2);
      }
    }
    forall r | r in o1 + o2 ensures ReachesAny(q, s1 + s2, r) {
      if r in o1 {
        assert ReachesAny(q, s1, r);
      } else {
        assert ReachesAny(q, s2, r);
      }
    }
  }

  lemma CollectedThen(q: Query, e1: seq<Edge>, w1: seq<Edge>, o1: seq<Ref>, e2: seq<Edge>, w2: seq<Edge>, o2: seq<Ref>)
    requires Collected(q, e1, w1, o1) && Collected(q, e2, w2, o2)
    ensures Collected(q, e1 + e2, w1 + w2, o1 + o2)
  {
    EdgesOfConcat(q, o1, o2);
  }

  lemma EntersRelation(q: Query, visited: set<Ref>, target: Ref, order: seq<Ref>, visited': set<Ref>, edges: seq<Edge>)
    requires target !in visited && q.model.Defined(target)
    requires Walked(q, visited + {target}, order, visited', Next(q, target))
    requires Collected(q, edges, EdgesOf(q, target), order)
    ensures Walked(q, visited, [target] + order, visited', [target])
    ensures Collected(q, edges, [], [target] + order)
  {
    hide Walked, EdgesOf;
    EntersFirst(q, visited, target, order, visited');
    EdgesOfConcat(q, [target], order);
    assert [target][..0] == [];
    assert EdgesOfAll(q, [target]) == multiset(EdgesOf(q, target));
  }

  lemma EntersFirst(q: Query, visited: set<Ref>, target: Ref, order: seq<Ref>, visited': set<Ref>)
    requires target !in visited && q.model.Defined(target)
    requires Walked(q, visited + {target}, order, visited', Next(q, target))
    ensures Walked(q, visited, [target] + order, visited', [target])
  {
    hide Next, Reaches;
    ReachesSelf(q, target);
    assert target in [target];
    assert ReachesAny(q, [target], target);
    forall r | r in order ensures ReachesAny(q, [target], r) {
      ReachesAhead(q, target, r);
    }
    assert SetOf([target] + order) == {target} + SetOf(order);
    forall i, j | 0 <= i < j < |[target] + order| ensures ([target] + order)[i] != ([target] + order)[j] {
      assert order[j - 1] in SetOf(order);
    }
  }

  // ---- The search ---------------------------------------------------------

  method SearchRelation(q: Query, target: Ref, visited: set<Ref>)
    returns (found: Option<seq<Edge>>, visited': set<Ref>, ghost order: seq<Ref>)
    ensures visited <= visited'
    ensures found.Some? ==> Walked(q, visited, order, visited', [target]) && Collected(q, found.value, [], order)
    ensures found.None? ==> Broken(q, [target])
    decreases q.model.relations.Keys - visited, 0
  {
    hide Reaches, LocalEdges, Successors;
    if target in visited {
      return Some([]), visited, [];
    }
    if !q.model.Defined(target) {
      ReachesSelf(q, target);
      assert target in [target];
      assert ReachesAny(q, [target], target);
      return None, visited, [];
    }
    found, visited', order := SearchRewrite(q, target, q.model.relations[target].rewrite, visited + {target});
    if found.Some? {
      EntersRelation(q, visited, target, order, visited', found.value);
      order := [target] + order;
    } else {
      BrokenAhead(q, target);
    }
  }

  /** One more relation searched after what has been searched so far. */
  method Follow(q: Query, next: Ref, edges: seq<Edge>, visited: set<Ref>,
                ghost own: seq<Edge>, ghost visited0: set<Ref>, ghost order: seq<Ref>, ghost starts: seq<Ref>)
    returns (found: Option<seq<Edge>>, visited': set<Ref>, ghost order': seq<Ref>)
    requires Walked(q, visited0, order, visited, starts) && Collected(q, edges, own, order)
    ensures visited <= visited'
    ensures found.Some? ==> Walked(q, visited0, order', visited', starts + [next])
    ensures found.Some? ==> Collected(q, found.value, own, order')
    ensures found.None? ==> Broken(q, starts + [next])
    decreases q.model.relations.Keys - visited, 1
  {
    hide Walked, Collected, Broken;
    ghost var later;
    found, visited', later := SearchRelation(q, next, visited);
    order' := order + later;
    if found.Some? {
      WalkedThen(q, visited0, order, visited, starts, later, visited', [next]);
      CollectedThen(q, edges, own, order, found.value, [], later);
      assert own + [] == own;
      found := Some(edges + found.value);
    } else {
      BrokenMore(q, [next], starts + [next]);
    }
  }

  lemma NothingWalked(q: Query, visited: set<Ref>, own: seq<Edge>)
    ensures Walked(q, visited, [], visited, []) && Collected(q, own, own, [])
  {}

  method SearchComputed(q: Query, target: Ref, relation: string, visited: set<Ref>)
    returns (found: Option<seq<Edge>>, visited': set<Ref>, ghost order: seq<Ref>)
    ensures visited <= visited'
    ensures found.Some? ==> Walked(q, visited, order, visited', Successors(q, target, Computed(relation)))
    ensures found.Some? ==> Collected(q, found.value, LocalEdges(q, target, Computed(relation)), order)
    ensures found.None? ==> Broken(q, Successors(q, target, Computed(relation)))
    decreases q.model.relations.Keys - visited, 2
  {
    hide Walked, Collected, Broken;
    var edges := [];
    if Enters(q, target.typ, relation) {
      edges := [Edge(ComputedUserset, target)];
    }
    NothingWalked(q, visited, edges);
    found, visited', order := Follow(q, Ref(target.typ, relation), edges, visited, edges, visited, [], []);
    assert [] + [Ref(target.typ, relation)] == [Ref(target.typ, relation)];
  }

  method SearchUsersets(q: Query, target: Ref, visited: set<Ref>)
    returns (found: Option<seq<Edge>>, visited': set<Ref>, ghost order: seq<Ref>)
    ensures visited <= visited'
    ensures found.Some? ==> Walked(q, visited, order, visited', Successors(q, target, This))
    ensures found.Some? ==> Collected(q, found.value, LocalEdges(q, target, This), order)
    ensures found.None? ==> Broken(q, Successors(q, target, This))
    decreases q.model.relations.Keys - visited, 2
  {
    hide Walked, Collected, Broken, DirectlyRelated;
    var edges := [];
    if DirectlyRelated(q, target) {
      edges := [Edge(Direct, target)];
    }
    ghost var own := edges;
    var restrictions := q.model.Restrictions(target);
    visited', order := visited, [];
    NothingWalked(q, visited, edges);
    for i := 0 to |restrictions|
      invariant visited <= visited'
      invariant Walked(q, visited, order, visited', UsersetsOf(restrictions[..i]))
      invariant Collected(q, edges, own, order)
    {
      var r := restrictions[i];
      assert restrictions[..i + 1][..i] == restrictions[..i];
      if r.RelationName() != "" {
        found, visited', order :=
          Follow(q, Ref(r.typ, r.relation), edges, visited', own, visited, order, UsersetsOf(restrictions[..i]));
        if found.None? {
          UsersetsPrefix(restrictions, i + 1);
          BrokenMore(q, UsersetsOf(restrictions[..i + 1]), UsersetsOf(restrictions));
          return;
        }
        edges := found.value;
      }
    }
    assert restrictions[..|restrictions|] == restrictions;
    found := Some(edges);
  }

  lemma {:induction false} UsersetsPrefix(restrictions: seq<Restriction>, k: nat)
    requires k <= |restrictions|
    ensures UsersetsOf(restrictions[..k]) <= UsersetsOf(restrictions)
  {
    if k < |restrictions| {
      var init := restrictions[..|restrictions| - 1];
      assert init[..k] == restrictions[..k];
      UsersetsPrefix(init, k);
    } else {
      assert restrictions[..k] == restrictions;
    }
  }

  method SearchParents(q: Query, target: Ref, tupleset: string, computed: string, visited: set<Ref>)
    returns (found: Option<seq<Edge>>, visited': set<Ref>, ghost order: seq<Ref>)
    ensures visited <= visited'
    ensures found.Some? ==> Walked(q, visited, order, visited', Successors(q, target, FromTupleset(tupleset, computed)))
    ensures found.Some? ==> Collected(q, found.value, LocalEdges(q, target, FromTupleset(tupleset, computed)), order)
    ensures found.None? ==> Broken(q, Successors(q, target, FromTupleset(tupleset, computed)))
    decreases q.model.relations.Keys - visited, 2
  {
    hide Walked, Collected, Broken, Enters;
    var parents := q.model.Restrictions(Ref(target.typ, tupleset));
    var edges := [];
    visited', order := visited, [];
    NothingWalked(q, visited, edges);
    for i := 0 to |parents|
      invariant visited <= visited'
      invariant Walked(q, visited, order, visited', ParentsOf(q, parents[..i], computed))
      invariant Collected(q, edges, ParentEdges(q, target, tupleset, parents[..i], computed), order)
    {
      ghost var own, starts := ParentEdges(q, target, tupleset, parents[..i], computed),
        ParentsOf(q, parents[..i], computed);
      var p := parents[i];
      var next := Ref(p.typ, computed);
      assert parents[..i + 1][..i] == parents[..i];
      if p.typ !in q.model.types {
        Undefined(q, next, starts);
        ParentsPrefix(q, parents, computed, i + 1);
        BrokenMore(q, ParentsOf(q, parents[..i + 1], computed), ParentsOf(q, parents, computed));
        return None, visited', order;
      }
      if next !in q.model.relations {
        continue;
      }
      if Enters(q, p.typ, computed) {
        OneMore(q, edges, own, order, Edge(TupleToUserset(tupleset), target));
        own := own + [Edge(TupleToUserset(tupleset), target)];
        edges := edges + [Edge(TupleToUserset(tupleset), target)];
      }
      found, visited', order := Follow(q, next, edges, visited', own, visited, order, starts);
      if found.None? {
        ParentsPrefix(q, parents, computed, i + 1);
        BrokenMore(q, ParentsOf(q, parents[..i + 1], computed), ParentsOf(q, parents, computed));
        return;
      }
      edges := found.value;
    }
    assert parents[..|parents|] == parents;
    found := Some(edges);
  }

  lemma OneMore(q: Query, edges: seq<Edge>, own: seq<Edge>, order: seq<Ref>, e: Edge)
    requires Collected(q, edges, own, order)
    ensures Collected(q, edges + [e], own + [e], order)
  {}

  lemma Undefined(q: Query, next: Ref, starts: seq<Ref>)
    requires !q.model.Defined(next)
    ensures Broken(q, starts + [next])
  {
    ReachesSelf(q, next);
    assert next in starts + [next];
    assert ReachesAny(q, starts + [next], next);
  }

  lemma {:induction false} ParentsPrefix(q: Query, parents: seq<Restriction>, computed: string, k: nat)
    requires k <= |parents|
    ensures ParentsOf(q, parents[..k], computed) <= ParentsOf(q, parents, computed)
  {
    if k < |parents| {
      var init := parents[..|parents| - 1];
      assert init[..k] == parents[..k];
      ParentsPrefix(q, init, computed, k);
    } else {
      assert parents[..k] == parents;
    }
  }

  method SearchRewrite(q: Query, target: Ref, rewrite: Rewrite, visited: set<Ref>)
    returns (found: Option<seq<Edge>>, visited': set<Ref>, ghost order: seq<Ref>)
    ensures visited <= visited'
    ensures found.Some? ==> Walked(q, visited, order, visited', Successors(q, target, rewrite))
    ensures found.Some? ==> Collected(q, found.value, LocalEdges(q, target, rewrite), order)
    ensures found.None? ==> Broken(q, Successors(q, target, rewrite))
    decreases q.model.relations.Keys - visited, 3, rewrite, 0
  {
    hide Walked, Collected, Broken;
    match rewrite
    case This => found, visited', order := SearchUsersets(q, target, visited);
    case Computed(relation) => found, visited', order := SearchComputed(q, target, relation, visited);
    case FromTupleset(tupleset, computed) =>
      found, visited', order := SearchParents(q, target, tupleset, computed, visited);
    case Union(children) =>
      found, visited', order := SearchAll(q, target, children, visited);
    case Intersection(children) =>
      found, visited', order := SearchAll(q, target, Operands(q.mode, children), visited);
    case Difference(base, subtract) =>
      NothingWalked(q, visited, []);
      found, visited', order := SearchNext(q, target, base, [], visited, [], visited, [], []);
      assert [] + Successors(q, target, base) == Successors(q, target, base);
      assert [] + LocalEdges(q, target, base) == LocalEdges(q, target, base);
      if found.None? {
        BrokenMore(q, Successors(q, target, base), Successors(q, target, rewrite));
      } else if q.mode.AllEdges? {
        found, visited', order :=
          SearchNext(q, target, subtract, found.value, visited',
                     LocalEdges(q, target, base), visited, order, Successors(q, target, base));
      }
  }

  /** One more operand searched after the operands so far. */
  method SearchNext(q: Query, target: Ref, rewrite: Rewrite, edges: seq<Edge>, visited: set<Ref>,
                    ghost own: seq<Edge>, ghost visited0: set<Ref>, ghost order: seq<Ref>, ghost starts: seq<Ref>)
    returns (found: Option<seq<Edge>>, visited': set<Ref>, ghost order': seq<Ref>)
    requires Walked(q, visited0, order, visited, starts) && Collected(q, edges, own, order)
    ensures visited <= visited'
    ensures found.Some? ==> Walked(q, visited0, order', visited', starts + Successors(q, target, rewrite))
    ensures found.Some? ==> Collected(q, found.value, own + LocalEdges(q, target, rewrite), order')
    ensures found.None? ==> Broken(q, starts + Successors(q, target, rewrite))
    decreases q.model.relations.Keys - visited, 3, rewrite, 1
  {
    hide Walked, Collected, Broken, Successors, LocalEdges;
    ghost var later;
    found, visited', later := SearchRewrite(q, target, rewrite, visited);
    order' := order + later;
    if found.Some? {
      WalkedThen(q, visited0, order, visited, starts, later, visited', Successors(q, target, rewrite));
      CollectedThen(q, edges, own, order, found.value, LocalEdges(q, target, rewrite), later);
      found := Some(edges + found.value);
    } else {
      BrokenMore(q, Successors(q, target, rewrite), starts + Successors(q, target, rewrite));
    }
  }

  method SearchAll(q: Query, target: Ref, rewrites: seq<Rewrite>, visited: set<Ref>)
    returns (found: Option<seq<Edge>>, visited': set<Ref>, ghost order: seq<Ref>)
    ensures visited <= visited'
    ensures found.Some? ==> Walked(q, visited, order, visited', SuccessorsOfAll(q, target, rewrites))
    ensures found.Some? ==> Collected(q, found.value, LocalEdgesOfAll(q, target, rewrites), order)
    ensures found.None? ==> Broken(q, SuccessorsOfAll(q, target, rewrites))
    decreases q.model.relations.Keys - visited, 3, rewrites
  {
    hide Walked, Collected, Broken, Successors, LocalEdges;
    var edges := [];
    visited', order := visited, [];
    NothingWalked(q, visited, edges);
    for i := 0 to |rewrites|
      invariant visited <= visited'
      invariant Walked(q, visited, order, visited', SuccessorsOfAll(q, target, rewrites[..i]))
      invariant Collected(q, edges, LocalEdgesOfAll(q, target, rewrites[..i]), order)
    {
      assert rewrites[..i + 1][..i] == rewrites[..i];
      found, visited', order :=
        SearchNext(q, target, rewrites[i], edges, visited', LocalEdgesOfAll(q, target, rewrites[..i]),
                   visited, order, SuccessorsOfAll(q, target, rewrites[..i]));
      if found.None? {
        SuccessorsPrefix(q, target, rewrites, i + 1);
        BrokenMore(q, SuccessorsOfAll(q, target, rewrites[..i + 1]), SuccessorsOfAll(q, target, rewrites));
        return;
      }
      edges := found.value;
    }
    assert rewrites[..|rewrites|] == rewrites;
    found := Some(edges);
  }

  lemma {:induction false} SuccessorsPrefix(q: Query, target: Ref, rewrites: seq<Rewrite>, k: nat)
    requires k <= |rewrites|
    ensures SuccessorsOfAll(q, target, rewrites[..k]) <= SuccessorsOfAll(q, target, rewrites)
  {
    if k < |rewrites| {
      var init := rewrites[..|rewrites| - 1];
      assert init[..k] == rewrites[..k];
      SuccessorsPrefix(q, target, init, k);
    } else {
      assert rewrites[..k] == rewrites;
    }
  }

  // ---- The whole search ---------------------------------------------------

  lemma {:induction false} PathInside(q: Query, S: set<Ref>, path: seq<Ref>)
    requires forall r, s :: r in S && s in Next(q, r) ==> s in S
    requires IsPath(q, path) && path[0] in S
    ensures path[|path| - 1] in S
  {
    hide Next;
    if |path| > 1 {
      var rest := path[1..];
      assert path[1] in Next(q, path[0]);
      forall i | 0 <= i < |rest| - 1 ensures rest[i + 1] in Next(q, rest[i]) {
        assert path[i + 1 + 1] in Next(q, path[i + 1]);
      }
      PathInside(q, S, rest);
    }
  }

  /** `order` lists, without repetition, exactly the relations reachable from `target`. */
  ghost predicate Enumerates(q: Query, target: Ref, order: seq<Ref>) {
    NoRepeats(order) && forall r :: r in order <==> Reaches(q, target, r)
  }

  lemma WalkedAll(q: Query, target: Ref, order: seq<Ref>, visited': set<Ref>)
    requires Walked(q, {}, order, visited', [target])
    ensures Enumerates(q, target, order)
    ensures forall r :: Reaches(q, target, r) ==> q.model.Defined(r)
  {
    hide Next;
    assert target in [target];
    forall r ensures r in order <==> Reaches(q, target, r) {
      if Reaches(q, target, r) {
        var path :| IsPath(q, path) && path[0] == target && path[|path| - 1] == r;
        PathInside(q, visited', path);
      }
      if r in order {
        var s :| s in [target] && Reaches(q, s, r);
      }
    }
  }

  /**
   The search fails exactly when an undefined relation is reachable from the target.  Otherwise it
   returns, edge by edge, what every reachable relation contributes, each relation once.
   */
  method GetRelationshipEdges(q: Query, target: Ref) returns (found: Option<seq<Edge>>, ghost order: seq<Ref>)
    ensures found.Some? <==> forall r :: Reaches(q, target, r) ==> q.model.Defined(r)
    ensures found.Some? ==> Enumerates(q, target, order) && multiset(found.value) == EdgesOfAll(q, order)
    ensures found.Some? ==>
              forall e :: multiset(found.value)[e] == if Reaches(q, target, e.target) then Contributes(q, e) else 0
  {
    hide Next, Reaches, Walked, Contributes;
    var visited';
    found, visited', order := SearchRelation(q, target, {});
    if found.Some? {
      WalkedAll(q, target, order, visited');
      forall e ensures EdgesOfAll(q, order)[e] == if e.target in order then Contributes(q, e) else 0 {
        EdgesOfAllCount(q, order, e);
      }
    } else {
      ghost var r :| ReachesAny(q, [target], r) && !q.model.Defined(r);
      ghost var s :| s in [target] && Reaches(q, s, r);
    }
  }
}
