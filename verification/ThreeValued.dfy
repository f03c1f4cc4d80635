/**
 The v1 reducers as strong Kleene connectives: an error is a truth value that is
 not known yet.  Nested rewrites are trees whose every inner node sees its
 operands' outcomes in an arrival order of its own.
 */
module ThreeValued {
  import opened Reducers

  datatype Truth = True | False | Unknown

  function TruthOf(o: Outcome): Truth {
    if o.Fail? then Unknown else if o.response.allowed then True else False
  }

  function Or(vs: seq<Truth>): Truth {
    if True in vs then True else if Unknown in vs then Unknown else False
  }

  function And(vs: seq<Truth>): Truth {
    if False in vs then False else if Unknown in vs then Unknown else True
  }

  function Not(v: Truth): Truth {
    match v case True => False case False => True case Unknown => Unknown
  }

  /** `v` carries no more information than `w`. */
  predicate Below(v: Truth, w: Truth) {
    v == Unknown || v == w
  }

  predicate CycleFree(o: Outcome) {
    o.Resp? ==> !o.response.cycle
  }

  function Truths(outs: seq<Outcome>): (vs: seq<Truth>)
    ensures |vs| == |outs|
    ensures forall i :: 0 <= i < |outs| ==> vs[i] == TruthOf(outs[i])
  {
    seq(|outs|, i requires 0 <= i < |outs| => TruthOf(outs[i]))
  }

  /** `union` is strong disjunction, whatever the arrival order. */
  lemma UnionIsOr(outs: seq<Outcome>, order: seq<nat>)
    requires forall o :: o in outs ==> CycleFree(o)
    ensures TruthOf(UnionOf(Arrange(outs, order))) == Or(Truths(outs))
    ensures CycleFree(UnionOf(Arrange(outs, order)))
  {
    var arrived := Arrange(outs, order);
    var vs := Truths(outs);
    UnionMeaning(arrived);
    forall o | o in arrived ensures TruthOf(o) in vs {
      var i :| 0 <= i < |outs| && outs[i] == o;
      assert vs[i] == TruthOf(o);
    }
    forall i | 0 <= i < |outs| ensures outs[i] in arrived && TruthOf(outs[i]) == vs[i] {}
  }

  /** `intersection` of at least two operands is strong conjunction, whatever the arrival order. */
  lemma IntersectionIsAnd(outs: seq<Outcome>, order: seq<nat>)
    requires |outs| >= 2
    requires forall o :: o in outs ==> CycleFree(o)
    ensures TruthOf(IntersectionOf(Arrange(outs, order))) == And(Truths(outs))
    ensures CycleFree(IntersectionOf(Arrange(outs, order)))
  {
    var arrived := Arrange(outs, order);
    var vs := Truths(outs);
    IntersectionMeaning(arrived);
    forall o | o in arrived ensures TruthOf(o) in vs {
      var i :| 0 <= i < |outs| && outs[i] == o;
      assert vs[i] == TruthOf(o);
    }
    forall i | 0 <= i < |outs| ensures outs[i] in arrived && TruthOf(outs[i]) == vs[i] {}
  }

  /** `exclusion` is strong conjunction with the negated operand, whichever arrives first. */
  lemma ExclusionIsAndNot(base: Outcome, sub: Outcome, baseFirst: bool)
    requires CycleFree(base) && CycleFree(sub)
    ensures TruthOf(ExclusionOf(base, sub, baseFirst)) == And([TruthOf(base), Not(TruthOf(sub))])
    ensures CycleFree(ExclusionOf(base, sub, baseFirst))
  {}

  // ---- Nested rewrites ----------------------------------------------------

  datatype Tree =
    | Leaf(out: Outcome)
    | Any(kids: seq<Tree>)
    | All(kids: seq<Tree>)
    | ButNot(base: Tree, sub: Tree)

  /** For every node, named by its path from the root, the order in which its operands arrive. */
  type Arrivals = seq<nat> -> seq<nat>

  function Eval(t: Tree, arrivals: Arrivals, path: seq<nat>): Outcome {
    match t
    case Leaf(out) => out
    case Any(kids) =>
      UnionOf(Arrange(EvalAll(kids, arrivals, path), arrivals(path)))
    case All(kids) =>
      IntersectionOf(Arrange(EvalAll(kids, arrivals, path), arrivals(path)))
    case ButNot(base, sub) =>
      ExclusionOf(Eval(base, arrivals, path + [0]), Eval(sub, arrivals, path + [1]), arrivals(path) != [1, 0])
  }

  function EvalAll(kids: seq<Tree>, arrivals: Arrivals, path: seq<nat>): (outs: seq<Outcome>)
    ensures |outs| == |kids|
  {
    seq(|kids|, i requires 0 <= i < |kids| => Eval(kids[i], arrivals, path + [i]))
  }

  function Meaning(t: Tree): Truth {
    match t
    case Leaf(out) => TruthOf(out)
    case Any(kids) => Or(Meanings(kids))
    case All(kids) => if |kids| < 2 then Unknown else And(Meanings(kids))
    case ButNot(base, sub) => And([Meaning(base), Not(Meaning(sub))])
  }

  function Meanings(kids: seq<Tree>): (vs: seq<Truth>)
    ensures |vs| == |kids|
  {
    seq(|kids|, i requires 0 <= i < |kids| => Meaning(kids[i]))
  }

  predicate LeavesCycleFree(t: Tree) {
    match t
    case Leaf(out) => CycleFree(out)
    case Any(kids) => forall k :: k in kids ==> LeavesCycleFree(k)
    case All(kids) => forall k :: k in kids ==> LeavesCycleFree(k)
    case ButNot(base, sub) => LeavesCycleFree(base) && LeavesCycleFree(sub)
  }

  /**
   Every schedule of a nested rewrite over cycle-free outcomes computes its strong
   three-valued meaning.
   */
  lemma {:induction false} EvalIsMeaning(t: Tree, arrivals: Arrivals, path: seq<nat>)
    requires LeavesCycleFree(t)
    ensures TruthOf(Eval(t, arrivals, path)) == Meaning(t)
    ensures CycleFree(Eval(t, arrivals, path))
    decreases t
  {
    match t
    case Leaf(_) =>
    case ButNot(base, sub) =>
      EvalIsMeaning(base, arrivals, path + [0]);
      EvalIsMeaning(sub, arrivals, path + [1]);
      ExclusionIsAndNot(Eval(base, arrivals, path + [0]), Eval(sub, arrivals, path + [1]), arrivals(path) != [1, 0]);
    case Any(kids) =>
      EvalAllIsMeanings(t, kids, arrivals, path);
      UnionIsOr(EvalAll(kids, arrivals, path), arrivals(path));
    case All(kids) =>
      EvalAllIsMeanings(t, kids, arrivals, path);
      if |kids| >= 2 {
        IntersectionIsAnd(EvalAll(kids, arrivals, path), arrivals(path));
      }
  }

  lemma {:induction false} EvalAllIsMeanings(parent: Tree, kids: seq<Tree>, arrivals: Arrivals, path: seq<nat>)
    requires forall i :: 0 <= i < |kids| ==> kids[i] < parent && LeavesCycleFree(kids[i])
    ensures Truths(EvalAll(kids, arrivals, path)) == Meanings(kids)
    ensures forall o :: o in EvalAll(kids, arrivals, path) ==> CycleFree(o)
    decreases parent, 0
  {
    forall i | 0 <= i < |kids|
      ensures TruthOf(EvalAll(kids, arrivals, path)[i]) == Meanings(kids)[i]
      ensures CycleFree(EvalAll(kids, arrivals, path)[i])
    {
      EvalIsMeaning(kids[i], arrivals, path + [i]);
    }
  }

  /** `u` is `t` with some failed leaves replaced by cycle-free answers. */
  predicate Settles(t: Tree, u: Tree) {
    match (t, u)
    case (Leaf(a), Leaf(b)) => CycleFree(a) && CycleFree(b) && (a == b || a.Fail?)
    case (Any(ks), Any(ls)) => |ks| == |ls| && forall i :: 0 <= i < |ks| ==> Settles(ks[i], ls[i])
    case (All(ks), All(ls)) => |ks| == |ls| && forall i :: 0 <= i < |ks| ==> Settles(ks[i], ls[i])
    case (ButNot(b, s), ButNot(c, d)) => Settles(b, c) && Settles(s, d)
    case _ => false
  }

  lemma OrMonotone(vs: seq<Truth>, ws: seq<Truth>)
    requires |vs| == |ws|
    requires forall i :: 0 <= i < |vs| ==> Below(vs[i], ws[i])
    ensures Below(Or(vs), Or(ws))
    ensures Below(And(vs), And(ws))
  {}

  lemma {:induction false} MeaningMonotone(t: Tree, u: Tree)
    requires Settles(t, u)
    ensures Below(Meaning(t), Meaning(u))
    ensures LeavesCycleFree(t) && LeavesCycleFree(u)
    decreases t
  {
    match t
    case Leaf(_) =>
    case ButNot(base, sub) =>
      MeaningMonotone(base, u.base);
      MeaningMonotone(sub, u.sub);
      OrMonotone([Meaning(base), Not(Meaning(sub))], [Meaning(u.base), Not(Meaning(u.sub))]);
    case Any(kids) =>
      forall i | 0 <= i < |kids| ensures Below(Meaning(kids[i]), Meaning(u.kids[i]))
                                 ensures LeavesCycleFree(kids[i]) && LeavesCycleFree(u.kids[i]) {
        MeaningMonotone(kids[i], u.kids[i]);
      }
      OrMonotone(Meanings(kids), Meanings(u.kids));
    case All(kids) =>
      forall i | 0 <= i < |kids| ensures Below(Meaning(kids[i]), Meaning(u.kids[i]))
                                 ensures LeavesCycleFree(kids[i]) && LeavesCycleFree(u.kids[i]) {
        MeaningMonotone(kids[i], u.kids[i]);
      }
      OrMonotone(Meanings(kids), Meanings(u.kids));
  }

  /**
   An answer that came back without an error never depends on the operands that
   failed, nor on any arrival order: settling the failures in any way, and
   re-running under any schedule, gives the same answer.
   */
  lemma ErrorsCannotChangeAnswers(t: Tree, u: Tree, arrivals: Arrivals, arrivals': Arrivals)
    requires Settles(t, u)
    requires Eval(t, arrivals, []).Resp?
    ensures Eval(u, arrivals', []) == Eval(t, arrivals, [])
  {
    MeaningMonotone(t, u);
    EvalIsMeaning(t, arrivals, []);
    EvalIsMeaning(u, arrivals', []);
  }
}
