/**
 When the v1 chain answers at all, and how far it looks: every error has its cause, what is allowed
 has a derivation that the depth limit leaves room for, and what has one is allowed.
 */
module Answering {
  import Options
  import opened Reducers
  import opened AuthModel
  import opened LocalChecker
  import opened Endings
  import opened LocalCheckerCorrect

  // ---- What can go wrong --------------------------------------------------

  /** Every intersection has two operands or more. */
  predicate Wide(rw: Rewrite) {
    match rw
    case Union(kids) => forall i :: 0 <= i < |kids| ==> Wide(kids[i])
    case Intersection(kids) => |kids| >= 2 && forall i :: 0 <= i < |kids| ==> Wide(kids[i])
    case Difference(base, subtract) => Wide(base) && Wide(subtract)
    case _ => true
  }

  predicate AllWide(env: Env) {
    forall r :: r in env.rewrites ==> Wide(env.rewrites[r])
  }

  /** The evaluation of a goal in `S` asks only about goals in `S`. */
  ghost predicate Complete(env: Env, S: set<Goal>) {
    forall g, h :: g in S && Visits(env, g, h) ==> h in S
  }

  ghost predicate AllDefined(env: Env, S: set<Goal>) {
    forall g :: g in S ==> SelfDefining(g) || Target(g) in env.rewrites
  }

  ghost predicate Quiet(sched: Schedule) {
    forall path :: sched(path).failure.None?
  }

  // ---- Derivations within the depth limit ---------------------------------

  /** `rw` derives `g` where it is not subtracted: `D` are the goals dispatched to, `C` those computed in place. */
  ghost predicate Backed(env: Env, D: iset<Goal>, C: iset<Goal>, g: Goal, rw: Rewrite) {
    match rw
    case This => DirectHolds(env, D, g)
    case Computed(relation) => g.(relation := relation) in C
    case TupleToUserset(tupleset, computed) => TuplesetHolds(env, D, g, tupleset, computed)
    case Union(kids) => exists i :: 0 <= i < |kids| && Backed(env, D, C, g, kids[i])
    case Intersection(kids) => forall i :: 0 <= i < |kids| ==> Backed(env, D, C, g, kids[i])
    case Difference(base, _) => Backed(env, D, C, g, base)
  }

  ghost predicate Rests(env: Env, D: iset<Goal>, C: iset<Goal>, g: Goal) {
    SelfDefining(g) || (Target(g) in env.rewrites && Backed(env, D, C, g, env.rewrites[Target(g)]))
  }

  ghost function Steps(env: Env, k: nat, n: nat): iset<Goal>
    decreases k, 0, n
  {
    if k == 0 || n == 0 then iset{}
    else
      var D, C := Within(env, k - 1), Steps(env, k, n - 1);
      iset g: Goal | Rests(env, D, C, g)
  }

  ghost predicate InSteps(env: Env, k: nat, g: Goal)
    decreases k, 1
  {
    exists n: nat :: g in Steps(env, k, n)
  }

  /** The goals with a derivation of at most `k` levels, where only a dispatch leads to the next level. */
  ghost function Within(env: Env, k: nat): iset<Goal>
    decreases k, 2
  {
    iset g: Goal | InSteps(env, k, g)
  }

  lemma StepOf(env: Env, k: nat, g: Goal) returns (n: nat)
    requires g in Within(env, k)
    ensures g in Steps(env, k, n)
  {
    assert InSteps(env, k, g);
    n :| g in Steps(env, k, n);
  }

  lemma InWithin(env: Env, k: nat, n: nat)
    ensures Steps(env, k, n) <= Within(env, k)
  {
    forall g | g in Steps(env, k, n) ensures g in Within(env, k) {
      assert InSteps(env, k, g);
    }
  }

  lemma {:induction false} BackedMore(
      env: Env, D: iset<Goal>, C: iset<Goal>, D': iset<Goal>, C': iset<Goal>, g: Goal, rw: Rewrite)
    requires D <= D' && C <= C' && Backed(env, D, C, g, rw)
    ensures Backed(env, D', C', g, rw)
    decreases rw
  {
    match rw
    case Union(kids) =>
      var i :| 0 <= i < |kids| && Backed(env, D, C, g, kids[i]);
      BackedMore(env, D, C, D', C', g, kids[i]);
    case Intersection(kids) =>
      forall i | 0 <= i < |kids| ensures Backed(env, D', C', g, kids[i]) {
        BackedMore(env, D, C, D', C', g, kids[i]);
      }
    case Difference(base, _) => BackedMore(env, D, C, D', C', g, base);
    case _ =>
  }

  lemma RestsMore(env: Env, D: iset<Goal>, C: iset<Goal>, D': iset<Goal>, C': iset<Goal>)
    requires D <= D' && C <= C'
    ensures forall g :: Rests(env, D, C, g) ==> Rests(env, D', C', g)
  {
    forall g | Rests(env, D, C, g) ensures Rests(env, D', C', g) {
      if !SelfDefining(g) {
        BackedMore(env, D, C, D', C', g, env.rewrites[Target(g)]);
      }
    }
  }

  lemma {:induction false} StepsGrow(env: Env, k: nat, m: nat, n: nat)
    requires m <= n
    ensures Steps(env, k, m) <= Steps(env, k, n)
  {
    if k > 0 && m > 0 {
      hide Within;
      StepsGrow(env, k, m - 1, n - 1);
      RestsMore(env, Within(env, k - 1), Steps(env, k, m - 1), Within(env, k - 1), Steps(env, k, n - 1));
    }
  }

  lemma {:induction false} LevelsGrow(env: Env, j: nat, k: nat)
    requires j <= k
    ensures Within(env, j) <= Within(env, k)
    decreases j, 1
  {
    forall g | g in Within(env, j) ensures g in Within(env, k) {
      var n := StepOf(env, j, g);
      StepsLevelsGrow(env, j, k, n);
      InWithin(env, k, n);
    }
  }

  lemma {:induction false} StepsLevelsGrow(env: Env, j: nat, k: nat, n: nat)
    requires j <= k
    ensures Steps(env, j, n) <= Steps(env, k, n)
    decreases j, 0, n
  {
    if j > 0 && n > 0 {
      hide Within;
      LevelsGrow(env, j - 1, k - 1);
      StepsLevelsGrow(env, j, k, n - 1);
      RestsMore(env, Within(env, j - 1), Steps(env, j, n - 1), Within(env, k - 1), Steps(env, k, n - 1));
    }
  }

  /** What rests on everything within the limit rests on finitely many computed steps. */
  lemma {:induction false} BackedAtStep(env: Env, k: nat, D: iset<Goal>, g: Goal, rw: Rewrite) returns (n: nat)
    requires Backed(env, D, Within(env, k), g, rw)
    ensures Backed(env, D, Steps(env, k, n), g, rw)
    decreases rw
  {
    n := 0;
    match rw
    case Computed(relation) => n := StepOf(env, k, g.(relation := relation));
    case Union(kids) =>
      var i :| 0 <= i < |kids| && Backed(env, D, Within(env, k), g, kids[i]);
      n := BackedAtStep(env, k, D, g, kids[i]);
    case Intersection(kids) => n := AllAtStep(env, k, D, g, rw);
    case Difference(base, _) => n := BackedAtStep(env, k, D, g, base);
    case _ =>
  }

  lemma {:induction false} AllAtStep(env: Env, k: nat, D: iset<Goal>, g: Goal, rw: Rewrite) returns (n: nat)
    requires rw.Intersection? && Backed(env, D, Within(env, k), g, rw)
    ensures Backed(env, D, Steps(env, k, n), g, rw)
    decreases rw, 0
  {
    var kids := rw.kids;
    n := 0;
    for j := 0 to |kids|
      invariant forall i :: 0 <= i < j ==> Backed(env, D, Steps(env, k, n), g, kids[i])
    {
      var m := BackedAtStep(env, k, D, g, kids[j]);
      var top := if m < n then n else m;
      StepsGrow(env, k, n, top);
      StepsGrow(env, k, m, top);
      forall i | 0 <= i <= j ensures Backed(env, D, Steps(env, k, top), g, kids[i]) {
        BackedMore(env, D, Steps(env, k, if i == j then m else n), D, Steps(env, k, top), g, kids[i]);
      }
      n := top;
    }
  }

  /** With a level left, a goal is within the limit iff its rule rests on what is. */
  lemma WithinIsClosed(env: Env, k: nat, g: Goal)
    requires k > 0 && Rests(env, Within(env, k - 1), Within(env, k), g)
    ensures g in Within(env, k)
  {
    if SelfDefining(g) {
      assert g in Steps(env, k, 1);
      InWithin(env, k, 1);
    } else {
      var n := BackedAtStep(env, k, Within(env, k - 1), g, env.rewrites[Target(g)]);
      assert g in Steps(env, k, n + 1);
      InWithin(env, k, n + 1);
    }
  }

  lemma {:induction false} BackedDerives(env: Env, X: iset<Goal>, D: iset<Goal>, C: iset<Goal>, g: Goal, rw: Rewrite)
    requires Monotone(rw) && Backed(env, D, C, g, rw) && D <= X && C <= X
    ensures Derives(env, iset{}, X, g, rw)
    decreases rw
  {
    match rw
    case Union(kids) =>
      var i :| 0 <= i < |kids| && Backed(env, D, C, g, kids[i]);
      BackedDerives(env, X, D, C, g, kids[i]);
    case Intersection(kids) =>
      forall i | 0 <= i < |kids| ensures Derives(env, iset{}, X, g, kids[i]) {
        BackedDerives(env, X, D, C, g, kids[i]);
      }
    case _ =>
  }

  lemma {:induction false} StepsGranted(env: Env, k: nat, n: nat)
    requires MonotoneModel(env)
    ensures Steps(env, k, n) <= Granted(env, iset{})
    decreases k, 0, n
  {
    if k > 0 && n > 0 {
      hide Granted;
      var X := Granted(env, iset{});
      WithinGranted(env, k - 1);
      StepsGranted(env, k, n - 1);
      forall g | g in Steps(env, k, n) ensures g in X {
        if !SelfDefining(g) {
          BackedDerives(env, X, Within(env, k - 1), Steps(env, k, n - 1), g, env.rewrites[Target(g)]);
        }
        GrantedIsFixpoint(env, iset{}, g);
      }
    }
  }

  /** Without exclusion, what is within any limit is granted. */
  lemma {:induction false} WithinGranted(env: Env, k: nat)
    requires MonotoneModel(env)
    ensures Within(env, k) <= Granted(env, iset{})
    decreases k, 1
  {
    forall g | g in Within(env, k) ensures g in Granted(env, iset{}) {
      var n := StepOf(env, k, g);
      StepsGranted(env, k, n);
    }
  }

  // ---- What an outcome has to say for itself ------------------------------

  /** `Y` maps how many levels are left to goals that may be allowed with them. */
  datatype Ground = Ground(env: Env, hist: History, sched: Schedule, S: set<Goal>, Y: nat -> iset<Goal>)

  /**
   With levels left, `Y` holds what a rule derives, if it holds what the rule dispatches to with one
   level less.  What the cache allows is in `Y` on every level.
   */
  ghost predicate Levelled(c: Ground) {
    && (forall g, r, k :: (g, r) in c.hist && r.allowed ==> !r.cycle && g in c.Y(k))
    && (forall g, k :: k > 0 && Rests(c.env, c.Y(k - 1), c.Y(k), g) ==> g in c.Y(k))
  }

  ghost predicate Firm(c: Ground) {
    Closed(c.env) && Complete(c.env, c.S) && Levelled(c)
  }

  /** Nothing stands in the way of a derivation: it is found if it is within the limit. */
  ghost predicate Free(c: Ground) {
    && Quiet(c.sched) && AllWide(c.env) && MonotoneModel(c.env)
    && (forall g, k :: g in Within(c.env, k) ==> SelfDefining(g) || c.env.pathExists(g.user, Target(g)))
    && (forall g, r, k :: (g, r) in c.hist && g in Within(c.env, k) ==> r.allowed)
  }

  /** The cause of an error; `reach` is how deep the evaluation can get. */
  ghost predicate Excused(c: Ground, reach: nat, err: Err) {
    match err
    case DepthExceeded => reach >= c.env.maxDepth
    case RelationUndefined => !AllDefined(c.env, c.S)
    case BadArity => !AllWide(c.env)
    case ReadFailed(_) => !Quiet(c.sched)
  }

  ghost predicate Vouched(c: Ground, o: Outcome, reach: nat, may: bool, must: bool) {
    && (o.Fail? ==> Excused(c, reach, o.err))
    && (Allows(o) ==> !o.response.cycle && may)
    && (must ==> Allows(o))
  }

  lemma UnionVouched(c: Ground, outs: seq<Outcome>, order: seq<nat>, reach: nat, may: bool, must: bool)
    requires forall o :: o in outs ==> Vouched(c, o, reach, may, false)
    requires must ==> exists o :: o in outs && Allows(o)
    ensures Vouched(c, UnionOf(Arrange(outs, order)), reach, may, must)
  {
    hide Excused;
    UnionMeaning(Arrange(outs, order));
  }

  lemma IntersectionVouched(c: Ground, outs: seq<Outcome>, order: seq<nat>, reach: nat, hs: seq<bool>, ps: seq<bool>)
    requires |outs| == |hs| == |ps| && (|outs| < 2 ==> !AllWide(c.env))
    requires forall i :: 0 <= i < |outs| ==> Vouched(c, outs[i], reach, hs[i], ps[i])
    ensures Vouched(c, IntersectionOf(Arrange(outs, order)), reach, All(hs), All(ps) && AllWide(c.env))
  {
    var arrived := Arrange(outs, order);
    if |arrived| >= 2 {
      hide Excused, AllWide;
      IntersectionMeaning(arrived);
      var r := IntersectionOf(arrived);
      if r.Fail? {
        assert r in outs;
      }
      forall i | 0 <= i < |outs| ensures outs[i] in arrived {}
    }
  }

  // ---- Every evaluation step ----------------------------------------------

  ghost predicate Fits(c: Ground, req: Request) {
    Firm(c) && Known(c.env, req.goal) && req.goal in c.S && req.depth <= c.env.maxDepth
  }

  function Levels(c: Ground, req: Request): nat
    requires req.depth <= c.env.maxDepth
  {
    c.env.maxDepth - req.depth
  }

  function Reach(c: Ground, req: Request): nat {
    req.depth + |c.S - req.visited|
  }

  /** No visited goal is within `k` levels. */
  ghost predicate Past(env: Env, visited: set<Goal>, k: nat) {
    forall v :: v in visited ==> v !in Within(env, k)
  }

  /** Below a frame, the goal has been visited and there is a level left to dispatch to. */
  ghost predicate Below(c: Ground, req: Request) {
    Firm(c) && Known(c.env, req.goal) && req.depth < c.env.maxDepth
  }

  ghost predicate Inside(c: Ground, g: Goal, rw: Rewrite) {
    && (forall h :: DependsOn(c.env, g, rw, h) ==> h in c.S)
    && (!Wide(rw) ==> !AllWide(c.env))
  }

  /** A derivation of `k` levels is found below this frame if those it dispatches to are. */
  ghost predicate Due(c: Ground, req: Request, k: nat)
    requires req.depth <= c.env.maxDepth
  {
    Free(c) && 0 < k <= Levels(c, req) && Past(c.env, req.visited, k - 1)
  }

  ghost predicate NotYet(env: Env, visited: set<Goal>, k: nat, n: nat) {
    forall v :: v in visited ==> v !in Steps(env, k, n)
  }

  lemma {:induction false} LocalVouched(c: Ground, path: seq<nat>, req: Request, k: nat, n: nat)
    requires Fits(c, req)
    ensures Vouched(c, Local(c.env, c.hist, c.sched, path, req), Reach(c, req), req.goal in c.Y(Levels(c, req)),
                    req.goal in Steps(c.env, k, n) && Due(c, req, k) && NotYet(c.env, req.visited, k, n))
    decreases Universe(c.env, req.goal.user) - req.visited, 0
  {
    hide Backed, MonotoneModel, AllWide, Past, Complete;
    var env, g := c.env, req.goal;
    InWithin(env, k, n);
    if req.depth != env.maxDepth && g !in req.visited && !SelfDefining(g) && Target(g) in env.rewrites
       && c.sched(path).failure.None? && env.pathExists(g.user, Target(g))
    {
      FrameVouched(c, path, req, k, n);
    }
  }

  /** The least level and the least step at which a goal is derived. */
  lemma LeastWithin(env: Env, k: nat, n: nat, g: Goal) returns (k': nat, n': nat)
    requires g in Steps(env, k, n)
    ensures 0 < k' <= k && g in Steps(env, k', n' + 1) && g !in Steps(env, k', n') && g !in Within(env, k' - 1)
    ensures k' == k ==> n' < n
  {
    InWithin(env, k, n);
    k' := 0;
    while g !in Within(env, k')
      invariant k' <= k && (k' > 0 ==> g !in Within(env, k' - 1))
      decreases k - k'
    {
      k' := k' + 1;
    }
    var top := n;
    if k' < k {
      top := StepOf(env, k', g);
    }
    n' := 0;
    while g !in Steps(env, k', n' + 1)
      invariant n' < top && g !in Steps(env, k', n')
      decreases top - n'
    {
      n' := n' + 1;
    }
  }

  lemma StillPast(env: Env, visited: set<Goal>, g: Goal, k: nat, n: nat, k': nat, n': nat)
    requires 0 < k' <= k && (k' == k ==> n' < n)
    requires Past(env, visited, k - 1) && NotYet(env, visited, k, n)
    requires g !in Within(env, k' - 1) && g !in Steps(env, k', n')
    ensures Past(env, visited + {g}, k' - 1) && NotYet(env, visited + {g}, k', n')
  {
    LevelsGrow(env, k' - 1, k - 1);
    if k' == k {
      StepsGrow(env, k, n', n);
    } else {
      LevelsGrow(env, k', k - 1);
    }
    InWithin(env, k', n');
  }

  lemma StepRests(env: Env, k: nat, n: nat, g: Goal)
    requires k > 0 && g in Steps(env, k, n + 1)
    ensures Rests(env, Within(env, k - 1), Steps(env, k, n), g)
  {}

  /** Visiting the goal leaves fewer goals to visit, and its rule asks only about goals of the space. */
  lemma FrameInside(c: Ground, req: Request)
    requires Fits(c, req) && req.goal !in req.visited && !SelfDefining(req.goal) && Target(req.goal) in c.env.rewrites
    requires c.env.pathExists(req.goal.user, Target(req.goal))
    ensures var inner, rw := req.(visited := req.visited + {req.goal}), c.env.rewrites[Target(req.goal)];
            && Reach(c, req) == Reach(c, inner) + 1 && Inside(c, req.goal, rw) && NamesKnown(c.env, rw)
            && Universe(c.env, req.goal.user) - inner.visited < Universe(c.env, req.goal.user) - req.visited
            && (Free(c) ==> Monotone(rw))
  {
    hide Levelled, Within;
    var env, g := c.env, req.goal;
    assert g in Universe(env, g.user);
    assert c.S - (req.visited + {g}) == (c.S - req.visited) - {g};
    forall h | DependsOn(env, g, env.rewrites[Target(g)], h) ensures h in c.S {
      assert Visits(env, g, h);
    }
  }

  /** The frame past its tests, where the goal joins the visited ones. */
  lemma {:induction false} FrameVouched(c: Ground, path: seq<nat>, req: Request, k: nat, n: nat)
    requires Fits(c, req) && req.depth < c.env.maxDepth && req.goal !in req.visited
    requires !SelfDefining(req.goal) && Target(req.goal) in c.env.rewrites
    requires c.env.pathExists(req.goal.user, Target(req.goal))
    ensures var inner := req.(visited := req.visited + {req.goal});
            Vouched(c, Rewritten(c.env, c.hist, c.sched, path + [0], inner, c.env.rewrites[Target(req.goal)]),
                    Reach(c, req), req.goal in c.Y(Levels(c, req)),
                    req.goal in Steps(c.env, k, n) && Due(c, req, k) && NotYet(c.env, req.visited, k, n))
    decreases Universe(c.env, req.goal.user) - req.visited, 0, 0
  {
    hide Backed, Free, Past, NotYet, Excused, AllWide, Complete, Rewritten, Closed, Steps, Within, Universe, Inside;
    var env, g := c.env, req.goal;
    var inner := req.(visited := req.visited + {g});
    var rw := env.rewrites[Target(g)];
    FrameInside(c, req);
    if g in Steps(env, k, n) && Due(c, req, k) && NotYet(env, req.visited, k, n) {
      var k', n' := LeastWithin(env, k, n, g);
      StillPast(env, req.visited, g, k, n, k', n');
      RewrittenVouched(c, path + [0], inner, rw, k', n');
      StepRests(env, k', n', g);
    } else {
      RewrittenVouched(c, path + [0], inner, rw, 0, 0);
    }
  }

  lemma {:induction false} CachedVouched(c: Ground, path: seq<nat>, req: Request, k: nat)
    requires Fits(c, req)
    ensures Vouched(c, Cached(c.env, c.hist, c.sched, path, req), Reach(c, req), req.goal in c.Y(Levels(c, req)),
                    req.goal in Within(c.env, k) && Free(c) && k <= Levels(c, req) && Past(c.env, req.visited, k))
    decreases Universe(c.env, req.goal.user) - req.visited, 1
  {
    hide Excused, Local, AllWide, MonotoneModel, Quiet;
    if req.goal in Within(c.env, k) && Past(c.env, req.visited, k) {
      var n := StepOf(c.env, k, req.goal);
      if k > 0 {
        LevelsGrow(c.env, k - 1, k);
      }
      InWithin(c.env, k, n);
      LocalVouched(c, path, req, k, n);
    } else {
      LocalVouched(c, path, req, 0, 0);
    }
  }

  lemma {:induction false} DispatchUnionVouched(
      c: Ground, path: seq<nat>, req: Request, goals: seq<Goal>, last: seq<Outcome>, k: nat, may: bool, must: bool)
    requires Below(c, req)
    requires forall h :: h in goals ==> Known(c.env, h) && h.user == req.goal.user && h in c.S
    requires forall h :: h in goals && h in c.Y(Levels(c, req) - 1) ==> may
    requires forall o :: o in last ==> Vouched(c, o, Reach(c, req) + 1, may, false)
    requires must ==>
               || (Due(c, req, k) && exists h :: h in goals && h in Within(c.env, k - 1))
               || exists o :: o in last && Allows(o)
    ensures var outs := Dispatches(c.env, c.hist, c.sched, path, req, goals) + last;
            Vouched(c, UnionOf(Arrange(outs, c.sched(path).order)), Reach(c, req) + 1, may, must)
    decreases Universe(c.env, req.goal.user) - req.visited, 2
  {
    hide Excused, UnionOf, Arrange, Complete, Levelled, Free, Past, Within;
    var outs := Dispatches(c.env, c.hist, c.sched, path, req, goals);
    var k' := if k > 0 then k - 1 else 0;
    forall i | 0 <= i < |goals|
      ensures Vouched(c, outs[i], Reach(c, req) + 1, may, Due(c, req, k) && goals[i] in Within(c.env, k'))
    {
      assert goals[i] in goals;
      CachedVouched(c, path + [i], Request(goals[i], req.visited, req.depth + 1), k');
    }
    if must {
      if h :| Due(c, req, k) && h in goals && h in Within(c.env, k - 1) {
        var i :| 0 <= i < |goals| && goals[i] == h;
        assert outs[i] in outs + last;
      } else {
        var o :| o in last && Allows(o);
        assert o in outs + last;
      }
    }
    UnionVouched(c, outs + last, c.sched(path).order, Reach(c, req) + 1, may, must);
  }

  lemma {:induction false} ExpandedVouched(c: Ground, path: seq<nat>, req: Request, rows: seq<User>, k: nat)
    requires Below(c, req) && RowsKnown(c.env, rows)
    requires forall row :: row in rows && row.relation != "" ==> Goal(row.obj, row.relation, req.goal.user) in c.S
    ensures Vouched(c, Expanded(c.env, c.hist, c.sched, path, req, rows), Reach(c, req) + 1,
                    RowsHold(c.Y(Levels(c, req) - 1), req.goal.user, rows),
                    Due(c, req, k) && RowsHold(Within(c.env, k - 1), req.goal.user, rows))
    decreases Universe(c.env, req.goal.user) - req.visited, 3, 0
  {
    hide UnionOf, Arrange, Complete, Levelled, AllWide, AllDefined, Past, Within, MonotoneModel;
    var choice, u, D := c.sched(path), req.goal.user, c.Y(Levels(c, req) - 1);
    var seen := Yielded(rows, choice.failure);
    var msgs := UsersetMessages(seen, u);
    UsersetMessagesMeaning(seen, u);
    var last :=
      if msgs.shortCircuit then [Resp(Response(true, false))]
      else if choice.failure.Some? then [Fail(ReadFailed(1))]
      else [];
    if msgs.shortCircuit {
      var row :| row in seen && WildcardFor(row, u);
      assert row in rows && RowHolds(D, u, row);
      assert last[0] in last && Allows(last[0]);
    }
    forall h | h in msgs.goals
      ensures h == Goal(h.obj, h.relation, u) && User(h.obj, h.relation) in rows
      ensures h in D ==> RowsHold(D, u, rows)
    {
      assert h in D ==> RowHolds(D, u, User(h.obj, h.relation));
    }
    DispatchUnionVouched(c, path, req, msgs.goals, last, k, RowsHold(D, u, rows),
      Due(c, req, k) && RowsHold(Within(c.env, k - 1), u, rows));
  }

  lemma {:induction false} UsersetsVouched(c: Ground, path: seq<nat>, req: Request, k: nat)
    requires Below(c, req) && Inside(c, req.goal, This)
    ensures var rows :=
              OfRefs(Rows(c.env.tuples, req.goal.obj, req.goal.relation), UsersetRefs(c.env, Target(req.goal)));
            Vouched(c, Usersets(c.env, c.hist, c.sched, path, req), Reach(c, req) + 1,
                    RowsHold(c.Y(Levels(c, req) - 1), req.goal.user, rows),
                    Due(c, req, k) && RowsHold(Within(c.env, k - 1), req.goal.user, rows))
    decreases Universe(c.env, req.goal.user) - req.visited, 4
  {
    hide UnionOf, Arrange, Complete, Levelled, Excused, RowsHold, Free, Past, Within;
    var env, g := c.env, req.goal;
    var refs, all := UsersetRefs(env, Target(g)), Rows(env.tuples, g.obj, g.relation);
    forall row | row in OfRefs(all, refs) && row.relation != "" ensures Goal(row.obj, row.relation, g.user) in c.S {
      assert row == User(row.obj, row.relation);
      assert DependsOn(env, g, This, Goal(row.obj, row.relation, g.user));
    }
    if IsUserset(g.user) || env.recursive(Target(g), g.user.obj.kind) {
      ExpandedVouched(c, path, req, OfRefs(all, refs), k);
    } else {
      GroupsVouched(c, path, req, all, refs, Groups(env, Target(g), g.user.obj.kind, refs), k);
    }
  }

  lemma {:induction false} GroupsVouched(
      c: Ground, path: seq<nat>, req: Request, all: seq<User>, refs: seq<Ref>, groups: seq<seq<Ref>>, k: nat)
    requires Below(c, req) && RowsKnown(c.env, all)
    requires forall r :: r in refs <==> exists i :: 0 <= i < |groups| && r in groups[i]
    requires forall row :: row in OfRefs(all, refs) && row.relation != "" ==>
               Goal(row.obj, row.relation, req.goal.user) in c.S
    ensures var outs := ExpandedGroups(c.env, c.hist, c.sched, path, req, all, groups);
            Vouched(c, UnionOf(Arrange(outs, c.sched(path).order)), Reach(c, req) + 1,
                    RowsHold(c.Y(Levels(c, req) - 1), req.goal.user, OfRefs(all, refs)),
                    Due(c, req, k) && RowsHold(Within(c.env, k - 1), req.goal.user, OfRefs(all, refs)))
    decreases Universe(c.env, req.goal.user) - req.visited, 3, 1
  {
    hide UnionOf, Arrange, Firm, Excused, RowsHold, Free, Past, Within, Expanded;
    assert Closed(c.env) by { FirmIsClosed(c); }
    var u, D := req.goal.user, c.Y(Levels(c, req) - 1);
    var may := RowsHold(D, u, OfRefs(all, refs));
    var must := Due(c, req, k) && RowsHold(Within(c.env, k - 1), u, OfRefs(all, refs));
    GroupsCover(D, u, all, refs, groups);
    var outs := ExpandedGroups(c.env, c.hist, c.sched, path, req, all, groups);
    forall i | 0 <= i < |groups|
      ensures Vouched(c, outs[i], Reach(c, req) + 1, may,
                      Due(c, req, k) && RowsHold(Within(c.env, k - 1), u, OfRefs(all, groups[i])))
    {
      ExpandedVouched(c, path + [i], req, OfRefs(all, groups[i]), k);
    }
    if must {
      GroupsCover(Within(c.env, k - 1), u, all, refs, groups);
      var i :| 0 <= i < |groups| && RowsHold(Within(c.env, k - 1), u, OfRefs(all, groups[i]));
      assert outs[i] in outs && Allows(outs[i]);
    }
    UnionVouched(c, outs, c.sched(path).order, Reach(c, req) + 1, may, must);
  }

  lemma FirmIsClosed(c: Ground)
    requires Firm(c)
    ensures Closed(c.env)
  {}

  lemma {:induction false} DirectVouched(c: Ground, path: seq<nat>, req: Request, k: nat)
    requires Below(c, req) && Inside(c, req.goal, This)
    ensures Vouched(c, Direct(c.env, c.hist, c.sched, path, req), Reach(c, req) + 1,
                    DirectHolds(c.env, c.Y(Levels(c, req) - 1), req.goal),
                    Due(c, req, k) && DirectHolds(c.env, Within(c.env, k - 1), req.goal))
    decreases Universe(c.env, req.goal.user) - req.visited, 5
  {
    hide UnionOf, Arrange, Usersets, DirectHandlers, Complete, Levelled, Inside, Rows, OfRefs, RowsHold, RowHolds,
      AllWide, AllDefined, MonotoneModel, Past, Within;
    var env, g, D := c.env, req.goal, c.Y(Levels(c, req) - 1);
    UsersetsVouched(c, path + [2], req, k);
    RowsMeaning(env, D, g, UsersetRefs(env, Target(g)));
    if Due(c, req, k) {
      RowsMeaning(env, Within(env, k - 1), g, UsersetRefs(env, Target(g)));
    }
    HandlersAre(env, c.hist, c.sched, path, req);
    var outs := DirectHandlers(env, c.hist, c.sched, path, req);
    forall o | o in outs ensures Vouched(c, o, Reach(c, req) + 1, DirectHolds(env, D, g), false) {}
    UnionVouched(c, outs, c.sched(path).order, Reach(c, req) + 1, DirectHolds(env, D, g),
      Due(c, req, k) && DirectHolds(env, Within(env, k - 1), g));
  }

  lemma {:induction false} TuplesetVouched(
      c: Ground, path: seq<nat>, req: Request, tupleset: Name, computed: Name, k: nat)
    requires Below(c, req) && computed in c.env.names && Inside(c, req.goal, TupleToUserset(tupleset, computed))
    ensures Vouched(c, Tupleset(c.env, c.hist, c.sched, path, req, tupleset, computed), Reach(c, req) + 1,
                    TuplesetHolds(c.env, c.Y(Levels(c, req) - 1), req.goal, tupleset, computed),
                    Due(c, req, k) && TuplesetHolds(c.env, Within(c.env, k - 1), req.goal, tupleset, computed))
    decreases Universe(c.env, req.goal.user) - req.visited, 3
  {
    hide UnionOf, Arrange, Complete, Levelled, AllWide, AllDefined, MonotoneModel, Past, Within, TuplesetHolds,
      Followed;
    var env, choice, g, D := c.env, c.sched(path), req.goal, c.Y(Levels(c, req) - 1);
    var rows := Yielded(Rows(env.tuples, g.obj, tupleset), choice.failure);
    assert forall row :: row in rows ==> Tuple(g.obj, tupleset, row) in env.tuples;
    var goals := TuplesetGoals(env, rows, computed, g.user);
    var last := if choice.failure.Some? then [Fail(ReadFailed(2))] else [];
    TuplesetInside(c, g, tupleset, computed, rows);
    TuplesetCovered(env, D, g, tupleset, computed, rows);
    if Due(c, req, k) {
      TuplesetCovered(env, Within(env, k - 1), g, tupleset, computed, rows);
    }
    DispatchUnionVouched(c, path, req, goals, last, k, TuplesetHolds(env, D, g, tupleset, computed),
      Due(c, req, k) && TuplesetHolds(env, Within(env, k - 1), g, tupleset, computed));
  }

  lemma TuplesetInside(c: Ground, g: Goal, tupleset: Name, computed: Name, rows: seq<User>)
    requires Inside(c, g, TupleToUserset(tupleset, computed))
    requires forall row :: row in rows ==> Tuple(g.obj, tupleset, row) in c.env.tuples
    ensures forall h :: h in TuplesetGoals(c.env, rows, computed, g.user) ==> h in c.S
  {
    forall h | h in TuplesetGoals(c.env, rows, computed, g.user)
      ensures DependsOn(c.env, g, TupleToUserset(tupleset, computed), h)
    {}
  }

  lemma {:induction false} RewrittenVouched(c: Ground, path: seq<nat>, req: Request, rw: Rewrite, k: nat, n: nat)
    requires Below(c, req) && NamesKnown(c.env, rw) && Inside(c, req.goal, rw)
    requires Free(c) ==> Monotone(rw)
    ensures Vouched(c, Rewritten(c.env, c.hist, c.sched, path, req, rw), Reach(c, req) + 1,
                    Backed(c.env, c.Y(Levels(c, req) - 1), c.Y(Levels(c, req)), req.goal, rw),
                    Due(c, req, k) && NotYet(c.env, req.visited, k, n)
                    && Backed(c.env, Within(c.env, k - 1), Steps(c.env, k, n), req.goal, rw))
    decreases Universe(c.env, req.goal.user) - req.visited, 6, rw
  {
    hide UnionOf, IntersectionOf, Arrange, Complete, Levelled, AllWide, AllDefined, Closed, DirectHolds, TuplesetHolds,
      Quiet, MonotoneModel, Past, NotYet, Within, Steps;
    var kept := NotYet(c.env, req.visited, k, n);
    match rw
    case This => DirectVouched(c, path, req, k);
    case Computed(relation) =>
      assert DependsOn(c.env, req.goal, rw, req.goal.(relation := relation));
      LocalVouched(c, path + [0], req.(goal := req.goal.(relation := relation)), k, n);
    case TupleToUserset(tupleset, computed) => TuplesetVouched(c, path, req, tupleset, computed, k);
    case Union(kids) =>
      var hs, ps := OperandsVouched(c, path, req, rw, k, n);
      SomeVouched(c, Operands(c.env, c.hist, c.sched, path, req, kids), c.sched(path).order, Reach(c, req) + 1, hs, ps);
    case Intersection(kids) =>
      var hs, ps := OperandsVouched(c, path, req, rw, k, n);
      IntersectionVouched(c, Operands(c.env, c.hist, c.sched, path, req, kids), c.sched(path).order,
        Reach(c, req) + 1, hs, ps);
    case Difference(base, subtract) =>
      RewrittenVouched(c, path + [0], req, base, k, n);
      RewrittenVouched(c, path + [1], req, subtract, k, n);
      ExclusionMeaning(Rewritten(c.env, c.hist, c.sched, path + [0], req, base),
        Rewritten(c.env, c.hist, c.sched, path + [1], req, subtract), c.sched(path).order != [1, 0]);
  }

  lemma SomeVouched(c: Ground, outs: seq<Outcome>, order: seq<nat>, reach: nat, hs: seq<bool>, ps: seq<bool>)
    requires |outs| == |hs| == |ps|
    requires forall i :: 0 <= i < |outs| ==> Vouched(c, outs[i], reach, hs[i], ps[i])
    ensures Vouched(c, UnionOf(Arrange(outs, order)), reach, Some(hs), Some(ps))
  {
    hide Excused;
    forall o | o in outs ensures Vouched(c, o, reach, Some(hs), false) {
      var i :| 0 <= i < |outs| && outs[i] == o;
      assert hs[i] ==> Some(hs);
    }
    if Some(ps) {
      var i :| 0 <= i < |ps| && ps[i];
      assert outs[i] in outs && Allows(outs[i]);
    }
    UnionVouched(c, outs, order, reach, Some(hs), Some(ps));
  }

  lemma {:induction false} OperandsVouched(c: Ground, path: seq<nat>, req: Request, rw: Rewrite, k: nat, n: nat)
    returns (hs: seq<bool>, ps: seq<bool>)
    requires rw.Union? || rw.Intersection?
    requires Below(c, req) && NamesKnown(c.env, rw) && Inside(c, req.goal, rw)
    requires Free(c) ==> Monotone(rw)
    ensures |hs| == |ps| == |rw.kids|
    ensures forall i :: 0 <= i < |rw.kids| ==>
              && hs[i] == Backed(c.env, c.Y(Levels(c, req) - 1), c.Y(Levels(c, req)), req.goal, rw.kids[i])
              && ps[i] == (Due(c, req, k) && NotYet(c.env, req.visited, k, n)
                           && Backed(c.env, Within(c.env, k - 1), Steps(c.env, k, n), req.goal, rw.kids[i]))
              && Vouched(c, Operands(c.env, c.hist, c.sched, path, req, rw.kids)[i], Reach(c, req) + 1, hs[i], ps[i])
    decreases Universe(c.env, req.goal.user) - req.visited, 6, rw, 0
  {
    hide Vouched, Complete, Levelled, AllWide, AllDefined, Closed, Past, NotYet, Within, Steps, Quiet, MonotoneModel;
    var env, g, kids, D, C := c.env, req.goal, rw.kids, c.Y(Levels(c, req) - 1), c.Y(Levels(c, req));
    hs := seq(|kids|, i requires 0 <= i < |kids| => Backed(env, D, C, g, kids[i]));
    ps := seq(|kids|, i requires 0 <= i < |kids| =>
      && Due(c, req, k) && NotYet(env, req.visited, k, n)
      && Backed(env, Within(env, k - 1), Steps(env, k, n), g, kids[i]));
    forall i | 0 <= i < |kids|
      ensures Vouched(c, Operands(env, c.hist, c.sched, path, req, kids)[i], Reach(c, req) + 1, hs[i], ps[i])
    {
      forall h | DependsOn(env, g, kids[i], h) ensures DependsOn(env, g, rw, h) {}
      RewrittenVouched(c, path + [i], req, kids[i], k, n);
    }
  }

  // ---- Main results -------------------------------------------------------

  /** Cached responses carry no cycle flag. */
  ghost predicate UnflaggedHistory(hist: History) {
    forall g, r :: (g, r) in hist ==> !r.cycle
  }

  ghost predicate Bounds(env: Env, req: Request, S: set<Goal>) {
    Closed(env) && Complete(env, S) && Known(env, req.goal) && req.goal in S && req.depth <= env.maxDepth
  }

  /**
   Every error has its cause: a depth that the goals still unvisited can fill, an undefined relation
   that is asked about, an intersection without two operands, or a failing read.
   */
  lemma ErrorsHaveCauses(env: Env, hist: History, sched: Schedule, path: seq<nat>, req: Request, S: set<Goal>)
    requires Bounds(env, req, S) && UnflaggedHistory(hist)
    ensures forall out ::
              out in {Local(env, hist, sched, path, req), Cached(env, hist, sched, path, req)} && out.Fail? ==>
              match out.err
              case DepthExceeded => req.depth + |S - req.visited| >= env.maxDepth
              case RelationUndefined => !AllDefined(env, S)
              case BadArity => !AllWide(env)
              case ReadFailed(_) => !Quiet(sched)
  {
    var all := (iset g: Goal | SelfDefining(g)) + (iset g: Goal | !SelfDefining(g));
    var c := Ground(env, hist, sched, S, _ => all);
    LocalVouched(c, path, req, 0, 0);
    CachedVouched(c, path, req, 0);
  }

  /** No read fails, no undefined relation is asked about, and the depth limit is out of reach. */
  ghost predicate Answerable(env: Env, sched: Schedule, req: Request, S: set<Goal>) {
    && Bounds(env, req, S) && Quiet(sched) && AllWide(env) && AllDefined(env, S)
    && req.depth + |S - req.visited| < env.maxDepth
  }

  /** So without any of these there is an answer. */
  lemma AlwaysAnswers(env: Env, hist: History, sched: Schedule, path: seq<nat>, req: Request, S: set<Goal>)
    requires Answerable(env, sched, req, S) && UnflaggedHistory(hist)
    ensures Local(env, hist, sched, path, req).Resp? && Cached(env, hist, sched, path, req).Resp?
  {
    ErrorsHaveCauses(env, hist, sched, path, req, S);
  }

  /** A cached answer needs no evaluation: it is served where the evaluation itself could only fail. */
  lemma CacheAnswersAtTheLimit(env: Env, hist: History, sched: Schedule, path: seq<nat>, req: Request, r: Response)
    requires Closed(env) && Known(env, req.goal) && req.depth == env.maxDepth
    requires (req.goal, r) in hist && sched(path).hit == Options.Some(r)
    ensures Local(env, hist, sched, path, req).Fail? && Cached(env, hist, sched, path, req) == Resp(r)
  {}

  /** The whole finite space of goals about a user will do for `S`. */
  lemma UniverseIsComplete(env: Env, u: User)
    requires Closed(env)
    ensures Complete(env, Universe(env, u))
  {
    forall g, h | g in Universe(env, u) && Visits(env, g, h) ensures h in Universe(env, u) {
      AsksNear(env, g, env.rewrites[Target(g)], h);
    }
  }

  /** A fresh request is answered, and allowed exactly what is surely granted. */
  lemma AnswersTheSure(w: World, hist: History, sched: Schedule, g: Goal, depth: nat, S: set<Goal>)
    requires Setting(w, hist) && Settled(w) && Answerable(w.env, sched, Request(g, {}, depth), S)
    ensures Known(w.env, g)
    ensures var out := Cached(w.env, hist, sched, [], Request(g, {}, depth));
            out.Resp? && (out.response.allowed <==> g in w.sure)
  {
    AlwaysAnswers(w.env, hist, sched, [], Request(g, {}, depth), S);
    AllowsExactlyTheSure(w, hist, sched, g, depth);
  }

  /** Without exclusion: after any run, a fresh request is answered, and allowed iff the goal is granted. */
  lemma AnswersTheFixpoint(env: Env, run: seq<Event>, sched: Schedule, g: Goal, depth: nat, S: set<Goal>)
    requires MonotoneModel(env) && PathSound(Exactly(env, Granted(env, iset{})))
    requires Answerable(env, sched, Request(g, {}, depth), S) && GoalsKnown(env, run)
    ensures Known(env, g)
    ensures var out := Cached(env, HistoryOf(env, run), sched, [], Request(g, {}, depth));
            out.Resp? && (out.response.allowed <==> g in Granted(env, iset{}))
  {
    var w := Exactly(env, Granted(env, iset{}));
    MonotoneIsSettled(env);
    CacheEntriesAreSound(w, run);
    AnswersTheSure(w, HistoryOf(env, run), sched, g, depth, S);
  }

  lemma DepthGround(env: Env, sched: Schedule, u: User)
    requires Closed(env) && MonotoneModel(env) && AllWide(env) && Quiet(sched)
    requires PathSound(Exactly(env, Granted(env, iset{})))
    ensures var c := Ground(env, {}, sched, Universe(env, u), (k: nat) => Within(env, k)); Firm(c) && Free(c)
  {
    hide Within, Granted, MonotoneModel, AllWide, Quiet, Closed;
    var c := Ground(env, {}, sched, Universe(env, u), (k: nat) => Within(env, k));
    UniverseIsComplete(env, u);
    forall g, k: nat | k > 0 && Rests(env, c.Y(k - 1), c.Y(k), g) ensures g in c.Y(k) {
      WithinIsClosed(env, k, g);
    }
    forall g, k: nat | g in Within(env, k) ensures SelfDefining(g) || env.pathExists(g.user, Target(g)) {
      WithinGranted(env, k);
    }
  }

  /**
   Whatever the depth limit, and whatever errors it causes in other branches: without exclusion, failing
   reads and cached answers, a fresh request is allowed iff the goal has a derivation of no more
   levels than the limit leaves.
   */
  lemma AllowedIffWithin(env: Env, sched: Schedule, g: Goal, depth: nat)
    requires Closed(env) && Known(env, g) && depth <= env.maxDepth
    requires MonotoneModel(env) && AllWide(env) && Quiet(sched) && PathSound(Exactly(env, Granted(env, iset{})))
    ensures Allows(Cached(env, {}, sched, [], Request(g, {}, depth))) <==> g in Within(env, env.maxDepth - depth)
  {
    hide Within, Free, Cached, Universe;
    var c := Ground(env, {}, sched, Universe(env, g.user), (k: nat) => Within(env, k));
    DepthGround(env, sched, g.user);
    assert g in Universe(env, g.user) by { GoalInUniverse(env, g); }
    CachedVouched(c, [], Request(g, {}, depth), env.maxDepth - depth);
  }

  lemma GoalInUniverse(env: Env, g: Goal)
    requires Known(env, g)
    ensures g in Universe(env, g.user)
  {}
}
