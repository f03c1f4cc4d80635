/**
 What the v1 chain computes when subtracted branches may lead back to themselves: a subtracted goal
 that does counts as granted.  For subtracted branches made of unions this is exact.
 */
module SubtractedLoops {
  import opened AuthModel
  import opened LocalChecker
  import opened Endings
  import opened LocalCheckerCorrect

  predicate UnionOnly(rw: Rewrite) {
    match rw
    case Union(kids) => forall i :: 0 <= i < |kids| ==> UnionOnly(kids[i])
    case Intersection(_) => false
    case Difference(_, _) => false
    case _ => true
  }

  predicate SubtractsUnions(rw: Rewrite) {
    match rw
    case Union(kids) => forall i :: 0 <= i < |kids| ==> SubtractsUnions(kids[i])
    case Intersection(kids) => forall i :: 0 <= i < |kids| ==> SubtractsUnions(kids[i])
    case Difference(base, subtract) => SubtractsUnions(base) && UnionOnly(subtract)
    case _ => true
  }

  /** Every subtracted branch, and every goal of `U`, where all of them lead, has a rule made of unions. */
  ghost predicate PlainBelow(env: Env, U: iset<Goal>) {
    && (forall r :: r in env.rewrites ==> SubtractsUnions(env.rewrites[r]))
    && (forall g, h :: Subtracts(env, g, h) ==> h in U)
    && (forall g, h :: g in U && Visits(env, g, h) ==> h in U)
    && (forall g :: g in U && Target(g) in env.rewrites ==> UnionOnly(env.rewrites[Target(g)]))
  }

  /** The goals below an exclusion from which some chain of questions does not end. */
  ghost function Looping(env: Env, U: iset<Goal>): iset<Goal> {
    iset g | g in U && !Ends(env, g)
  }

  /** The meaning, and as a lower estimate what is still derived when the looping goals are subtracted too. */
  ghost function Doubting(env: Env, U: iset<Goal>, X: iset<Goal>): World {
    var maybe := X + Looping(env, U);
    World(env, Granted(env, maybe), maybe)
  }

  /** A rule made of unions holds if one of the goals it asks about does. */
  lemma {:induction false} UnionAsks(env: Env, X: iset<Goal>, Y: iset<Goal>, g: Goal, rw: Rewrite, h: Goal)
    requires UnionOnly(rw) && DependsOn(env, g, rw, h) && h in Y
    ensures Derives(env, X, Y, g, rw)
    decreases rw
  {
    match rw
    case This => assert RowHolds(Y, g.user, User(h.obj, h.relation));
    case Union(kids) =>
      var i :| 0 <= i < |kids| && DependsOn(env, g, kids[i], h);
      UnionAsks(env, X, Y, g, kids[i], h);
    case _ =>
  }

  lemma SureIsGranted(env: Env, U: iset<Goal>, X: iset<Goal>)
    requires IsMeaning(env, X)
    ensures Doubting(env, U, X).sure <= X
  {
    var maybe := Doubting(env, U, X).maybe;
    forall g | Fires(env, maybe, X, g) ensures g in X {
      FiresMonotone(env, maybe, X, X, X, g);
      GrantedIsFixpoint(env, X, g);
    }
    GrantedIsLeast(env, maybe, X);
  }

  lemma DoubtingIsSupported(env: Env, U: iset<Goal>, X: iset<Goal>, g: Goal)
    requires Closed(env) && PlainBelow(env, U) && IsMeaning(env, X) && g in Doubting(env, U, X).maybe
    ensures var w := Doubting(env, U, X); Fires(env, w.sure, w.maybe, g)
    ensures g in X || env.pathExists(g.user, Target(g))
  {
    var w := Doubting(env, U, X);
    if g in X {
      SureIsGranted(env, U, X);
      GrantedIsFixpoint(env, X, g);
      FiresMonotone(env, X, X, w.sure, w.maybe, g);
    } else {
      var h := EndlessGoesOn(env, g);
      assert h in w.maybe;
      UnionAsks(env, w.sure, w.maybe, g, env.rewrites[Target(g)], h);
    }
  }

  lemma DoubtingIsSane(env: Env, U: iset<Goal>, X: iset<Goal>)
    requires Closed(env) && PlainBelow(env, U) && IsMeaning(env, X) && PathSound(Exactly(env, X))
    ensures Sane(Doubting(env, U, X))
  {
    var w := Doubting(env, U, X);
    forall g | g in w.maybe
      ensures Fires(env, w.sure, w.maybe, g) && (g in X || env.pathExists(g.user, Target(g)))
    {
      DoubtingIsSupported(env, U, X, g);
    }
    SureIsGranted(env, U, X);
  }

  /** What is subtracted leads nowhere, or to a looping goal and then it may hold. */
  lemma {:induction false} DoubtingIsClean(env: Env, U: iset<Goal>, X: iset<Goal>, g: Goal, rw: Rewrite)
    requires SubtractsUnions(rw) && forall h :: SubtractedOn(env, g, rw, h) ==> h in U
    ensures Clean(Doubting(env, U, X), g, rw)
    decreases rw
  {
    var w := Doubting(env, U, X);
    match rw
    case Union(kids) =>
      forall i | 0 <= i < |kids| ensures Clean(w, g, kids[i]) {
        forall h | SubtractedOn(env, g, kids[i], h) ensures SubtractedOn(env, g, rw, h) {}
        DoubtingIsClean(env, U, X, g, kids[i]);
      }
    case Intersection(kids) =>
      forall i | 0 <= i < |kids| ensures Clean(w, g, kids[i]) {
        forall h | SubtractedOn(env, g, kids[i], h) ensures SubtractedOn(env, g, rw, h) {}
        DoubtingIsClean(env, U, X, g, kids[i]);
      }
    case Difference(base, subtract) =>
      DoubtingIsClean(env, U, X, g, base);
      if h :| DependsOn(env, g, subtract, h) && !Ends(env, h) {
        assert h in w.maybe;
        UnionAsks(env, w.sure, w.maybe, g, subtract, h);
      }
    case _ =>
  }

  lemma DoubtingIsSettled(env: Env, U: iset<Goal>, X: iset<Goal>)
    requires PlainBelow(env, U)
    ensures Settled(Doubting(env, U, X))
  {
    var w := Doubting(env, U, X);
    forall g | g in w.sure && Target(g) in env.rewrites ensures Clean(w, g, env.rewrites[Target(g)]) {
      forall h | SubtractedOn(env, g, env.rewrites[Target(g)], h) ensures h in U {
        assert Subtracts(env, g, h);
      }
      DoubtingIsClean(env, U, X, g, env.rewrites[Target(g)]);
    }
  }

  /**
   After every run and for every schedule, an error-free answer to a fresh request is whether the goal
   is still derived when the looping goals count as granted wherever something is subtracted.
   */
  lemma ComputesTheSure(env: Env, U: iset<Goal>, X: iset<Goal>, run: seq<Event>, sched: Schedule, g: Goal, depth: nat)
    requires Closed(env) && PlainBelow(env, U) && IsMeaning(env, X) && PathSound(Exactly(env, X))
    requires GoalsKnown(env, run) && Known(env, g)
    ensures var out := Cached(env, HistoryOf(env, run), sched, [], Request(g, {}, depth));
            out.Resp? ==> (out.response.allowed <==> g in Granted(env, X + Looping(env, U)))
  {
    DoubtingIsSane(env, U, X);
    DoubtingIsSettled(env, U, X);
    ChecksAfterRuns(Doubting(env, U, X), run, sched, g, depth);
  }

  /** So an error-free answer is right iff the goal is not granted, or granted in spite of the looping goals. */
  lemma ExactIff(env: Env, U: iset<Goal>, X: iset<Goal>, run: seq<Event>, sched: Schedule, g: Goal, depth: nat)
    requires Closed(env) && PlainBelow(env, U) && IsMeaning(env, X) && PathSound(Exactly(env, X))
    requires GoalsKnown(env, run) && Known(env, g)
    ensures var out := Cached(env, HistoryOf(env, run), sched, [], Request(g, {}, depth));
            out.Resp? ==>
              ((out.response.allowed <==> g in X) <==> (g in X ==> g in Granted(env, X + Looping(env, U))))
  {
    ComputesTheSure(env, U, X, run, sched, g, depth);
    SureIsGranted(env, U, X);
  }
}
