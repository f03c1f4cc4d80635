/**
 What an answer of the v1 chain means: for every schedule, every depth limit, and every cache
 content the chain itself can have produced.  Exclusion is included.
 */
module LocalCheckerCorrect {
  import opened Reducers
  import opened AuthModel
  import opened LocalChecker
  import opened Endings

  // ---- What an outcome may claim ------------------------------------------

  predicate NotDenied(o: Outcome) {
    o.Fail? || o.response.allowed
  }

  predicate NotRefuted(o: Outcome) {
    NotDenied(o) || o.response.cycle
  }

  predicate Unflagged(o: Outcome) {
    o.Resp? ==> !o.response.cycle
  }

  /**
   `o` is a fair answer about a fact with a lower and an upper estimate: it allows (and then without
   a cycle flag) only if the fact surely holds, it denies without a cycle flag only if the fact cannot
   hold, it does not deny at all if the fact is provable without the visited goals, and it has no flag
   if nothing it asks about leads back.
   */
  predicate Judged(o: Outcome, sure: bool, maybe: bool, provable: bool, calm: bool) {
    && (Allows(o) ==> !o.response.cycle && sure)
    && (maybe ==> NotRefuted(o))
    && (provable ==> NotDenied(o))
    && (calm ==> Unflagged(o))
  }

  lemma UnionJudged(outs: seq<Outcome>, order: seq<nat>, sure: bool, maybe: bool, provable: bool, calm: bool)
    requires forall o :: o in outs && Allows(o) ==> !o.response.cycle && sure
    requires maybe ==> exists o :: o in outs && NotRefuted(o)
    requires provable ==> exists o :: o in outs && NotDenied(o)
    requires calm ==> forall o :: o in outs ==> Unflagged(o)
    ensures Judged(UnionOf(Arrange(outs, order)), sure, maybe, provable, calm)
  {
    UnionMeaning(Arrange(outs, order));
  }

  predicate Some(bs: seq<bool>) {
    exists i :: 0 <= i < |bs| && bs[i]
  }

  predicate All(bs: seq<bool>) {
    forall i :: 0 <= i < |bs| ==> bs[i]
  }

  /** A union is a fair answer about "some operand's fact holds". */
  lemma AnyJudged(outs: seq<Outcome>, order: seq<nat>, ss: seq<bool>, ms: seq<bool>, ps: seq<bool>, calm: bool)
    requires |outs| == |ss| == |ms| == |ps|
    requires forall i :: 0 <= i < |outs| ==> Judged(outs[i], ss[i], ms[i], ps[i], calm)
    ensures Judged(UnionOf(Arrange(outs, order)), Some(ss), Some(ms), Some(ps), calm)
  {
    hide UnionOf, Arrange;
    forall o | o in outs && Allows(o) ensures !o.response.cycle && Some(ss) {
      var i :| 0 <= i < |outs| && outs[i] == o;
      assert ss[i];
    }
    if Some(ms) {
      var i :| 0 <= i < |ms| && ms[i];
      assert outs[i] in outs && NotRefuted(outs[i]);
    }
    if Some(ps) {
      var i :| 0 <= i < |ps| && ps[i];
      assert outs[i] in outs && NotDenied(outs[i]);
    }
    UnionJudged(outs, order, Some(ss), Some(ms), Some(ps), calm);
  }

  /** An intersection is a fair answer about "every operand's fact holds". */
  lemma AllJudged(outs: seq<Outcome>, order: seq<nat>, ss: seq<bool>, ms: seq<bool>, ps: seq<bool>, calm: bool)
    requires |outs| == |ss| == |ms| == |ps|
    requires forall i :: 0 <= i < |outs| ==> Judged(outs[i], ss[i], ms[i], ps[i], calm)
    ensures Judged(IntersectionOf(Arrange(outs, order)), All(ss), All(ms), All(ps), calm)
  {
    var arrived := Arrange(outs, order);
    if |arrived| >= 2 {
      IntersectionMeaning(arrived);
      forall i | 0 <= i < |outs| ensures outs[i] in arrived {}
    }
  }

  /** An exclusion is a fair answer about "the base holds and the subtracted fact does not". */
  lemma WithoutJudged(base: Outcome, sub: Outcome, baseFirst: bool,
                      sb: bool, mb: bool, pb: bool, ss: bool, ms: bool, ok: bool, calm: bool)
    requires Judged(base, sb, mb, pb && ok, calm) && Judged(sub, ss, ms, false, (ok && !ms) || calm) && (ss ==> ms)
    ensures Judged(ExclusionOf(base, sub, baseFirst), sb && !ms, mb && !ss, pb && !ms && ok, calm)
  {}

  // ---- Standing assumptions -----------------------------------------------

  /** A store and a model, with a lower and an upper estimate of what is granted. */
  datatype World = World(env: Env, sure: iset<Goal>, maybe: iset<Goal>)

  /** Every stored response is unflagged and agrees with the estimates. */
  ghost predicate SoundHistory(w: World, hist: History) {
    forall g, r :: (g, r) in hist ==> !r.cycle && (if r.allowed then g in w.sure else g !in w.maybe)
  }

  /** The type system denies a path only where no grant is possible. */
  ghost predicate PathSound(w: World) {
    forall g :: g in w.maybe && !SelfDefining(g) ==> w.env.pathExists(g.user, Target(g))
  }

  /** What may be granted has a rule that derives it from what may be granted, subtracting what surely is. */
  ghost predicate Supported(w: World) {
    forall g :: g in w.maybe ==> Fires(w.env, w.sure, w.maybe, g)
  }

  /** The lower estimate is what the rules derive when all that may be granted is subtracted. */
  ghost predicate Sane(w: World) {
    && Closed(w.env) && PathSound(w) && Supported(w)
    && w.sure == Granted(w.env, w.maybe) && w.sure <= w.maybe
  }

  ghost predicate Setting(w: World, hist: History) {
    Sane(w) && SoundHistory(w, hist)
  }

  ghost predicate AllEnd(env: Env, g: Goal, rw: Rewrite) {
    forall h :: DependsOn(env, g, rw, h) ==> Ends(env, h)
  }

  /** What is subtracted may hold, or every chain of questions it starts ends. */
  ghost predicate Clean(w: World, g: Goal, rw: Rewrite) {
    match rw
    case Union(kids) => forall i :: 0 <= i < |kids| ==> Clean(w, g, kids[i])
    case Intersection(kids) => forall i :: 0 <= i < |kids| ==> Clean(w, g, kids[i])
    case Difference(base, subtract) =>
      Clean(w, g, base) && (Derives(w.env, w.sure, w.maybe, g, subtract) || AllEnd(w.env, g, subtract))
    case _ => true
  }

  /** No sure goal subtracts anything that leads back and that cannot be granted. */
  ghost predicate Settled(w: World) {
    forall g :: g in w.sure && Target(g) in w.env.rewrites ==> Clean(w, g, w.env.rewrites[Target(g)])
  }

  ghost function StageOf(w: World, n: nat): iset<Goal> {
    Stage(w.env, w.maybe, n)
  }

  /** No goal on the current path is granted by stage `n`. */
  ghost predicate Avoids(w: World, n: nat, visited: set<Goal>) {
    forall v :: v in visited ==> v !in StageOf(w, n)
  }

  ghost predicate Clear(w: World, n: nat, visited: set<Goal>) {
    Settled(w) && Avoids(w, n, visited)
  }

  /** Once the path is among the goals whose chains end it stays there, and the chains get shorter. */
  ghost predicate Ahead(env: Env, visited: set<Goal>, h: Goal) {
    forall v :: v in visited && Ends(env, v) ==> Ends(env, h) && Rank(env, h) < Rank(env, v)
  }

  ghost predicate Calm(env: Env, visited: set<Goal>, h: Goal) {
    Ends(env, h) && Ahead(env, visited, h)
  }

  ghost predicate AllAhead(env: Env, visited: set<Goal>, g: Goal, rw: Rewrite) {
    forall h :: DependsOn(env, g, rw, h) ==> Ahead(env, visited, h)
  }

  /** What must be the case for `rw` to be judged provable, and calm. */
  ghost predicate Licensed(w: World, n: nat, visited: set<Goal>, g: Goal, rw: Rewrite, ok: bool, calm: bool) {
    && (ok || calm ==> AllAhead(w.env, visited, g, rw))
    && (ok ==> Clear(w, n, visited) && Clean(w, g, rw))
    && (calm ==> AllEnd(w.env, g, rw))
  }

  lemma StageSure(w: World, n: nat)
    requires w.sure == Granted(w.env, w.maybe)
    ensures StageOf(w, n) <= w.sure
  {}

  /** The least stage granting `g`: below it, `g` joins the goals to avoid. */
  lemma LeastStage(w: World, n: nat, g: Goal) returns (m: nat)
    requires g in StageOf(w, n)
    ensures m < n && g in StageOf(w, m + 1) && g !in StageOf(w, m)
  {
    m := 0;
    while g !in StageOf(w, m + 1)
      invariant m < n && g !in StageOf(w, m)
      decreases n - m
    {
      m := m + 1;
    }
  }

  /** From a goal that is ahead of the path, everything its rule asks about is ahead of the longer path. */
  lemma StillAhead(env: Env, visited: set<Goal>, g: Goal)
    requires Ahead(env, visited, g) && !SelfDefining(g) && env.pathExists(g.user, Target(g))
    requires Target(g) in env.rewrites
    ensures AllAhead(env, visited + {g}, g, env.rewrites[Target(g)])
    ensures Ends(env, g) ==> AllEnd(env, g, env.rewrites[Target(g)])
  {
    hide Ends, Rank, DependsOn;
    forall h | DependsOn(env, g, env.rewrites[Target(g)], h)
      ensures Ahead(env, visited + {g}, h) && (Ends(env, g) ==> Ends(env, h))
    {
      assert Visits(env, g, h);
      if Ends(env, g) {
        RankFalls(env, g, h);
      }
    }
  }

  // ---- Every evaluation step is fair --------------------------------------

  lemma {:induction false} LocalJudged(
      w: World, hist: History, sched: Schedule, path: seq<nat>, req: Request, n: nat)
    requires Setting(w, hist) && Known(w.env, req.goal)
    ensures Judged(Local(w.env, hist, sched, path, req), req.goal in w.sure, req.goal in w.maybe,
                   req.goal in StageOf(w, n) && Clear(w, n, req.visited) && Ahead(w.env, req.visited, req.goal),
                   Calm(w.env, req.visited, req.goal))
    decreases Universe(w.env, req.goal.user) - req.visited, 0
  {
    hide Granted, Settled, StageOf, Derives;
    var env, g := w.env, req.goal;
    GrantedIsFixpoint(env, w.maybe, g);
    StageSure(w, n);
    if req.depth != env.maxDepth && g !in req.visited && !SelfDefining(g) && Target(g) in env.rewrites
       && sched(path).failure.None? && env.pathExists(g.user, Target(g))
    {
      FrameJudged(w, hist, sched, path, req, n);
    }
  }

  /** The frame past its tests, where the goal joins the visited ones. */
  lemma {:induction false} FrameJudged(
      w: World, hist: History, sched: Schedule, path: seq<nat>, req: Request, n: nat)
    requires Setting(w, hist) && Known(w.env, req.goal)
    requires req.goal !in req.visited && !SelfDefining(req.goal) && Target(req.goal) in w.env.rewrites
    requires w.env.pathExists(req.goal.user, Target(req.goal))
    ensures var inner := req.(visited := req.visited + {req.goal});
            var rw := w.env.rewrites[Target(req.goal)];
            Judged(Rewritten(w.env, hist, sched, path + [0], inner, rw),
                   Derives(w.env, w.maybe, w.sure, req.goal, rw), Derives(w.env, w.sure, w.maybe, req.goal, rw),
                   req.goal in StageOf(w, n) && Clear(w, n, req.visited) && Ahead(w.env, req.visited, req.goal),
                   Calm(w.env, req.visited, req.goal))
    decreases Universe(w.env, req.goal.user) - req.visited, 0, 0
  {
    hide PathSound, Supported, SoundHistory, Ahead, AllAhead, AllEnd, Clean, Ends, Local, Rewritten;
    var env, g := w.env, req.goal;
    var rw := env.rewrites[Target(g)];
    var inner := req.(visited := req.visited + {g});
    assert g in Universe(env, g.user);
    var calm := Calm(env, req.visited, g);
    if Ahead(env, req.visited, g) {
      StillAhead(env, req.visited, g);
    }
    if g in StageOf(w, n) && Clear(w, n, req.visited) && Ahead(env, req.visited, g) {
      StageSure(w, n);
      var m := LeastStage(w, n, g);
      StageGrows(env, w.maybe, m, n);
      assert Clear(w, m, inner.visited);
      RewrittenJudged(w, hist, sched, path + [0], inner, rw, m, true, calm);
    } else {
      RewrittenJudged(w, hist, sched, path + [0], inner, rw, 0, false, calm);
    }
  }

  lemma {:induction false} CachedJudged(
      w: World, hist: History, sched: Schedule, path: seq<nat>, req: Request, n: nat)
    requires Setting(w, hist) && Known(w.env, req.goal)
    ensures Judged(Cached(w.env, hist, sched, path, req), req.goal in w.sure, req.goal in w.maybe,
                   req.goal in StageOf(w, n) && Clear(w, n, req.visited) && Ahead(w.env, req.visited, req.goal),
                   Calm(w.env, req.visited, req.goal))
    decreases Universe(w.env, req.goal.user) - req.visited, 1
  {
    hide Clear, StageOf, Granted, Supported, PathSound, Ahead;
    LocalJudged(w, hist, sched, path, req, n);
    StageSure(w, n);
  }

  ghost predicate GoalsLicensed(w: World, n: nat, visited: set<Goal>, goals: seq<Goal>, ok: bool, calm: bool) {
    && (ok ==> Clear(w, n, visited) && forall c :: c in goals ==> Ahead(w.env, visited, c))
    && (calm ==> forall c :: c in goals ==> Calm(w.env, visited, c))
  }

  lemma {:induction false} DispatchesJudged(
      w: World, hist: History, sched: Schedule, path: seq<nat>, req: Request, goals: seq<Goal>, n: nat,
      ok: bool, calm: bool)
    requires Setting(w, hist) && GoalsLicensed(w, n, req.visited, goals, ok, calm)
    requires forall c :: c in goals ==> Known(w.env, c) && c.user == req.goal.user
    ensures forall i :: 0 <= i < |goals| ==>
              Judged(Dispatches(w.env, hist, sched, path, req, goals)[i], goals[i] in w.sure, goals[i] in w.maybe,
                     goals[i] in StageOf(w, n) && ok, calm)
    decreases Universe(w.env, req.goal.user) - req.visited, 2, 0
  {
    hide Clear, StageOf, Granted, Supported, PathSound, SoundHistory, Ahead, Calm;
    forall i | 0 <= i < |goals|
      ensures Judged(Dispatches(w.env, hist, sched, path, req, goals)[i], goals[i] in w.sure, goals[i] in w.maybe,
                     goals[i] in StageOf(w, n) && ok, calm)
    {
      assert goals[i] in goals;
      CachedJudged(w, hist, sched, path + [i], Request(goals[i], req.visited, req.depth + 1), n);
    }
  }

  /** A union over dispatched goals plus at most one closing outcome. */
  lemma {:induction false} DispatchUnionJudged(
      w: World, hist: History, sched: Schedule, path: seq<nat>, req: Request, goals: seq<Goal>, last: seq<Outcome>,
      n: nat, sure: bool, maybe: bool, provable: bool, ok: bool, calm: bool)
    requires Setting(w, hist) && GoalsLicensed(w, n, req.visited, goals, ok, calm)
    requires forall c :: c in goals ==> Known(w.env, c) && c.user == req.goal.user && (c in w.sure ==> sure)
    requires forall o :: o in last ==> Unflagged(o) && (Allows(o) ==> sure)
    requires maybe ==> (exists c :: c in goals && c in w.maybe) || (exists o :: o in last && NotDenied(o))
    requires provable ==>
               (ok && exists c :: c in goals && c in StageOf(w, n)) || (exists o :: o in last && NotDenied(o))
    ensures Judged(UnionOf(Arrange(Dispatches(w.env, hist, sched, path, req, goals) + last, sched(path).order)),
                   sure, maybe, provable, calm)
    decreases Universe(w.env, req.goal.user) - req.visited, 2, 1
  {
    hide GoalsLicensed, StageOf, Granted, Supported, PathSound, SoundHistory, UnionOf, Arrange;
    DispatchesJudged(w, hist, sched, path, req, goals, n, ok, calm);
    var outs := Dispatches(w.env, hist, sched, path, req, goals);
    forall o | o in outs + last
      ensures (Allows(o) ==> !o.response.cycle && sure) && (calm ==> Unflagged(o))
    {
      if o in outs {
        var i :| 0 <= i < |goals| && outs[i] == o;
        assert goals[i] in goals;
      }
    }
    if maybe {
      if c :| c in goals && c in w.maybe {
        var i :| 0 <= i < |goals| && goals[i] == c;
        assert outs[i] in outs + last && NotRefuted(outs[i]);
      } else {
        var o :| o in last && NotDenied(o);
        assert o in outs + last && NotRefuted(o);
      }
    }
    if provable {
      if c :| ok && c in goals && c in StageOf(w, n) {
        var i :| 0 <= i < |goals| && goals[i] == c;
        assert outs[i] in outs + last && NotDenied(outs[i]);
      } else {
        var o :| o in last && NotDenied(o);
        assert o in outs + last && NotDenied(o);
      }
    }
    UnionJudged(outs + last, sched(path).order, sure, maybe, provable, calm);
  }

  ghost predicate RowsHold(X: iset<Goal>, u: User, rows: seq<User>) {
    exists row :: row in rows && RowHolds(X, u, row)
  }

  ghost predicate RowsLicensed(w: World, n: nat, visited: set<Goal>, u: User, rows: seq<User>, ok: bool, calm: bool) {
    && (ok ==> Clear(w, n, visited))
    && (forall row :: row in rows && row.relation != "" ==>
          && (ok ==> Ahead(w.env, visited, Goal(row.obj, row.relation, u)))
          && (calm ==> Calm(w.env, visited, Goal(row.obj, row.relation, u))))
  }

  predicate RowsKnown(env: Env, rows: seq<User>) {
    forall row :: row in rows ==> row.obj in env.objects && (row.relation == "" || row.relation in env.names)
  }

  lemma {:induction false} ExpandedJudged(
      w: World, hist: History, sched: Schedule, path: seq<nat>, req: Request, rows: seq<User>, n: nat,
      ok: bool, calm: bool)
    requires Setting(w, hist) && RowsKnown(w.env, rows)
    requires RowsLicensed(w, n, req.visited, req.goal.user, rows, ok, calm)
    ensures Judged(Expanded(w.env, hist, sched, path, req, rows), RowsHold(w.sure, req.goal.user, rows),
                   RowsHold(w.maybe, req.goal.user, rows), RowsHold(StageOf(w, n), req.goal.user, rows) && ok, calm)
    decreases Universe(w.env, req.goal.user) - req.visited, 3, 0
  {
    hide Clear, Ahead, Calm, StageOf, Granted, Supported, PathSound, SoundHistory, UnionOf, Arrange;
    var choice, u := sched(path), req.goal.user;
    var seen := Yielded(rows, choice.failure);
    var msgs := UsersetMessages(seen, u);
    UsersetMessagesMeaning(seen, u);
    var last :=
      if msgs.shortCircuit then [Resp(Response(true, false))]
      else if choice.failure.Some? then [Fail(ReadFailed(1))]
      else [];
    if last != [] {
      assert last[0] in last && NotDenied(last[0]);
    }
    if msgs.shortCircuit {
      var row :| row in seen && WildcardFor(row, u);
      assert row in rows && RowHolds(w.sure, u, row);
    }
    forall c | c in msgs.goals && c in w.sure ensures RowsHold(w.sure, u, rows) {
      assert User(c.obj, c.relation) in rows && RowHolds(w.sure, u, User(c.obj, c.relation));
    }
    assert forall c :: c in msgs.goals ==> c == Goal(c.obj, c.relation, u) && User(c.obj, c.relation) in rows;
    DispatchUnionJudged(w, hist, sched, path, req, msgs.goals, last, n, RowsHold(w.sure, u, rows),
      RowsHold(w.maybe, u, rows), RowsHold(StageOf(w, n), u, rows) && ok, ok, calm);
  }

  /** Rows of the store on `o#r` with a userset type are exactly what the direct rule quantifies over. */
  lemma RowsMeaning(env: Env, X: iset<Goal>, g: Goal, refs: seq<Ref>)
    ensures RowsHold(X, g.user, OfRefs(Rows(env.tuples, g.obj, g.relation), refs)) <==>
            exists row: User ::
              && Tuple(g.obj, g.relation, row) in env.tuples && RefOf(row) in refs
              && RowHolds(X, g.user, row)
  {}

  lemma LicenseRows(w: World, n: nat, visited: set<Goal>, g: Goal, ok: bool, calm: bool)
    requires Licensed(w, n, visited, g, This, ok, calm)
    ensures var rows := OfRefs(Rows(w.env.tuples, g.obj, g.relation), UsersetRefs(w.env, Target(g)));
            RowsLicensed(w, n, visited, g.user, rows, ok, calm)
  {
    hide Clear, Ahead, Ends;
    var rows := OfRefs(Rows(w.env.tuples, g.obj, g.relation), UsersetRefs(w.env, Target(g)));
    forall row | row in rows && row.relation != ""
      ensures DependsOn(w.env, g, This, Goal(row.obj, row.relation, g.user))
    {
      assert row == User(row.obj, row.relation);
    }
  }

  lemma {:induction false} UsersetsJudged(
      w: World, hist: History, sched: Schedule, path: seq<nat>, req: Request, n: nat, ok: bool, calm: bool)
    requires Setting(w, hist) && Licensed(w, n, req.visited, req.goal, This, ok, calm)
    ensures var rows :=
              OfRefs(Rows(w.env.tuples, req.goal.obj, req.goal.relation), UsersetRefs(w.env, Target(req.goal)));
            Judged(Usersets(w.env, hist, sched, path, req), RowsHold(w.sure, req.goal.user, rows),
                   RowsHold(w.maybe, req.goal.user, rows), RowsHold(StageOf(w, n), req.goal.user, rows) && ok, calm)
    decreases Universe(w.env, req.goal.user) - req.visited, 4
  {
    hide Licensed, Clear, Ahead, Calm, StageOf, Granted, Supported, PathSound, SoundHistory, UnionOf, Arrange;
    var g := req.goal;
    var refs := UsersetRefs(w.env, Target(g));
    var rows := Rows(w.env.tuples, g.obj, g.relation);
    LicenseRows(w, n, req.visited, g, ok, calm);
    if IsUserset(g.user) || w.env.recursive(Target(g), g.user.obj.kind) {
      ExpandedJudged(w, hist, sched, path, req, OfRefs(rows, refs), n, ok, calm);
    } else {
      var groups := Groups(w.env, Target(g), g.user.obj.kind, refs);
      GroupsCover(w.sure, g.user, rows, refs, groups);
      GroupsCover(w.maybe, g.user, rows, refs, groups);
      GroupsCover(StageOf(w, n), g.user, rows, refs, groups);
      ExpandedGroupsJudged(w, hist, sched, path, req, rows, groups, n, ok, calm);
    }
  }

  ghost function GroupHolds(X: iset<Goal>, u: User, rows: seq<User>, groups: seq<seq<Ref>>, also: bool): seq<bool> {
    seq(|groups|, i requires 0 <= i < |groups| => RowsHold(X, u, OfRefs(rows, groups[i])) && also)
  }

  ghost predicate SomeGroupHolds(X: iset<Goal>, u: User, rows: seq<User>, groups: seq<seq<Ref>>) {
    exists i :: 0 <= i < |groups| && RowsHold(X, u, OfRefs(rows, groups[i]))
  }

  lemma {:induction false} ExpandedGroupsJudged(
      w: World, hist: History, sched: Schedule, path: seq<nat>, req: Request, rows: seq<User>, groups: seq<seq<Ref>>,
      n: nat, ok: bool, calm: bool)
    requires Setting(w, hist) && RowsKnown(w.env, rows)
    requires forall i :: 0 <= i < |groups| ==>
               RowsLicensed(w, n, req.visited, req.goal.user, OfRefs(rows, groups[i]), ok, calm)
    ensures Judged(UnionOf(Arrange(ExpandedGroups(w.env, hist, sched, path, req, rows, groups), sched(path).order)),
                   SomeGroupHolds(w.sure, req.goal.user, rows, groups),
                   SomeGroupHolds(w.maybe, req.goal.user, rows, groups),
                   SomeGroupHolds(StageOf(w, n), req.goal.user, rows, groups) && ok, calm)
    decreases Universe(w.env, req.goal.user) - req.visited, 3, 1
  {
    hide Judged, RowsHold, SomeGroupHolds, StageOf, Expanded, Granted, Supported, PathSound, SoundHistory,
      RowsLicensed, UnionOf, Arrange, Some;
    var outs := ExpandedGroups(w.env, hist, sched, path, req, rows, groups);
    var u := req.goal.user;
    var ss := GroupHolds(w.sure, u, rows, groups, true);
    var ms := GroupHolds(w.maybe, u, rows, groups, true);
    var ps := GroupHolds(StageOf(w, n), u, rows, groups, ok);
    forall i | 0 <= i < |groups| ensures Judged(outs[i], ss[i], ms[i], ps[i], calm) {
      ExpandedJudged(w, hist, sched, path + [i], req, OfRefs(rows, groups[i]), n, ok, calm);
    }
    AnyJudged(outs, sched(path).order, ss, ms, ps, calm);
    SomeGroup(w.sure, u, rows, groups, true);
    SomeGroup(w.maybe, u, rows, groups, true);
    SomeGroup(StageOf(w, n), u, rows, groups, ok);
  }

  lemma SomeGroup(X: iset<Goal>, u: User, rows: seq<User>, groups: seq<seq<Ref>>, also: bool)
    ensures Some(GroupHolds(X, u, rows, groups, also)) <==> SomeGroupHolds(X, u, rows, groups) && also
  {
    hide RowsHold, OfRefs;
    var bs := GroupHolds(X, u, rows, groups, also);
    assert forall i :: 0 <= i < |groups| ==> bs[i] == (RowsHold(X, u, OfRefs(rows, groups[i])) && also);
  }

  /** Reading the usersets in groups misses no row and adds none. */
  lemma GroupsCover(X: iset<Goal>, u: User, rows: seq<User>, refs: seq<Ref>, groups: seq<seq<Ref>>)
    requires forall r :: r in refs <==> exists i :: 0 <= i < |groups| && r in groups[i]
    ensures RowsHold(X, u, OfRefs(rows, refs)) <==> SomeGroupHolds(X, u, rows, groups)
  {}

  lemma HandlersAre(env: Env, hist: History, sched: Schedule, path: seq<nat>, req: Request)
    requires Closed(env)
    ensures var g, outs := req.goal, DirectHandlers(env, hist, sched, path, req);
            var everyone := User(Object(g.user.obj.kind, "*"), "");
            var tupleOut := PointRead(sched(path + [0]), Tuple(g.obj, g.relation, g.user) in env.tuples);
            var publicOut := PointRead(sched(path + [1]), Tuple(g.obj, g.relation, everyone) in env.tuples);
            var usersetOut := Usersets(env, hist, sched, path + [2], req);
            && (env.directlyRelated(Target(g), RefOf(g.user)) ==> tupleOut in outs)
            && (!IsUserset(g.user) && env.publiclyAssignable(Target(g), g.user.obj.kind) ==> publicOut in outs)
            && (UsersetRefs(env, Target(g)) != [] ==> usersetOut in outs)
            && forall o :: o in outs ==>
                 || (o == tupleOut && env.directlyRelated(Target(g), RefOf(g.user)))
                 || (o == publicOut && !IsUserset(g.user) && env.publiclyAssignable(Target(g), g.user.obj.kind))
                 || (o == usersetOut && UsersetRefs(env, Target(g)) != [])
  {
    hide Usersets, PointRead, Closed;
  }

  lemma {:induction false} DirectJudged(
      w: World, hist: History, sched: Schedule, path: seq<nat>, req: Request, n: nat, ok: bool, calm: bool)
    requires Setting(w, hist) && Licensed(w, n, req.visited, req.goal, This, ok, calm)
    ensures Judged(Direct(w.env, hist, sched, path, req), DirectHolds(w.env, w.sure, req.goal),
                   DirectHolds(w.env, w.maybe, req.goal), DirectHolds(w.env, StageOf(w, n), req.goal) && ok, calm)
    decreases Universe(w.env, req.goal.user) - req.visited, 5
  {
    hide UnionOf, Arrange, Usersets, DirectHandlers, StageOf, Granted, Supported, PathSound, SoundHistory, Licensed,
      Rows, OfRefs, RowsHold, RowHolds;
    var env, g := w.env, req.goal;
    var outs := DirectHandlers(env, hist, sched, path, req);
    var everyone := User(Object(g.user.obj.kind, "*"), "");
    var tupleOut := PointRead(sched(path + [0]), Tuple(g.obj, g.relation, g.user) in env.tuples);
    var publicOut := PointRead(sched(path + [1]), Tuple(g.obj, g.relation, everyone) in env.tuples);
    var usersetOut := Usersets(env, hist, sched, path + [2], req);
    UsersetsJudged(w, hist, sched, path + [2], req, n, ok, calm);
    RowsMeaning(env, w.sure, g, UsersetRefs(env, Target(g)));
    RowsMeaning(env, w.maybe, g, UsersetRefs(env, Target(g)));
    RowsMeaning(env, StageOf(w, n), g, UsersetRefs(env, Target(g)));
    HandlersAre(env, hist, sched, path, req);
    UnionJudged(outs, sched(path).order, DirectHolds(env, w.sure, g), DirectHolds(env, w.maybe, g),
      DirectHolds(env, StageOf(w, n), g) && ok, calm);
  }

  /** The dispatched goals are those the tupleset rule quantifies over, if all rows were read. */
  lemma TuplesetCovered(env: Env, X: iset<Goal>, g: Goal, tupleset: Name, computed: Name, rows: seq<User>)
    requires forall row :: row in rows ==> Tuple(g.obj, tupleset, row) in env.tuples
    ensures var goals := TuplesetGoals(env, rows, computed, g.user);
            && (forall c :: c in goals && c in X ==> TuplesetHolds(env, X, g, tupleset, computed))
            && (rows == Rows(env.tuples, g.obj, tupleset) && TuplesetHolds(env, X, g, tupleset, computed) ==>
                  exists c :: c in goals && c in X)
  {
    var goals := TuplesetGoals(env, rows, computed, g.user);
    forall row | row in rows && Followed(env, row.obj.kind, computed)
      ensures Goal(row.obj, computed, g.user) in goals
    {}
  }

  lemma LicenseTupleset(w: World, n: nat, visited: set<Goal>, g: Goal, tupleset: Name, computed: Name,
                        rows: seq<User>, ok: bool, calm: bool)
    requires Licensed(w, n, visited, g, TupleToUserset(tupleset, computed), ok, calm)
    requires forall row :: row in rows ==> Tuple(g.obj, tupleset, row) in w.env.tuples
    ensures GoalsLicensed(w, n, visited, TuplesetGoals(w.env, rows, computed, g.user), ok, calm)
  {
    hide Clear, Ahead, Ends;
    forall c | c in TuplesetGoals(w.env, rows, computed, g.user)
      ensures DependsOn(w.env, g, TupleToUserset(tupleset, computed), c)
    {}
  }

  lemma {:induction false} TuplesetJudged(
      w: World, hist: History, sched: Schedule, path: seq<nat>, req: Request, tupleset: Name, computed: Name, n: nat,
      ok: bool, calm: bool)
    requires Setting(w, hist) && computed in w.env.names
    requires Licensed(w, n, req.visited, req.goal, TupleToUserset(tupleset, computed), ok, calm)
    ensures Judged(Tupleset(w.env, hist, sched, path, req, tupleset, computed),
                   TuplesetHolds(w.env, w.sure, req.goal, tupleset, computed),
                   TuplesetHolds(w.env, w.maybe, req.goal, tupleset, computed),
                   TuplesetHolds(w.env, StageOf(w, n), req.goal, tupleset, computed) && ok, calm)
    decreases Universe(w.env, req.goal.user) - req.visited, 3
  {
    hide Clear, Ahead, Ends, StageOf, Granted, Supported, PathSound, SoundHistory, UnionOf, Arrange, Licensed,
      GoalsLicensed, TuplesetHolds, Followed;
    var env, choice, g := w.env, sched(path), req.goal;
    var all := Rows(env.tuples, g.obj, tupleset);
    var rows := Yielded(all, choice.failure);
    assert forall row :: row in rows ==> Tuple(g.obj, tupleset, row) in env.tuples;
    var goals := TuplesetGoals(env, rows, computed, g.user);
    var last := if choice.failure.Some? then [Fail(ReadFailed(2))] else [];
    if choice.failure.Some? {
      assert last[0] in last && NotDenied(last[0]);
    }
    TuplesetCovered(env, w.sure, g, tupleset, computed, rows);
    TuplesetCovered(env, w.maybe, g, tupleset, computed, rows);
    TuplesetCovered(env, StageOf(w, n), g, tupleset, computed, rows);
    LicenseTupleset(w, n, req.visited, g, tupleset, computed, rows, ok, calm);
    DispatchUnionJudged(w, hist, sched, path, req, goals, last, n,
      TuplesetHolds(env, w.sure, g, tupleset, computed), TuplesetHolds(env, w.maybe, g, tupleset, computed),
      TuplesetHolds(env, StageOf(w, n), g, tupleset, computed) && ok, ok, calm);
  }

  lemma {:induction false} RewrittenJudged(
      w: World, hist: History, sched: Schedule, path: seq<nat>, req: Request, rw: Rewrite, n: nat,
      ok: bool, calm: bool)
    requires Setting(w, hist) && NamesKnown(w.env, rw) && Known(w.env, req.goal)
    requires Licensed(w, n, req.visited, req.goal, rw, ok, calm)
    ensures Judged(Rewritten(w.env, hist, sched, path, req, rw),
                   Derives(w.env, w.maybe, w.sure, req.goal, rw), Derives(w.env, w.sure, w.maybe, req.goal, rw),
                   Derives(w.env, w.maybe, StageOf(w, n), req.goal, rw) && ok, calm)
    decreases Universe(w.env, req.goal.user) - req.visited, 6, rw
  {
    hide Clear, Ahead, Ends, StageOf, Granted, Supported, PathSound, SoundHistory, Closed, UnionOf, IntersectionOf,
      Arrange;
    match rw
    case This => DirectJudged(w, hist, sched, path, req, n, ok, calm);
    case Computed(relation) =>
      assert DependsOn(w.env, req.goal, rw, req.goal.(relation := relation));
      LocalJudged(w, hist, sched, path + [0], req.(goal := req.goal.(relation := relation)), n);
    case TupleToUserset(tupleset, computed) =>
      TuplesetJudged(w, hist, sched, path, req, tupleset, computed, n, ok, calm);
    case Union(kids) =>
      var ss, ms, ps := OperandsJudged(w, hist, sched, path, req, rw, n, ok, calm);
      AnyJudged(Operands(w.env, hist, sched, path, req, kids), sched(path).order, ss, ms, ps, calm);
    case Intersection(kids) =>
      var ss, ms, ps := OperandsJudged(w, hist, sched, path, req, rw, n, ok, calm);
      AllJudged(Operands(w.env, hist, sched, path, req, kids), sched(path).order, ss, ms, ps, calm);
    case Difference(base, subtract) => DifferenceJudged(w, hist, sched, path, req, rw, n, ok, calm);
  }

  /** What is subtracted is judged calm wherever the exclusion is to be judged provable. */
  lemma {:induction false} DifferenceJudged(
      w: World, hist: History, sched: Schedule, path: seq<nat>, req: Request, rw: Rewrite, n: nat,
      ok: bool, calm: bool)
    requires rw.Difference?
    requires Setting(w, hist) && NamesKnown(w.env, rw) && Known(w.env, req.goal)
    requires Licensed(w, n, req.visited, req.goal, rw, ok, calm)
    ensures Judged(Rewritten(w.env, hist, sched, path, req, rw),
                   Derives(w.env, w.maybe, w.sure, req.goal, rw), Derives(w.env, w.sure, w.maybe, req.goal, rw),
                   Derives(w.env, w.maybe, StageOf(w, n), req.goal, rw) && ok, calm)
    decreases Universe(w.env, req.goal.user) - req.visited, 6, rw, 0
  {
    hide Clear, Ahead, Ends, StageOf, Granted, Supported, PathSound, SoundHistory, Closed, ExclusionOf;
    var base, subtract, g := rw.base, rw.subtract, req.goal;
    var ms := Derives(w.env, w.sure, w.maybe, g, subtract);
    RewrittenJudged(w, hist, sched, path + [0], req, base, n, ok, calm);
    RewrittenJudged(w, hist, sched, path + [1], req, subtract, n, false, (ok && !ms) || calm);
    if Derives(w.env, w.maybe, w.sure, g, subtract) {
      DerivesMonotone(w.env, w.maybe, w.sure, w.sure, w.maybe, g, subtract);
    }
    WithoutJudged(
      Rewritten(w.env, hist, sched, path + [0], req, base),
      Rewritten(w.env, hist, sched, path + [1], req, subtract), sched(path).order != [1, 0],
      Derives(w.env, w.maybe, w.sure, g, base), Derives(w.env, w.sure, w.maybe, g, base),
      Derives(w.env, w.maybe, StageOf(w, n), g, base),
      Derives(w.env, w.maybe, w.sure, g, subtract), ms, ok, calm);
    StageSure(w, n);
    if ms {
      DerivesMonotone(w.env, w.sure, w.maybe, StageOf(w, n), w.maybe, g, subtract);
    }
  }

  lemma {:induction false} OperandsJudged(
      w: World, hist: History, sched: Schedule, path: seq<nat>, req: Request, rw: Rewrite, n: nat,
      ok: bool, calm: bool) returns (ss: seq<bool>, ms: seq<bool>, ps: seq<bool>)
    requires rw.Union? || rw.Intersection?
    requires Setting(w, hist) && NamesKnown(w.env, rw) && Known(w.env, req.goal)
    requires Licensed(w, n, req.visited, req.goal, rw, ok, calm)
    ensures |ss| == |ms| == |ps| == |rw.kids|
    ensures forall i :: 0 <= i < |rw.kids| ==>
              && ss[i] == Derives(w.env, w.maybe, w.sure, req.goal, rw.kids[i])
              && ms[i] == Derives(w.env, w.sure, w.maybe, req.goal, rw.kids[i])
              && ps[i] == (Derives(w.env, w.maybe, StageOf(w, n), req.goal, rw.kids[i]) && ok)
              && Judged(Operands(w.env, hist, sched, path, req, rw.kids)[i], ss[i], ms[i], ps[i], calm)
    decreases Universe(w.env, req.goal.user) - req.visited, 6, rw, 0
  {
    hide Judged, Clear, Ahead, Ends, StageOf, Granted, Supported, PathSound, SoundHistory, Closed;
    var kids, g, env := rw.kids, req.goal, w.env;
    ss := seq(|kids|, i requires 0 <= i < |kids| => Derives(env, w.maybe, w.sure, g, kids[i]));
    ms := seq(|kids|, i requires 0 <= i < |kids| => Derives(env, w.sure, w.maybe, g, kids[i]));
    ps := seq(|kids|, i requires 0 <= i < |kids| => Derives(env, w.maybe, StageOf(w, n), g, kids[i]) && ok);
    forall i | 0 <= i < |kids|
      ensures Judged(Operands(env, hist, sched, path, req, kids)[i], ss[i], ms[i], ps[i], calm)
    {
      LicenseKid(w, n, req.visited, g, rw, i, ok, calm);
      RewrittenJudged(w, hist, sched, path + [i], req, kids[i], n, ok, calm);
    }
  }

  lemma LicenseKid(w: World, n: nat, visited: set<Goal>, g: Goal, rw: Rewrite, i: nat, ok: bool, calm: bool)
    requires (rw.Union? || rw.Intersection?) && i < |rw.kids|
    requires Licensed(w, n, visited, g, rw, ok, calm)
    ensures Licensed(w, n, visited, g, rw.kids[i], ok, calm)
  {
    hide Clear, Ahead, Ends;
    forall h | DependsOn(w.env, g, rw.kids[i], h) ensures DependsOn(w.env, g, rw, h) {}
  }

  // ---- Main results -------------------------------------------------------

  /**
   Whatever was visited before and whatever is subtracted: no response is both allowed and flagged,
   what is allowed is surely granted, and what is denied without a flag cannot be granted.
   */
  lemma UnflaggedResponsesAreSound(w: World, hist: History, sched: Schedule, path: seq<nat>, req: Request)
    requires Setting(w, hist) && Known(w.env, req.goal)
    ensures var out := Cached(w.env, hist, sched, path, req);
            out.Resp? ==>
              && (out.response.allowed ==> !out.response.cycle && req.goal in w.sure)
              && (!out.response.allowed && !out.response.cycle ==> req.goal !in w.maybe)
  {
    CachedJudged(w, hist, sched, path, req, 0);
  }

  /** A request starts with no visited paths; then every answer, flagged or not, is what is surely granted. */
  lemma AllowsExactlyTheSure(w: World, hist: History, sched: Schedule, g: Goal, depth: nat)
    requires Setting(w, hist) && Known(w.env, g) && Settled(w)
    ensures var out := Cached(w.env, hist, sched, [], Request(g, {}, depth));
            out.Resp? ==> (out.response.allowed <==> g in w.sure)
  {
    if Derivable(w.env, w.maybe, g) {
      var n: nat :| g in Stage(w.env, w.maybe, n);
      CachedJudged(w, hist, sched, [], Request(g, {}, depth), n);
    } else {
      CachedJudged(w, hist, sched, [], Request(g, {}, depth), 0);
    }
  }

  /** The estimates of a model with a meaning coincide. */
  ghost function Exactly(env: Env, X: iset<Goal>): World {
    World(env, X, X)
  }

  lemma MeaningIsSane(env: Env, X: iset<Goal>)
    requires Closed(env) && IsMeaning(env, X) && PathSound(Exactly(env, X))
    ensures Sane(Exactly(env, X))
  {
    forall g | g in X ensures Fires(env, X, X, g) {
      GrantedIsFixpoint(env, X, g);
    }
  }

  /** Then, whatever was visited before and whatever is subtracted, an unflagged response is exact. */
  lemma UnflaggedResponsesAreExact(
      env: Env, X: iset<Goal>, hist: History, sched: Schedule, path: seq<nat>, req: Request)
    requires Closed(env) && IsMeaning(env, X) && PathSound(Exactly(env, X)) && SoundHistory(Exactly(env, X), hist)
    requires Known(env, req.goal)
    ensures var out := Cached(env, hist, sched, path, req);
            out.Resp? ==>
              && !(out.response.allowed && out.response.cycle)
              && (!out.response.cycle ==> (out.response.allowed <==> req.goal in X))
  {
    MeaningIsSane(env, X);
    UnflaggedResponsesAreSound(Exactly(env, X), hist, sched, path, req);
  }

  lemma {:induction false} MonotoneIsClean(w: World, g: Goal, rw: Rewrite)
    requires Monotone(rw)
    ensures Clean(w, g, rw)
    decreases rw
  {
    match rw
    case Union(kids) =>
      forall i | 0 <= i < |kids| ensures Clean(w, g, kids[i]) { MonotoneIsClean(w, g, kids[i]); }
    case Intersection(kids) =>
      forall i | 0 <= i < |kids| ensures Clean(w, g, kids[i]) { MonotoneIsClean(w, g, kids[i]); }
    case _ =>
  }

  lemma MonotoneIsSettled(env: Env)
    requires Closed(env) && MonotoneModel(env) && PathSound(Exactly(env, Granted(env, iset{})))
    ensures var w := Exactly(env, Granted(env, iset{})); Sane(w) && Settled(w)
  {
    var w := Exactly(env, Granted(env, iset{}));
    MonotoneMeaning(env, w.sure);
    MeaningIsSane(env, w.sure);
    forall h | h in w.sure && Target(h) in env.rewrites ensures Clean(w, h, env.rewrites[Target(h)]) {
      MonotoneIsClean(w, h, env.rewrites[Target(h)]);
    }
  }

  /** Without exclusion every error-free answer to a fresh request is membership in the least fixpoint. */
  lemma CheckIsFixpoint(env: Env, hist: History, sched: Schedule, g: Goal, depth: nat)
    requires Closed(env) && Known(env, g) && MonotoneModel(env)
    requires PathSound(Exactly(env, Granted(env, iset{}))) && SoundHistory(Exactly(env, Granted(env, iset{})), hist)
    ensures var out := Cached(env, hist, sched, [], Request(g, {}, depth));
            out.Resp? ==> (out.response.allowed <==> g in Granted(env, iset{}))
  {
    MonotoneIsSettled(env);
    AllowsExactlyTheSure(Exactly(env, Granted(env, iset{})), hist, sched, g, depth);
  }

  // ---- The cache over whole runs ------------------------------------------

  /** One evaluation behind the cache that has just finished. */
  datatype Event = Event(sched: Schedule, path: seq<nat>, req: Request)

  /** A response is stored unless it is an error or flagged with a cycle. */
  function Stored(env: Env, hist: History, e: Event): History
    requires Closed(env) && Known(env, e.req.goal)
  {
    var out := Local(env, hist, e.sched, e.path, e.req);
    if out.Resp? && !out.response.cycle then hist + {(e.req.goal, out.response)} else hist
  }

  predicate GoalsKnown(env: Env, run: seq<Event>) {
    forall i :: 0 <= i < |run| ==> Known(env, run[i].req.goal)
  }

  /**
   Everything ever stored after a run of evaluations, listed in the order in which they
   finish.  Lookups made during an evaluation see part of what was stored before it ends.
   */
  function HistoryOf(env: Env, run: seq<Event>): History
    requires Closed(env) && GoalsKnown(env, run)
  {
    if run == [] then {}
    else
      var earlier := run[..|run| - 1];
      Stored(env, HistoryOf(env, earlier), run[|run| - 1])
  }

  /** In every run, every cache entry agrees with the estimates. */
  lemma {:induction false} CacheEntriesAreSound(w: World, run: seq<Event>)
    requires Sane(w) && GoalsKnown(w.env, run)
    ensures SoundHistory(w, HistoryOf(w.env, run))
  {
    if run != [] {
      var earlier := run[..|run| - 1];
      CacheEntriesAreSound(w, earlier);
      var e := run[|run| - 1];
      LocalJudged(w, HistoryOf(w.env, earlier), e.sched, e.path, e.req, 0);
    }
  }

  /** Of a model with a meaning, every cache entry in every run is the meaning's answer. */
  lemma CacheEntriesAreExact(env: Env, X: iset<Goal>, run: seq<Event>, g: Goal, r: Response)
    requires Closed(env) && IsMeaning(env, X) && PathSound(Exactly(env, X)) && GoalsKnown(env, run)
    requires (g, r) in HistoryOf(env, run)
    ensures !r.cycle && (r.allowed <==> g in X)
  {
    MeaningIsSane(env, X);
    CacheEntriesAreSound(Exactly(env, X), run);
  }

  /** After any run, a fresh check allows exactly what is surely granted. */
  lemma ChecksAfterRuns(w: World, run: seq<Event>, sched: Schedule, g: Goal, depth: nat)
    requires Sane(w) && Settled(w) && GoalsKnown(w.env, run) && Known(w.env, g)
    ensures var out := Cached(w.env, HistoryOf(w.env, run), sched, [], Request(g, {}, depth));
            out.Resp? ==> (out.response.allowed <==> g in w.sure)
  {
    CacheEntriesAreSound(w, run);
    AllowsExactlyTheSure(w, HistoryOf(w.env, run), sched, g, depth);
  }

  /** So caching never changes an error-free answer: two checks of one goal agree after any two runs. */
  lemma CachingIsInvisible(w: World, run: seq<Event>, run': seq<Event>, sched: Schedule, sched': Schedule, g: Goal,
                           depth: nat, depth': nat)
    requires Sane(w) && Settled(w) && GoalsKnown(w.env, run) && GoalsKnown(w.env, run') && Known(w.env, g)
    ensures var out := Cached(w.env, HistoryOf(w.env, run), sched, [], Request(g, {}, depth));
            var out' := Cached(w.env, HistoryOf(w.env, run'), sched', [], Request(g, {}, depth'));
            out.Resp? && out'.Resp? ==> out.response.allowed == out'.response.allowed
  {
    ChecksAfterRuns(w, run, sched, g, depth);
    ChecksAfterRuns(w, run', sched', g, depth');
  }
}
