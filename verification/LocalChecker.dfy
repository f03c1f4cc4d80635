/**
 The v1 resolver chain: the cache in front of the local checker, which dispatches
 sub-problems back to the cache.  A schedule fixes everything that concurrency,
 the datastore and the cache leave open, so a fact proved for all schedules holds
 for every run.
 */
module LocalChecker {
  import opened Options
  import opened Reducers
  import opened AuthModel

  /**
   What happens at one point of an evaluation: the order in which operand outcomes
   arrive, after how many rows (if at all) a read fails, and which cached response
   (if any) a lookup finds.
   */
  datatype Choice = Choice(order: seq<nat>, failure: Option<nat>, hit: Option<Response>)

  /** Evaluation points are named by their path from the request. */
  type Schedule = seq<nat> -> Choice

  /** Each branch gets its own copy of the visited paths and of the depth. */
  datatype Request = Request(goal: Goal, visited: set<Goal>, depth: nat)

  type History = set<(Goal, Response)>

  // ---- The finite space of goals ------------------------------------------

  predicate NamesKnown(env: Env, rw: Rewrite) {
    match rw
    case This => true
    case Computed(relation) => relation in env.names
    case TupleToUserset(_, computed) => computed in env.names
    case Union(kids) => forall i :: 0 <= i < |kids| ==> NamesKnown(env, kids[i])
    case Intersection(kids) => forall i :: 0 <= i < |kids| ==> NamesKnown(env, kids[i])
    case Difference(base, subtract) => NamesKnown(env, base) && NamesKnown(env, subtract)
  }

  /** Every object and relation a sub-problem can mention is accounted for. */
  predicate Closed(env: Env) {
    && (forall t :: t in env.tuples ==>
          t.user.obj in env.objects && (t.user.relation == "" || t.user.relation in env.names))
    && (forall r :: r in env.rewrites ==> NamesKnown(env, env.rewrites[r]))
  }

  predicate Known(env: Env, g: Goal) {
    g.obj in env.objects && g.relation in env.names
  }

  function Universe(env: Env, u: User): set<Goal> {
    set o, r | o in env.objects && r in env.names :: Goal(o, r, u)
  }

  function NamesIn(rw: Rewrite): set<Name> {
    match rw
    case This => {}
    case Computed(relation) => {relation}
    case TupleToUserset(_, computed) => {computed}
    case Union(kids) => set i, x | 0 <= i < |kids| && x in NamesIn(kids[i]) :: x
    case Intersection(kids) => set i, x | 0 <= i < |kids| && x in NamesIn(kids[i]) :: x
    case Difference(base, subtract) => NamesIn(base) + NamesIn(subtract)
  }

  /** The store and model at hand, with the goal space a check of `g` can reach. */
  function Bounded(env: Env, g: Goal): Env {
    env.(objects := {g.obj} + (set t | t in env.tuples :: t.user.obj),
         names := {g.relation} + (set t | t in env.tuples :: t.user.relation)
                  + (set r, x | r in env.rewrites && x in NamesIn(env.rewrites[r]) :: x))
  }

  lemma {:induction false} NamesInKnown(env: Env, rw: Rewrite)
    requires NamesIn(rw) <= env.names
    ensures NamesKnown(env, rw)
    decreases rw
  {
    match rw
    case Union(kids) =>
      forall i | 0 <= i < |kids| ensures NamesKnown(env, kids[i]) { NamesInKnown(env, kids[i]); }
    case Intersection(kids) =>
      forall i | 0 <= i < |kids| ensures NamesKnown(env, kids[i]) { NamesInKnown(env, kids[i]); }
    case Difference(base, subtract) =>
      NamesInKnown(env, base);
      NamesInKnown(env, subtract);
    case _ =>
  }

  /** The space has no part in what is granted. */
  lemma {:induction false} SpaceUnused(env: Env, env': Env, X: iset<Goal>, n: nat)
    requires env' == env.(objects := env'.objects, names := env'.names)
    ensures Stage(env, X, n) == Stage(env', X, n)
  {
    if n > 0 {
      SpaceUnused(env, env', X, n - 1);
      var Y := Stage(env, X, n - 1);
      forall g: Goal ensures Fires(env, X, Y, g) <==> Fires(env', X, Y, g) {
        if Target(g) in env.rewrites {
          SameDerives(env, env', X, Y, g, env.rewrites[Target(g)]);
        }
      }
    }
  }

  lemma {:induction false} SameDerives(env: Env, env': Env, X: iset<Goal>, Y: iset<Goal>, g: Goal, rw: Rewrite)
    requires env' == env.(objects := env'.objects, names := env'.names)
    ensures Derives(env, X, Y, g, rw) <==> Derives(env', X, Y, g, rw)
    decreases rw
  {
    match rw
    case Union(kids) =>
      forall i | 0 <= i < |kids| ensures Derives(env, X, Y, g, kids[i]) <==> Derives(env', X, Y, g, kids[i]) {
        SameDerives(env, env', X, Y, g, kids[i]);
      }
    case Intersection(kids) =>
      forall i | 0 <= i < |kids| ensures Derives(env, X, Y, g, kids[i]) <==> Derives(env', X, Y, g, kids[i]) {
        SameDerives(env, env', X, Y, g, kids[i]);
      }
    case Difference(base, subtract) =>
      SameDerives(env, env', X, Y, g, base);
      SameDerives(env, env', Y, X, g, subtract);
    case _ =>
  }

  /**
   Every finite store and model has a finite closed goal space around any goal, and
   naming that space changes nothing about what is granted.
   */
  lemma GoalSpaceExists(env: Env, g: Goal, X: iset<Goal>)
    ensures Closed(Bounded(env, g)) && Known(Bounded(env, g), g)
    ensures Granted(Bounded(env, g), X) == Granted(env, X)
  {
    var b := Bounded(env, g);
    forall r | r in b.rewrites ensures NamesKnown(b, b.rewrites[r]) {
      NamesInKnown(b, b.rewrites[r]);
    }
    forall n: nat ensures Stage(env, X, n) == Stage(b, X, n) {
      SpaceUnused(env, b, X, n);
    }
    assert forall h: Goal :: h in Granted(env, X) <==> h in Granted(b, X);
  }

  // ---- Reads --------------------------------------------------------------

  /** Users of the tuples on `o#r`, in store order. */
  function Rows(tuples: seq<Tuple>, o: Object, r: Name): (rows: seq<User>)
    ensures forall u :: u in rows <==> Tuple(o, r, u) in tuples
  {
    if tuples == [] then []
    else
      var rest := Rows(tuples[1..], o, r);
      assert tuples == [tuples[0]] + tuples[1..];
      if tuples[0].obj == o && tuples[0].relation == r then [tuples[0].user] + rest else rest
  }

  function OfRefs(rows: seq<User>, refs: seq<Ref>): (kept: seq<User>)
    ensures forall u :: u in kept <==> u in rows && RefOf(u) in refs
  {
    if rows == [] then []
    else
      var rest := OfRefs(rows[1..], refs);
      assert rows == [rows[0]] + rows[1..];
      if RefOf(rows[0]) in refs then [rows[0]] + rest else rest
  }

  /** The rows an iterator yields before it is done or fails. */
  function Yielded(rows: seq<User>, failure: Option<nat>): (prefix: seq<User>)
    ensures prefix <= rows
    ensures failure.None? ==> prefix == rows
  {
    if failure.Some? && failure.value < |rows| then rows[..failure.value] else rows
  }

  function PointRead(choice: Choice, found: bool): Outcome {
    if choice.failure.Some? then Fail(ReadFailed(0)) else Resp(Response(found, false))
  }

  datatype Messages = Messages(goals: seq<Goal>, shortCircuit: bool)

  /** produceUsersetDispatches: stop at a wildcard that covers the user, dispatch every userset before it. */
  function UsersetMessages(rows: seq<User>, u: User): Messages {
    if rows == [] then Messages([], false)
    else if WildcardFor(rows[0], u) then Messages([], true)
    else
      var rest := UsersetMessages(rows[1..], u);
      if rows[0].relation != "" then
        rest.(goals := [Goal(rows[0].obj, rows[0].relation, u)] + rest.goals)
      else rest
  }

  /** produceTTUDispatches: skip rows whose type lacks the computed relation. */
  function TuplesetGoals(env: Env, rows: seq<User>, computed: Name, u: User): (goals: seq<Goal>)
    ensures forall c :: c in goals <==>
              c.relation == computed && c.user == u
              && exists row :: row in rows && row.obj == c.obj && Followed(env, row.obj.kind, computed)
  {
    if rows == [] then []
    else
      var rest := TuplesetGoals(env, rows[1..], computed, u);
      assert rows == [rows[0]] + rows[1..];
      if Followed(env, rows[0].obj.kind, computed) then [Goal(rows[0].obj, computed, u)] + rest else rest
  }

  /** Userset types that get a read of their own, then one read for all the others. */
  function Groups(env: Env, target: Ref, kind: Name, refs: seq<Ref>): (groups: seq<seq<Ref>>)
    ensures forall r :: r in refs <==> exists i :: 0 <= i < |groups| && r in groups[i]
  {
    var rest := Remaining(env, target, kind, refs);
    var own := Own(env, target, kind, refs);
    var groups := if rest == [] then own else own + [rest];
    assert forall r :: r in refs ==> exists i :: 0 <= i < |groups| && r in groups[i] by {
      forall r | r in refs ensures exists i :: 0 <= i < |groups| && r in groups[i] {
        if env.weightTwo(target, kind, r) {
          assert [r] in own;
          var i :| 0 <= i < |own| && own[i] == [r];
          assert r in groups[i];
        } else {
          assert r in rest && groups[|own|] == rest;
        }
      }
    }
    groups
  }

  function Own(env: Env, target: Ref, kind: Name, refs: seq<Ref>): (own: seq<seq<Ref>>)
    ensures forall r :: r in refs && env.weightTwo(target, kind, r) ==> [r] in own
    ensures forall i :: 0 <= i < |own| ==> forall r :: r in own[i] ==> r in refs
  {
    if refs == [] then []
    else
      var rest := Own(env, target, kind, refs[1..]);
      assert refs == [refs[0]] + refs[1..];
      if env.weightTwo(target, kind, refs[0]) then
        var own := [[refs[0]]] + rest;
        assert own[0] == [refs[0]] && forall s :: s in rest ==> s in own;
        own
      else rest
  }

  function Remaining(env: Env, target: Ref, kind: Name, refs: seq<Ref>): (rest: seq<Ref>)
    ensures forall r :: r in rest <==> r in refs && !env.weightTwo(target, kind, r)
  {
    if refs == [] then []
    else
      var rest := Remaining(env, target, kind, refs[1..]);
      assert refs == [refs[0]] + refs[1..];
      if env.weightTwo(target, kind, refs[0]) then rest else [refs[0]] + rest
  }

  // ---- Evaluation ---------------------------------------------------------

  function Local(env: Env, hist: History, sched: Schedule, path: seq<nat>, req: Request): Outcome
    requires Closed(env) && Known(env, req.goal)
    decreases Universe(env, req.goal.user) - req.visited, 0
  {
    var g := req.goal;
    if req.depth == env.maxDepth then Fail(DepthExceeded)
    else if g in req.visited then Resp(Response(false, true))
    else if SelfDefining(g) then Resp(Response(true, false))
    else if Target(g) !in env.rewrites then Fail(RelationUndefined)
    else if sched(path).failure.Some? then Fail(ReadFailed(0))
    else if !env.pathExists(g.user, Target(g)) then Resp(Response(false, false))
    else
      assert g in Universe(env, g.user);
      Rewritten(env, hist, sched, path + [0], req.(visited := req.visited + {g}), env.rewrites[Target(g)])
  }

  /** The cache in front: a lookup may find any response stored for this goal, or nothing. */
  function Cached(env: Env, hist: History, sched: Schedule, path: seq<nat>, req: Request): Outcome
    requires Closed(env) && Known(env, req.goal)
    decreases Universe(env, req.goal.user) - req.visited, 1
  {
    var hit := sched(path).hit;
    if hit.Some? && (req.goal, hit.value) in hist then Resp(hit.value)
    else Local(env, hist, sched, path, req)
  }

  /** Each dispatched child goes to the head of the chain, one level deeper. */
  function Dispatches(env: Env, hist: History, sched: Schedule, path: seq<nat>, req: Request, goals: seq<Goal>)
    : (outs: seq<Outcome>)
    requires Closed(env)
    requires forall c :: c in goals ==> Known(env, c) && c.user == req.goal.user
    ensures |outs| == |goals|
    decreases Universe(env, req.goal.user) - req.visited, 2
  {
    seq(|goals|, i requires 0 <= i < |goals| =>
      Cached(env, hist, sched, path + [i], Request(goals[i], req.visited, req.depth + 1)))
  }

  function Expanded(env: Env, hist: History, sched: Schedule, path: seq<nat>, req: Request, rows: seq<User>): Outcome
    requires Closed(env)
    requires forall row :: row in rows ==> row.obj in env.objects && (row.relation == "" || row.relation in env.names)
    decreases Universe(env, req.goal.user) - req.visited, 3, 0
  {
    var choice := sched(path);
    var msgs := UsersetMessages(Yielded(rows, choice.failure), req.goal.user);
    UsersetMessagesMeaning(Yielded(rows, choice.failure), req.goal.user);
    var last :=
      if msgs.shortCircuit then [Resp(Response(true, false))]
      else if choice.failure.Some? then [Fail(ReadFailed(1))]
      else [];
    UnionOf(Arrange(Dispatches(env, hist, sched, path, req, msgs.goals) + last, choice.order))
  }

  function Usersets(env: Env, hist: History, sched: Schedule, path: seq<nat>, req: Request): Outcome
    requires Closed(env)
    decreases Universe(env, req.goal.user) - req.visited, 4
  {
    var g := req.goal;
    var refs := UsersetRefs(env, Target(g));
    var rows := Rows(env.tuples, g.obj, g.relation);
    if IsUserset(g.user) || env.recursive(Target(g), g.user.obj.kind) then
      Expanded(env, hist, sched, path, req, OfRefs(rows, refs))
    else
      var groups := Groups(env, Target(g), g.user.obj.kind, refs);
      UnionOf(Arrange(ExpandedGroups(env, hist, sched, path, req, rows, groups), sched(path).order))
  }

  function ExpandedGroups(env: Env, hist: History, sched: Schedule, path: seq<nat>, req: Request, rows: seq<User>,
                          groups: seq<seq<Ref>>): (outs: seq<Outcome>)
    requires Closed(env)
    requires forall row :: row in rows ==> row.obj in env.objects && (row.relation == "" || row.relation in env.names)
    ensures |outs| == |groups|
    decreases Universe(env, req.goal.user) - req.visited, 3, 1
  {
    seq(|groups|, i requires 0 <= i < |groups| =>
      Expanded(env, hist, sched, path + [i], req, OfRefs(rows, groups[i])))
  }

  function Direct(env: Env, hist: History, sched: Schedule, path: seq<nat>, req: Request): Outcome
    requires Closed(env)
    decreases Universe(env, req.goal.user) - req.visited, 5
  {
    UnionOf(Arrange(DirectHandlers(env, hist, sched, path, req), sched(path).order))
  }

  /** checkDirect: the tuple itself, the public wildcard, and the usersets, where the model allows each. */
  function DirectHandlers(env: Env, hist: History, sched: Schedule, path: seq<nat>, req: Request): seq<Outcome>
    requires Closed(env)
    decreases Universe(env, req.goal.user) - req.visited, 5, 0
  {
    var g := req.goal;
    var kind := g.user.obj.kind;
    (if env.directlyRelated(Target(g), RefOf(g.user)) then
       [PointRead(sched(path + [0]), Tuple(g.obj, g.relation, g.user) in env.tuples)]
     else [])
    + (if !IsUserset(g.user) && env.publiclyAssignable(Target(g), kind) then
         [PointRead(sched(path + [1]), Tuple(g.obj, g.relation, User(Object(kind, "*"), "")) in env.tuples)]
       else [])
    + (if UsersetRefs(env, Target(g)) != [] then
         [Usersets(env, hist, sched, path + [2], req)]
       else [])
  }

  function Tupleset(env: Env, hist: History, sched: Schedule, path: seq<nat>, req: Request, tupleset: Name,
                    computed: Name): Outcome
    requires Closed(env) && computed in env.names
    decreases Universe(env, req.goal.user) - req.visited, 3
  {
    var choice := sched(path);
    var rows := Yielded(Rows(env.tuples, req.goal.obj, tupleset), choice.failure);
    assert forall row :: row in rows ==> Tuple(req.goal.obj, tupleset, row) in env.tuples;
    var goals := TuplesetGoals(env, rows, computed, req.goal.user);
    var last := if choice.failure.Some? then [Fail(ReadFailed(2))] else [];
    UnionOf(Arrange(Dispatches(env, hist, sched, path, req, goals) + last, choice.order))
  }

  function Rewritten(env: Env, hist: History, sched: Schedule, path: seq<nat>, req: Request, rw: Rewrite): Outcome
    requires Closed(env) && NamesKnown(env, rw) && Known(env, req.goal)
    decreases Universe(env, req.goal.user) - req.visited, 6, rw
  {
    match rw
    case This => Direct(env, hist, sched, path, req)
    case Computed(relation) =>
      // no dispatch: neither the depth nor the cache is involved
      Local(env, hist, sched, path + [0], req.(goal := req.goal.(relation := relation)))
    case TupleToUserset(tupleset, computed) => Tupleset(env, hist, sched, path, req, tupleset, computed)
    case Union(kids) =>
      UnionOf(Arrange(Operands(env, hist, sched, path, req, kids), sched(path).order))
    case Intersection(kids) =>
      IntersectionOf(Arrange(Operands(env, hist, sched, path, req, kids), sched(path).order))
    case Difference(base, subtract) =>
      ExclusionOf(
        Rewritten(env, hist, sched, path + [0], req, base),
        Rewritten(env, hist, sched, path + [1], req, subtract),
        sched(path).order != [1, 0])
  }

  function Operands(env: Env, hist: History, sched: Schedule, path: seq<nat>, req: Request, kids: seq<Rewrite>)
    : (outs: seq<Outcome>)
    requires Closed(env) && Known(env, req.goal)
    requires forall i :: 0 <= i < |kids| ==> NamesKnown(env, kids[i])
    ensures |outs| == |kids|
    decreases Universe(env, req.goal.user) - req.visited, 6, kids, 0
  {
    seq(|kids|, i requires 0 <= i < |kids| => Rewritten(env, hist, sched, path + [i], req, kids[i]))
  }

  lemma {:induction false} UsersetMessagesMeaning(rows: seq<User>, u: User)
    ensures var msgs := UsersetMessages(rows, u);
            && (msgs.shortCircuit <==> exists row :: row in rows && WildcardFor(row, u))
            && (forall c :: c in msgs.goals ==>
                  && c.user == u && c.relation != ""
                  && User(c.obj, c.relation) in rows)
            && (!msgs.shortCircuit ==>
                  forall row :: row in rows && row.relation != "" ==> Goal(row.obj, row.relation, u) in msgs.goals)
  {
    if rows != [] {
      assert rows == [rows[0]] + rows[1..];
      assert rows[0] in rows;
      UsersetMessagesMeaning(rows[1..], u);
    }
  }
}
