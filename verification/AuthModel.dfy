/**
 Relationship tuples, rewrite rules, and what a check is supposed to mean: membership in the
 least fixpoint of the rules, once it is settled what is subtracted.
 */
module AuthModel {

  type Name = string

  datatype Object = Object(kind: Name, id: Name)

  /** `user:anne` has no relation, `group:eng#member` has one, `user:*` is the object with id "*". */
  datatype User = User(obj: Object, relation: Name)

  datatype Goal = Goal(obj: Object, relation: Name, user: User)

  datatype Tuple = Tuple(obj: Object, relation: Name, user: User)

  datatype Ref = Ref(kind: Name, relation: Name)

  datatype Rewrite =
    | This
    | Computed(relation: Name)
    | TupleToUserset(tupleset: Name, computed: Name)
    | Union(kids: seq<Rewrite>)
    | Intersection(kids: seq<Rewrite>)
    | Difference(base: Rewrite, subtract: Rewrite)

  /**
   One store seen through one model.  `tuples` are the valid tuples whose condition
   passes for the request at hand; the arrow fields are questions answered by the
   type system; `objects` and `names` bound what a check can ever ask about.
   */
  datatype Env = Env(
    tuples: seq<Tuple>,
    kinds: set<Name>,
    rewrites: map<Ref, Rewrite>,
    usersets: map<Ref, seq<Ref>>,
    directlyRelated: (Ref, Ref) -> bool,
    publiclyAssignable: (Ref, Name) -> bool,
    pathExists: (User, Ref) -> bool,
    recursive: (Ref, Name) -> bool,
    weightTwo: (Ref, Name, Ref) -> bool,
    objects: set<Object>,
    names: set<Name>,
    maxDepth: nat)

  function RefOf(u: User): Ref {
    Ref(u.obj.kind, u.relation)
  }

  function Target(g: Goal): Ref {
    Ref(g.obj.kind, g.relation)
  }

  predicate SelfDefining(g: Goal) {
    g.relation == g.user.relation && g.obj == g.user.obj
  }

  predicate IsUserset(u: User) {
    u.relation != ""
  }

  /** A typed wildcard of the requesting user's type. */
  predicate WildcardFor(row: User, u: User) {
    row.obj.id == "*" && row.obj.kind == u.obj.kind
  }

  function UsersetRefs(env: Env, target: Ref): seq<Ref> {
    if target in env.usersets then env.usersets[target] else []
  }

  /** A tupleset row is skipped only when its type is known and lacks the computed relation. */
  predicate Followed(env: Env, kind: Name, computed: Name) {
    kind !in env.kinds || Ref(kind, computed) in env.rewrites
  }

  // ---- Rules --------------------------------------------------------------

  ghost predicate RowHolds(X: iset<Goal>, u: User, row: User) {
    WildcardFor(row, u) || (row.relation != "" && Goal(row.obj, row.relation, u) in X)
  }

  ghost predicate DirectHolds(env: Env, X: iset<Goal>, g: Goal) {
    || (env.directlyRelated(Target(g), RefOf(g.user)) && Tuple(g.obj, g.relation, g.user) in env.tuples)
    || (&& !IsUserset(g.user)
        && env.publiclyAssignable(Target(g), g.user.obj.kind)
        && Tuple(g.obj, g.relation, User(Object(g.user.obj.kind, "*"), "")) in env.tuples)
    || (exists row: User ::
          && Tuple(g.obj, g.relation, row) in env.tuples
          && RefOf(row) in UsersetRefs(env, Target(g))
          && RowHolds(X, g.user, row))
  }

  ghost predicate TuplesetHolds(env: Env, X: iset<Goal>, g: Goal, tupleset: Name, computed: Name) {
    exists row: User ::
      && Tuple(g.obj, tupleset, row) in env.tuples
      && Followed(env, row.obj.kind, computed)
      && Goal(row.obj, computed, g.user) in X
  }

  /**
   The body of rule `rw` for goal `g`: `Y` decides what is asked for, `X` what is subtracted, and
   inside a subtracted branch the other way round.  It grows with `Y` and shrinks with `X`.
   */
  ghost predicate Derives(env: Env, X: iset<Goal>, Y: iset<Goal>, g: Goal, rw: Rewrite) {
    match rw
    case This => DirectHolds(env, Y, g)
    case Computed(relation) => g.(relation := relation) in Y
    case TupleToUserset(tupleset, computed) => TuplesetHolds(env, Y, g, tupleset, computed)
    case Union(kids) => exists i :: 0 <= i < |kids| && Derives(env, X, Y, g, kids[i])
    case Intersection(kids) => forall i :: 0 <= i < |kids| ==> Derives(env, X, Y, g, kids[i])
    case Difference(base, subtract) => Derives(env, X, Y, g, base) && !Derives(env, Y, X, g, subtract)
  }

  ghost predicate Fires(env: Env, X: iset<Goal>, Y: iset<Goal>, g: Goal) {
    || SelfDefining(g)
    || (Target(g) in env.rewrites && Derives(env, X, Y, g, env.rewrites[Target(g)]))
  }

  // ---- Least fixpoint -----------------------------------------------------

  ghost function Stage(env: Env, X: iset<Goal>, n: nat): iset<Goal> {
    if n == 0 then iset{}
    else
      var below := Stage(env, X, n - 1);
      iset g: Goal | Fires(env, X, below, g)
  }

  ghost predicate Derivable(env: Env, X: iset<Goal>, g: Goal) {
    exists n: nat :: g in Stage(env, X, n)
  }

  /** What the rules derive, step by step, when `X` decides what is subtracted. */
  ghost function Granted(env: Env, X: iset<Goal>): iset<Goal> {
    iset g: Goal | Derivable(env, X, g)
  }

  /** `X` is what the rules derive when `X` itself decides what is subtracted. */
  ghost predicate IsMeaning(env: Env, X: iset<Goal>) {
    X == Granted(env, X)
  }

  lemma {:induction false} DerivesMonotone(
      env: Env, X: iset<Goal>, Y: iset<Goal>, X': iset<Goal>, Y': iset<Goal>, g: Goal, rw: Rewrite)
    requires X' <= X && Y <= Y'
    requires Derives(env, X, Y, g, rw)
    ensures Derives(env, X', Y', g, rw)
    decreases rw
  {
    match rw
    case Union(kids) =>
      var i :| 0 <= i < |kids| && Derives(env, X, Y, g, kids[i]);
      DerivesMonotone(env, X, Y, X', Y', g, kids[i]);
    case Intersection(kids) =>
      forall i | 0 <= i < |kids| ensures Derives(env, X', Y', g, kids[i]) {
        DerivesMonotone(env, X, Y, X', Y', g, kids[i]);
      }
    case Difference(base, subtract) =>
      DerivesMonotone(env, X, Y, X', Y', g, base);
      if Derives(env, Y', X', g, subtract) {
        DerivesMonotone(env, Y', X', Y, X, g, subtract);
      }
    case _ =>
  }

  lemma FiresMonotone(env: Env, X: iset<Goal>, Y: iset<Goal>, X': iset<Goal>, Y': iset<Goal>, g: Goal)
    requires X' <= X && Y <= Y'
    requires Fires(env, X, Y, g)
    ensures Fires(env, X', Y', g)
  {
    if !SelfDefining(g) {
      DerivesMonotone(env, X, Y, X', Y', g, env.rewrites[Target(g)]);
    }
  }

  lemma {:induction false} StageGrows(env: Env, X: iset<Goal>, m: nat, n: nat)
    requires m <= n
    ensures Stage(env, X, m) <= Stage(env, X, n)
    decreases n
  {
    if 0 < m {
      StageGrows(env, X, m - 1, n - 1);
      forall g | g in Stage(env, X, m) ensures g in Stage(env, X, n) {
        FiresMonotone(env, X, Stage(env, X, m - 1), X, Stage(env, X, n - 1), g);
      }
    }
  }

  /** Some stage grants whatever the goals of two stages do. */
  lemma StageAbove(env: Env, X: iset<Goal>, m: nat, n: nat) returns (top: nat)
    ensures Stage(env, X, m) <= Stage(env, X, top) && Stage(env, X, n) <= Stage(env, X, top)
  {
    top := if m < n then n else m;
    StageGrows(env, X, m, top);
    StageGrows(env, X, n, top);
  }

  /**
   Whatever a rule derives from all granted goals it derives from a finite stage, and whatever it
   does not derive when they are subtracted it does not derive when a finite stage is.
   */
  lemma {:induction false} DerivesAtStage(env: Env, X: iset<Goal>, g: Goal, rw: Rewrite) returns (n: nat)
    ensures Derives(env, X, Granted(env, X), g, rw) ==> Derives(env, X, Stage(env, X, n), g, rw)
    ensures Derives(env, Stage(env, X, n), X, g, rw) ==> Derives(env, Granted(env, X), X, g, rw)
    decreases rw
  {
    match rw
    case This => n := DirectAtStage(env, X, g);
    case Computed(relation) =>
      n := 0;
      if g.(relation := relation) in Granted(env, X) {
        n :| g.(relation := relation) in Stage(env, X, n);
      }
    case TupleToUserset(tupleset, computed) =>
      n := 0;
      if row: User :|
        && Tuple(g.obj, tupleset, row) in env.tuples && Followed(env, row.obj.kind, computed)
        && Goal(row.obj, computed, g.user) in Granted(env, X)
      {
        n :| Goal(row.obj, computed, g.user) in Stage(env, X, n);
      }
    case Union(kids) => n := KidsAtStage(env, X, g, rw);
    case Intersection(kids) => n := KidsAtStage(env, X, g, rw);
    case Difference(base, subtract) =>
      var b := DerivesAtStage(env, X, g, base);
      var s := DerivesAtStage(env, X, g, subtract);
      n := StageAbove(env, X, b, s);
      StageKeeps(env, X, b, n, g, base);
      StageKeeps(env, X, s, n, g, subtract);
  }

  lemma DirectAtStage(env: Env, X: iset<Goal>, g: Goal) returns (n: nat)
    ensures DirectHolds(env, Granted(env, X), g) ==> DirectHolds(env, Stage(env, X, n), g)
  {
    n := 0;
    if row: User :|
      && Tuple(g.obj, g.relation, row) in env.tuples && RefOf(row) in UsersetRefs(env, Target(g))
      && RowHolds(Granted(env, X), g.user, row)
    {
      if !WildcardFor(row, g.user) {
        n :| Goal(row.obj, row.relation, g.user) in Stage(env, X, n);
      }
      assert RowHolds(Stage(env, X, n), g.user, row);
    }
  }

  /** What a stage settles stays settled at higher stages. */
  lemma StageKeeps(env: Env, X: iset<Goal>, m: nat, n: nat, g: Goal, rw: Rewrite)
    requires Stage(env, X, m) <= Stage(env, X, n)
    ensures Derives(env, X, Stage(env, X, m), g, rw) ==> Derives(env, X, Stage(env, X, n), g, rw)
    ensures Derives(env, Stage(env, X, n), X, g, rw) ==> Derives(env, Stage(env, X, m), X, g, rw)
  {
    if Derives(env, X, Stage(env, X, m), g, rw) {
      DerivesMonotone(env, X, Stage(env, X, m), X, Stage(env, X, n), g, rw);
    }
    if Derives(env, Stage(env, X, n), X, g, rw) {
      DerivesMonotone(env, Stage(env, X, n), X, Stage(env, X, m), X, g, rw);
    }
  }

  lemma {:induction false} KidsAtStage(env: Env, X: iset<Goal>, g: Goal, rw: Rewrite) returns (n: nat)
    requires rw.Union? || rw.Intersection?
    ensures forall i :: 0 <= i < |rw.kids| ==>
              && (Derives(env, X, Granted(env, X), g, rw.kids[i]) ==> Derives(env, X, Stage(env, X, n), g, rw.kids[i]))
              && (Derives(env, Stage(env, X, n), X, g, rw.kids[i]) ==> Derives(env, Granted(env, X), X, g, rw.kids[i]))
    decreases rw, 0
  {
    hide Granted, Stage, Derives;
    var kids := rw.kids;
    n := 0;
    for k := 0 to |kids|
      invariant forall i :: 0 <= i < k ==>
                  && (Derives(env, X, Granted(env, X), g, kids[i]) ==> Derives(env, X, Stage(env, X, n), g, kids[i]))
                  && (Derives(env, Stage(env, X, n), X, g, kids[i]) ==> Derives(env, Granted(env, X), X, g, kids[i]))
    {
      var m := DerivesAtStage(env, X, g, kids[k]);
      var top := StageAbove(env, X, m, n);
      forall i | 0 <= i <= k
        ensures Derives(env, X, Granted(env, X), g, kids[i]) ==> Derives(env, X, Stage(env, X, top), g, kids[i])
        ensures Derives(env, Stage(env, X, top), X, g, kids[i]) ==> Derives(env, Granted(env, X), X, g, kids[i])
      {
        StageKeeps(env, X, if i == k then m else n, top, g, kids[i]);
      }
      n := top;
    }
  }

  /** The granted goals are a fixpoint of the rules. */
  lemma GrantedIsFixpoint(env: Env, X: iset<Goal>, g: Goal)
    ensures g in Granted(env, X) <==> Fires(env, X, Granted(env, X), g)
  {
    if g in Granted(env, X) {
      var n: nat :| g in Stage(env, X, n);
      assert Stage(env, X, n - 1) <= Granted(env, X);
      FiresMonotone(env, X, Stage(env, X, n - 1), X, Granted(env, X), g);
    }
    if Fires(env, X, Granted(env, X), g) {
      if SelfDefining(g) {
        assert g in Stage(env, X, 1);
      } else {
        var n := DerivesAtStage(env, X, g, env.rewrites[Target(g)]);
        assert g in Stage(env, X, n + 1);
      }
    }
  }

  lemma {:induction false} StageBelowClosed(env: Env, X: iset<Goal>, Y: iset<Goal>, n: nat)
    requires forall g :: Fires(env, X, Y, g) ==> g in Y
    ensures Stage(env, X, n) <= Y
  {
    if n != 0 {
      StageBelowClosed(env, X, Y, n - 1);
      forall g | g in Stage(env, X, n) ensures g in Y {
        FiresMonotone(env, X, Stage(env, X, n - 1), X, Y, g);
      }
    }
  }

  /** And they are the least one: every set closed under the rules contains them. */
  lemma GrantedIsLeast(env: Env, X: iset<Goal>, Y: iset<Goal>)
    requires forall g :: Fires(env, X, Y, g) ==> g in Y
    ensures Granted(env, X) <= Y
  {
    forall g | g in Granted(env, X) ensures g in Y {
      var n: nat :| g in Stage(env, X, n);
      StageBelowClosed(env, X, Y, n);
    }
  }

  // ---- What a goal depends on ---------------------------------------------

  /** The rows of `This` and of a tupleset that are followed to another goal. */
  ghost predicate DirectDependsOn(env: Env, g: Goal, h: Goal) {
    && h.relation != "" && h.user == g.user
    && Tuple(g.obj, g.relation, User(h.obj, h.relation)) in env.tuples
    && Ref(h.obj.kind, h.relation) in UsersetRefs(env, Target(g))
  }

  ghost predicate TuplesetDependsOn(env: Env, g: Goal, tupleset: Name, computed: Name, h: Goal) {
    && h.relation == computed && h.user == g.user && Followed(env, h.obj.kind, computed)
    && exists row: User :: row.obj == h.obj && Tuple(g.obj, tupleset, row) in env.tuples
  }

  /** `rw` asks about `h` when it is evaluated for `g`. */
  ghost predicate DependsOn(env: Env, g: Goal, rw: Rewrite, h: Goal) {
    match rw
    case This => DirectDependsOn(env, g, h)
    case Computed(relation) => h == g.(relation := relation)
    case TupleToUserset(tupleset, computed) => TuplesetDependsOn(env, g, tupleset, computed, h)
    case Union(kids) => exists i :: 0 <= i < |kids| && DependsOn(env, g, kids[i], h)
    case Intersection(kids) => exists i :: 0 <= i < |kids| && DependsOn(env, g, kids[i], h)
    case Difference(base, subtract) => DependsOn(env, g, base, h) || DependsOn(env, g, subtract, h)
  }

  /** `rw` asks about `h` in a branch that is subtracted. */
  ghost predicate SubtractedOn(env: Env, g: Goal, rw: Rewrite, h: Goal) {
    match rw
    case Union(kids) => exists i :: 0 <= i < |kids| && SubtractedOn(env, g, kids[i], h)
    case Intersection(kids) => exists i :: 0 <= i < |kids| && SubtractedOn(env, g, kids[i], h)
    case Difference(base, subtract) => SubtractedOn(env, g, base, h) || DependsOn(env, g, subtract, h)
    case _ => false
  }

  ghost predicate Asks(env: Env, g: Goal, h: Goal) {
    Target(g) in env.rewrites && DependsOn(env, g, env.rewrites[Target(g)], h)
  }

  /** The evaluation of `g` gets as far as asking about `h`. */
  ghost predicate Visits(env: Env, g: Goal, h: Goal) {
    !SelfDefining(g) && env.pathExists(g.user, Target(g)) && Asks(env, g, h)
  }

  ghost predicate Subtracts(env: Env, g: Goal, h: Goal) {
    Target(g) in env.rewrites && SubtractedOn(env, g, env.rewrites[Target(g)], h)
  }

  /** A rule looks only at the goals it asks about, and of the first set only at those it subtracts. */
  lemma {:induction false} DerivesLooksAt(
      env: Env, X: iset<Goal>, Y: iset<Goal>, X': iset<Goal>, Y': iset<Goal>, g: Goal, rw: Rewrite)
    requires forall h :: SubtractedOn(env, g, rw, h) ==> (h in X <==> h in X')
    requires forall h :: DependsOn(env, g, rw, h) ==> (h in Y <==> h in Y')
    ensures Derives(env, X, Y, g, rw) <==> Derives(env, X', Y', g, rw)
    decreases rw
  {
    match rw
    case This => DirectLooksAt(env, Y, Y', g);
    case Computed(relation) => assert DependsOn(env, g, rw, g.(relation := relation));
    case TupleToUserset(tupleset, computed) =>
      forall row: User | Tuple(g.obj, tupleset, row) in env.tuples && Followed(env, row.obj.kind, computed)
        ensures Goal(row.obj, computed, g.user) in Y <==> Goal(row.obj, computed, g.user) in Y'
      {
        assert DependsOn(env, g, rw, Goal(row.obj, computed, g.user));
      }
    case Union(kids) => KidsLookAt(env, X, Y, X', Y', g, rw);
    case Intersection(kids) => KidsLookAt(env, X, Y, X', Y', g, rw);
    case Difference(base, subtract) =>
      DerivesLooksAt(env, X, Y, X', Y', g, base);
      SubtractedAsked(env, g, subtract);
      DerivesLooksAt(env, Y, X, Y', X', g, subtract);
  }

  lemma {:induction false} KidsLookAt(
      env: Env, X: iset<Goal>, Y: iset<Goal>, X': iset<Goal>, Y': iset<Goal>, g: Goal, rw: Rewrite)
    requires rw.Union? || rw.Intersection?
    requires forall h :: SubtractedOn(env, g, rw, h) ==> (h in X <==> h in X')
    requires forall h :: DependsOn(env, g, rw, h) ==> (h in Y <==> h in Y')
    ensures forall i :: 0 <= i < |rw.kids| ==>
              (Derives(env, X, Y, g, rw.kids[i]) <==> Derives(env, X', Y', g, rw.kids[i]))
    decreases rw, 0
  {
    forall i | 0 <= i < |rw.kids|
      ensures Derives(env, X, Y, g, rw.kids[i]) <==> Derives(env, X', Y', g, rw.kids[i])
    {
      forall h | SubtractedOn(env, g, rw.kids[i], h) ensures SubtractedOn(env, g, rw, h) {}
      forall h | DependsOn(env, g, rw.kids[i], h) ensures DependsOn(env, g, rw, h) {}
      DerivesLooksAt(env, X, Y, X', Y', g, rw.kids[i]);
    }
  }

  lemma DirectLooksAt(env: Env, Y: iset<Goal>, Y': iset<Goal>, g: Goal)
    requires forall h :: DirectDependsOn(env, g, h) ==> (h in Y <==> h in Y')
    ensures DirectHolds(env, Y, g) <==> DirectHolds(env, Y', g)
  {
    forall row: User | Tuple(g.obj, g.relation, row) in env.tuples && RefOf(row) in UsersetRefs(env, Target(g))
      ensures RowHolds(Y, g.user, row) <==> RowHolds(Y', g.user, row)
    {
      assert row == User(row.obj, row.relation);
      assert row.relation != "" ==> DirectDependsOn(env, g, Goal(row.obj, row.relation, g.user));
    }
  }

  lemma {:induction false} SubtractedAsked(env: Env, g: Goal, rw: Rewrite)
    ensures forall h :: SubtractedOn(env, g, rw, h) ==> DependsOn(env, g, rw, h)
    decreases rw
  {
    match rw
    case Union(kids) =>
      forall i | 0 <= i < |kids|
        ensures forall h :: SubtractedOn(env, g, kids[i], h) ==> DependsOn(env, g, kids[i], h)
      {
        SubtractedAsked(env, g, kids[i]);
      }
    case Intersection(kids) =>
      forall i | 0 <= i < |kids|
        ensures forall h :: SubtractedOn(env, g, kids[i], h) ==> DependsOn(env, g, kids[i], h)
      {
        SubtractedAsked(env, g, kids[i]);
      }
    case Difference(base, _) => SubtractedAsked(env, g, base);
    case _ =>
  }

  // ---- Models without exclusion -------------------------------------------

  predicate Monotone(rw: Rewrite) {
    match rw
    case Difference(_, _) => false
    case Union(kids) => forall i :: 0 <= i < |kids| ==> Monotone(kids[i])
    case Intersection(kids) => forall i :: 0 <= i < |kids| ==> Monotone(kids[i])
    case _ => true
  }

  predicate MonotoneModel(env: Env) {
    forall r :: r in env.rewrites ==> Monotone(env.rewrites[r])
  }

  lemma {:induction false} MonotoneSubtractsNothing(env: Env, g: Goal, rw: Rewrite)
    requires Monotone(rw)
    ensures forall h :: !SubtractedOn(env, g, rw, h)
    decreases rw
  {
    match rw
    case Union(kids) =>
      forall i | 0 <= i < |kids| ensures forall h :: !SubtractedOn(env, g, kids[i], h) {
        MonotoneSubtractsNothing(env, g, kids[i]);
      }
    case Intersection(kids) =>
      forall i | 0 <= i < |kids| ensures forall h :: !SubtractedOn(env, g, kids[i], h) {
        MonotoneSubtractsNothing(env, g, kids[i]);
      }
    case _ =>
  }

  lemma {:induction false} SameStages(env: Env, X: iset<Goal>, X': iset<Goal>, n: nat)
    requires MonotoneModel(env)
    ensures Stage(env, X, n) == Stage(env, X', n)
  {
    if n > 0 {
      SameStages(env, X, X', n - 1);
      var Y := Stage(env, X, n - 1);
      forall g: Goal ensures Fires(env, X, Y, g) <==> Fires(env, X', Y, g) {
        if Target(g) in env.rewrites {
          MonotoneSubtractsNothing(env, g, env.rewrites[Target(g)]);
          DerivesLooksAt(env, X, Y, X', Y, g, env.rewrites[Target(g)]);
        }
      }
    }
  }

  lemma SameGranted(env: Env, X: iset<Goal>, X': iset<Goal>)
    requires MonotoneModel(env)
    ensures Granted(env, X) == Granted(env, X')
  {
    forall n: nat ensures Stage(env, X, n) == Stage(env, X', n) {
      SameStages(env, X, X', n);
    }
    assert forall g: Goal :: g in Granted(env, X) <==> g in Granted(env, X');
  }

  /** Without exclusion there is one meaning: the least set closed under the rules. */
  lemma MonotoneMeaning(env: Env, X: iset<Goal>)
    requires MonotoneModel(env)
    ensures IsMeaning(env, X) <==> X == Granted(env, iset{})
  {
    SameGranted(env, X, iset{});
    SameGranted(env, Granted(env, iset{}), iset{});
  }
}
