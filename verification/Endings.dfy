/** Which goals lead nowhere in the end: every chain of questions from them stops. */
module Endings {
  import opened AuthModel
  import opened LocalChecker

  ghost predicate VisitsOnly(env: Env, g: Goal, below: iset<Goal>) {
    forall h :: Visits(env, g, h) ==> h in below
  }

  /** Every chain of questions from these goals has at most `n` goals. */
  ghost function EndsIn(env: Env, n: nat): iset<Goal> {
    if n == 0 then iset{}
    else
      var below := EndsIn(env, n - 1);
      iset g: Goal | VisitsOnly(env, g, below)
  }

  ghost predicate Ends(env: Env, g: Goal) {
    exists n: nat :: g in EndsIn(env, n)
  }

  lemma {:induction false} EndsInGrows(env: Env, m: nat, n: nat)
    requires m <= n
    ensures EndsIn(env, m) <= EndsIn(env, n)
  {
    if m > 0 {
      EndsInGrows(env, m - 1, n - 1);
    }
  }

  ghost function LeastFrom(env: Env, g: Goal, n: nat): (least: nat)
    requires g in EndsIn(env, n)
    ensures 0 < least <= n && g in EndsIn(env, least) && g !in EndsIn(env, least - 1)
  {
    if g in EndsIn(env, n - 1) then LeastFrom(env, g, n - 1) else n
  }

  /** The length of the longest chain of questions from a goal whose chains all end. */
  ghost function Rank(env: Env, g: Goal): nat {
    if Ends(env, g) then
      var n: nat :| g in EndsIn(env, n);
      LeastFrom(env, g, n)
    else 0
  }

  lemma RankFalls(env: Env, g: Goal, h: Goal)
    requires Ends(env, g) && Visits(env, g, h)
    ensures Ends(env, h) && Rank(env, h) < Rank(env, g)
  {
    var r := Rank(env, g);
    assert h in EndsIn(env, r - 1);
    if Rank(env, h) >= r {
      EndsInGrows(env, r - 1, Rank(env, h) - 1);
    }
  }

  // ---- Only finitely many questions ---------------------------------------

  function Near(env: Env, g: Goal): set<Goal> {
    set o, r | o in env.objects + {g.obj} && r in env.names :: Goal(o, r, g.user)
  }

  lemma {:induction false} AsksNear(env: Env, g: Goal, rw: Rewrite, h: Goal)
    requires Closed(env) && NamesKnown(env, rw) && DependsOn(env, g, rw, h)
    ensures h in Near(env, g)
    decreases rw
  {
    match rw
    case Union(kids) =>
      var i :| 0 <= i < |kids| && DependsOn(env, g, kids[i], h);
      AsksNear(env, g, kids[i], h);
    case Intersection(kids) =>
      var i :| 0 <= i < |kids| && DependsOn(env, g, kids[i], h);
      AsksNear(env, g, kids[i], h);
    case Difference(base, subtract) => AsksNear(env, g, if DependsOn(env, g, base, h) then base else subtract, h);
    case _ =>
  }

  lemma {:induction false} AllEndIn(env: Env, goals: set<Goal>) returns (n: nat)
    requires forall h :: h in goals ==> Ends(env, h)
    ensures forall h :: h in goals ==> h in EndsIn(env, n)
    decreases goals
  {
    n := 0;
    if goals != {} {
      var h :| h in goals;
      var rest := AllEndIn(env, goals - {h});
      var own: nat :| h in EndsIn(env, own);
      n := if own < rest then rest else own;
      EndsInGrows(env, own, n);
      EndsInGrows(env, rest, n);
    }
  }

  lemma EndsIfAllEnd(env: Env, g: Goal)
    requires Closed(env) && forall h :: Visits(env, g, h) ==> Ends(env, h)
    ensures Ends(env, g)
  {
    var asked := set h | h in Near(env, g) && Visits(env, g, h);
    var n := AllEndIn(env, asked);
    forall h | Visits(env, g, h) ensures h in EndsIn(env, n) {
      AsksNear(env, g, env.rewrites[Target(g)], h);
      assert h in asked;
    }
    assert g in EndsIn(env, n + 1);
  }

  /** So a goal from which not every chain ends asks about another such goal. */
  lemma EndlessGoesOn(env: Env, g: Goal) returns (h: Goal)
    requires Closed(env) && !Ends(env, g)
    ensures Visits(env, g, h) && !Ends(env, h)
  {
    if forall k :: Visits(env, g, k) ==> Ends(env, k) {
      EndsIfAllEnd(env, g);
    }
    h :| Visits(env, g, h) && !Ends(env, h);
  }
}
