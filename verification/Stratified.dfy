/**
 Models with exclusion in which no goal depends on itself through a subtracted branch: they have
 exactly one meaning, built level by level, and the v1 chain answers according to it.
 */
module Stratified {
  import opened Reducers
  import opened AuthModel
  import opened LocalChecker
  import opened Endings
  import opened LocalCheckerCorrect

  /** Goals may be levelled by their relation alone, or more finely. */
  type Levels = Goal -> nat

  /** A goal asks only about goals on its level or below, and subtracts only goals strictly below. */
  ghost predicate Layered(env: Env, level: Levels) {
    && (forall g, h :: Asks(env, g, h) ==> level(h) <= level(g))
    && (forall g, h :: Subtracts(env, g, h) ==> level(h) < level(g))
  }

  ghost predicate AgreeBelow(level: Levels, k: nat, X: iset<Goal>, Y: iset<Goal>) {
    forall g :: level(g) < k ==> (g in X <==> g in Y)
  }

  /** The goals below level `k`, each level settled by the levels under it. */
  ghost function UpTo(env: Env, level: Levels, k: nat): iset<Goal> {
    if k == 0 then iset{}
    else
      var below := UpTo(env, level, k - 1);
      iset g: Goal | level(g) < k && Derivable(env, below, g)
  }

  ghost function MeaningOf(env: Env, level: Levels): iset<Goal> {
    iset g: Goal | Derivable(env, UpTo(env, level, level(g)), g)
  }

  /** Up to level `k`, what is derived depends only on what is decided below `k`. */
  lemma {:induction false} StagesAgree(env: Env, level: Levels, k: nat, X: iset<Goal>, X': iset<Goal>, n: nat)
    requires Layered(env, level) && AgreeBelow(level, k, X, X')
    ensures AgreeBelow(level, k + 1, Stage(env, X, n), Stage(env, X', n))
  {
    if n > 0 {
      StagesAgree(env, level, k, X, X', n - 1);
      var Y, Y' := Stage(env, X, n - 1), Stage(env, X', n - 1);
      forall g | level(g) < k + 1 ensures Fires(env, X, Y, g) <==> Fires(env, X', Y', g) {
        if Target(g) in env.rewrites {
          var rw := env.rewrites[Target(g)];
          forall h | SubtractedOn(env, g, rw, h) ensures h in X <==> h in X' {
            assert Subtracts(env, g, h);
          }
          forall h | DependsOn(env, g, rw, h) ensures h in Y <==> h in Y' {
            assert Asks(env, g, h);
          }
          DerivesLooksAt(env, X, Y, X', Y', g, rw);
        }
      }
    }
  }

  lemma DerivableAgree(env: Env, level: Levels, k: nat, X: iset<Goal>, X': iset<Goal>)
    requires Layered(env, level) && AgreeBelow(level, k, X, X')
    ensures forall g :: level(g) < k + 1 ==> (Derivable(env, X, g) <==> Derivable(env, X', g))
  {
    forall n: nat ensures AgreeBelow(level, k + 1, Stage(env, X, n), Stage(env, X', n)) {
      StagesAgree(env, level, k, X, X', n);
    }
  }

  /** Higher levels do not disturb lower ones. */
  lemma {:induction false} UpToAgree(env: Env, level: Levels, j: nat, k: nat)
    requires Layered(env, level) && j <= k
    ensures AgreeBelow(level, j, UpTo(env, level, j), UpTo(env, level, k))
  {
    if j > 0 {
      UpToAgree(env, level, j - 1, k - 1);
      DerivableAgree(env, level, j - 1, UpTo(env, level, j - 1), UpTo(env, level, k - 1));
    }
  }

  lemma MeaningAgrees(env: Env, level: Levels, k: nat)
    requires Layered(env, level)
    ensures AgreeBelow(level, k, UpTo(env, level, k), MeaningOf(env, level))
  {
    forall g | level(g) < k ensures g in UpTo(env, level, k) <==> g in MeaningOf(env, level) {
      UpToAgree(env, level, level(g) + 1, k);
    }
  }

  /** The level-by-level construction is a meaning. */
  lemma MeaningExists(env: Env, level: Levels)
    requires Layered(env, level)
    ensures IsMeaning(env, MeaningOf(env, level))
  {
    var X := MeaningOf(env, level);
    forall g: Goal ensures g in X <==> g in Granted(env, X) {
      MeaningAgrees(env, level, level(g));
      DerivableAgree(env, level, level(g), UpTo(env, level, level(g)), X);
    }
  }

  lemma {:induction false} MeaningsAgree(env: Env, level: Levels, X: iset<Goal>, Y: iset<Goal>, k: nat)
    requires Layered(env, level) && IsMeaning(env, X) && IsMeaning(env, Y)
    ensures AgreeBelow(level, k, X, Y)
  {
    if k > 0 {
      MeaningsAgree(env, level, X, Y, k - 1);
      DerivableAgree(env, level, k - 1, X, Y);
      forall g | level(g) < k ensures g in X <==> g in Y {
        assert g in X <==> g in Granted(env, X);
        assert g in Y <==> g in Granted(env, Y);
      }
    }
  }

  /** And the only one. */
  lemma MeaningIsUnique(env: Env, level: Levels, X: iset<Goal>)
    requires Layered(env, level)
    ensures IsMeaning(env, X) <==> X == MeaningOf(env, level)
  {
    MeaningExists(env, level);
    if IsMeaning(env, X) {
      var Y := MeaningOf(env, level);
      forall g: Goal ensures g in X <==> g in Y {
        MeaningsAgree(env, level, X, Y, level(g) + 1);
      }
    }
  }

  /**
   After any run of cached requests, whatever its path has visited: a request is allowed only what
   the model means to allow, and answered exactly unless the answer is flagged.
   */
  lemma AnswersAreSound(env: Env, level: Levels, run: seq<Event>, sched: Schedule, path: seq<nat>, req: Request)
    requires Closed(env) && Layered(env, level) && PathSound(Exactly(env, MeaningOf(env, level)))
    requires Known(env, req.goal) && GoalsKnown(env, run)
    ensures var out := Cached(env, HistoryOf(env, run), sched, path, req);
            out.Resp? ==>
              && (out.response.allowed ==> req.goal in MeaningOf(env, level))
              && (!out.response.cycle ==> (out.response.allowed <==> req.goal in MeaningOf(env, level)))
  {
    var X := MeaningOf(env, level);
    MeaningExists(env, level);
    MeaningIsSane(env, X);
    CacheEntriesAreSound(Exactly(env, X), run);
    UnflaggedResponsesAreExact(env, X, HistoryOf(env, run), sched, path, req);
  }

  lemma {:induction false} EndingIsClean(w: World, g: Goal, rw: Rewrite)
    requires forall h :: SubtractedOn(w.env, g, rw, h) ==> Ends(w.env, h)
    ensures Clean(w, g, rw)
    decreases rw
  {
    match rw
    case Union(kids) =>
      forall i | 0 <= i < |kids| ensures Clean(w, g, kids[i]) {
        forall h | SubtractedOn(w.env, g, kids[i], h) ensures SubtractedOn(w.env, g, rw, h) {}
        EndingIsClean(w, g, kids[i]);
      }
    case Intersection(kids) =>
      forall i | 0 <= i < |kids| ensures Clean(w, g, kids[i]) {
        forall h | SubtractedOn(w.env, g, kids[i], h) ensures SubtractedOn(w.env, g, rw, h) {}
        EndingIsClean(w, g, kids[i]);
      }
    case Difference(base, _) => EndingIsClean(w, g, base);
    case _ =>
  }

  /** If moreover nothing that a granted goal subtracts leads back, every error-free answer is exact. */
  lemma AnswersAreExact(env: Env, level: Levels, run: seq<Event>, sched: Schedule, g: Goal, depth: nat)
    requires Closed(env) && Layered(env, level) && PathSound(Exactly(env, MeaningOf(env, level)))
    requires forall k, h :: k in MeaningOf(env, level) && Subtracts(env, k, h) ==> Ends(env, h)
    requires Known(env, g) && GoalsKnown(env, run)
    ensures var out := Cached(env, HistoryOf(env, run), sched, [], Request(g, {}, depth));
            out.Resp? ==> (out.response.allowed <==> g in MeaningOf(env, level))
  {
    var X := MeaningOf(env, level);
    var w := Exactly(env, X);
    MeaningExists(env, level);
    MeaningIsSane(env, X);
    forall k | k in X && Target(k) in env.rewrites ensures Clean(w, k, env.rewrites[Target(k)]) {
      forall h | SubtractedOn(env, k, env.rewrites[Target(k)], h) ensures Ends(env, h) {
        assert Subtracts(env, k, h);
      }
      EndingIsClean(w, k, env.rewrites[Target(k)]);
    }
    ChecksAfterRuns(w, run, sched, g, depth);
  }
}
