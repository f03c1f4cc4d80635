/**
 The caching resolver as an object: one frame of its ResolveCheck, around a delegate
 evaluation whose own look-ups may hit anything this cache holds, and whose dispatches
 store their answers in this cache too.
 */
module CachedResolver {
  import opened Reducers
  import opened AuthModel
  import opened LocalChecker
  import opened LocalCheckerCorrect
  import opened Answering

  datatype CacheEntry = CacheEntry(lastModified: nat, response: Response)

  type Cache = map<Goal, CacheEntry>

  /** An evaluation behind the cache, and the clock when it ends. */
  datatype Finished = Finished(event: Event, at: nat)

  function EntriesOf(cache: Cache): History {
    set g | g in cache :: (g, cache[g].response)
  }

  /** An answer is stored unless it is an error or flagged with a cycle. */
  function Kept(cache: Cache, g: Goal, out: Outcome, at: nat): Cache {
    if out.Resp? && !out.response.cycle then cache[g := CacheEntry(at, out.response)] else cache
  }

  predicate AllKnown(env: Env, finished: seq<Finished>) {
    forall i :: 0 <= i < |finished| ==> Known(env, finished[i].event.req.goal)
  }

  /** The cache after evaluations that end one after the other. */
  function KeptAll(env: Env, cache: Cache, finished: seq<Finished>): Cache
    requires Closed(env) && AllKnown(env, finished)
  {
    if finished == [] then cache
    else
      var earlier, f := KeptAll(env, cache, finished[..|finished| - 1]), finished[|finished| - 1];
      var out := Local(env, EntriesOf(earlier), f.event.sched, f.event.path, f.event.req);
      Kept(earlier, f.event.req.goal, out, f.at)
  }

  lemma KeptSound(w: World, cache: Cache, e: Event, at: nat)
    requires Setting(w, EntriesOf(cache)) && Known(w.env, e.req.goal)
    ensures var out := Local(w.env, EntriesOf(cache), e.sched, e.path, e.req);
            Setting(w, EntriesOf(Kept(cache, e.req.goal, out, at)))
  {
    hide Local;
    var out := Local(w.env, EntriesOf(cache), e.sched, e.path, e.req);
    FairAnswer(w, EntriesOf(cache), e.sched, e.path, e.req);
    var cache' := Kept(cache, e.req.goal, out, at);
    if cache' != cache {
      assert EntriesOf(cache') <= EntriesOf(cache) + {(e.req.goal, out.response)};
    }
  }

  lemma {:induction false} KeptAllSound(w: World, cache: Cache, finished: seq<Finished>)
    requires Setting(w, EntriesOf(cache)) && AllKnown(w.env, finished)
    ensures Setting(w, EntriesOf(KeptAll(w.env, cache, finished)))
  {
    if finished != [] {
      var earlier, f := finished[..|finished| - 1], finished[|finished| - 1];
      KeptAllSound(w, cache, earlier);
      KeptSound(w, KeptAll(w.env, cache, earlier), f.event, f.at);
    }
  }

  /** What the `i`-th of these evaluations finds and answers. */
  function AnswerOf(env: Env, cache: Cache, finished: seq<Finished>, i: nat): Outcome
    requires Closed(env) && AllKnown(env, finished) && i < |finished|
  {
    var e := finished[i].event;
    Local(env, EntriesOf(KeptAll(env, cache, finished[..i])), e.sched, e.path, e.req)
  }

  predicate Storable(out: Outcome) {
    out.Resp? && !out.response.cycle
  }

  /** The `i`-th evaluation is about `g` and its answer may be stored. */
  predicate Stores(env: Env, cache: Cache, finished: seq<Finished>, i: nat, g: Goal)
    requires Closed(env) && AllKnown(env, finished) && i < |finished|
  {
    finished[i].event.req.goal == g && Storable(AnswerOf(env, cache, finished, i))
  }

  /** No later evaluation has stored an answer about `g`. */
  predicate NoneStores(env: Env, cache: Cache, finished: seq<Finished>, from: nat, g: Goal)
    requires Closed(env) && AllKnown(env, finished)
  {
    forall i :: from <= i < |finished| ==> !Stores(env, cache, finished, i, g)
  }

  predicate SameEntry(a: Cache, b: Cache, g: Goal) {
    (g in a <==> g in b) && (g in a ==> a[g] == b[g])
  }

  lemma {:induction false} KeptFrom(env: Env, cache: Cache, finished: seq<Finished>, from: nat, g: Goal)
    requires Closed(env) && AllKnown(env, finished) && from <= |finished| && NoneStores(env, cache, finished, from, g)
    ensures SameEntry(KeptAll(env, cache, finished), KeptAll(env, cache, finished[..from]), g)
    decreases |finished| - from
  {
    hide Local, EntriesOf;
    if from == |finished| {
      assert finished[..from] == finished;
    } else {
      KeptFrom(env, cache, finished, from + 1, g);
      assert !Stores(env, cache, finished, from, g);
      assert finished[..from + 1][..from] == finished[..from];
    }
  }

  /** A goal's entry is the last storable answer about it, or what it was if there is none. */
  lemma KeptAllLast(env: Env, cache: Cache, finished: seq<Finished>, g: Goal)
    requires Closed(env) && AllKnown(env, finished)
    ensures var after := KeptAll(env, cache, finished);
            || (NoneStores(env, cache, finished, 0, g) && SameEntry(after, cache, g))
            || (exists i :: 0 <= i < |finished| && Stores(env, cache, finished, i, g)
                  && NoneStores(env, cache, finished, i + 1, g) && g in after
                  && after[g] == CacheEntry(finished[i].at, AnswerOf(env, cache, finished, i).response))
  {
    hide Local, EntriesOf;
    var i := |finished|;
    while i > 0 && !Stores(env, cache, finished, i - 1, g)
      invariant 0 <= i <= |finished| && NoneStores(env, cache, finished, i, g)
    {
      i := i - 1;
    }
    KeptFrom(env, cache, finished, i, g);
    if i == 0 {
      assert finished[..0] == [];
    } else {
      assert finished[..i][..i - 1] == finished[..i - 1];
      assert Stores(env, cache, finished, i - 1, g);
    }
  }

  class CachedCheckResolver {
    var cache: Cache

    constructor ()
      ensures cache == map[]
    {
      cache := map[];
    }

    /** `during` are the evaluations that end while the delegate runs, `now` the clock when it has answered. */
    method ResolveCheck(env: Env, sched: Schedule, path: seq<nat>, req: Request, higherConsistency: bool,
                        lastInvalidation: nat, during: seq<Finished>, now: nat, ghost w: World)
      returns (out: Outcome)
      requires w.env == env && Setting(w, EntriesOf(cache)) && Known(env, req.goal) && AllKnown(env, during)
      modifies this
      ensures Setting(w, EntriesOf(cache))
      ensures out.Resp? ==>
                && (out.response.allowed ==> !out.response.cycle && req.goal in w.sure)
                && (!out.response.allowed && !out.response.cycle ==> req.goal !in w.maybe)
                && (req.visited == {} && Settled(w) ==> (out.response.allowed <==> req.goal in w.sure))
      ensures var g := req.goal;
              if !higherConsistency && g in old(cache) && old(cache)[g].lastModified > lastInvalidation then
                cache == old(cache) && out == Resp(old(cache)[g].response)
              else
                var meanwhile := KeptAll(env, old(cache), during);
                && out == Local(env, EntriesOf(meanwhile), sched, path, req)
                && (forall S :: Answerable(env, sched, req, S) ==> out.Resp?)
                && (Storable(out) ==> g in cache && cache[g] == CacheEntry(now, out.response))
                && (forall h :: h != g || !Storable(out) ==> SameEntry(cache, meanwhile, h))
    {
      hide Granted, PathSound, Supported, Settled;
      var g := req.goal;
      if !higherConsistency && g in cache && cache[g].lastModified > lastInvalidation {
        assert (g, cache[g].response) in EntriesOf(cache);
        return Resp(cache[g].response);
      }
      KeptAllSound(w, cache, during);
      cache := KeptAll(env, cache, during);
      out := Local(env, EntriesOf(cache), sched, path, req);
      FairAnswer(w, EntriesOf(cache), sched, path, req);
      forall S | Answerable(env, sched, req, S) ensures out.Resp? {
        AlwaysAnswers(env, EntriesOf(cache), sched, path, req, S);
      }
      KeptSound(w, cache, Event(sched, path, req), now);
      cache := Kept(cache, g, out, now);
    }
  }

  lemma FairAnswer(w: World, hist: History, sched: Schedule, path: seq<nat>, req: Request)
    requires Setting(w, hist) && Known(w.env, req.goal)
    ensures var out := Local(w.env, hist, sched, path, req);
            out.Resp? ==>
              && (out.response.allowed ==> !out.response.cycle && req.goal in w.sure)
              && (!out.response.allowed && !out.response.cycle ==> req.goal !in w.maybe)
              && (req.visited == {} && Settled(w) ==> (out.response.allowed <==> req.goal in w.sure))
  {
    LocalJudged(w, hist, sched, path, req, 0);
    if Derivable(w.env, w.maybe, req.goal) {
      var n: nat :| req.goal in Stage(w.env, w.maybe, n);
      LocalJudged(w, hist, sched, path, req, n);
    }
  }
}
