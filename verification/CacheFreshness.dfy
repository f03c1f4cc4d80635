/**
 Cached check responses against the store's last known change, over whole runs of writes, changelog
 refreshes, evaluations, stores and lookups on one clock.
 */
module CacheFreshness {
  import opened Options

  type Time = real
  type Key = string

  /**
   How long a check response, with the jitter drawn for it, and the changelog entry stay in the cache,
   and how long an evaluation may take.
   */
  datatype Config = Config(responseTTL: Time, maxJitter: Time, changelogTTL: Time, maxEvaluation: Time)
  {
    predicate Valid() {
      responseTTL >= 0.0 && maxJitter >= 0.0 && changelogTTL >= 0.0 && maxEvaluation >= 0.0
    }

    function MaxLife(): Time {
      responseTTL + maxJitter
    }
  }

  datatype ChangelogEntry = ChangelogEntry(lastModified: Time, expires: Time)

  /** `asOf` is the time of the oldest read the response rests on; the program does not keep it. */
  datatype ResponseEntry = ResponseEntry(asOf: Time, cachedAt: Time, expires: Time)

  /**
   `since` is the invalidation time the request works with.  `known` is the last change
   any refresh had recorded when the request began; the program does not keep it.
   */
  datatype Request = Request(since: Time, known: Time)

  datatype Evaluation = Evaluation(request: nat, key: Key, from: Time, asOf: Time)

  /** Time 0 is the zero time: no change, no invalidation. */
  datatype State = State(
    now: Time,
    lastChange: Time,
    recorded: Time,
    changelog: Option<ChangelogEntry>,
    responses: map<Key, ResponseEntry>,
    requests: map<nat, Request>,
    evaluations: map<nat, Evaluation>)

  datatype Action =
    | Wait(ticks: Time)
    | Write
    | Refresh
    | Begin(request: nat)
    | Evaluate(evaluation: nat, request: nat, key: Key)
    | Reuse(evaluation: nat, key: Key)
    | StoreResponse(evaluation: nat, jitter: Time)

  const INIT := State(1.0, 0.0, 0.0, None, map[], map[], map[])

  /** DetermineInvalidationTime: the recorded change while its entry is in the cache, else the zero time. */
  function InvalidationTime(s: State): Time {
    if s.changelog.Some? && s.now < s.changelog.value.expires then s.changelog.value.lastModified else 0.0
  }

  /** isCached: a response is served while it is in the cache and newer than the request's invalidation time. */
  predicate Served(s: State, request: nat, key: Key) {
    && request in s.requests && key in s.responses
    && s.now < s.responses[key].expires
    && s.responses[key].cachedAt > s.requests[request].since
  }

  function Min(a: Time, b: Time): Time {
    if a <= b then a else b
  }

  /** A sub-problem of an evaluation is answered from the cache. */
  function Reused(s: State, evaluation: nat, key: Key): State {
    if evaluation !in s.evaluations || !Served(s, s.evaluations[evaluation].request, key) then s
    else
      var e := s.evaluations[evaluation];
      s.(evaluations := s.evaluations[evaluation := e.(asOf := Min(e.asOf, s.responses[key].asOf))])
  }

  /** The response is stamped when it is stored, not when its evaluation began. */
  function Stored(cfg: Config, s: State, evaluation: nat, jitter: Time): State {
    if evaluation !in s.evaluations || s.now - s.evaluations[evaluation].from > cfg.maxEvaluation then s
    else
      var e := s.evaluations[evaluation];
      var drawn := if jitter < 0.0 then 0.0 else Min(jitter, cfg.maxJitter);
      var entry := ResponseEntry(e.asOf, s.now, s.now + cfg.responseTTL + drawn);
      s.(responses := s.responses[e.key := entry], evaluations := s.evaluations - {evaluation})
  }

  function Step(cfg: Config, s: State, a: Action): State {
    match a
    case Wait(ticks) => if ticks > 0.0 then s.(now := s.now + ticks) else s
    case Write => s.(lastChange := s.now)
    case Refresh =>
      // reading an empty changelog is an error and records nothing
      if s.lastChange == 0.0 then s
      else s.(recorded := s.lastChange, changelog := Some(ChangelogEntry(s.lastChange, s.now + cfg.changelogTTL)))
    case Begin(request) =>
      s.(requests := s.requests[request := Request(InvalidationTime(s), s.recorded)])
    case Evaluate(evaluation, request, key) =>
      s.(evaluations := s.evaluations[evaluation := Evaluation(request, key, s.now, s.now)])
    case Reuse(evaluation, key) => Reused(s, evaluation, key)
    case StoreResponse(evaluation, jitter) => Stored(cfg, s, evaluation, jitter)
  }

  function After(cfg: Config, run: seq<Action>): State {
    if run == [] then INIT else Step(cfg, After(cfg, run[..|run| - 1]), run[|run| - 1])
  }

  /** A request is served a response cached no later than a change recorded before the request began. */
  predicate StaleAfter(cfg: Config, run: seq<Action>, request: nat, key: Key) {
    var s := After(cfg, run);
    Served(s, request, key) && s.responses[key].cachedAt <= s.requests[request].known
  }

  /** A request is served a response that rests on a read no later than such a change. */
  predicate OutdatedAfter(cfg: Config, run: seq<Action>, request: nat, key: Key) {
    var s := After(cfg, run);
    Served(s, request, key) && s.responses[key].asOf <= s.requests[request].known
  }

  /** A refresh is remembered for exactly the changelog entry's lifetime, counted from the refresh. */
  lemma RefreshRemembered(cfg: Config, s: State, ticks: Time)
    requires cfg.Valid() && s.lastChange > 0.0 && ticks >= 0.0
    ensures var later := Step(cfg, Step(cfg, s, Refresh), Wait(ticks));
            InvalidationTime(later) == if ticks < cfg.changelogTTL then s.lastChange else 0.0
  {}

  // ---- When responses are cached ------------------------------------------

  ghost predicate Inv(cfg: Config, s: State) {
    && 0.0 <= s.recorded <= s.lastChange <= s.now && s.now > 0.0
    && (s.recorded > 0.0 ==> s.changelog.Some?)
    && (s.changelog.Some? ==>
          && s.changelog.value.lastModified == s.recorded
          && s.changelog.value.expires >= s.recorded + cfg.changelogTTL)
    && (forall k :: k in s.responses ==>
          && s.responses[k].cachedAt <= s.now
          && s.responses[k].expires <= s.responses[k].cachedAt + cfg.MaxLife())
    && (forall r :: r in s.requests ==>
          || s.requests[r].since >= s.requests[r].known
          || s.now >= s.requests[r].known + cfg.changelogTTL)
  }

  lemma StepKeeps(cfg: Config, s: State, a: Action)
    requires cfg.Valid() && Inv(cfg, s)
    ensures Inv(cfg, Step(cfg, s, a))
  {}

  lemma {:induction false} InvHolds(cfg: Config, run: seq<Action>)
    requires cfg.Valid()
    ensures Inv(cfg, After(cfg, run))
  {
    hide Step;
    if run != [] {
      InvHolds(cfg, run[..|run| - 1]);
      StepKeeps(cfg, After(cfg, run[..|run| - 1]), run[|run| - 1]);
    }
  }

  /** Responses that do not outlive the changelog entry are never served stale. */
  lemma NeverStale(cfg: Config, run: seq<Action>, request: nat, key: Key)
    requires cfg.Valid() && cfg.MaxLife() <= cfg.changelogTTL
    ensures !StaleAfter(cfg, run, request, key)
  {
    hide After;
    InvHolds(cfg, run);
  }

  lemma AfterPush(cfg: Config, run: seq<Action>, a: Action)
    ensures After(cfg, run + [a]) == Step(cfg, After(cfg, run), a)
  {
    assert (run + [a])[..|run|] == run;
  }

  /** Evaluation 0 and request 0 are under way when the first change happens. */
  function Started(key: Key): State {
    State(1.0, 1.0, 0.0, None, map[], map[0 := Request(0.0, 0.0)], map[0 := Evaluation(0, key, 1.0, 1.0)])
  }

  lemma Start(cfg: Config, key: Key) returns (run: seq<Action>)
    ensures After(cfg, run) == Started(key)
    ensures run == [Begin(0), Evaluate(0, 0, key), Write]
  {
    AfterPush(cfg, [], Begin(0));
    AfterPush(cfg, [Begin(0)], Evaluate(0, 0, key));
    AfterPush(cfg, [Begin(0), Evaluate(0, 0, key)], Write);
    run := [Begin(0), Evaluate(0, 0, key), Write];
    assert run == [] + [Begin(0)] + [Evaluate(0, 0, key)] + [Write];
  }

  /** Responses that do outlive it are, in some run. */
  lemma StaleRun(cfg: Config) returns (run: seq<Action>)
    requires cfg.Valid() && cfg.MaxLife() > cfg.changelogTTL
    ensures StaleAfter(cfg, run, 1, "k") && Direct(run)
  {
    var r0 := Start(cfg, "k");
    AfterPush(cfg, r0, StoreResponse(0, cfg.maxJitter));
    var r1 := r0 + [StoreResponse(0, cfg.maxJitter)];
    AfterPush(cfg, r1, Refresh);
    var r2 := r1 + [Refresh];
    AfterPush(cfg, r2, Wait(cfg.changelogTTL));
    var r3 := r2 + [Wait(cfg.changelogTTL)];
    AfterPush(cfg, r3, Begin(1));
    run := r3 + [Begin(1)];
  }

  /** So no response is served stale in any run exactly if responses live no longer than the changelog entry. */
  lemma FreshIff(cfg: Config)
    requires cfg.Valid()
    ensures (forall run, request, key :: !StaleAfter(cfg, run, request, key))
            <==> cfg.responseTTL + cfg.maxJitter <= cfg.changelogTTL
  {
    hide StaleAfter;
    if cfg.MaxLife() <= cfg.changelogTTL {
      forall run, request, key ensures !StaleAfter(cfg, run, request, key) {
        NeverStale(cfg, run, request, key);
      }
    } else {
      var run := StaleRun(cfg);
    }
  }

  // ---- When responses were read -------------------------------------------

  /** No sub-problem is answered from the cache. */
  predicate Direct(run: seq<Action>) {
    forall i :: 0 <= i < |run| ==> !run[i].Reuse?
  }

  /** Every response rests on reads made when it was cached. */
  ghost predicate Prompt(s: State) {
    && (forall k :: k in s.responses ==> s.responses[k].asOf == s.responses[k].cachedAt)
    && (forall e :: e in s.evaluations ==> s.evaluations[e].asOf == s.evaluations[e].from <= s.now)
  }

  lemma {:induction false} PromptHolds(cfg: Config, run: seq<Action>)
    requires cfg.Valid() && cfg.maxEvaluation == 0.0 && Direct(run)
    ensures Prompt(After(cfg, run))
  {
    if run != [] {
      var earlier := run[..|run| - 1];
      PromptHolds(cfg, earlier);
      InvHolds(cfg, earlier);
      PromptStep(cfg, After(cfg, earlier), run[|run| - 1]);
    }
  }

  lemma PromptStep(cfg: Config, s: State, a: Action)
    requires cfg.Valid() && cfg.maxEvaluation == 0.0 && Inv(cfg, s) && Prompt(s) && !a.Reuse?
    ensures Prompt(Step(cfg, s, a))
  {}

  /** A change during an evaluation is missed by the response, which is stamped after the change. */
  lemma OutdatedByEvaluation(cfg: Config) returns (run: seq<Action>)
    requires cfg.Valid() && cfg.MaxLife() > 0.0 && cfg.maxEvaluation > 0.0
    ensures OutdatedAfter(cfg, run, 1, "k") && Direct(run)
  {
    var r0 := Start(cfg, "k");
    AfterPush(cfg, r0, Wait(cfg.maxEvaluation));
    var r1 := r0 + [Wait(cfg.maxEvaluation)];
    AfterPush(cfg, r1, StoreResponse(0, cfg.maxJitter));
    var r2 := r1 + [StoreResponse(0, cfg.maxJitter)];
    AfterPush(cfg, r2, Refresh);
    var r3 := r2 + [Refresh];
    AfterPush(cfg, r3, Begin(1));
    run := r3 + [Begin(1)];
  }

  /**
   However fast evaluations are: a response cached before a change is reused, before the next refresh,
   in an evaluation that begins after the change, and what rests on it is stamped anew.
   */
  lemma OutdatedByReuse(cfg: Config) returns (run: seq<Action>)
    requires cfg.Valid() && cfg.MaxLife() > 0.0
    ensures OutdatedAfter(cfg, run, 1, "k")
  {
    hide After;
    var d := cfg.MaxLife() / 2.0;
    var r0 := Start(cfg, "part");
    AfterPush(cfg, r0, StoreResponse(0, cfg.maxJitter));
    var r1 := r0 + [StoreResponse(0, cfg.maxJitter)];
    var s1 := Started("part").(evaluations := map[],
                responses := map["part" := ResponseEntry(1.0, 1.0, 1.0 + cfg.MaxLife())]);
    assert After(cfg, r1) == s1;
    AfterPush(cfg, r1, Wait(d));
    var r2 := r1 + [Wait(d)];
    AfterPush(cfg, r2, Evaluate(1, 0, "k"));
    var r3 := r2 + [Evaluate(1, 0, "k")];
    AfterPush(cfg, r3, Reuse(1, "part"));
    var r4 := r3 + [Reuse(1, "part")];
    var s4 := s1.(now := 1.0 + d, evaluations := map[1 := Evaluation(0, "k", 1.0 + d, 1.0)]);
    assert After(cfg, r4) == s4;
    AfterPush(cfg, r4, StoreResponse(1, cfg.maxJitter));
    var r5 := r4 + [StoreResponse(1, cfg.maxJitter)];
    AfterPush(cfg, r5, Refresh);
    var r6 := r5 + [Refresh];
    AfterPush(cfg, r6, Begin(1));
    run := r6 + [Begin(1)];
  }

  lemma NothingServed(cfg: Config, run: seq<Action>, request: nat, key: Key)
    requires cfg.Valid() && cfg.MaxLife() == 0.0
    ensures !OutdatedAfter(cfg, run, request, key)
  {
    hide After;
    InvHolds(cfg, run);
  }

  /** Where nothing is reused, no response misses a recorded change iff evaluations take no time as well. */
  lemma UpToDateIff(cfg: Config)
    requires cfg.Valid()
    ensures (forall run, request, key :: Direct(run) ==> !OutdatedAfter(cfg, run, request, key))
            <==> || cfg.responseTTL + cfg.maxJitter == 0.0
                 || (cfg.maxEvaluation == 0.0 && cfg.responseTTL + cfg.maxJitter <= cfg.changelogTTL)
  {
    if cfg.MaxLife() == 0.0 {
      forall run, request, key ensures !OutdatedAfter(cfg, run, request, key) {
        NothingServed(cfg, run, request, key);
      }
    } else if cfg.maxEvaluation > 0.0 {
      var run := OutdatedByEvaluation(cfg);
    } else if cfg.MaxLife() > cfg.changelogTTL {
      var run := StaleRun(cfg);
      PromptHolds(cfg, run);
      assert OutdatedAfter(cfg, run, 1, "k");
    } else {
      forall run, request, key | Direct(run) ensures !OutdatedAfter(cfg, run, request, key) {
        PromptHolds(cfg, run);
        NeverStale(cfg, run, request, key);
      }
    }
  }

  /** Where cached responses answer sub-problems, it is so iff nothing is ever served. */
  lemma UpToDateWithReuseIff(cfg: Config)
    requires cfg.Valid()
    ensures (forall run, request, key :: !OutdatedAfter(cfg, run, request, key))
            <==> cfg.responseTTL + cfg.maxJitter == 0.0
  {
    if cfg.MaxLife() > 0.0 {
      var run := OutdatedByReuse(cfg);
    } else {
      forall run, request, key ensures !OutdatedAfter(cfg, run, request, key) {
        NothingServed(cfg, run, request, key);
      }
    }
  }

  // ---- The two resolvers --------------------------------------------------

  /** The v2 resolver stores responses with the lifetime the controller gives the changelog entry. */
  function V2Config(queryTTL: nat, maxEvaluation: Time): Config {
    Config(queryTTL as real, 0.0, queryTTL as real, maxEvaluation)
  }

  /** The largest jitter: a percentage, capped at 100, of the lifetime. */
  function MaxJitter(ttl: nat, percentage: nat): nat {
    var p := if percentage > 100 then 100 else percentage;
    ttl / 100 * p + ttl % 100 * p / 100
  }

  /** The v1 resolver stretches each response's lifetime by a jitter drawn for it. */
  function V1Config(queryTTL: nat, percentage: nat, maxEvaluation: Time): Config {
    Config(queryTTL as real, MaxJitter(queryTTL, percentage) as real, queryTTL as real, maxEvaluation)
  }

  lemma V2IsFresh(queryTTL: nat, maxEvaluation: Time)
    requires maxEvaluation >= 0.0
    ensures forall run, request, key :: !StaleAfter(V2Config(queryTTL, maxEvaluation), run, request, key)
  {
    FreshIff(V2Config(queryTTL, maxEvaluation));
  }

  /** Computing the jitter from quotient and remainder loses nothing against the plain percentage. */
  lemma MaxJitterIsShare(ttl: nat, percentage: nat)
    ensures MaxJitter(ttl, percentage) == ttl * (if percentage > 100 then 100 else percentage) / 100
  {
    var p := if percentage > 100 then 100 else percentage;
    var whole, rest := ttl / 100, ttl % 100;
    assert ttl * p == 100 * (whole * p) + rest * p;
    assert (100 * (whole * p) + rest * p) / 100 == whole * p + rest * p / 100;
  }

  /** Responses of the v1 resolver are always fresh iff the percentage leaves no room for a jitter. */
  lemma V1IsFreshWithoutJitter(queryTTL: nat, percentage: nat, maxEvaluation: Time)
    requires maxEvaluation >= 0.0
    ensures (forall run, request, key :: !StaleAfter(V1Config(queryTTL, percentage, maxEvaluation), run, request, key))
            <==> queryTTL * (if percentage > 100 then 100 else percentage) < 100
  {
    FreshIff(V1Config(queryTTL, percentage, maxEvaluation));
    MaxJitterIsShare(queryTTL, percentage);
  }
}
