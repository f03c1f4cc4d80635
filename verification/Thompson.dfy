/**
 The planner's running belief about a strategy's latency, updated by any number of
 goroutines through load, compute, compare-and-swap, retry.  Floats are reals.
 */
module Thompson {

  datatype Params = Params(mu: real, lambda: real, alpha: real, beta: real)

  function Updated(p: Params, x: real): (q: Params)
    requires p.lambda > 0.0
    ensures q.lambda > 0.0
  {
    var lam := p.lambda + 1.0;
    var diff := x - p.mu;
    Params((p.lambda * p.mu + x) / lam, lam, p.alpha + 0.5, p.beta + (p.lambda * diff * diff) / (2.0 * lam))
  }

  /** The observations applied one after the other. */
  function Folded(prior: Params, xs: seq<real>): (p: Params)
    requires prior.lambda > 0.0
    ensures p.lambda > 0.0
  {
    if xs == [] then prior else Updated(Folded(prior, xs[..|xs| - 1]), xs[|xs| - 1])
  }

  // ---- Closed form --------------------------------------------------------

  datatype Moments = Moments(count: nat, sum: real, squares: real)

  function Plus(m: Moments, x: real): Moments {
    Moments(m.count + 1, m.sum + x, m.squares + x * x)
  }

  function MomentsOf(xs: seq<real>): (m: Moments)
    ensures m.count == |xs|
  {
    if xs == [] then Moments(0, 0.0, 0.0) else Plus(MomentsOf(xs[..|xs| - 1]), xs[|xs| - 1])
  }

  function Mass(p: Params): real { p.lambda * p.mu }

  function Energy(p: Params): real { p.lambda * p.mu * p.mu }

  ghost predicate ClosedForm(prior: Params, m: Moments, p: Params) {
    && p.lambda == prior.lambda + m.count as real
    && p.alpha == prior.alpha + m.count as real / 2.0
    && Mass(p) == Mass(prior) + m.sum
    && p.beta == prior.beta + (m.squares + Energy(prior) - Energy(p)) / 2.0
  }

  /** What one observation adds to the moments and to the scaled sum of squares. */
  lemma UpdatedMoments(q: Params, x: real)
    requires q.lambda > 0.0
    ensures var p := Updated(q, x);
            && p.lambda == q.lambda + 1.0
            && p.alpha == q.alpha + 0.5
            && Mass(p) == Mass(q) + x
            && p.beta == q.beta + (x * x + Energy(q) - Energy(p)) / 2.0
  {}

  lemma {:induction false} FoldedClosedForm(prior: Params, xs: seq<real>)
    requires prior.lambda > 0.0
    ensures ClosedForm(prior, MomentsOf(xs), Folded(prior, xs))
  {
    hide Updated, Mass, Energy;
    if xs != [] {
      var ys, x := xs[..|xs| - 1], xs[|xs| - 1];
      FoldedClosedForm(prior, ys);
      UpdatedMoments(Folded(prior, ys), x);
    }
  }

  /** Count, sum and sum of squares say everything about the observations. */
  lemma ClosedFormDetermines(prior: Params, m: Moments, p: Params, q: Params)
    requires prior.lambda > 0.0 && ClosedForm(prior, m, p) && ClosedForm(prior, m, q)
    ensures p == q
  {}

  lemma PlusSwap(m: Moments, x: real, y: real)
    ensures Plus(Plus(m, x), y) == Plus(Plus(m, y), x)
  {}

  function Without(xs: seq<real>, k: nat): seq<real>
    requires k < |xs|
  {
    xs[..k] + xs[k + 1..]
  }

  lemma {:induction false} MomentsWithout(xs: seq<real>, k: nat)
    requires k < |xs|
    ensures MomentsOf(xs) == Plus(MomentsOf(Without(xs, k)), xs[k])
  {
    hide Plus;
    var last := |xs| - 1;
    if k == last {
      assert Without(xs, k) == xs[..last];
    } else {
      var ys := Without(xs, k);
      assert ys[..|ys| - 1] == Without(xs[..last], k) && ys[|ys| - 1] == xs[last];
      MomentsWithout(xs[..last], k);
      PlusSwap(MomentsOf(Without(xs[..last], k)), xs[k], xs[last]);
    }
  }

  lemma Cancel(a: multiset<real>, b: multiset<real>, common: multiset<real>)
    requires a + common == b + common
    ensures a == b
  {
    assert a == (a + common) - common && b == (b + common) - common;
  }

  lemma {:induction false} MomentsOfMultiset(xs: seq<real>, ys: seq<real>)
    requires multiset(xs) == multiset(ys)
    ensures MomentsOf(xs) == MomentsOf(ys)
    decreases |xs|
  {
    hide Plus;
    assert |xs| == |multiset(xs)| == |multiset(ys)| == |ys|;
    if xs != [] {
      var last := |xs| - 1;
      var x := xs[last];
      assert x in multiset(xs);
      var k :| 0 <= k < |ys| && ys[k] == x;
      assert xs == xs[..last] + [x];
      assert ys == ys[..k] + [x] + ys[k + 1..];
      Cancel(multiset(xs[..last]), multiset(Without(ys, k)), multiset{x});
      MomentsOfMultiset(xs[..last], Without(ys, k));
      MomentsWithout(ys, k);
    }
  }

  /** The belief depends on which observations were made, not on their order. */
  lemma OrderIrrelevant(prior: Params, xs: seq<real>, ys: seq<real>)
    requires prior.lambda > 0.0 && multiset(xs) == multiset(ys)
    ensures Folded(prior, xs) == Folded(prior, ys)
  {
    FoldedClosedForm(prior, xs);
    FoldedClosedForm(prior, ys);
    MomentsOfMultiset(xs, ys);
    ClosedFormDetermines(prior, MomentsOf(xs), Folded(prior, xs), Folded(prior, ys));
  }

  // ---- Concurrent updates -------------------------------------------------

  // Where one call of Update stands; a pointer is an index into the published snapshots.
  datatype Progress = Ready | Loaded(pointer: nat) | Returned

  datatype Call = Call(x: real, at: Progress)

  datatype State = State(published: seq<Params>, calls: seq<Call>)

  datatype Step = Start(x: real) | Load(call: nat) | CompareAndSwap(call: nat)

  predicate Enabled(st: State, step: Step) {
    match step
    case Start(_) => true
    case Load(c) => c < |st.calls| && st.calls[c].at.Ready?
    case CompareAndSwap(c) => c < |st.calls| && st.calls[c].at.Loaded?
  }

  predicate Sane(st: State) {
    && st.published != []
    && (forall p <- st.published :: p.lambda > 0.0)
    && forall c <- st.calls :: c.at.Loaded? ==> c.at.pointer < |st.published|
  }

  /** One atomic action of one call; the swap succeeds only on the pointer that was loaded. */
  function Next(st: State, step: Step): State
    requires Sane(st) && Enabled(st, step)
  {
    var current := |st.published| - 1;
    match step
    case Start(x) => st.(calls := st.calls + [Call(x, Ready)])
    case Load(c) => st.(calls := st.calls[c := st.calls[c].(at := Loaded(current))])
    case CompareAndSwap(c) =>
      var call := st.calls[c];
      if call.at.pointer == current then
        State(st.published + [Updated(st.published[call.at.pointer], call.x)], st.calls[c := call.(at := Returned)])
      else
        st.(calls := st.calls[c := call.(at := Ready)])
  }

  function AppliedBy(call: Call): multiset<real> {
    if call.at.Returned? then multiset{call.x} else multiset{}
  }

  function Applied(calls: seq<Call>): multiset<real> {
    if calls == [] then multiset{} else Applied(calls[..|calls| - 1]) + AppliedBy(calls[|calls| - 1])
  }

  lemma {:induction false} AppliedMoves(calls: seq<Call>, c: nat, at: Progress)
    requires c < |calls| && !calls[c].at.Returned?
    ensures Applied(calls[c := calls[c].(at := at)]) == Applied(calls) + AppliedBy(calls[c].(at := at))
  {
    var last, moved := |calls| - 1, calls[c := calls[c].(at := at)];
    if c == last {
      assert moved[..last] == calls[..last];
    } else {
      hide AppliedBy;
      AppliedMoves(calls[..last], c, at);
      assert moved[..last] == calls[..last][c := calls[c].(at := at)];
      assert moved[last] == calls[last];
    }
  }

  ghost predicate Explains(prior: Params, st: State, log: seq<real>)
    requires prior.lambda > 0.0
  {
    && Sane(st)
    && multiset(log) == Applied(st.calls)
    && st.published[|st.published| - 1] == Folded(prior, log)
  }

  function Begin(prior: Params): State { State([prior], []) }

  lemma FoldedPush(prior: Params, log: seq<real>, x: real)
    requires prior.lambda > 0.0
    ensures Folded(prior, log + [x]) == Updated(Folded(prior, log), x)
  {}

  lemma SwapExplained(prior: Params, st: State, log: seq<real>, c: nat)
    requires prior.lambda > 0.0 && Explains(prior, st, log) && Enabled(st, CompareAndSwap(c))
    requires st.calls[c].at.pointer == |st.published| - 1
    ensures Explains(prior, Next(st, CompareAndSwap(c)), log + [st.calls[c].x])
  {
    hide Updated, Applied, Folded;
    AppliedMoves(st.calls, c, Returned);
    FoldedPush(prior, log, st.calls[c].x);
  }

  lemma MoveExplained(prior: Params, st: State, log: seq<real>, c: nat, at: Progress)
    requires prior.lambda > 0.0 && Explains(prior, st, log)
    requires c < |st.calls| && !st.calls[c].at.Returned? && !at.Returned?
    requires at.Loaded? ==> at.pointer < |st.published|
    ensures Explains(prior, st.(calls := st.calls[c := st.calls[c].(at := at)]), log)
  {
    hide Folded, Applied;
    AppliedMoves(st.calls, c, at);
  }

  lemma StartExplained(prior: Params, st: State, log: seq<real>, x: real)
    requires prior.lambda > 0.0 && Explains(prior, st, log)
    ensures Explains(prior, Next(st, Start(x)), log)
  {}

  lemma StepExplained(prior: Params, st: State, log: seq<real>, step: Step) returns (log': seq<real>)
    requires prior.lambda > 0.0 && Explains(prior, st, log) && Enabled(st, step)
    ensures Explains(prior, Next(st, step), log')
  {
    hide Folded, Applied, Updated;
    log' := log;
    match step
    case Start(x) =>
      StartExplained(prior, st, log, x);
    case Load(c) =>
      MoveExplained(prior, st, log, c, Loaded(|st.published| - 1));
    case CompareAndSwap(c) =>
      if st.calls[c].at.pointer == |st.published| - 1 {
        SwapExplained(prior, st, log, c);
        log' := log + [st.calls[c].x];
      } else {
        MoveExplained(prior, st, log, c, Ready);
      }
  }

  ghost predicate Reaches(from: State, steps: seq<Step>, to: State)
    decreases |steps|
  {
    if steps == [] then from == to
    else
      && Sane(from)
      && Enabled(from, steps[0])
      && Reaches(Next(from, steps[0]), steps[1..], to)
  }

  lemma {:induction false} RunExplained(prior: Params, st: State, log: seq<real>, steps: seq<Step>, end: State)
    returns (log': seq<real>)
    requires prior.lambda > 0.0 && Explains(prior, st, log) && Reaches(st, steps, end)
    ensures Explains(prior, end, log')
    decreases |steps|
  {
    log' := log;
    if steps != [] {
      log' := StepExplained(prior, st, log, steps[0]);
      log' := RunExplained(prior, Next(st, steps[0]), log', steps[1..], end);
    }
  }

  /**
   At every moment of every interleaving, the belief is the one a single goroutine would have
   reached from the observations of the calls that have returned, each applied exactly once.
   */
  lemma NoObservationLost(prior: Params, steps: seq<Step>, end: State, xs: seq<real>)
    requires prior.lambda > 0.0 && Reaches(Begin(prior), steps, end)
    requires multiset(xs) == Applied(end.calls)
    ensures end.published != []
    ensures end.published[|end.published| - 1] == Folded(prior, xs)
    ensures ClosedForm(prior, MomentsOf(xs), end.published[|end.published| - 1])
  {
    var log := RunExplained(prior, Begin(prior), [], steps, end);
    OrderIrrelevant(prior, log, xs);
    FoldedClosedForm(prior, xs);
  }

  // ---- Progress -----------------------------------------------------------

  predicate IsOf(step: Step, c: nat) {
    step == Load(c) || step == CompareAndSwap(c)
  }

  /**
   From any state, a call still under way returns by its own steps: its swap, which fails if the snapshot
   has changed since the load, and then a fresh load and a second swap, which succeeds.
   */
  lemma CanReturn(st: State, c: nat) returns (steps: seq<Step>, end: State)
    requires Sane(st) && c < |st.calls| && !st.calls[c].at.Returned?
    ensures |steps| <= 3 && forall s <- steps :: IsOf(s, c)
    ensures Reaches(st, steps, end) && end.calls == st.calls[c := st.calls[c].(at := Returned)]
    ensures end.published == st.published + [Updated(st.published[|st.published| - 1], st.calls[c].x)]
  {
    hide Updated;
    if st.calls[c].at.Ready? {
      steps, end := LoadAndSwap(st, c);
    } else if st.calls[c].at.pointer == |st.published| - 1 {
      steps, end := [CompareAndSwap(c)], Next(st, CompareAndSwap(c));
      assert steps[1..] == [];
    } else {
      var failed := Next(st, CompareAndSwap(c));
      assert failed.calls[c] == st.calls[c].(at := Ready);
      steps, end := LoadAndSwap(failed, c);
      assert end.calls == st.calls[c := st.calls[c].(at := Returned)];
      steps := [CompareAndSwap(c)] + steps;
      assert steps[1..] == [Load(c), CompareAndSwap(c)];
    }
  }

  lemma LoadAndSwap(st: State, c: nat) returns (steps: seq<Step>, end: State)
    requires Sane(st) && c < |st.calls| && st.calls[c].at.Ready?
    ensures steps == [Load(c), CompareAndSwap(c)] && Reaches(st, steps, end)
    ensures end.calls == st.calls[c := st.calls[c].(at := Returned)]
    ensures end.published == st.published + [Updated(st.published[|st.published| - 1], st.calls[c].x)]
  {
    hide Updated;
    var loaded := Next(st, Load(c));
    end := Next(loaded, CompareAndSwap(c));
    steps := [Load(c), CompareAndSwap(c)];
    assert steps[1..] == [CompareAndSwap(c)] && [CompareAndSwap(c)][1..] == [];
    assert Reaches(loaded, [CompareAndSwap(c)], end);
    assert end.calls == st.calls[c := st.calls[c].(at := Returned)];
  }

  /** Each step publishes as many snapshots as calls return by it. */
  lemma PublishesPerReturn(st: State, step: Step)
    requires Sane(st) && Enabled(st, step)
    ensures var next := Next(st, step);
            |next.published| - |st.published| == |Applied(next.calls)| - |Applied(st.calls)|
  {
    hide Applied, Updated;
    match step
    case Start(x) => AppliedPush(st.calls, Call(x, Ready));
    case Load(c) => AppliedMoves(st.calls, c, Loaded(|st.published| - 1));
    case CompareAndSwap(c) =>
      if st.calls[c].at.pointer == |st.published| - 1 {
        AppliedMoves(st.calls, c, Returned);
      } else {
        AppliedMoves(st.calls, c, Ready);
      }
  }

  lemma SaneStep(st: State, step: Step)
    requires Sane(st) && Enabled(st, step)
    ensures Sane(Next(st, step))
  {}

  /** So a swap fails, the snapshot having changed since the load, only if another call has returned meanwhile. */
  lemma {:induction false} PublishedPerReturn(st: State, steps: seq<Step>, end: State)
    requires Sane(st) && Reaches(st, steps, end)
    ensures |end.published| - |st.published| == |Applied(end.calls)| - |Applied(st.calls)|
    decreases |steps|
  {
    hide Applied, Next, Sane;
    if steps != [] {
      SaneStep(st, steps[0]);
      PublishesPerReturn(st, steps[0]);
      PublishedPerReturn(Next(st, steps[0]), steps[1..], end);
    }
  }

  lemma AppliedPush(calls: seq<Call>, call: Call)
    ensures Applied(calls + [call]) == Applied(calls) + AppliedBy(call)
  {
    assert (calls + [call])[..|calls|] == calls;
  }
}
