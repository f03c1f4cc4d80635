/**
 The v2 recursive strategy: what its answers mean, whatever the schedule of its workers.  A worker's
 iterator drops rows whose target was visited before it looks at their condition.
 */
module RecursiveSearch {
  import opened Options
  import opened Reachability
  import opened WorkerPool
  import LaunchBlocking

  // ---- Soundness ----------------------------------------------------------

  /** A response was read, lies in the channel or waits to be sent. */
  ghost predicate Matched(s: State) {
    s.allowed || s.buffered > 0 || exists w :: w in s.workers && w.phase == Sending
  }

  ghost predicate Match(q: Query) {
    exists x :: x in q.fromUser && Reachable(q.g, q.first, x)
  }

  ghost predicate Grounded(q: Query, w: Worker) {
    && (forall f <- w.frames :: Reachable(q.g, q.first, f.id))
    && (w.phase.Found? ==> Reachable(q.g, q.first, w.phase.id))
  }

  /** Workers only expand reachable ids, and a response has a witness. */
  ghost predicate Sound(q: Query, s: State) {
    && (forall w <- s.workers :: Grounded(q, w))
    && (Matched(s) ==> Match(q))
  }

  lemma NewGrounded(q: Query, id: Id)
    requires Reachable(q.g, q.first, id)
    ensures Grounded(q, NewWorker(q, id))
  {}

  lemma LeftGrounded(q: Query, w: Worker)
    requires Grounded(q, w) && w.frames != []
    ensures Grounded(q, Worker(w.frames[1..], Scanning))
  {
    assert forall f <- w.frames[1..] :: f in w.frames;
  }

  lemma ScanGrounded(q: Query, visited: set<Id>, w: Worker)
    requires Grounded(q, w) && Tails(q, w) && w.frames != [] && w.frames[0].rest != []
    ensures Grounded(q, Scanned(q, visited, w))
    ensures Scanned(q, visited, w).phase == Sending ==> Match(q)
  {
    hide Reachable;
    var f, row := w.frames[0], w.frames[0].rest[0];
    assert f in w.frames;
    if row.passes {
      assert row == Row(row.to, true) && q.g.Leads(f.id, row.to);
      ReachableStep(q.g, q.first, f.id, row.to);
    }
  }

  /** A step that adds no ungrounded worker and no response without a witness. */
  lemma Grows(q: Query, s: State, t: State, added: Worker)
    requires Sound(q, s) && Grounded(q, added) && (added.phase == Sending ==> Match(q))
    requires forall w <- t.workers :: w in s.workers || w == added
    requires (t.allowed || t.buffered > 0) ==> Matched(s)
    ensures Sound(q, t)
  {
    hide Grounded, Match;
  }

  lemma LaunchSound(q: Query, s: State)
    requires Shape(q, s) && Sound(q, s) && Enabled(q, s, Launch)
    ensures Sound(q, Step(q, s, Launch))
  {
    hide Sound, Grounded;
    ReachableStart(q.g, q.first, s.marked.value);
    NewGrounded(q, s.marked.value);
    Grows(q, s, Step(q, s, Launch), NewWorker(q, s.marked.value));
  }

  lemma ScanSound(q: Query, s: State, k: nat)
    requires Shape(q, s) && Sound(q, s) && Enabled(q, s, Scan(k))
    ensures Sound(q, Step(q, s, Scan(k)))
  {
    hide Scanned, Grounded, Tails, Match;
    assert s.workers[k] in s.workers;
    ScanGrounded(q, s.visited, s.workers[k]);
    Grows(q, s, Step(q, s, Scan(k)), Scanned(q, s.visited, s.workers[k]));
  }

  lemma DescendSound(q: Query, s: State, k: nat)
    requires Sound(q, s) && Enabled(q, s, Descend(k))
    ensures Sound(q, Step(q, s, Descend(k)))
  {
    hide Reachable, Match;
    var w := s.workers[k];
    assert w in s.workers && Grounded(q, w);
    var child := NewWorker(q, w.phase.id);
    NewGrounded(q, w.phase.id);
    var resumed := s.(workers := s.workers[k := w.(phase := Scanning)]);
    if |s.workers| < q.limit {
      Grows(q, s, resumed, w.(phase := Scanning));
      Grows(q, resumed, Step(q, s, Descend(k)), child);
    } else {
      Grows(q, s, Step(q, s, Descend(k)), Worker(child.frames + w.frames, Scanning));
    }
  }

  lemma LeaveSound(q: Query, s: State, k: nat, t: State)
    requires Sound(q, s) && Busy(s, k) && t.workers == Left(s.workers, k)
    requires (t.allowed || t.buffered > 0) ==> Matched(s)
    ensures Sound(q, t)
  {
    hide Left, Grounded, Match;
    assert s.workers[k] in s.workers;
    LeftMembers(s.workers, k);
    LeftGrounded(q, s.workers[k]);
    Grows(q, s, t, Worker(s.workers[k].frames[1..], Scanning));
  }

  lemma StepSound(q: Query, s: State, c: Choice)
    requires Shape(q, s) && Sound(q, s) && Enabled(q, s, c)
    ensures Sound(q, Step(q, s, c))
  {
    hide Grounded, Match, Left, Scanned, Shape;
    match c
    case Mark(_) =>
    case Launch => LaunchSound(q, s);
    case Scan(k) => ScanSound(q, s, k);
    case Descend(k) => DescendSound(q, s, k);
    case Return(k) => LeaveSound(q, s, k, Step(q, s, c));
    case Send(k) =>
      assert s.workers[k] in s.workers;
      LeaveSound(q, s, k, Step(q, s, c));
    case Receive =>
  }

  // ---- Completeness -------------------------------------------------------

  /** The first row of `a` that leads to `x` fails its condition. */
  predicate FailsFirst(g: Graph, a: Id, x: Id) {
    exists i :: 0 <= i < |g.RowsOf(a)| && FailsAt(g.RowsOf(a), i, x)
  }

  predicate FailsAt(rows: seq<Row>, i: nat, x: Id)
    requires i < |rows|
  {
    rows[i] == Row(x, false) && forall j :: 0 <= j < i ==> rows[j].to != x
  }

  /** No other id has a passing row to `x`. */
  ghost predicate OnlySelf(g: Graph, x: Id) {
    forall b :: b != x ==> !g.Leads(b, x)
  }

  /** No id's first row to another id fails while some row to that id passes. */
  ghost predicate NothingHidden(g: Graph) {
    forall a, x :: a != x && FailsFirst(g, a, x) ==> OnlySelf(g, x)
  }

  /** Unconditioned edges hide nothing, nor do conditions that depend only on the target. */
  lemma UniformHidesNothing(g: Graph)
    requires forall a, b, x :: !(Row(x, false) in g.RowsOf(a) && Row(x, true) in g.RowsOf(b))
    ensures NothingHidden(g)
  {}

  /** The ids a worker is expanding or about to expand. */
  function IdsOf(w: Worker): set<Id> {
    FrameIds(w.frames) + if w.phase.Found? then {w.phase.id} else {}
  }

  function FrameIds(frames: seq<Frame>): set<Id> {
    set f | f in frames :: f.id
  }

  lemma FrameIdsCons(f: Frame, frames: seq<Frame>)
    ensures FrameIds([f] + frames) == {f.id} + FrameIds(frames)
  {
    assert f in [f] + frames;
    assert forall e :: e in [f] + frames <==> e == f || e in frames;
  }

  ghost predicate HeldBy(workers: seq<Worker>, x: Id) {
    exists w :: w in workers && x in IdsOf(w)
  }

  ghost predicate Handled(s: State, x: Id) {
    s.marked == Some(x) || x in s.done || HeldBy(s.workers, x)
  }

  /** The targets of the rows a level has read. */
  predicate Passed(g: Graph, f: Frame, visited: set<Id>) {
    var rows := g.RowsOf(f.id);
    forall j :: 0 <= j < |rows| - |f.rest| ==> rows[j].to in visited
  }

  predicate AllPassed(g: Graph, w: Worker, visited: set<Id>) {
    forall f <- w.frames :: Passed(g, f, visited)
  }

  /** Nothing reachable is forgotten as long as no response is under way. */
  ghost predicate Complete(q: Query, s: State) {
    && (forall x <- q.first :: x in s.pending || Handled(s, x))
    && (forall x <- s.visited :: x in s.pending || Handled(s, x) || OnlySelf(q.g, x))
    && s.done !! q.fromUser
    && (forall w <- s.workers :: IdsOf(w) !! q.fromUser && AllPassed(q.g, w, s.visited))
    && (forall x <- s.done :: Passed(q.g, Frame(x, []), s.visited))
  }

  lemma PassedGrows(g: Graph, visited: set<Id>, visited': set<Id>)
    requires visited <= visited'
    ensures forall w :: AllPassed(g, w, visited) ==> AllPassed(g, w, visited')
    ensures forall f :: Passed(g, f, visited) ==> Passed(g, f, visited')
  {}

  lemma MarkComplete(q: Query, s: State, id: Id)
    requires Shape(q, s) && Complete(q, s) && Enabled(q, s, Mark(id))
    ensures Complete(q, Step(q, s, Mark(id)))
  {
    hide HeldBy, OnlySelf, AllPassed, Passed, IdsOf;
    PassedGrows(q.g, s.visited, s.visited + {id});
  }

  lemma HeldByPush(workers: seq<Worker>, w: Worker)
    ensures forall x :: HeldBy(workers + [w], x) <==> HeldBy(workers, x) || x in IdsOf(w)
  {
    hide IdsOf;
    assert w in workers + [w];
    assert forall v :: v in workers + [w] <==> v in workers || v == w;
  }

  lemma HeldByUpdate(workers: seq<Worker>, k: nat, w: Worker, gone: set<Id>)
    requires k < |workers| && IdsOf(workers[k]) <= IdsOf(w) + gone
    ensures forall x :: HeldBy(workers, x) ==> HeldBy(workers[k := w], x) || x in gone
    ensures forall x <- IdsOf(w) :: HeldBy(workers[k := w], x)
  {
    hide IdsOf;
    var workers' := workers[k := w];
    assert workers'[k] == w;
    assert w in workers';
    forall x | HeldBy(workers, x) ensures HeldBy(workers', x) || x in gone {
      var v :| v in workers && x in IdsOf(v);
      var j :| 0 <= j < |workers| && workers[j] == v;
      assert j != k ==> workers'[j] == v;
    }
  }

  lemma LaunchComplete(q: Query, s: State)
    requires Shape(q, s) && q.first !! q.fromUser && Complete(q, s) && Enabled(q, s, Launch)
    ensures Complete(q, Step(q, s, Launch))
  {
    hide HeldBy, OnlySelf;
    var w := NewWorker(q, s.marked.value);
    HeldByPush(s.workers, w);
    assert w.frames[0] in w.frames;
    assert IdsOf(w) == {s.marked.value};
  }

  /** A failing row to an id not yet visited is its owner's first row to that id. */
  lemma FirstFailure(g: Graph, f: Frame, visited: set<Id>)
    requires NothingHidden(g) && IsTail(f.rest, g.RowsOf(f.id)) && Passed(g, f, visited)
    requires f.rest != [] && f.rest[0].to !in visited && !f.rest[0].passes && f.rest[0].to != f.id
    ensures OnlySelf(g, f.rest[0].to)
  {
    var rows := g.RowsOf(f.id);
    assert FailsAt(rows, |rows| - |f.rest|, f.rest[0].to);
    assert FailsFirst(g, f.id, f.rest[0].to);
  }

  lemma ScannedPassed(q: Query, visited: set<Id>, w: Worker)
    requires Tails(q, w) && AllPassed(q.g, w, visited) && w.frames != [] && w.frames[0].rest != []
    ensures AllPassed(q.g, Scanned(q, visited, w), visited + {w.frames[0].rest[0].to})
  {
    var f, w' := w.frames[0], Scanned(q, visited, w);
    assert f in w.frames;
    var rows := q.g.RowsOf(f.id);
    assert rows[|rows| - |f.rest|] == f.rest[0];
    forall f' | f' in w'.frames ensures Passed(q.g, f', visited + {f.rest[0].to}) {
      if f' != w'.frames[0] {
        assert f' in w.frames;
      }
    }
  }

  lemma ScannedIds(q: Query, visited: set<Id>, w: Worker)
    requires w.frames != [] && w.frames[0].rest != [] && w.phase == Scanning
    ensures IdsOf(Scanned(q, visited, w))
            == IdsOf(w) + if Scanned(q, visited, w).phase.Found? then {w.frames[0].rest[0].to} else {}
  {
    hide FrameIds;
    var f := w.frames[0];
    assert w.frames == [f] + w.frames[1..];
    FrameIdsCons(f, w.frames[1..]);
    FrameIdsCons(Frame(f.id, f.rest[1..]), w.frames[1..]);
  }

  lemma ScanComplete(q: Query, s: State, k: nat)
    requires NothingHidden(q.g) && Shape(q, s) && Complete(q, s) && Enabled(q, s, Scan(k))
    requires Scanned(q, s.visited, s.workers[k]).phase != Sending
    ensures Complete(q, Step(q, s, Scan(k)))
  {
    hide HeldBy, OnlySelf, NothingHidden, Passed, AllPassed, IdsOf, Tails;
    var w := s.workers[k];
    assert w in s.workers;
    var row, w' := w.frames[0].rest[0], Scanned(q, s.visited, w);
    ScannedIds(q, s.visited, w);
    HeldByUpdate(s.workers, k, w', {});
    ScannedPassed(q, s.visited, w);
    PassedGrows(q.g, s.visited, s.visited + {row.to});
    TopFacts(q, w, s.visited);
    if row.to !in s.visited && !row.passes && row.to != w.frames[0].id {
      FirstFailure(q.g, w.frames[0], s.visited);
    }
  }

  lemma TopFacts(q: Query, w: Worker, visited: set<Id>)
    requires w.frames != [] && Tails(q, w) && AllPassed(q.g, w, visited)
    ensures IsTail(w.frames[0].rest, q.g.RowsOf(w.frames[0].id)) && Passed(q.g, w.frames[0], visited)
    ensures w.frames[0].id in IdsOf(w)
  {
    assert w.frames[0] in w.frames;
  }

  lemma DescendComplete(q: Query, s: State, k: nat)
    requires Shape(q, s) && Complete(q, s) && Enabled(q, s, Descend(k))
    ensures Complete(q, Step(q, s, Descend(k)))
  {
    hide HeldBy, OnlySelf;
    var w := s.workers[k];
    assert w in s.workers;
    var id, child := w.phase.id, NewWorker(q, w.phase.id);
    assert child.frames[0] in child.frames && IdsOf(child) == {id};
    if |s.workers| < q.limit {
      var resumed := w.(phase := Scanning);
      assert IdsOf(w) == IdsOf(resumed) + {id};
      HeldByUpdate(s.workers, k, resumed, {id});
      HeldByPush(s.workers[k := resumed], child);
    } else {
      var deeper := Worker(child.frames + w.frames, Scanning);
      assert deeper.frames[0] in deeper.frames;
      assert IdsOf(deeper) == IdsOf(w);
      HeldByUpdate(s.workers, k, deeper, {});
    }
  }

  lemma LeftHeld(workers: seq<Worker>, k: nat)
    requires k < |workers| && workers[k].frames != [] && workers[k].phase == Scanning
    ensures forall x :: HeldBy(workers, x) ==> HeldBy(Left(workers, k), x) || x == workers[k].frames[0].id
  {
    var w := workers[k];
    assert w.frames == [w.frames[0]] + w.frames[1..];
    if |w.frames| == 1 {
      forall x | HeldBy(workers, x) ensures HeldBy(Left(workers, k), x) || x == w.frames[0].id {
        var v :| v in workers && x in IdsOf(v);
        assert v != w ==> v in Left(workers, k) by {
          var j :| 0 <= j < |workers| && workers[j] == v;
          assert j < k ==> workers[..k][j] == v;
          assert j > k ==> workers[k + 1..][j - k - 1] == v;
        }
      }
    } else {
      HeldByUpdate(workers, k, Worker(w.frames[1..], Scanning), {w.frames[0].id});
    }
  }

  lemma LeftPassed(q: Query, w: Worker, visited: set<Id>)
    requires w.frames != [] && AllPassed(q.g, w, visited) && IdsOf(w) !! q.fromUser
    ensures var v := Worker(w.frames[1..], Scanning);
            AllPassed(q.g, v, visited) && IdsOf(v) !! q.fromUser
  {
    assert forall f <- w.frames[1..] :: f in w.frames;
  }

  lemma ReturnComplete(q: Query, s: State, k: nat)
    requires Shape(q, s) && Complete(q, s) && Enabled(q, s, Return(k))
    ensures Complete(q, Step(q, s, Return(k)))
  {
    hide HeldBy, OnlySelf, Passed, AllPassed, IdsOf, Tails, Left;
    var w := s.workers[k];
    assert w in s.workers;
    LeftHeld(s.workers, k);
    LeftMembers(s.workers, k);
    LeftPassed(q, w, s.visited);
    TopFacts(q, w, s.visited);
    assert w.frames[0] == Frame(w.frames[0].id, []);
  }

  lemma StepComplete(q: Query, s: State, c: Choice)
    requires NothingHidden(q.g) && q.first !! q.fromUser
    requires Shape(q, s) && (Matched(s) || Complete(q, s)) && Enabled(q, s, c)
    ensures var t := Step(q, s, c); Matched(t) || Complete(q, t)
  {
    hide Complete, NothingHidden, Shape;
    if Matched(s) {
      StaysMatched(q, s, c);
    } else {
      match c
      case Mark(id) => MarkComplete(q, s, id);
      case Launch => LaunchComplete(q, s);
      case Scan(k) =>
        if Scanned(q, s.visited, s.workers[k]).phase == Sending {
          var t := Step(q, s, c);
          assert t.workers[k] in t.workers;
        } else {
          ScanComplete(q, s, k);
        }
      case Descend(k) => DescendComplete(q, s, k);
      case Return(k) => ReturnComplete(q, s, k);
      case Send(_) =>
      case Receive =>
    }
  }

  lemma StaysMatched(q: Query, s: State, c: Choice)
    requires Matched(s) && Enabled(q, s, c)
    ensures Matched(Step(q, s, c))
  {
    var t := Step(q, s, c);
    if s.buffered == 0 {
      var w :| w in s.workers && w.phase == Sending;
      var j :| 0 <= j < |s.workers| && s.workers[j] == w;
      if c.Scan? || c.Descend? {
        assert t.workers[j] == w;
      } else if c.Return? {
        if |s.workers[c.k].frames| > 1 {
          assert t.workers[j] == w;
        } else {
          assert t.workers[if j < c.k then j else j - 1] == w;
        }
      }
    }
  }

  // ---- Whole runs ---------------------------------------------------------

  ghost predicate Good(q: Query, s: State) {
    && Shape(q, s) && Sound(q, s)
    && (NothingHidden(q.g) && q.first !! q.fromUser ==> Matched(s) || Complete(q, s))
  }

  lemma StartGood(q: Query)
    ensures Good(q, Start(q))
  {}

  lemma StepGood(q: Query, s: State, c: Choice)
    requires Good(q, s) && Enabled(q, s, c)
    ensures Good(q, Step(q, s, c))
  {
    hide Shape, Sound, Complete, NothingHidden, Matched;
    StepShape(q, s, c);
    StepSound(q, s, c);
    if NothingHidden(q.g) && q.first !! q.fromUser {
      StepComplete(q, s, c);
    }
  }

  lemma {:induction false} RunGood(q: Query, s: State, run: seq<Choice>, t: State)
    requires Good(q, s) && RunsTo(q, s, run, t)
    ensures Good(q, t)
    decreases |run|
  {
    hide Good, Step;
    if run != [] {
      StepGood(q, s, run[0]);
      RunGood(q, Step(q, s, run[0]), run[1..], t);
    }
  }

  /** When the channel is closed without a response, no match was reachable. */
  lemma ClosedMeansNone(q: Query, s: State)
    requires Complete(q, s) && Closed(s) && q.first !! q.fromUser
    ensures !Match(q)
  {
    assert forall x :: !HeldBy(s.workers, x);
    forall a, b | a in s.done && q.g.Leads(a, b) ensures b in s.done {
      assert Passed(q.g, Frame(a, []), s.visited);
      var j :| 0 <= j < |q.g.RowsOf(a)| && q.g.RowsOf(a)[j] == Row(b, true);
      assert b in s.visited;
    }
    forall x | x in q.fromUser && Reachable(q.g, q.first, x) ensures false {
      ReachableInside(q.g, q.first, s.done, x);
    }
  }

  /** The answers of every run, whatever the schedule and the limit. */
  lemma Answers(q: Query, run: seq<Choice>, t: State)
    requires RunsTo(q, Start(q), run, t)
    ensures t.allowed ==> Match(q)
    ensures Closed(t) && NothingHidden(q.g) && q.first !! q.fromUser ==> !Match(q)
  {
    hide NothingHidden, RunsTo, Shape, Complete, Match;
    StartGood(q);
    RunGood(q, Start(q), run, t);
    if Closed(t) && NothingHidden(q.g) && q.first !! q.fromUser {
      ClosedMeansNone(q, t);
    }
  }

  datatype Verdict = Allowed | Denied | NoAnswer

  /** The search: any step that is possible may come next. */
  method RecursiveMatch(q: Query) returns (verdict: Verdict, ghost run: seq<Choice>, ghost end: State)
    requires q.g.Valid() && q.first !! q.fromUser
    ensures RunsTo(q, Start(q), run, end) && Halted(q, end)
    ensures verdict == if end.allowed then Allowed else if Closed(end) then Denied else NoAnswer
    ensures verdict == Allowed ==> Match(q)
    ensures verdict == Denied && NothingHidden(q.g) ==> !Match(q)
    ensures verdict == NoAnswer ==> LaunchBlocking.CanBlock(q.first, q.fromUser, q.limit)
  {
    hide NothingHidden, Shape, Match;
    var s := Start(q);
    run := [];
    StartGood(q);
    while true
      invariant Good(q, s) && RunsTo(q, Start(q), run, s)
      decreases s.pending, Remaining(q, s).waiting, Remaining(q, s).unvisited, Remaining(q, s).finding,
                Remaining(q, s).work, Remaining(q, s).open
    {
      var c := Pick(q, s);
      if c.None? {
        Answers(q, run, s);
        end := s;
        if s.allowed {
          verdict := Allowed;
        } else if Closed(s) {
          verdict := Denied;
        } else {
          LaunchBlocking.BlockedNeeds(q, run, s);
          verdict := NoAnswer;
        }
        return;
      }
      StepGood(q, s, c.value);
      StepProgress(q, s, c.value);
      RunsOneMore(q, Start(q), run, s, c.value);
      run, s := run + [c.value], Step(q, s, c.value);
    }
  }

  lemma RunsOneMore(q: Query, s: State, run: seq<Choice>, t: State, c: Choice)
    requires RunsTo(q, s, run, t) && Enabled(q, t, c)
    ensures RunsTo(q, s, run + [c], Step(q, t, c))
  {
    assert [c][1..] == [];
    assert RunsTo(q, t, [c], Step(q, t, c));
    RunsThen(q, s, run, t, [c], Step(q, t, c));
  }

  /** Some possible step, any one of them. */
  method Pick(q: Query, s: State) returns (c: Option<Choice>)
    ensures c.Some? ==> Enabled(q, s, c.value)
    ensures c.None? ==> Halted(q, s)
  {
    var any: Choice := *;
    if Enabled(q, s, any) {
      return Some(any);
    }
    if id :| id in s.pending && Enabled(q, s, Mark(id)) {
      return Some(Mark(id));
    }
    for k := 0 to |s.workers|
      invariant forall j :: 0 <= j < k ==>
        !Enabled(q, s, Scan(j)) && !Enabled(q, s, Descend(j)) && !Enabled(q, s, Return(j)) && !Enabled(q, s, Send(j))
    {
      if Enabled(q, s, Scan(k)) { return Some(Scan(k)); }
      if Enabled(q, s, Descend(k)) { return Some(Descend(k)); }
      if Enabled(q, s, Return(k)) { return Some(Return(k)); }
      if Enabled(q, s, Send(k)) { return Some(Send(k)); }
    }
    c := if Enabled(q, s, Launch) then Some(Launch) else if Enabled(q, s, Receive) then Some(Receive) else None;
  }

  function AllIds(batches: seq<seq<Id>>): set<Id> {
    set i, x | 0 <= i < |batches| && x in batches[i] :: x
  }

  /**
   Loads the user's ids and the first level, taking messages from either side, and stops
   early at a match or at a side that turns out empty.
   */
  method Bootstrap(left: seq<seq<Id>>, right: seq<Id>)
    returns (decided: Option<bool>, fromUser: set<Id>, first: set<Id>)
    ensures decided.None? ==> fromUser == AllIds(left) && first == IdSet(right) && fromUser !! first
    ensures decided == Some(true) ==> exists x :: x in AllIds(left) && x in IdSet(right)
    ensures decided == Some(false) ==> AllIds(left) == {} || IdSet(right) == {}
  {
    fromUser, first := {}, {};
    var i, j, leftOpen, rightOpen := 0, 0, true, true;
    while leftOpen || rightOpen
      invariant 0 <= i <= |left| && 0 <= j <= |right|
      invariant (leftOpen || i == |left|) && (rightOpen || j == |right|)
      invariant fromUser == AllIds(left[..i]) && first == IdSet(right[..j]) && fromUser !! first
      decreases leftOpen, rightOpen, |left| - i, |right| - j
    {
      var takeLeft: bool := *;
      if leftOpen && (takeLeft || !rightOpen) {
        if i == |left| {
          leftOpen := false;
          assert left[..i] == left;
          if fromUser == {} {
            return Some(false), fromUser, first;
          }
          continue;
        }
        MoreIds(left, i);
        for k := 0 to |left[i]|
          invariant fromUser == AllIds(left[..i]) + IdSet(left[i][..k]) && fromUser !! first
        {
          var t := left[i][k];
          if t in first {
            assert t in AllIds(left) && t in IdSet(right);
            return Some(true), fromUser, first;
          }
          assert left[i][..k + 1] == left[i][..k] + [t];
          fromUser := fromUser + {t};
        }
        assert left[i][..|left[i]|] == left[i];
        i := i + 1;
      } else {
        if j == |right| {
          rightOpen := false;
          assert right[..j] == right;
          if first == {} {
            return Some(false), fromUser, first;
          }
          continue;
        }
        if right[j] in fromUser {
          SomeIds(left, i);
          assert right[j] in AllIds(left) && right[j] in IdSet(right);
          return Some(true), fromUser, first;
        }
        assert right[..j + 1] == right[..j] + [right[j]];
        first := first + {right[j]};
        j := j + 1;
      }
    }
    assert left[..|left|] == left && right[..|right|] == right;
    decided := None;
  }

  lemma MoreIds(left: seq<seq<Id>>, i: nat)
    requires i < |left|
    ensures AllIds(left[..i + 1]) == AllIds(left[..i]) + IdSet(left[i])
  {}

  lemma SomeIds(left: seq<seq<Id>>, i: nat)
    requires i <= |left|
    ensures AllIds(left[..i]) <= AllIds(left)
  {}

  /**
   Recursive.execute without read errors: under every schedule, "allowed" has a passing
   path from the first level to one of the user's ids; and where no failing row hides a
   passing one, in particular where no row is conditioned, "denied" excludes one.
   */
  method Execute(g: Graph, left: seq<seq<Id>>, right: seq<Id>, limit: nat) returns (verdict: Verdict)
    requires g.Valid()
    ensures var q := Query(g, IdSet(right), AllIds(left), limit);
            && (verdict == Allowed ==> Match(q))
            && (verdict == Denied && NothingHidden(g) ==> !Match(q))
            && (verdict == NoAnswer ==>
                  && LaunchBlocking.CanBlock(q.first, q.fromUser, q.limit)
                  && exists run, end :: RunsTo(q, Start(q), run, end) && Blocked(q, end))
  {
    hide NothingHidden, LaunchBlocking.CanBlock, Halted;
    ghost var q := Query(g, IdSet(right), AllIds(left), limit);
    var decided, fromUser, first := Bootstrap(left, right);
    if decided.None? {
      ghost var run, end;
      verdict, run, end := RecursiveMatch(Query(g, first, fromUser, limit));
    } else if decided.value {
      ghost var x :| x in AllIds(left) && x in IdSet(right);
      ReachableStart(g, q.first, x);
      verdict := Allowed;
    } else {
      NothingToFind(q);
      verdict := Denied;
    }
  }

  lemma NothingToFind(q: Query)
    requires q.first == {} || q.fromUser == {}
    ensures !Match(q)
  {
    forall x | x in q.fromUser && Reachable(q.g, q.first, x) ensures false {
      ReachableInside(q.g, q.first, {}, x);
    }
  }

  // ---- Exactly when every answer is exact ---------------------------------

  /** In every run with an answer, for all first-level ids, user ids and limits, it is reachability. */
  ghost predicate AlwaysExact(g: Graph) {
    forall q: Query, run, t ::
      q.g == g && q.first !! q.fromUser && RunsTo(q, Start(q), run, t) && (t.allowed || Closed(t)) ==>
        (t.allowed <==> Match(q))
  }

  /** Once the only wanted id is marked visited, the search can end only without a match. */
  lemma {:induction false} RunsDry(q: Query, s: State, x: Id) returns (run: seq<Choice>, t: State)
    requires q.g.Valid() && q.limit >= 1 && q.fromUser == {x}
    requires Shape(q, s) && x in s.visited && !Matched(s)
    ensures RunsTo(q, s, run, t) && Closed(t)
    decreases s.pending, Remaining(q, s).waiting, Remaining(q, s).unvisited, Remaining(q, s).finding,
              Remaining(q, s).work, Remaining(q, s).open
  {
    hide Shape;
    if Halted(q, s) {
      if !Closed(s) {
        HaltedCases(q, s);
        assert false;
      }
      run, t := [], s;
    } else {
      var c :| Enabled(q, s, c);
      StepShape(q, s, c);
      StepProgress(q, s, c);
      StaysUnmatched(q, s, x, c);
      run, t := RunsDry(q, Step(q, s, c), x);
      assert ([c] + run)[1..] == run;
      run := [c] + run;
    }
  }

  lemma StaysUnmatched(q: Query, s: State, x: Id, c: Choice)
    requires q.fromUser == {x} && x in s.visited && !Matched(s) && Enabled(q, s, c)
    ensures !Matched(Step(q, s, c))
  {
    match c
    case Mark(_) =>
    case Launch =>
    case Scan(_) =>
    case Descend(_) =>
    case Return(k) =>
      hide Left;
      LeftMembers(s.workers, k);
    case Send(_) =>
    case Receive =>
  }

  /** The first worker reads its rows, and hands on what it finds, up to the failing row and past it. */
  lemma {:induction false} RunsPast(q: Query, s: State, x: Id, n: nat) returns (run: seq<Choice>, t: State)
    requires q.fromUser == {x} && Shape(q, s) && !Matched(s) && x !in s.visited
    requires |s.workers| > 0 && s.workers[0].frames != [] && s.workers[0].phase == Scanning
    requires n < |s.workers[0].frames[0].rest| && FailsAt(s.workers[0].frames[0].rest, n, x)
    requires |s.workers| + n < q.limit
    ensures RunsTo(q, s, run, t) && Shape(q, t) && !Matched(t) && x in t.visited
    decreases n
  {
    hide Shape;
    StepShape(q, s, Scan(0));
    var rest := s.workers[0].frames[0].rest;
    var u := Step(q, s, Scan(0));
    if n == 0 {
      run, t := [], u;
    } else {
      assert FailsAt(rest[1..], n - 1, x);
      if u.workers[0].phase.Found? {
        StepShape(q, u, Descend(0));
        run, t := RunsPast(q, Step(q, u, Descend(0)), x, n - 1);
        assert ([Descend(0)] + run)[1..] == run;
        run := [Descend(0)] + run;
      } else {
        run, t := RunsPast(q, u, x, n - 1);
      }
    }
    assert ([Scan(0)] + run)[1..] == run;
    run := [Scan(0)] + run;
  }

  /** A run in which the failing row is read first and nothing is found. */
  lemma HidingRun(q: Query, a: Id, x: Id) returns (run: seq<Choice>, t: State)
    requires q.g.Valid() && a in q.first && q.fromUser == {x} && a != x && FailsFirst(q.g, a, x)
    requires q.limit == |q.g.RowsOf(a)| + 2
    ensures RunsTo(q, Start(q), run, t) && Closed(t)
  {
    hide Shape;
    var n :| 0 <= n < |q.g.RowsOf(a)| && FailsAt(q.g.RowsOf(a), n, x);
    var s0 := Start(q);
    var s1 := Step(q, s0, Mark(a));
    var s2 := Step(q, s1, Launch);
    StartGood(q);
    StepShape(q, s0, Mark(a));
    StepShape(q, s1, Launch);
    var r1, s3 := RunsPast(q, s2, x, n);
    var r2, s4 := RunsDry(q, s3, x);
    RunsThen(q, s2, r1, s3, r2, s4);
    var late := [Launch] + (r1 + r2);
    assert late[1..] == r1 + r2 && ([Mark(a)] + late)[1..] == late;
    assert RunsTo(q, s1, late, s4);
    run, t := [Mark(a)] + late, s4;
  }

  lemma HiddenIsMissed(g: Graph, a: Id, x: Id, b: Id)
    requires g.Valid() && a != x && FailsFirst(g, a, x) && b != x && g.Leads(b, x)
    ensures !AlwaysExact(g)
  {
    hide RunsTo, FailsFirst;
    var q := Query(g, {a, b}, {x}, |g.RowsOf(a)| + 2);
    var run, t := HidingRun(q, a, x);
    ReachableStart(g, q.first, b);
    ReachableStep(g, q.first, b, x);
  }

  /** For instance: the failing row is looked at first and marks the target as visited. */
  lemma ConditionedRowCanBeLost()
    ensures !AlwaysExact(Graph({"x"}, map["a" := [Row("x", false)], "b" := [Row("x", true)]]))
  {
    var g := Graph({"x"}, map["a" := [Row("x", false)], "b" := [Row("x", true)]]);
    assert FailsAt(g.RowsOf("a"), 0, "x");
    HiddenIsMissed(g, "a", "x", "b");
  }

  /** Every answer of every run is exact iff no failing row comes before a passing one to the same id. */
  lemma ExactIff(g: Graph)
    requires g.Valid()
    ensures AlwaysExact(g) <==> NothingHidden(g)
  {
    if NothingHidden(g) {
      hide RunsTo;
      forall q: Query, run, t |
        q.g == g && q.first !! q.fromUser && RunsTo(q, Start(q), run, t) && (t.allowed || Closed(t))
        ensures t.allowed <==> Match(q)
      {
        Answers(q, run, t);
      }
    } else {
      var a, x :| a != x && FailsFirst(g, a, x) && !OnlySelf(g, x);
      var b :| b != x && g.Leads(b, x);
      HiddenIsMissed(g, a, x, b);
    }
  }
}
