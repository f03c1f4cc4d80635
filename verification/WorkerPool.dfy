/**
 The steps of the v2 recursive search.  The main goroutine launches a worker for every first-level
 id and only then reads responses.  Workers share a visited map and a pool of limited size; a worker
 that finds an id hands it to a new worker if the pool has room and descends into it itself
 otherwise.  A worker that finds one of the user's ids sends a response into a channel with as many
 places as the pool, and waits while that is full.
 */
module WorkerPool {
  import opened Options
  import opened Reachability

  datatype Query = Query(g: Graph, first: set<Id>, fromUser: set<Id>, limit: nat)

  /** One level of a worker's descent: the id it expands and the rows not yet read. */
  datatype Frame = Frame(id: Id, rest: seq<Row>)

  datatype Phase = Scanning | Found(id: Id) | Sending

  /** The innermost level comes first. */
  datatype Worker = Worker(frames: seq<Frame>, phase: Phase)

  /**
   `marked` is the first-level id that is visited and waits for room in the pool, `buffered` the
   number of responses in the channel, `allowed` that one of them was read.  `done` are the ids
   whose rows were all read; the program does not keep them.
   */
  datatype State = State(
    pending: set<Id>,
    marked: Option<Id>,
    visited: set<Id>,
    workers: seq<Worker>,
    done: set<Id>,
    buffered: nat,
    allowed: bool)

  datatype Choice =
    | Mark(id: Id)
    | Launch
    | Scan(k: nat)
    | Descend(k: nat)
    | Return(k: nat)
    | Send(k: nat)
    | Receive

  function Start(q: Query): State {
    State(q.first, None, {}, [], {}, 0, false)
  }

  predicate Busy(s: State, k: nat) {
    k < |s.workers| && s.workers[k].frames != []
  }

  predicate Enabled(q: Query, s: State, c: Choice) {
    && !s.allowed
    && match c
       case Mark(id) => s.marked.None? && id in s.pending
       case Launch => s.marked.Some? && |s.workers| < q.limit
       case Scan(k) => Busy(s, k) && s.workers[k].phase == Scanning && s.workers[k].frames[0].rest != []
       case Descend(k) => Busy(s, k) && s.workers[k].phase.Found?
       case Return(k) => Busy(s, k) && s.workers[k].phase == Scanning && s.workers[k].frames[0].rest == []
       case Send(k) => Busy(s, k) && s.workers[k].phase == Sending && s.buffered < q.limit
       case Receive => s.pending == {} && s.marked.None? && s.buffered > 0
  }

  function NewWorker(q: Query, id: Id): Worker {
    Worker([Frame(id, q.g.RowsOf(id))], Scanning)
  }

  /** Worker `k` leaves its innermost level, and the pool with its outermost one. */
  function Left(workers: seq<Worker>, k: nat): seq<Worker>
    requires k < |workers| && workers[k].frames != []
  {
    if |workers[k].frames| == 1 then workers[..k] + workers[k + 1..]
    else workers[k := Worker(workers[k].frames[1..], Scanning)]
  }

  /** What reading one row makes of a worker: a row to a visited id, or one that fails, is dropped. */
  function Scanned(q: Query, visited: set<Id>, w: Worker): Worker
    requires w.frames != [] && w.frames[0].rest != []
  {
    var row := w.frames[0].rest[0];
    var frames := [Frame(w.frames[0].id, w.frames[0].rest[1..])] + w.frames[1..];
    if row.to in visited || !row.passes then Worker(frames, Scanning)
    else if row.to in q.fromUser then Worker(frames, Sending)
    else Worker(frames, Found(row.to))
  }

  /** One atomic action of the main goroutine or of a worker. */
  function Step(q: Query, s: State, c: Choice): State
    requires Enabled(q, s, c)
  {
    match c
    case Mark(id) => s.(pending := s.pending - {id}, marked := Some(id), visited := s.visited + {id})
    case Launch => s.(marked := None, workers := s.workers + [NewWorker(q, s.marked.value)])
    case Scan(k) =>
      var w := s.workers[k];
      s.(visited := s.visited + {w.frames[0].rest[0].to}, workers := s.workers[k := Scanned(q, s.visited, w)])
    case Descend(k) =>
      var w := s.workers[k];
      var resumed := s.workers[k := w.(phase := Scanning)];
      if |s.workers| < q.limit then s.(workers := resumed + [NewWorker(q, w.phase.id)])
      else s.(workers := s.workers[k := Worker(NewWorker(q, w.phase.id).frames + w.frames, Scanning)])
    case Return(k) => s.(workers := Left(s.workers, k), done := s.done + {s.workers[k].frames[0].id})
    case Send(k) => s.(workers := Left(s.workers, k), buffered := s.buffered + 1)
    case Receive => s.(buffered := s.buffered - 1, allowed := true)
  }

  // ---- How a run can end --------------------------------------------------

  /** Everything was launched, every worker is gone and no response is left: the channel is closed. */
  predicate Closed(s: State) {
    s.pending == {} && s.marked.None? && s.workers == [] && s.buffered == 0 && !s.allowed
  }

  ghost predicate Halted(q: Query, s: State) {
    forall c :: !Enabled(q, s, c)
  }

  /** Nothing can happen any more, and there is no answer. */
  ghost predicate Blocked(q: Query, s: State) {
    Halted(q, s) && !s.allowed && !Closed(s)
  }

  ghost predicate RunsTo(q: Query, s: State, run: seq<Choice>, t: State)
    decreases |run|
  {
    if run == [] then s == t
    else Enabled(q, s, run[0]) && RunsTo(q, Step(q, s, run[0]), run[1..], t)
  }

  lemma {:induction false} RunsThen(q: Query, s: State, r1: seq<Choice>, t: State, r2: seq<Choice>, u: State)
    requires RunsTo(q, s, r1, t) && RunsTo(q, t, r2, u)
    ensures RunsTo(q, s, r1 + r2, u)
    decreases |r1|
  {
    if r1 == [] {
      assert r1 + r2 == r2;
    } else {
      assert (r1 + r2)[1..] == r1[1..] + r2;
      RunsThen(q, Step(q, s, r1[0]), r1[1..], t, r2, u);
    }
  }

  // ---- What every step keeps ----------------------------------------------

  predicate IsTail(rest: seq<Row>, rows: seq<Row>) {
    |rest| <= |rows| && rest == rows[|rows| - |rest|..]
  }

  predicate Tails(q: Query, w: Worker) {
    forall f <- w.frames :: IsTail(f.rest, q.g.RowsOf(f.id))
  }

  ghost predicate Shape(q: Query, s: State) {
    && |s.workers| <= q.limit && s.buffered <= q.limit
    && s.pending <= q.first
    && (s.marked.Some? ==> s.marked.value in q.first && s.marked.value !in s.pending)
    && (forall w <- s.workers :: w.frames != [] && Tails(q, w))
  }

  lemma LeftMembers(workers: seq<Worker>, k: nat)
    requires k < |workers| && workers[k].frames != []
    ensures forall w <- Left(workers, k) ::
              w in workers || (|workers[k].frames| > 1 && w == Worker(workers[k].frames[1..], Scanning))
    ensures |Left(workers, k)| <= |workers|
  {}

  lemma ScannedTails(q: Query, visited: set<Id>, w: Worker)
    requires Tails(q, w) && w.frames != [] && w.frames[0].rest != []
    ensures Scanned(q, visited, w).frames != [] && Tails(q, Scanned(q, visited, w))
  {
    assert w.frames[0] in w.frames;
  }

  lemma StepShape(q: Query, s: State, c: Choice)
    requires Shape(q, s) && Enabled(q, s, c)
    ensures Shape(q, Step(q, s, c))
  {
    match c
    case Mark(_) =>
    case Launch =>
    case Scan(k) =>
      hide Tails, Scanned;
      ScannedTails(q, s.visited, s.workers[k]);
    case Descend(k) =>
    case Return(k) =>
      hide Left;
      LeftMembers(s.workers, k);
    case Send(k) =>
      hide Left;
      LeftMembers(s.workers, k);
    case Receive =>
  }

  // ---- Every run ends -----------------------------------------------------

  function Sum(f: Worker -> nat, workers: seq<Worker>): nat {
    if workers == [] then 0 else f(workers[0]) + Sum(f, workers[1..])
  }

  lemma {:induction false} SumConcat(f: Worker -> nat, a: seq<Worker>, b: seq<Worker>)
    ensures Sum(f, a + b) == Sum(f, a) + Sum(f, b)
  {
    if a == [] {
      assert a + b == b;
    } else {
      assert (a + b)[1..] == a[1..] + b;
      SumConcat(f, a[1..], b);
    }
  }

  lemma SumParts(f: Worker -> nat, workers: seq<Worker>, k: nat, mid: seq<Worker>)
    requires k < |workers|
    ensures Sum(f, workers[..k] + mid + workers[k + 1..]) == Sum(f, workers) - f(workers[k]) + Sum(f, mid)
  {
    var a, b := workers[..k], workers[k + 1..];
    assert workers == a + [workers[k]] + b;
    SumConcat(f, a + [workers[k]], b);
    SumConcat(f, a, [workers[k]]);
    SumConcat(f, a + mid, b);
    SumConcat(f, a, mid);
    assert [workers[k]][1..] == [];
    assert Sum(f, [workers[k]]) == f(workers[k]);
  }

  lemma SumUpdate(f: Worker -> nat, workers: seq<Worker>, k: nat, w: Worker)
    requires k < |workers|
    ensures Sum(f, workers[k := w]) == Sum(f, workers) - f(workers[k]) + f(w)
  {
    SumParts(f, workers, k, [w]);
    assert workers[k := w] == workers[..k] + [w] + workers[k + 1..];
    assert [w][1..] == [];
    assert Sum(f, [w]) == f(w);
  }

  lemma SumPush(f: Worker -> nat, workers: seq<Worker>, w: Worker)
    ensures Sum(f, workers + [w]) == Sum(f, workers) + f(w)
  {
    SumConcat(f, workers, [w]);
    assert [w][1..] == [];
    assert Sum(f, [w]) == f(w);
  }

  lemma SumLeft(f: Worker -> nat, workers: seq<Worker>, k: nat)
    requires k < |workers| && workers[k].frames != []
    ensures Sum(f, Left(workers, k)) == Sum(f, workers) - f(workers[k])
              + if |workers[k].frames| == 1 then 0 else f(Worker(workers[k].frames[1..], Scanning))
  {
    if |workers[k].frames| == 1 {
      SumParts(f, workers, k, []);
      assert workers[..k] + [] + workers[k + 1..] == Left(workers, k);
    } else {
      SumUpdate(f, workers, k, Worker(workers[k].frames[1..], Scanning));
    }
  }

  function Finding(w: Worker): nat { if w.phase.Found? then 1 else 0 }

  function Waiting(w: Worker): nat { if w.phase == Sending then 1 else 0 }

  function RowsLeft(frames: seq<Frame>): nat {
    if frames == [] then 0 else 1 + |frames[0].rest| + RowsLeft(frames[1..])
  }

  function Work(w: Worker): nat { RowsLeft(w.frames) }

  /** What is left to do: compared part by part, each step makes it smaller. */
  datatype Measure = Measure(pending: set<Id>, waiting: nat, unvisited: set<Id>, finding: nat, work: nat, open: nat)

  function Remaining(q: Query, s: State): Measure {
    Measure(s.pending, if s.marked.Some? then 1 else 0, q.g.nodes - s.visited,
            Sum(Finding, s.workers), Sum(Work, s.workers), if s.allowed then 0 else 1)
  }

  ghost predicate Less(a: Measure, b: Measure) {
    || a.pending < b.pending
    || (a.pending == b.pending && a.waiting < b.waiting)
    || (a.pending == b.pending && a.waiting == b.waiting && a.unvisited < b.unvisited)
    || (a.pending == b.pending && a.waiting == b.waiting && a.unvisited == b.unvisited && a.finding < b.finding)
    || (&& a.pending == b.pending && a.waiting == b.waiting && a.unvisited == b.unvisited && a.finding == b.finding
        && a.work < b.work)
    || (&& a.pending == b.pending && a.waiting == b.waiting && a.unvisited == b.unvisited && a.finding == b.finding
        && a.work == b.work && a.open < b.open)
  }

  lemma ScanProgress(q: Query, s: State, k: nat)
    requires q.g.Valid() && Shape(q, s) && Enabled(q, s, Scan(k))
    ensures Less(Remaining(q, Step(q, s, Scan(k))), Remaining(q, s))
  {
    var w := s.workers[k];
    var row := w.frames[0].rest[0];
    var w' := Scanned(q, s.visited, w);
    SumUpdate(Finding, s.workers, k, w');
    SumUpdate(Work, s.workers, k, w');
    assert w in s.workers && w.frames[0] in w.frames;
    assert row in q.g.RowsOf(w.frames[0].id);
    assert w'.frames[1..] == w.frames[1..];
    if row.to in s.visited {
      assert s.visited + {row.to} == s.visited;
    } else {
      assert row.to in q.g.nodes - s.visited;
    }
  }

  lemma DescendProgress(q: Query, s: State, k: nat)
    requires Shape(q, s) && Enabled(q, s, Descend(k))
    ensures Less(Remaining(q, Step(q, s, Descend(k))), Remaining(q, s))
  {
    var w := s.workers[k];
    var child := NewWorker(q, w.phase.id);
    if |s.workers| < q.limit {
      SumUpdate(Finding, s.workers, k, w.(phase := Scanning));
      SumPush(Finding, s.workers[k := w.(phase := Scanning)], child);
    } else {
      SumUpdate(Finding, s.workers, k, Worker(child.frames + w.frames, Scanning));
    }
  }

  lemma LeaveProgress(q: Query, s: State, k: nat)
    requires Busy(s, k) && !s.workers[k].phase.Found?
    ensures Sum(Finding, Left(s.workers, k)) == Sum(Finding, s.workers)
    ensures Sum(Work, Left(s.workers, k)) < Sum(Work, s.workers)
  {
    SumLeft(Finding, s.workers, k);
    SumLeft(Work, s.workers, k);
  }

  /** Every step of every schedule makes what is left smaller, so there is no endless run. */
  lemma StepProgress(q: Query, s: State, c: Choice)
    requires q.g.Valid() && Shape(q, s) && Enabled(q, s, c)
    ensures Less(Remaining(q, Step(q, s, c)), Remaining(q, s))
  {
    hide Shape, Sum, Left, Scanned;
    match c
    case Mark(_) =>
    case Launch =>
    case Scan(k) => ScanProgress(q, s, k);
    case Descend(k) => DescendProgress(q, s, k);
    case Return(k) => LeaveProgress(q, s, k);
    case Send(k) => LeaveProgress(q, s, k);
    case Receive =>
  }

  /** A run that has come to a halt without an answer: the launch waits for a worker, and all workers for the launch. */
  lemma HaltedCases(q: Query, s: State)
    requires Shape(q, s) && Halted(q, s) && !s.allowed && !Closed(s)
    ensures s.marked.Some? && |s.workers| == q.limit && s.buffered == q.limit
    ensures forall w <- s.workers :: w.phase == Sending
  {
    forall w | w in s.workers ensures w.phase == Sending {
      var k :| 0 <= k < |s.workers| && s.workers[k] == w;
      assert !Enabled(q, s, Scan(k)) && !Enabled(q, s, Return(k)) && !Enabled(q, s, Descend(k));
    }
    assert !Enabled(q, s, Launch) && !Enabled(q, s, Receive);
    if s.workers != [] {
      assert s.workers[0] in s.workers;
      assert !Enabled(q, s, Send(0));
    }
    if id :| id in s.pending {
      assert !Enabled(q, s, Mark(id));
    }
  }
}
