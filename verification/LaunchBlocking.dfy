/**
 When the v2 recursive search can hang.  Responses are read only after the last first-level id was
 launched, and a launch waits for room in the pool: with the channel full and every worker waiting
 to send, nothing moves any more.
 */
module LaunchBlocking {
  import opened Options
  import opened Reachability
  import opened WorkerPool

  // ---- What a blocked run needs -------------------------------------------

  /** Every response under way stands for a user id of its own. */
  ghost predicate Counted(q: Query, s: State) {
    s.allowed || s.buffered + Sum(Waiting, s.workers) <= |s.visited * q.fromUser|
  }

  /** Nothing is under way before a first-level id was launched. */
  ghost predicate Begun(q: Query, s: State) {
    || s.allowed
    || (s.workers == [] && s.buffered == 0)
    || exists id :: id in q.first && id !in s.pending && s.marked != Some(id)
  }

  lemma OneMoreVisited(visited: set<Id>, users: set<Id>, x: Id)
    ensures |(visited + {x}) * users| == |visited * users| + if x in users && x !in visited then 1 else 0
  {
    if x in users && x !in visited {
      assert (visited + {x}) * users == visited * users + {x};
    } else {
      assert (visited + {x}) * users == visited * users;
    }
  }

  lemma StepCounted(q: Query, s: State, c: Choice)
    requires Counted(q, s) && Enabled(q, s, c)
    ensures Counted(q, Step(q, s, c))
  {
    hide Sum, Left;
    match c
    case Mark(id) => OneMoreVisited(s.visited, q.fromUser, id);
    case Launch => SumPush(Waiting, s.workers, NewWorker(q, s.marked.value));
    case Scan(k) =>
      SumUpdate(Waiting, s.workers, k, Scanned(q, s.visited, s.workers[k]));
      OneMoreVisited(s.visited, q.fromUser, s.workers[k].frames[0].rest[0].to);
    case Descend(k) =>
      var w := s.workers[k];
      var child := NewWorker(q, w.phase.id);
      if |s.workers| < q.limit {
        SumUpdate(Waiting, s.workers, k, w.(phase := Scanning));
        SumPush(Waiting, s.workers[k := w.(phase := Scanning)], child);
      } else {
        SumUpdate(Waiting, s.workers, k, Worker(child.frames + w.frames, Scanning));
      }
    case Return(k) => SumLeft(Waiting, s.workers, k);
    case Send(k) => SumLeft(Waiting, s.workers, k);
    case Receive =>
  }

  lemma StepBegun(q: Query, s: State, c: Choice)
    requires Shape(q, s) && Begun(q, s) && Enabled(q, s, c)
    ensures Begun(q, Step(q, s, c))
  {
    var t := Step(q, s, c);
    if c == Launch {
      assert s.marked.value in q.first && s.marked.value !in t.pending && t.marked != Some(s.marked.value);
    } else if id :| id in q.first && id !in s.pending && s.marked != Some(id) {
      assert id !in t.pending && t.marked != Some(id);
    }
  }

  lemma {:induction false} RunCounted(q: Query, s: State, run: seq<Choice>, t: State)
    requires Shape(q, s) && Counted(q, s) && Begun(q, s) && RunsTo(q, s, run, t)
    ensures Shape(q, t) && Counted(q, t) && Begun(q, t)
    decreases |run|
  {
    hide Shape, Counted, Begun, Step;
    if run != [] {
      StepShape(q, s, run[0]);
      StepCounted(q, s, run[0]);
      StepBegun(q, s, run[0]);
      RunCounted(q, Step(q, s, run[0]), run[1..], t);
    }
  }

  /** Two first-level ids and twice as many user ids as the pool has room for workers. */
  predicate CanBlock(first: set<Id>, fromUser: set<Id>, limit: nat) {
    first != {} && (limit == 0 || (|first| >= 2 && |fromUser| >= 2 * limit))
  }

  lemma {:induction false} AllWaiting(workers: seq<Worker>)
    requires forall w <- workers :: w.phase == Sending
    ensures Sum(Waiting, workers) == |workers|
  {
    if workers != [] {
      assert workers[0] in workers;
      assert forall w <- workers[1..] :: w in workers;
      AllWaiting(workers[1..]);
    }
  }

  lemma {:induction false} SmallerSet(a: set<Id>, b: set<Id>)
    requires a <= b
    ensures |a| <= |b|
  {
    if x :| x in a {
      SmallerSet(a - {x}, b - {x});
    }
  }

  lemma BlockedNeeds(q: Query, run: seq<Choice>, t: State)
    requires RunsTo(q, Start(q), run, t) && Blocked(q, t)
    ensures CanBlock(q.first, q.fromUser, q.limit)
  {
    hide RunsTo, Sum;
    assert Sum(Waiting, []) == 0 by { AllWaiting([]); }
    RunCounted(q, Start(q), run, t);
    HaltedCases(q, t);
    var m := t.marked.value;
    if q.limit > 0 {
      AllWaiting(t.workers);
      SmallerSet(t.visited * q.fromUser, q.fromUser);
      var id :| id in q.first && id !in t.pending && t.marked != Some(id);
      SmallerSet({id, m}, q.first);
    }
  }

  // ---- A blocked run ------------------------------------------------------

  ghost predicate CanReach(q: Query, s: State, t: State) {
    exists run :: RunsTo(q, s, run, t)
  }

  lemma ReachSelf(q: Query, s: State)
    ensures CanReach(q, s, s)
  {
    assert RunsTo(q, s, [], s);
  }

  lemma ReachStep(q: Query, s: State, t: State, c: Choice)
    requires CanReach(q, s, t) && Enabled(q, t, c)
    ensures CanReach(q, s, Step(q, t, c))
  {
    var run :| RunsTo(q, s, run, t);
    assert [c][1..] == [];
    assert RunsTo(q, t, [c], Step(q, t, c));
    RunsThen(q, s, run, t, [c], Step(q, t, c));
  }

  lemma BlockedWhen(q: Query, s: State)
    requires !s.allowed && s.marked.Some? && |s.workers| == q.limit && s.buffered == q.limit
    requires forall w <- s.workers :: w.phase == Sending
    ensures Blocked(q, s)
  {
    forall c ensures !Enabled(q, s, c) {
      if (c.Scan? || c.Descend? || c.Return?) && c.k < |s.workers| {
        assert s.workers[c.k] in s.workers;
      }
    }
  }

  predicate Distinct(ids: seq<Id>) {
    forall i, j :: 0 <= i < j < |ids| ==> ids[i] != ids[j]
  }

  /** An id longer than any in a set is not in it. */
  lemma {:induction false} Longest(ids: set<Id>) returns (n: nat)
    ensures forall x <- ids :: |x| < n
    decreases ids
  {
    if x :| x in ids {
      n := Longest(ids - {x});
      n := if n > |x| then n else |x| + 1;
    } else {
      n := 0;
    }
  }

  lemma {:induction false} FreshIds(used: set<Id>, n: nat) returns (ids: seq<Id>)
    ensures |ids| == n && Distinct(ids) && forall x <- ids :: x !in used
    decreases n
  {
    if n == 0 {
      ids := [];
    } else {
      var len := Longest(used);
      var x: Id := seq(len, _ => 'x');
      ids := FreshIds(used + {x}, n - 1);
      assert forall i :: 0 <= i < |ids| ==> ids[i] in ids;
      ids := [x] + ids;
    }
  }

  lemma {:induction false} SomeOf(ids: set<Id>, n: nat) returns (chosen: seq<Id>)
    requires n <= |ids|
    ensures |chosen| == n && Distinct(chosen) && forall x <- chosen :: x in ids
    decreases n
  {
    if n == 0 {
      chosen := [];
    } else {
      var x :| x in ids;
      chosen := SomeOf(ids - {x}, n - 1);
      assert forall i :: 0 <= i < |chosen| ==> chosen[i] in chosen;
      chosen := [x] + chosen;
    }
  }

  /** Each id of the chain leads to the next one and to a user id of its own. */
  datatype Chain = Chain(ids: seq<Id>, users: seq<Id>)
  {
    predicate Valid() {
      && |ids| == |users| && Distinct(ids) && Distinct(users)
      && forall i, j :: 0 <= i < |ids| && 0 <= j < |users| ==> ids[i] != users[j]
    }

    function Rows(i: nat): seq<Row>
      requires i < |ids| == |users|
    {
      (if i + 1 < |ids| then [Row(ids[i + 1], true)] else []) + [Row(users[i], true)]
    }

    function Table(n: nat): map<Id, seq<Row>>
      requires n <= |ids| == |users|
    {
      if n == 0 then map[] else Table(n - 1)[ids[n - 1] := Rows(n - 1)]
    }

    function Graph(): Graph
      requires |ids| == |users|
    {
      Reachability.Graph(IdSet(ids) + IdSet(users), Table(|ids|))
    }
  }

  lemma {:induction false} TableAt(chain: Chain, n: nat, i: nat)
    requires chain.Valid() && i < n <= |chain.ids|
    ensures chain.ids[i] in chain.Table(n) && chain.Table(n)[chain.ids[i]] == chain.Rows(i)
    decreases n
  {
    if i < n - 1 {
      TableAt(chain, n - 1, i);
    }
  }

  lemma {:induction false} TableClosed(chain: Chain, n: nat)
    requires n <= |chain.ids| == |chain.users|
    ensures forall id, row :: id in chain.Table(n) && row in chain.Table(n)[id] ==>
              row.to in IdSet(chain.ids) + IdSet(chain.users)
    decreases n
  {
    if n > 0 {
      TableClosed(chain, n - 1);
      var rows := chain.Rows(n - 1);
      assert forall row <- rows :: row.to in IdSet(chain.ids) + IdSet(chain.users);
    }
  }

  /** The chain beyond id `i`, and the user ids from there on, were not visited. */
  ghost predicate Ahead(chain: Chain, visited: set<Id>, i: nat) {
    && (forall j :: i < j < |chain.ids| ==> chain.ids[j] !in visited)
    && (forall j :: i <= j < |chain.users| ==> chain.users[j] !in visited)
  }

  lemma AheadMoves(q: Query, chain: Chain, visited: set<Id>, i: nat)
    requires Suits(q, chain) && Ahead(chain, visited, i) && i + 1 < |chain.ids|
    ensures Ahead(chain, visited + {chain.ids[i + 1]} + {chain.users[i]}, i + 1)
    ensures chain.ids[i + 1] !in visited && chain.users[i] !in visited && chain.ids[i + 1] != chain.users[i]
  {
    hide Chain.Graph, Distinct;
    forall j | i + 1 < j < |chain.ids| ensures chain.ids[j] != chain.ids[i + 1] && chain.ids[j] != chain.users[i] {
      Differ(chain.ids, i + 1, j);
    }
    forall j | i < j < |chain.users| ensures chain.users[j] != chain.users[i] {
      Differ(chain.users, i, j);
    }
  }

  lemma Differ(ids: seq<Id>, i: nat, j: nat)
    requires Distinct(ids) && i < j < |ids|
    ensures ids[i] != ids[j]
  {}

  /**
   The first `limit` ids of the chain have sent their response and left, the next ones wait to
   send, and the worker on id `i` has not begun.  The launch waits for room.
   */
  ghost predicate OnChain(q: Query, chain: Chain, s: State, i: nat)
    requires i < |chain.ids|
  {
    var sent := if i < q.limit then i else q.limit;
    && s.marked.Some? && !s.allowed && s.buffered == sent && |s.workers| == i - sent + 1
    && (forall j :: 0 <= j < |s.workers| - 1 ==> s.workers[j].phase == Sending)
    && s.workers[|s.workers| - 1] == NewWorker(q, chain.ids[i])
    && Ahead(chain, s.visited, i)
  }

  ghost predicate Suits(q: Query, chain: Chain) {
    && chain.Valid() && |chain.ids| == 2 * q.limit && q.g.rows == chain.Graph().rows
    && (forall j :: 0 <= j < |chain.users| ==> chain.users[j] in q.fromUser)
    && (forall j :: 0 <= j < |chain.ids| ==> chain.ids[j] !in q.fromUser)
  }

  lemma SuitsAt(q: Query, chain: Chain, i: nat)
    requires Suits(q, chain) && i < |chain.ids|
    ensures |chain.ids| == |chain.users|
    ensures q.g.RowsOf(chain.ids[i]) == chain.Rows(i)
    ensures chain.users[i] in q.fromUser && chain.ids[i] !in q.fromUser
  {
    TableAt(chain, |chain.ids|, i);
  }

  lemma ScannedOne(q: Query, visited: set<Id>, id: Id, x: Id, rest: seq<Row>)
    requires x !in visited
    ensures Scanned(q, visited, Worker([Frame(id, [Row(x, true)] + rest)], Scanning))
            == Worker([Frame(id, rest)], if x in q.fromUser then Sending else Found(x))
  {
    var w := Worker([Frame(id, [Row(x, true)] + rest)], Scanning);
    assert w.frames[0].rest[1..] == rest && [Frame(id, rest)] + w.frames[1..] == [Frame(id, rest)];
  }

  lemma NewOnChain(q: Query, chain: Chain, i: nat)
    requires i + 1 < |chain.ids| == |chain.users| && q.g.RowsOf(chain.ids[i]) == chain.Rows(i)
    ensures NewWorker(q, chain.ids[i])
            == Worker([Frame(chain.ids[i], [Row(chain.ids[i + 1], true), Row(chain.users[i], true)])], Scanning)
  {
    assert chain.Rows(i) == [Row(chain.ids[i + 1], true), Row(chain.users[i], true)];
  }

  /** The last worker hands the next id to a new worker and finds its own match. */
  lemma HandOn(q: Query, s0: State, s: State, id: Id, y: Id, u: Id) returns (t: State)
    requires CanReach(q, s0, s) && !s.allowed && 0 < |s.workers| < q.limit
    requires s.workers[|s.workers| - 1] == Worker([Frame(id, [Row(y, true), Row(u, true)])], Scanning)
    requires y !in s.visited && u !in s.visited && y != u && y !in q.fromUser && u in q.fromUser
    ensures CanReach(q, s0, t)
    ensures t == s.(visited := s.visited + {y} + {u},
                    workers := s.workers[..|s.workers| - 1] + [Worker([Frame(id, [])], Sending), NewWorker(q, y)])
  {
    hide CanReach;
    hide Scanned;
    var k, before := |s.workers| - 1, s.workers[..|s.workers| - 1];
    assert [Row(y, true), Row(u, true)] == [Row(y, true)] + [Row(u, true)] && [Row(u, true)] == [Row(u, true)] + [];
    ScannedOne(q, s.visited, id, y, [Row(u, true)]);
    ScannedOne(q, s.visited + {y}, id, u, []);
    ReachStep(q, s0, s, Scan(k));
    t := Step(q, s, Scan(k));
    assert t.workers == before + [Worker([Frame(id, [Row(u, true)])], Found(y))];
    ReachStep(q, s0, t, Descend(k));
    t := Step(q, t, Descend(k));
    assert t.workers == before + [Worker([Frame(id, [Row(u, true)])], Scanning), NewWorker(q, y)];
    ReachStep(q, s0, t, Scan(k));
    t := Step(q, t, Scan(k));
    assert t.workers == before + [Worker([Frame(id, [])], Sending), NewWorker(q, y)];
  }

  lemma SendOff(q: Query, s0: State, s: State, before: seq<Worker>, id: Id, last: Worker) returns (t: State)
    requires CanReach(q, s0, s) && !s.allowed && s.buffered < q.limit
    requires s.workers == before + [Worker([Frame(id, [])], Sending), last]
    ensures CanReach(q, s0, t) && t == s.(workers := before + [last], buffered := s.buffered + 1)
  {
    hide CanReach;
    var k := |before|;
    ReachStep(q, s0, s, Send(k));
    t := Step(q, s, Send(k));
    assert t.workers == before + [last];
  }

  lemma NextOnChain(q: Query, chain: Chain, s0: State, s: State, i: nat) returns (t: State)
    requires Suits(q, chain) && q.limit >= 2 && i + 1 < |chain.ids| == 2 * q.limit
    requires OnChain(q, chain, s, i) && CanReach(q, s0, s)
    ensures OnChain(q, chain, t, i + 1) && CanReach(q, s0, t)
  {
    hide CanReach, Suits, Ahead, Chain.Valid, NewWorker;
    SuitsAt(q, chain, i);
    SuitsAt(q, chain, i + 1);
    AheadMoves(q, chain, s.visited, i);
    NewOnChain(q, chain, i);
    var before := s.workers[..|s.workers| - 1];
    t := HandOn(q, s0, s, chain.ids[i], chain.ids[i + 1], chain.users[i]);
    if i < q.limit {
      t := SendOff(q, s0, t, before, chain.ids[i], NewWorker(q, chain.ids[i + 1]));
    }
  }

  lemma LastOnChain(q: Query, chain: Chain, s0: State, s: State, i: nat) returns (t: State)
    requires Suits(q, chain) && q.limit >= 1 && i + 1 == |chain.ids| == 2 * q.limit
    requires OnChain(q, chain, s, i) && CanReach(q, s0, s)
    ensures Blocked(q, t) && CanReach(q, s0, t)
  {
    hide CanReach, Suits, Chain.Valid, Blocked;
    SuitsAt(q, chain, i);
    var k := |s.workers| - 1;
    ReachStep(q, s0, s, Scan(k));
    t := Step(q, s, Scan(k));
    assert forall w <- t.workers :: w.phase == Sending;
    BlockedWhen(q, t);
  }

  lemma {:induction false} AlongChain(q: Query, chain: Chain, s0: State, s: State, i: nat) returns (t: State)
    requires Suits(q, chain) && q.limit >= 2 && i < |chain.ids| == 2 * q.limit
    requires OnChain(q, chain, s, i) && CanReach(q, s0, s)
    ensures Blocked(q, t) && CanReach(q, s0, t)
    decreases |chain.ids| - i
  {
    hide CanReach, Suits, OnChain, Blocked;
    if i + 1 < |chain.ids| {
      t := NextOnChain(q, chain, s0, s, i);
      t := AlongChain(q, chain, s0, t, i + 1);
    } else {
      t := LastOnChain(q, chain, s0, s, i);
    }
  }

  /** With room for one worker, that worker itself goes down the chain. */
  lemma OneWorker(q: Query, chain: Chain, s0: State, s: State) returns (t: State)
    requires Suits(q, chain) && q.limit == 1 && |chain.ids| == 2 && OnChain(q, chain, s, 0) && CanReach(q, s0, s)
    ensures Blocked(q, t) && CanReach(q, s0, t)
  {
    hide CanReach, Suits, Blocked;
    SuitsAt(q, chain, 0);
    SuitsAt(q, chain, 1);
    AheadMoves(q, chain, s.visited, 0);
    ReachStep(q, s0, s, Scan(0));
    t := Step(q, s, Scan(0));
    assert t.workers[0].phase == Found(chain.ids[1]);
    ReachStep(q, s0, t, Descend(0));
    t := Step(q, t, Descend(0));
    assert t.workers[0].frames[0] == Frame(chain.ids[1], [Row(chain.users[1], true)]);
    ReachStep(q, s0, t, Scan(0));
    t := Step(q, t, Scan(0));
    assert t.workers[0].phase == Sending;
    ReachStep(q, s0, t, Send(0));
    t := Step(q, t, Send(0));
    assert t.workers[0].frames[0] == Frame(chain.ids[0], [Row(chain.users[0], true)]);
    ReachStep(q, s0, t, Scan(0));
    t := Step(q, t, Scan(0));
    BlockedWhen(q, t);
  }

  lemma BeginChain(q: Query, chain: Chain, b: Id) returns (s: State)
    requires Suits(q, chain) && q.limit >= 1 && q.first !! q.fromUser && |chain.ids| == 2 * q.limit
    requires chain.ids[0] in q.first && b in q.first && b !in chain.ids
    ensures OnChain(q, chain, s, 0) && CanReach(q, Start(q), s)
  {
    var a := chain.ids[0];
    hide Suits, Chain.Valid, CanReach, Ahead;
    AheadAtStart(q, chain, b);
    assert a in chain.ids;
    s := LaunchOne(q, a, b);
  }

  lemma AheadAtStart(q: Query, chain: Chain, b: Id)
    requires Suits(q, chain) && q.first !! q.fromUser && chain.ids != []
    requires chain.ids[0] in q.first && b in q.first && b !in chain.ids
    ensures Ahead(chain, {chain.ids[0]} + {b}, 0)
  {
    hide Chain.Graph, Distinct;
    forall j | 0 < j < |chain.ids| ensures chain.ids[j] !in {chain.ids[0]} + {b} {
      assert chain.ids[j] in chain.ids;
      Differ(chain.ids, 0, j);
    }
  }

  /** One worker was launched, and a second id waits. */
  lemma LaunchOne(q: Query, a: Id, b: Id) returns (s: State)
    requires a in q.first && b in q.first && a != b && q.limit >= 1
    ensures CanReach(q, Start(q), s)
    ensures s == State(q.first - {a} - {b}, Some(b), {a} + {b}, [NewWorker(q, a)], {}, 0, false)
  {
    hide CanReach;
    ReachSelf(q, Start(q));
    ReachStep(q, Start(q), Start(q), Mark(a));
    s := Step(q, Start(q), Mark(a));
    ReachStep(q, Start(q), s, Launch);
    s := Step(q, s, Launch);
    ReachStep(q, Start(q), s, Mark(b));
    s := Step(q, s, Mark(b));
  }

  lemma ChainFor(first: set<Id>, fromUser: set<Id>, limit: nat, a: Id) returns (chain: Chain)
    requires first !! fromUser && a in first && limit >= 1 && |fromUser| >= 2 * limit
    ensures chain.Valid() && |chain.ids| == 2 * limit && chain.ids[0] == a
    ensures forall j :: 0 < j < |chain.ids| ==> chain.ids[j] !in first
    ensures forall j :: 0 <= j < |chain.ids| ==> chain.ids[j] !in fromUser
    ensures forall j :: 0 <= j < |chain.users| ==> chain.users[j] in fromUser
  {
    var rest := FreshIds(first + fromUser, 2 * limit - 1);
    var users := SomeOf(fromUser, 2 * limit);
    assert forall i :: 0 <= i < |rest| ==> rest[i] in rest;
    assert forall i :: 0 <= i < |users| ==> users[i] in users;
    chain := Chain([a] + rest, users);
  }

  lemma ChainBlocks(first: set<Id>, fromUser: set<Id>, limit: nat, a: Id, b: Id) returns (q: Query, t: State)
    requires first !! fromUser && a in first && b in first && a != b && limit >= 1 && |fromUser| >= 2 * limit
    ensures q.first == first && q.fromUser == fromUser && q.limit == limit && q.g.Valid()
    ensures CanReach(q, Start(q), t) && Blocked(q, t)
  {
    hide CanReach, OnChain, Blocked;
    var chain := ChainFor(first, fromUser, limit, a);
    q := Query(chain.Graph(), first, fromUser, limit);
    assert q.g.Valid() by { TableClosed(chain, |chain.ids|); }
    var s := BeginChain(q, chain, b);
    if limit == 1 {
      t := OneWorker(q, chain, Start(q), s);
    } else {
      t := AlongChain(q, chain, Start(q), s, 0);
    }
  }

  lemma AnotherOne(ids: set<Id>) returns (a: Id, b: Id)
    requires |ids| >= 2
    ensures a in ids && b in ids && a != b
  {
    a :| a in ids;
    assert |ids - {a}| == |ids| - 1;
    b :| b in ids - {a};
  }

  lemma BlockedRun(first: set<Id>, fromUser: set<Id>, limit: nat) returns (q: Query, run: seq<Choice>, t: State)
    requires first !! fromUser && CanBlock(first, fromUser, limit)
    ensures q.first == first && q.fromUser == fromUser && q.limit == limit && q.g.Valid()
    ensures RunsTo(q, Start(q), run, t) && Blocked(q, t)
  {
    hide RunsTo;
    if limit == 0 {
      var a :| a in first;
      q := Query(Reachability.Graph({}, map[]), first, fromUser, limit);
      ReachSelf(q, Start(q));
      ReachStep(q, Start(q), Start(q), Mark(a));
      t := Step(q, Start(q), Mark(a));
      BlockedWhen(q, t);
    } else {
      hide Blocked;
      var a, b := AnotherOne(first);
      q, t := ChainBlocks(first, fromUser, limit, a, b);
    }
    run :| RunsTo(q, Start(q), run, t);
  }

  // ---- First-level ids with a match of their own --------------------------

  /** Every first-level id of the list has one row, to a user id of its own. */
  ghost predicate Spread(q: Query, ids: seq<Id>, users: seq<Id>) {
    && |ids| == |users| && Distinct(ids) && Distinct(users)
    && (forall i :: 0 <= i < |ids| ==> ids[i] in q.first && q.g.RowsOf(ids[i]) == [Row(users[i], true)])
    && (forall i :: 0 <= i < |users| ==> users[i] in q.fromUser)
  }

  /** The first `i` ids were launched: `limit` responses are in the channel and the rest wait. */
  ghost predicate Launched(q: Query, ids: seq<Id>, users: seq<Id>, s: State, i: nat)
    requires |ids| == |users|
  {
    var sent := if i < q.limit then i else q.limit;
    && s.marked.None? && !s.allowed && s.buffered == sent && |s.workers| == i - sent
    && (forall w <- s.workers :: w.phase == Sending)
    && (forall j :: i <= j < |ids| ==> ids[j] in s.pending && users[j] !in s.visited)
  }

  /** One first-level id is launched and finds its match. */
  lemma LaunchNext(q: Query, s0: State, s: State, id: Id, u: Id) returns (t: State)
    requires CanReach(q, s0, s) && !s.allowed && s.marked.None? && id in s.pending && |s.workers| < q.limit
    requires q.g.RowsOf(id) == [Row(u, true)] && u in q.fromUser && u !in s.visited && u != id
    ensures CanReach(q, s0, t)
    ensures t == s.(pending := s.pending - {id}, visited := s.visited + {id} + {u},
                    workers := s.workers + [Worker([Frame(id, [])], Sending)])
  {
    hide CanReach, Scanned;
    var k := |s.workers|;
    assert [Row(u, true)] == [Row(u, true)] + [];
    ScannedOne(q, s.visited + {id}, id, u, []);
    ReachStep(q, s0, s, Mark(id));
    t := Step(q, s, Mark(id));
    ReachStep(q, s0, t, Launch);
    t := Step(q, t, Launch);
    ReachStep(q, s0, t, Scan(k));
    t := Step(q, t, Scan(k));
    assert t.workers == s.workers + [Worker([Frame(id, [])], Sending)];
  }

  lemma SendLast(q: Query, s0: State, s: State, before: seq<Worker>, id: Id) returns (t: State)
    requires CanReach(q, s0, s) && !s.allowed && s.buffered < q.limit
    requires s.workers == before + [Worker([Frame(id, [])], Sending)]
    ensures CanReach(q, s0, t) && t == s.(workers := before, buffered := s.buffered + 1)
  {
    hide CanReach;
    ReachStep(q, s0, s, Send(|before|));
    t := Step(q, s, Send(|before|));
    assert t.workers == before;
  }

  lemma {:induction false} SpreadFrom(q: Query, ids: seq<Id>, users: seq<Id>, s: State, i: nat) returns (t: State)
    requires Spread(q, ids, users) && q.first !! q.fromUser && i <= 2 * q.limit < |ids|
    requires Launched(q, ids, users, s, i) && CanReach(q, Start(q), s)
    ensures Blocked(q, t) && CanReach(q, Start(q), t)
    decreases 2 * q.limit - i
  {
    hide CanReach, Blocked;
    if i < 2 * q.limit {
      t := LaunchNext(q, Start(q), s, ids[i], users[i]);
      if i < q.limit {
        t := SendLast(q, Start(q), t, s.workers, ids[i]);
      }
      t := SpreadFrom(q, ids, users, t, i + 1);
    } else {
      ReachStep(q, Start(q), s, Mark(ids[i]));
      t := Step(q, s, Mark(ids[i]));
      BlockedWhen(q, t);
    }
  }

  /** More than `2 * limit` first-level ids, each with a match of its own, can block the search. */
  lemma SpreadBlocks(q: Query, ids: seq<Id>, users: seq<Id>) returns (run: seq<Choice>, t: State)
    requires Spread(q, ids, users) && q.first !! q.fromUser && 2 * q.limit < |ids|
    ensures RunsTo(q, Start(q), run, t) && Blocked(q, t)
  {
    hide RunsTo, Blocked;
    ReachSelf(q, Start(q));
    t := SpreadFrom(q, ids, users, Start(q), 0);
    run :| RunsTo(q, Start(q), run, t);
  }

  // ---- Exactly when no run can block --------------------------------------

  ghost predicate NeverBlocks(first: set<Id>, fromUser: set<Id>, limit: nat) {
    forall q: Query, run, t ::
      q.first == first && q.fromUser == fromUser && q.limit == limit && q.g.Valid() && RunsTo(q, Start(q), run, t) ==>
        !Blocked(q, t)
  }

  /** Whatever the tuples are, no run blocks iff there is one first-level id at most, or too few user ids. */
  lemma NeverBlocksIff(first: set<Id>, fromUser: set<Id>, limit: nat)
    requires first !! fromUser
    ensures NeverBlocks(first, fromUser, limit) <==> !CanBlock(first, fromUser, limit)
  {
    hide RunsTo, Blocked, CanBlock;
    if CanBlock(first, fromUser, limit) {
      var q, run, t := BlockedRun(first, fromUser, limit);
    } else {
      forall q: Query, run, t |
        q.first == first && q.fromUser == fromUser && q.limit == limit && q.g.Valid() && RunsTo(q, Start(q), run, t)
        ensures !Blocked(q, t)
      {
        if Blocked(q, t) {
          BlockedNeeds(q, run, t);
        }
      }
    }
  }
}
