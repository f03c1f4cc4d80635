/** The graph a recursive relation spans over object ids. */
module Reachability {

  type Id = string

  function IdSet(ids: seq<Id>): set<Id> {
    set x | x in ids
  }

  /** A tuple that leads to another id; `passes` is the outcome of its condition. */
  datatype Row = Row(to: Id, passes: bool)

  datatype Graph = Graph(nodes: set<Id>, rows: map<Id, seq<Row>>) {
    function RowsOf(id: Id): seq<Row> {
      if id in rows then rows[id] else []
    }

    /** Finitely many ids. */
    predicate Valid() {
      forall id, row :: id in rows && row in rows[id] ==> row.to in nodes
    }

    predicate Leads(a: Id, b: Id) {
      Row(b, true) in RowsOf(a)
    }
  }

  ghost predicate IsPath(g: Graph, path: seq<Id>) {
    path != [] && forall i :: 0 <= i < |path| - 1 ==> g.Leads(path[i], path[i + 1])
  }

  /** Reachable from `starts` in zero or more steps over tuples that pass. */
  ghost predicate Reachable(g: Graph, starts: set<Id>, x: Id) {
    exists path :: IsPath(g, path) && path[0] in starts && path[|path| - 1] == x
  }

  lemma ReachableStart(g: Graph, starts: set<Id>, x: Id)
    requires x in starts
    ensures Reachable(g, starts, x)
  {
    assert IsPath(g, [x]) && [x][0] in starts && [x][|[x]| - 1] == x;
  }

  lemma ReachableStep(g: Graph, starts: set<Id>, x: Id, y: Id)
    requires Reachable(g, starts, x) && g.Leads(x, y)
    ensures Reachable(g, starts, y)
  {
    var path :| IsPath(g, path) && path[0] in starts && path[|path| - 1] == x;
    var longer := path + [y];
    assert IsPath(g, longer) && longer[0] in starts && longer[|longer| - 1] == y;
  }

  /** A set that holds the starts and is closed under steps holds everything reachable. */
  lemma {:induction false} PathStaysInside(g: Graph, S: set<Id>, path: seq<Id>)
    requires forall a, b :: a in S && g.Leads(a, b) ==> b in S
    requires IsPath(g, path) && path[0] in S
    ensures path[|path| - 1] in S
  {
    if |path| > 1 {
      assert g.Leads(path[0], path[1]);
      assert forall i :: 0 <= i < |path[1..]| - 1 ==> g.Leads(path[1..][i], path[1..][i + 1]);
      PathStaysInside(g, S, path[1..]);
    }
  }

  lemma ReachableInside(g: Graph, starts: set<Id>, S: set<Id>, x: Id)
    requires starts <= S && Reachable(g, starts, x)
    requires forall a, b :: a in S && g.Leads(a, b) ==> b in S
    ensures x in S
  {
    var path :| IsPath(g, path) && path[0] in starts && path[|path| - 1] == x;
    PathStaysInside(g, S, path);
  }
}
