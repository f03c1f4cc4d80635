/**
 The v1 recursive strategy: level by level from the object's first-level ids, within
 the resolution depth.  Conditions are evaluated by the iterator, so only rows that
 pass are seen.
 */
module BreadthFirst {
  import opened Reachability

  datatype Answer = Allowed | Denied | DepthExceeded

  /** Reachable from `starts` in at most `n` steps. */
  ghost predicate Within(g: Graph, starts: set<Id>, x: Id, n: int) {
    exists path :: IsPath(g, path) && path[0] in starts && path[|path| - 1] == x && |path| - 1 <= n
  }

  /** Some id wanted by the user is at most `n` steps away. */
  ghost predicate MatchWithin(g: Graph, first: set<Id>, fromUser: set<Id>, n: int) {
    exists x :: x in fromUser && Within(g, first, x, n)
  }

  /**
   There is something to look at `n` steps away: a first-level id, or a row of an id that is `n - 1`
   steps away and no fewer.
   */
  ghost predicate Frontier(g: Graph, first: set<Id>, n: nat) {
    if n == 0 then first != {}
    else exists a, b :: Within(g, first, a, n - 1) && !Within(g, first, a, n - 2) && g.Leads(a, b)
  }

  /** Once `n` levels have been expanded: visited are the ids fewer than `n` steps away, the level adds those at `n`. */
  ghost predicate Explored(g: Graph, first: set<Id>, fromUser: set<Id>, visited: set<Id>, level: set<Id>, n: nat) {
    && level <= g.nodes + first
    && (visited + level) !! fromUser
    && (forall x :: x in visited <==> Within(g, first, x, n - 1))
    && (forall x :: x in visited + level <==> Within(g, first, x, n))
    && (level != {} <==> Frontier(g, first, n))
  }

  lemma WithinMore(g: Graph, first: set<Id>, x: Id, m: int, n: int)
    requires Within(g, first, x, m) && m <= n
    ensures Within(g, first, x, n)
  {}

  /** One step more reaches exactly the successors of what was within reach before. */
  lemma WithinStep(g: Graph, first: set<Id>, n: nat, x: Id)
    ensures Within(g, first, x, n + 1) <==>
              Within(g, first, x, n) || exists a :: Within(g, first, a, n) && g.Leads(a, x)
  {
    if Within(g, first, x, n + 1) {
      var path :| IsPath(g, path) && path[0] in first && path[|path| - 1] == x && |path| - 1 <= n + 1;
      if |path| - 1 > n {
        var shorter := path[..|path| - 1];
        var y := shorter[|shorter| - 1];
        assert IsPath(g, shorter) && shorter[0] in first && |shorter| - 1 <= n;
        assert Within(g, first, y, n);
        assert g.Leads(path[|path| - 2], path[|path| - 1]);
      }
    }
    if a :| Within(g, first, a, n) && g.Leads(a, x) {
      var path :| IsPath(g, path) && path[0] in first && path[|path| - 1] == a && |path| - 1 <= n;
      var longer := path + [x];
      assert IsPath(g, longer) && longer[0] in first && longer[|longer| - 1] == x && |longer| - 1 <= n + 1;
    }
  }

  lemma WithinNone(g: Graph, first: set<Id>, x: Id)
    ensures !Within(g, first, x, -1) && (Within(g, first, x, 0) <==> x in first)
  {
    if x in first {
      assert IsPath(g, [x]) && [x][0] in first && [x][|[x]| - 1] == x;
    }
  }

  lemma LevelDone(g: Graph, first: set<Id>, fromUser: set<Id>, visited: set<Id>, level: set<Id>, n: nat,
                  visited': set<Id>, next: set<Id>)
    requires g.Valid() && Explored(g, first, fromUser, visited, level, n)
    requires visited' == visited + level
    requires forall b :: b in next <==> exists a :: a in level - visited && g.Leads(a, b)
    requires next !! fromUser
    ensures Explored(g, first, fromUser, visited', next, n + 1)
  {
    hide Within, Frontier;
    forall x ensures x in visited' + next <==> Within(g, first, x, n + 1) {
      WithinStep(g, first, n, x);
      if a :| Within(g, first, a, n) && g.Leads(a, x) {
        if a in visited {
          VisitedLeads(g, first, fromUser, visited, level, n, a, x);
        }
      }
    }
    NextFrontier(g, first, fromUser, visited, level, n, next);
  }

  lemma VisitedLeads(g: Graph, first: set<Id>, fromUser: set<Id>, visited: set<Id>, level: set<Id>, n: nat,
                     a: Id, b: Id)
    requires Explored(g, first, fromUser, visited, level, n) && a in visited && g.Leads(a, b)
    ensures b in visited + level
  {
    WithinNone(g, first, a);
    WithinStep(g, first, n - 1, b);
  }

  lemma NextFrontier(g: Graph, first: set<Id>, fromUser: set<Id>, visited: set<Id>, level: set<Id>, n: nat,
                     next: set<Id>)
    requires Explored(g, first, fromUser, visited, level, n)
    requires forall b :: b in next <==> exists a :: a in level - visited && g.Leads(a, b)
    ensures next != {} <==> Frontier(g, first, n + 1)
  {
    hide Within;
    if b :| b in next {
      var a :| a in level - visited && g.Leads(a, b);
      assert Within(g, first, a, n) && !Within(g, first, a, n - 1);
    }
    if Frontier(g, first, n + 1) {
      var a, b :| Within(g, first, a, n) && !Within(g, first, a, n - 1) && g.Leads(a, b);
      assert a in level - visited;
      assert b in next;
    }
  }

  /** Where nothing is left to look at, nothing further away is within reach. */
  lemma {:induction false} FrontierEnds(g: Graph, first: set<Id>, n: nat, m: nat, x: Id)
    requires !Frontier(g, first, n) && n <= m
    ensures !Frontier(g, first, m)
    ensures Within(g, first, x, m) ==> Within(g, first, x, n - 1)
    decreases m
  {
    if m > n {
      hide Within;
      var further, nearer := m - 1, n - 1;
      forall y | Within(g, first, y, further) ensures Within(g, first, y, nearer) {
        FrontierEnds(g, first, n, m - 1, y);
      }
      FrontierEnds(g, first, n, m - 1, x);
      assert !Frontier(g, first, m) by {
        if a, b :| Within(g, first, a, m - 1) && !Within(g, first, a, m - 2) && g.Leads(a, b) {
          WithinMore(g, first, a, n - 1, m - 2);
        }
      }
      ReachStays(g, first, m, x);
      if Within(g, first, x, m) {
        assert Within(g, first, x, m - 1);
      }
    } else {
      ReachStays(g, first, n, x);
    }
  }

  /** Without a frontier at `m`, the last step reaches nothing new. */
  lemma ReachStays(g: Graph, first: set<Id>, m: nat, x: Id)
    requires !Frontier(g, first, m)
    ensures Within(g, first, x, m) ==> Within(g, first, x, m - 1)
  {
    WithinNone(g, first, x);
    if m > 0 && Within(g, first, x, m) {
      WithinStep(g, first, m - 1, x);
      if !Within(g, first, x, m - 1) {
        var a :| Within(g, first, a, m - 1) && g.Leads(a, x);
        WithinNone(g, first, a);
        assert Within(g, first, a, m - 2);
        WithinStep(g, first, m - 2, x);
      }
    }
  }

  /** Expands one level; the order of its ids and of their rows does not matter. */
  method ExpandLevel(g: Graph, fromUser: set<Id>, visited: set<Id>, level: set<Id>)
    returns (hit: bool, visited': set<Id>, next: set<Id>)
    ensures hit ==> exists a, b :: a in level && g.Leads(a, b) && b in fromUser
    ensures !hit ==>
              && visited' == visited + level
              && next !! fromUser
              && forall b :: b in next <==> exists a :: a in level - visited && g.Leads(a, b)
  {
    visited', next := visited, {};
    var todo := level;
    while todo != {}
      invariant todo <= level && visited' == visited + (level - todo)
      invariant next !! fromUser
      invariant forall b :: b in next <==> exists a :: a in level - todo - visited && g.Leads(a, b)
    {
      var id :| id in todo;
      ghost var before := next;
      if id !in visited' {
        var rows := g.RowsOf(id);
        for i := 0 to |rows|
          invariant next !! fromUser
          invariant forall b :: b in next <==> b in before || exists j :: 0 <= j < i && rows[j] == Row(b, true)
        {
          if rows[i].passes {
            assert rows[i] == Row(rows[i].to, true);
            if rows[i].to in fromUser {
              assert g.Leads(id, rows[i].to);
              return true, visited', next;
            }
            next := next + {rows[i].to};
          }
        }
        assert forall b :: g.Leads(id, b) <==> exists j :: 0 <= j < |rows| && rows[j] == Row(b, true);
      }
      visited', todo := visited' + {id}, todo - {id};
    }
    hit := false;
  }

  /** What the search answers, said of path lengths alone; `maxDepth` is met only from below. */
  ghost predicate IsAnswer(g: Graph, first: set<Id>, fromUser: set<Id>, depth0: nat, maxDepth: nat, answer: Answer) {
    if depth0 >= maxDepth then
      answer == if exists x :: x in fromUser && Reachable(g, first, x) then Allowed else Denied
    else
      var limit: nat := maxDepth - depth0 - 1;
      answer ==
        if MatchWithin(g, first, fromUser, limit) then Allowed
        else if limit == 0 || Frontier(g, first, limit - 1) then DepthExceeded
        else Denied
  }

  /**
   Within the limit a match is found wherever there is one.  Without one, the limit is exceeded
   exactly if the levels it leaves are not exhausted before.
   */
  method Search(g: Graph, first: set<Id>, fromUser: set<Id>, depth0: nat, maxDepth: nat) returns (answer: Answer)
    requires g.Valid() && first !! fromUser
    ensures IsAnswer(g, first, fromUser, depth0, maxDepth, answer)
    ensures answer.Allowed? ==> exists x :: x in fromUser && Reachable(g, first, x)
    ensures answer.Denied? ==> !exists x :: x in fromUser && Reachable(g, first, x)
  {
    hide Explored, Within, IsAnswer;
    var depth, visited, level := depth0, {}, first;
    ghost var n := 0;
    Unexplored(g, first, fromUser);
    while true
      invariant depth == depth0 + n && (depth0 < maxDepth ==> depth < maxDepth)
      invariant Explored(g, first, fromUser, visited, level, n)
      invariant n > 0 ==> Frontier(g, first, n - 1)
      decreases g.nodes + first - visited, if level == {} then 0 else 1
    {
      depth := depth + 1;
      if depth == maxDepth {
        NoneWithin(g, first, fromUser, visited, level, n, depth0, maxDepth);
        return DepthExceeded;
      }
      if level == {} {
        NoneReachable(g, first, fromUser, visited, n, depth0, maxDepth);
        return Denied;
      }
      var hit, visited', next := ExpandLevel(g, fromUser, visited, level);
      if hit {
        ghost var a, b :| a in level && g.Leads(a, b) && b in fromUser;
        FoundBelow(g, first, fromUser, visited, level, n, a, b, depth0, maxDepth);
        return Allowed;
      }
      LevelDone(g, first, fromUser, visited, level, n, visited', next);
      Narrows(g, first, fromUser, visited, level, n, visited', next);
      visited, level := visited', next;
      n := n + 1;
    }
  }

  lemma Unexplored(g: Graph, first: set<Id>, fromUser: set<Id>)
    requires first !! fromUser
    ensures Explored(g, first, fromUser, {}, first, 0)
  {
    forall x ensures !Within(g, first, x, -1) && (Within(g, first, x, 0) <==> x in first) {
      WithinNone(g, first, x);
    }
  }

  lemma NoneWithin(g: Graph, first: set<Id>, fromUser: set<Id>, visited: set<Id>, level: set<Id>, n: nat,
                   depth0: nat, maxDepth: nat)
    requires Explored(g, first, fromUser, visited, level, n) && depth0 + n + 1 == maxDepth
    requires n > 0 ==> Frontier(g, first, n - 1)
    ensures IsAnswer(g, first, fromUser, depth0, maxDepth, DepthExceeded)
  {
    hide Within, Frontier;
  }

  lemma ReachableWithin(g: Graph, first: set<Id>, x: Id)
    ensures Reachable(g, first, x) <==> exists m: nat :: Within(g, first, x, m)
  {
    if Reachable(g, first, x) {
      var path :| IsPath(g, path) && path[0] in first && path[|path| - 1] == x;
      assert Within(g, first, x, |path| - 1);
    }
  }

  lemma NoneReachable(g: Graph, first: set<Id>, fromUser: set<Id>, visited: set<Id>, n: nat, depth0: nat, maxDepth: nat)
    requires Explored(g, first, fromUser, visited, {}, n) && (depth0 < maxDepth ==> depth0 + n + 1 < maxDepth)
    ensures IsAnswer(g, first, fromUser, depth0, maxDepth, Denied)
    ensures !exists x :: x in fromUser && Reachable(g, first, x)
  {
    hide Within, Frontier;
    forall x, m: nat | Within(g, first, x, m) ensures x !in fromUser {
      if n <= m {
        FrontierEnds(g, first, n, m, x);
      } else {
        WithinMore(g, first, x, m, n);
      }
    }
    forall x | x in fromUser ensures !Reachable(g, first, x) {
      ReachableWithin(g, first, x);
    }
    if depth0 < maxDepth {
      FrontierEnds(g, first, n, maxDepth - depth0 - 2, "");
    }
  }

  lemma FoundBelow(g: Graph, first: set<Id>, fromUser: set<Id>, visited: set<Id>, level: set<Id>, n: nat, a: Id, b: Id,
                   depth0: nat, maxDepth: nat)
    requires Explored(g, first, fromUser, visited, level, n) && a in level && g.Leads(a, b) && b in fromUser
    requires depth0 < maxDepth ==> depth0 + n + 1 < maxDepth
    ensures Reachable(g, first, b)
    ensures IsAnswer(g, first, fromUser, depth0, maxDepth, Allowed)
  {
    hide Within, Reachable, Frontier;
    WithinStep(g, first, n, b);
    ReachableWithin(g, first, b);
    if depth0 < maxDepth {
      WithinMore(g, first, b, n + 1, maxDepth - depth0 - 1);
    }
  }

  /** Either an unvisited id was expanded, or the next level is empty. */
  lemma Narrows(g: Graph, first: set<Id>, fromUser: set<Id>, visited: set<Id>, level: set<Id>, n: nat,
                visited': set<Id>, next: set<Id>)
    requires Explored(g, first, fromUser, visited, level, n) && level != {}
    requires visited' == visited + level
    requires forall b :: b in next <==> exists a :: a in level - visited && g.Leads(a, b)
    ensures g.nodes + first - visited' <= g.nodes + first - visited
    ensures g.nodes + first - visited' == g.nodes + first - visited ==> next == {}
    ensures Frontier(g, first, n)
  {}

  /** So a match that the depth limit leaves room for is always found. */
  method FindsWithinDepth(g: Graph, first: set<Id>, fromUser: set<Id>, depth0: nat, maxDepth: nat, ghost x: Id)
    returns (answer: Answer)
    requires g.Valid() && first !! fromUser
    requires x in fromUser && Reachable(g, first, x)
    requires maxDepth <= depth0 || Within(g, first, x, maxDepth - depth0 - 1)
    ensures answer.Allowed?
  {
    answer := Search(g, first, fromUser, depth0, maxDepth);
  }

  /** And where the limit leaves two levels more than there are, the answer is reachability. */
  method DecidesWithinDepth(g: Graph, first: set<Id>, fromUser: set<Id>, depth0: nat, maxDepth: nat, ghost k: nat)
    returns (answer: Answer)
    requires g.Valid() && first !! fromUser && depth0 + k + 3 < maxDepth
    requires forall x :: Reachable(g, first, x) ==> Within(g, first, x, k)
    ensures answer == if exists x :: x in fromUser && Reachable(g, first, x) then Allowed else Denied
  {
    answer := Search(g, first, fromUser, depth0, maxDepth);
    if answer.DepthExceeded? {
      NoFrontier(g, first, k, maxDepth - depth0 - 2);
    }
  }

  lemma NoFrontier(g: Graph, first: set<Id>, k: nat, m: nat)
    requires k + 1 < m && forall x :: Reachable(g, first, x) ==> Within(g, first, x, k)
    ensures !Frontier(g, first, m)
  {
    hide Within, Reachable;
    if a, b :| Within(g, first, a, m - 1) && !Within(g, first, a, m - 2) && g.Leads(a, b) {
      ReachableWithin(g, first, a);
      WithinMore(g, first, a, k, m - 2);
    }
  }

  lemma NoIds(ids: seq<Id>)
    ensures IdSet(ids) == {} <==> ids == []
  {
    assert ids != [] ==> ids[0] in IdSet(ids);
  }

  lemma SharedIsAnswer(g: Graph, first: set<Id>, fromUser: set<Id>, depth0: nat, maxDepth: nat, x: Id)
    requires x in first && x in fromUser
    ensures Reachable(g, first, x) && IsAnswer(g, first, fromUser, depth0, maxDepth, Allowed)
  {
    WithinNone(g, first, x);
    ReachableStart(g, first, x);
    if depth0 < maxDepth {
      WithinMore(g, first, x, 0, maxDepth - depth0 - 1);
    }
  }

  /**
   The whole v1 strategy: load the user's ids and the first level from two channels, taking
   messages from either, stop early at a match or an empty side, then search by levels.
   */
  method RecursiveFastPath(g: Graph, left: seq<Id>, right: seq<Id>, depth0: nat, maxDepth: nat) returns (answer: Answer)
    requires g.Valid()
    ensures answer.Allowed? ==> exists x :: x in IdSet(left) && Reachable(g, IdSet(right), x)
    ensures answer.Denied? ==> !exists x :: x in IdSet(left) && Reachable(g, IdSet(right), x)
    ensures if left == [] || right == [] then answer == Denied
            else IsAnswer(g, IdSet(right), IdSet(left), depth0, maxDepth, answer)
  {
    if right == [] {
      forall x | Reachable(g, IdSet(right), x) ensures false { ReachableInside(g, IdSet(right), {}, x); }
      return Denied;
    }
    var fromUser, fromObject := {}, {right[0]};
    var i, j, leftDone, rightDone := 0, 1, false, false;
    assert right[..1] == [right[0]];
    while !leftDone || !rightDone
      invariant 0 <= i <= |left| && 1 <= j <= |right|
      invariant (leftDone ==> i == |left| && left != []) && (rightDone ==> j == |right|)
      invariant fromUser == IdSet(left[..i]) && fromObject == IdSet(right[..j]) && fromUser !! fromObject
      decreases !leftDone, !rightDone, |left| - i, |right| - j
    {
      var takeLeft: bool := *;
      if !leftDone && (takeLeft || rightDone) {
        if i == |left| {
          leftDone := true;
          assert left[..i] == left;
          if fromUser == {} {
            NoIds(left);
            return Denied;
          }
          continue;
        }
        if left[i] in fromObject {
          SharedIsAnswer(g, IdSet(right), IdSet(left), depth0, maxDepth, left[i]);
          return Allowed;
        }
        assert left[..i + 1] == left[..i] + [left[i]];
        fromUser, i := fromUser + {left[i]}, i + 1;
      } else {
        if j == |right| {
          rightDone := true;
          continue;
        }
        if right[j] in fromUser {
          SharedIsAnswer(g, IdSet(right), IdSet(left), depth0, maxDepth, right[j]);
          return Allowed;
        }
        assert right[..j + 1] == right[..j] + [right[j]];
        fromObject, j := fromObject + {right[j]}, j + 1;
      }
    }
    assert left[..|left|] == left && right[..|right|] == right;
    answer := Search(g, fromObject, fromUser, depth0, maxDepth);
  }
}
