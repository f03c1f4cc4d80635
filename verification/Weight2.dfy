/**
 The weight-two strategy: do the ids the user reaches (left, sorted, in batches) meet
 the ids the object points to (right)?  The two channels are drained concurrently, so
 each round takes from either one.
 */
module Weight2 {
  import opened SortedStreams

  ghost predicate Meet(left: seq<Id>, right: seq<Id>) {
    exists v :: v in left && v in right
  }

  /** What one side has kept of the ids it received; 0 stands for no last id yet. */
  datatype Side = Side(seen: set<Id>, last: Id)

  /** With pruning, an id not beyond the other side's last kept id is not worth keeping. */
  function Keep(mine: Side, other: Side, t: Id, prune: bool): Side {
    if !prune || mine.last == 0 || other.last == 0 || t > other.last then Side(mine.seen + {t}, t) else mine
  }

  /** `side` kept only received ids, and what it did not keep lies behind the other side. */
  ghost predicate Fair(side: Side, done: seq<Id>, todo: seq<Id>, other: Side, prune: bool) {
    && (forall v :: v in side.seen ==> v in done)
    && (side.last != 0 ==> side.last in side.seen)
    && (side.seen == {} ==> done == [])
    && (forall v :: v in done && v !in side.seen ==> prune && v < other.last)
    && (prune ==> Sorted(false, todo) && Ahead(false, done, Elems(todo)))
  }

  /** One side of a run that has not met so far: what arrived, what is to come, and all of it. */
  datatype Feed = Feed(done: seq<Id>, todo: seq<Id>, whole: seq<Id>)

  ghost predicate Unmet(mine: Side, a: Feed, theirs: Side, b: Feed, prune: bool) {
    && a.done + a.todo == a.whole && b.done + b.todo == b.whole
    && Fair(mine, a.done, a.todo, theirs, prune) && Fair(theirs, b.done, b.todo, mine, prune)
    && !Meet(a.done, b.done) && !Meet(b.done, a.done)
  }

  function Later(f: Feed, chunk: seq<Id>, rest: seq<Id>): Feed {
    Feed(f.done + chunk, rest, f.whole)
  }

  lemma NothingArrived(left: seq<Id>, right: seq<Id>, prune: bool)
    requires Sorted(false, left) && (prune ==> Sorted(false, right))
    ensures Unmet(Side({}, 0), Feed([], left, left), Side({}, 0), Feed([], right, right), prune)
  {}

  lemma Silent(mine: Side, a: Feed, theirs: Side, b: Feed, prune: bool)
    requires Unmet(mine, a, theirs, b, prune)
    requires (a.todo == [] && mine.seen == {}) || (b.todo == [] && theirs.seen == {}) || (a.todo == [] && b.todo == [])
    ensures !Meet(a.whole, b.whole)
  {}

  lemma Hit(mine: Side, a: Feed, theirs: Side, b: Feed, prune: bool, v: Id)
    requires Unmet(mine, a, theirs, b, prune) && v in a.todo && v in b.done
    ensures Meet(a.whole, b.whole) && Meet(b.whole, a.whole)
  {
    hide Fair;
    assert v in a.whole && v in b.whole;
  }

  lemma Kept(mine: Side, a: Feed, theirs: Side, b: Feed, prune: bool)
    requires Unmet(mine, a, theirs, b, prune)
    ensures forall v :: v in mine.seen ==> v in a.done
    ensures forall v :: v in theirs.seen ==> v in b.done
    ensures Unmet(theirs, b, mine, a, prune)
  {}

  /** One id arrives on one side and matches nothing the other side has kept. */
  lemma Arrival(mine: Side, done: seq<Id>, todo: seq<Id>, other: Side, otherDone: seq<Id>, otherTodo: seq<Id>,
                prune: bool)
    requires Fair(mine, done, todo, other, prune) && Fair(other, otherDone, otherTodo, mine, prune)
    requires !Meet(done, otherDone)
    requires todo != [] && todo[0] !in other.seen
    ensures var mine' := Keep(mine, other, todo[0], prune);
            && Fair(mine', done + [todo[0]], todo[1..], other, prune)
            && Fair(other, otherDone, otherTodo, mine', prune)
            && !Meet(done + [todo[0]], otherDone)
            && !Meet(otherDone, done + [todo[0]])
  {
    var t := todo[0];
    assert t in Elems(todo);
    if prune {
      SortedTail(false, todo);
      assert mine.last != 0 ==> mine.last <= t;
    }
    assert t !in otherDone;
  }

  lemma Arrives(mine: Side, a: Feed, theirs: Side, b: Feed, prune: bool)
    requires Unmet(mine, a, theirs, b, prune)
    requires a.todo != [] && a.todo[0] !in theirs.seen
    ensures Unmet(Keep(mine, theirs, a.todo[0], prune), Later(a, [a.todo[0]], a.todo[1..]), theirs, b, prune)
  {
    hide Fair, Keep, Meet;
    Arrival(mine, a.done, a.todo, theirs, b.done, b.todo, prune);
    assert a.done + [a.todo[0]] + a.todo[1..] == a.done + a.todo;
  }

  /** All ids of one left message; stops at the first that the right side has kept. */
  method ProcessBatch(batch: seq<Id>, mine: Side, theirs: Side, ordered: bool, ghost a: Feed, ghost rest: seq<Id>,
                      ghost b: Feed)
    returns (hit: bool, mine': Side)
    requires Unmet(mine, a, theirs, b, ordered) && a.todo == batch + rest
    ensures hit ==> Meet(a.whole, b.whole)
    ensures !hit ==> Unmet(mine', Later(a, batch, rest), theirs, b, ordered)
  {
    hide Unmet, Keep;
    mine' := mine;
    ghost var now := a;
    for i := 0 to |batch|
      invariant Unmet(mine', now, theirs, b, ordered)
      invariant now == Later(a, batch[..i], batch[i..] + rest)
    {
      assert now.todo[0] == batch[i] && now.todo[1..] == batch[i + 1..] + rest;
      Kept(mine', now, theirs, b, ordered);
      if batch[i] in theirs.seen {
        Hit(mine', now, theirs, b, ordered, batch[i]);
        return true, mine';
      }
      Arrives(mine', now, theirs, b, ordered);
      mine' := Keep(mine', theirs, batch[i], ordered);
      now := Later(now, [batch[i]], now.todo[1..]);
      assert a.done + batch[..i] + [batch[i]] == a.done + batch[..i + 1];
    }
    assert batch[|batch|..] + rest == rest && batch[..|batch|] == batch;
    hit := false;
  }

  method Execute(left: seq<seq<Id>>, right: seq<Id>, ordered: bool) returns (allowed: bool)
    requires Sorted(false, Flatten(left))
    requires ordered ==> Sorted(false, right)
    ensures allowed <==> Meet(Flatten(left), right)
  {
    hide Unmet, Keep, Meet, Sorted;
    var leftOpen, rightOpen := true, true;
    var l, r := left, right;
    var mine, theirs := Side({}, 0), Side({}, 0);
    ghost var a, b := Feed([], Flatten(left), Flatten(left)), Feed([], right, right);
    NothingArrived(Flatten(left), right, ordered);
    while leftOpen || rightOpen
      invariant Unmet(mine, a, theirs, b, ordered)
      invariant a.todo == Flatten(l) && a.whole == Flatten(left) && b.todo == r && b.whole == right
      invariant (leftOpen || l == []) && (rightOpen || r == [])
      decreases leftOpen, rightOpen, |l|, |r|
    {
      Kept(mine, a, theirs, b, ordered);
      var takeLeft: bool := *;
      if leftOpen && (takeLeft || !rightOpen) {
        if l == [] {
          leftOpen := false;
          if mine.seen == {} {
            Silent(mine, a, theirs, b, ordered);
            return false;
          }
          continue;
        }
        allowed, mine := ProcessBatch(l[0], mine, theirs, ordered, a, Flatten(l[1..]), b);
        if allowed {
          return;
        }
        a, l := Later(a, l[0], Flatten(l[1..])), l[1..];
      } else {
        if r == [] {
          rightOpen := false;
          if theirs.seen == {} {
            Silent(mine, a, theirs, b, ordered);
            return false;
          }
          continue;
        }
        if r[0] in mine.seen {
          Hit(theirs, b, mine, a, ordered, r[0]);
          return true;
        }
        Arrives(theirs, b, mine, a, ordered);
        theirs := Keep(theirs, mine, r[0], ordered);
        b, r := Later(b, [r[0]], r[1..]), r[1..];
        Kept(theirs, b, mine, a, ordered);
      }
    }
    Silent(mine, a, theirs, b, ordered);
    return false;
  }
}
