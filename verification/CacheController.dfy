/** Which cached iterators a changelog refresh invalidates. */
module CacheController {
  import opened Options

  type Name = string

  type Time = real

  datatype Object = Object(kind: Name, id: Name)

  datatype Change = Change(obj: Object, relation: Name, user: Name, at: Time)

  /** What a cached iterator reads, and what an invalidation entry is kept for. */
  datatype Entity = ObjectRelation(obj: Object, relation: Name) | UserObjectType(user: Name, kind: Name)

  function EntitiesOf(c: Change): set<Entity> {
    {ObjectRelation(c.obj, c.relation), UserObjectType(c.user, c.obj.kind)}
  }

  /** The invalidation entries: one for the store, which stays, and one per entity. */
  datatype Marks = Marks(store: Option<Time>, entities: map<Entity, Time>)

  /** The changelog, most recent change first. */
  ghost predicate Descending(changes: seq<Change>) {
    forall i, j :: 0 <= i < j < |changes| ==> changes[i].at >= changes[j].at
  }

  ghost predicate StoreMarked(m: Marks, at: Time) {
    m.store.Some? && m.store.value >= at
  }

  ghost predicate EntityMarked(m: Marks, e: Entity, at: Time) {
    e in m.entities && m.entities[e] >= at
  }

  /** The store, or both entities the change concerns, are marked no earlier than the change. */
  ghost predicate Covered(m: Marks, c: Change) {
    StoreMarked(m, c.at) || forall e <- EntitiesOf(c) :: EntityMarked(m, e, c.at)
  }

  /** isInvalidAt at time `now`, for an iterator over `watch` read at `from`; an entity's entry lives for `ttl`. */
  predicate Invalid(m: Marks, ttl: Time, now: Time, watch: set<Entity>, from: Time) {
    || (m.store.Some? && from < m.store.value)
    || exists e <- watch :: e in m.entities && now < m.entities[e] + ttl && from < m.entities[e]
  }

  /** While its entries live, a covered change makes every iterator it touches, read before it, invalid. */
  lemma CoveredInvalidates(m: Marks, c: Change, ttl: Time, now: Time, watch: set<Entity>, from: Time)
    requires Covered(m, c) && from < c.at && now < c.at + ttl && watch * EntitiesOf(c) != {}
    ensures Invalid(m, ttl, now, watch, from)
  {
    if !StoreMarked(m, c.at) {
      var e :| e in watch * EntitiesOf(c);
      assert EntityMarked(m, e, c.at);
    }
  }

  // ---- What a refresh writes ----------------------------------------------

  /** The oldest of the first `n` changes that is newer than `limit`; -1 if there is none. */
  function OldestRecent(changes: seq<Change>, n: nat, limit: Time): (idx: int)
    requires n <= |changes|
    ensures -1 <= idx < n
  {
    if n == 0 then -1 else if changes[n - 1].at > limit then n - 1 else OldestRecent(changes, n - 1, limit)
  }

  function Marked(m: Marks, c: Change, at: Time): Marks {
    m.(entities := m.entities[ObjectRelation(c.obj, c.relation) := at][UserObjectType(c.user, c.obj.kind) := at])
  }

  /** The first `n` changes, oldest first. */
  function MarkedAll(m: Marks, changes: seq<Change>, n: nat, at: Time): Marks
    requires n <= |changes|
    decreases n
  {
    if n == 0 then m else MarkedAll(Marked(m, changes[n - 1], at), changes, n - 1, at)
  }

  function Invalidated(m: Marks, page: seq<Change>, limit: Time, at: Time): Marks {
    var idx := OldestRecent(page, |page|, limit);
    if idx == |page| - 1 then m.(store := Some(at)) else MarkedAll(m, page, idx + 1, at)
  }

  lemma {:induction false} OldestRecentMeaning(changes: seq<Change>, n: nat, limit: Time)
    requires n <= |changes| && Descending(changes)
    ensures var idx := OldestRecent(changes, n, limit);
            -1 <= idx < n && forall i :: 0 <= i < n ==> (changes[i].at > limit <==> i <= idx)
  {
    if n > 0 && changes[n - 1].at <= limit {
      OldestRecentMeaning(changes, n - 1, limit);
    }
  }

  /** Marks are replaced by `at` or kept, and the changes' entities are all marked. */
  lemma {:induction false} MarkedAllMeaning(m: Marks, changes: seq<Change>, n: nat, at: Time)
    requires n <= |changes|
    ensures var r := MarkedAll(m, changes, n, at);
            && r.store == m.store
            && m.entities.Keys <= r.entities.Keys
            && (forall e <- r.entities :: r.entities[e] == at || (e in m.entities && r.entities[e] == m.entities[e]))
            && (forall e <- m.entities :: m.entities[e] == at ==> r.entities[e] == at)
            && (forall i, e :: 0 <= i < n && e in EntitiesOf(changes[i]) ==> e in r.entities && r.entities[e] == at)
    decreases n
  {
    if n > 0 {
      MarkedAllMeaning(Marked(m, changes[n - 1], at), changes, n - 1, at);
    }
  }

  /** Some change of the page newer than `limit` concerns the entity. */
  ghost predicate RecentlyChanged(page: seq<Change>, limit: Time, e: Entity) {
    exists i :: 0 <= i < |page| && page[i].at > limit && e in EntitiesOf(page[i])
  }

  lemma {:induction false} MarkedAllExactly(m: Marks, changes: seq<Change>, n: nat, at: Time, e: Entity)
    requires n <= |changes|
    ensures var r := MarkedAll(m, changes, n, at);
            && (e in r.entities <==> e in m.entities || exists i :: 0 <= i < n && e in EntitiesOf(changes[i]))
            && (e in r.entities ==>
                  r.entities[e] == if exists i :: 0 <= i < n && e in EntitiesOf(changes[i]) then at else m.entities[e])
    decreases n
  {
    if n > 0 {
      MarkedAllExactly(Marked(m, changes[n - 1], at), changes, n - 1, at, e);
    }
  }

  /**
   What a refresh writes, and no more: the store's entry if every change read is newer than `limit`;
   otherwise the entries of exactly the entities that newer changes concern.
   */
  lemma InvalidatedExactly(m: Marks, page: seq<Change>, limit: Time, at: Time, e: Entity)
    requires Descending(page)
    ensures var r := Invalidated(m, page, limit, at);
            if forall i :: 0 <= i < |page| ==> page[i].at > limit then r == m.(store := Some(at))
            else
              && r.store == m.store
              && (e in r.entities <==> e in m.entities || RecentlyChanged(page, limit, e))
              && (e in r.entities ==> r.entities[e] == if RecentlyChanged(page, limit, e) then at else m.entities[e])
  {
    OldestRecentMeaning(page, |page|, limit);
    var idx := OldestRecent(page, |page|, limit);
    MarkedAllMeaning(m, page, idx + 1, at);
    MarkedAllExactly(m, page, idx + 1, at, e);
    if i :| 0 <= i < idx + 1 && e in EntitiesOf(page[i]) {
      assert page[i].at > limit;
    }
  }

  /**
   A refresh that has read any non-empty newest part of the changelog covers every change
   of the whole changelog newer than `limit`, read or not.
   */
  lemma RefreshCovers(m: Marks, log: seq<Change>, read: nat, limit: Time, at: Time, c: Change)
    requires Descending(log) && 1 <= read <= |log|
    requires c in log && limit < c.at <= at
    ensures Covered(Invalidated(m, log[..read], limit, at), c)
  {
    var page := log[..read];
    var k :| 0 <= k < |log| && log[k] == c;
    OldestRecentMeaning(page, read, limit);
    var idx := OldestRecent(page, read, limit);
    if idx < read - 1 {
      MarkedAllMeaning(m, page, idx + 1, at);
      assert log[read - 1].at <= limit;
      assert k <= idx && page[k] == c;
    }
  }

  lemma AllCovered(m: Marks, log: seq<Change>, read: nat, limit: Time, at: Time)
    requires Descending(log) && 1 <= read <= |log| && forall c <- log :: c.at <= at
    ensures forall c <- log :: c.at > limit ==> Covered(Invalidated(m, log[..read], limit, at), c)
  {
    hide Covered, Invalidated, Descending;
    forall c | c in log && c.at > limit ensures Covered(Invalidated(m, log[..read], limit, at), c) {
      RefreshCovers(m, log, read, limit, at, c);
    }
  }

  method FindOldestRecent(page: seq<Change>, limit: Time) returns (idx: int)
    ensures idx == OldestRecent(page, |page|, limit)
  {
    idx := |page| - 1;
    while idx >= 0 && page[idx].at <= limit
      invariant -1 <= idx < |page|
      invariant OldestRecent(page, idx + 1, limit) == OldestRecent(page, |page|, limit)
    {
      idx := idx - 1;
    }
  }

  method MarkEach(marks: Marks, page: seq<Change>, last: int, at: Time) returns (m: Marks)
    requires -1 <= last < |page|
    ensures m == MarkedAll(marks, page, last + 1, at)
  {
    m := marks;
    var idx := last;
    while idx >= 0
      invariant -1 <= idx < |page|
      invariant MarkedAll(m, page, idx + 1, at) == MarkedAll(marks, page, last + 1, at)
    {
      m := Marked(m, page[idx], at);
      idx := idx - 1;
    }
  }

  class InMemoryCacheController {
    var lastModified: Option<Time>
    var marks: Marks
    const iteratorTTL: Time

    constructor (ttl: Time)
      ensures lastModified == None && marks == Marks(None, map[]) && iteratorTTL == ttl
    {
      lastModified, marks, iteratorTTL := None, Marks(None, map[]), ttl;
    }

    /**
     findChangesAndInvalidateIfNecessary.  `read` is a non-empty newest part of `log`, or None if
     reading the changelog failed.  `now` and `later` are the clock before and after the scan;
     `lastModified` is None also when its cache entry has expired.
     */
    method Invalidate(read: Option<seq<Change>>, now: Time, later: Time, ghost log: seq<Change>)
      requires Descending(log) && (read.Some? ==> read.value <= log && read.value != [])
      requires now <= later && forall c <- log :: c.at <= later
      modifies this
      ensures lastModified == if read.Some? then Some(read.value[0].at) else old(lastModified)
      ensures marks ==
                if read.None? then old(marks).(store := Some(later))
                else if old(lastModified).Some? && read.value[0].at <= old(lastModified).value then old(marks)
                else Invalidated(old(marks), read.value, now - iteratorTTL, later)
      ensures read.None? ==> forall c <- log :: Covered(marks, c)
      ensures read.Some? && (old(lastModified).None? || read.value[0].at > old(lastModified).value) ==>
                forall c <- log :: c.at > now - iteratorTTL ==> Covered(marks, c)
    {
      if read.None? {
        marks := marks.(store := Some(later));
        return;
      }
      hide Covered, Descending;
      var page, cached := read.value, lastModified;
      lastModified := Some(page[0].at);
      if cached.Some? && page[0].at <= cached.value {
        return;
      }
      var limit := now - iteratorTTL;
      var idx := FindOldestRecent(page, limit);
      if idx == |page| - 1 {
        marks := marks.(store := Some(later));
      } else {
        marks := MarkEach(marks, page, idx, later);
      }
      assert log[..|page|] == page;
      AllCovered(old(marks), log, |page|, limit, later);
    }
  }
}
