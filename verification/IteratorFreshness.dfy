/**
 Cached iterators against the changes of the store, over whole runs of writes, refreshes, reads,
 tests, flushes and look-ups on one clock.  Invalidation entries of single entities expire.
 */
module IteratorFreshness {
  import opened Options
  import opened CacheController

  type Key = string

  /**
   How long an iterator and an entity's invalidation entry stay in the cache, by how much an
   iterator's lifetime may be stretched, how long a read may go on before it is stopped and tested,
   and how long draining the rest may take before the flush.  `watch` is what the query of a key reads.
   */
  datatype Config = Config(
    iteratorTTL: Time, maxJitter: Time, markTTL: Time, maxRead: Time, maxFlush: Time, watch: Key -> set<Entity>)
  {
    predicate Valid() {
      iteratorTTL > 0.0 && maxJitter >= 0.0 && markTTL > 0.0 && maxRead >= 0.0 && maxFlush >= 0.0
    }

    /** How long after its test a read can be served at most. */
    function Tail(): Time {
      maxFlush + iteratorTTL + maxJitter
    }
  }

  datatype Entry = Entry(from: Time, expires: Time)

  /** A read since `from`; `tested` is when it was stopped and found worth storing. */
  datatype Reader = Reader(key: Key, from: Time, tested: Option<Time>)

  /**
   `published` are the changes that were in the changelog at a refresh, `covered` those of them that
   were recent enough to need entries then.  `spaced` says that no change so far was written at the time
   of one recorded before.  The program keeps none of the three.
   */
  datatype State = State(
    now: Time,
    log: seq<Change>,
    lastModified: Option<Time>,
    marks: Marks,
    covered: set<Change>,
    published: set<Change>,
    spaced: bool,
    readers: map<nat, Reader>,
    entries: map<Key, Entry>)

  datatype Action =
    | Wait(ticks: Time)
    | Write(obj: Object, relation: Name, user: Name)
    | Refresh(read: nat)
    | RefreshFails
    | Forget
    | LookUp(key: Key)
    | Open(reader: nat, key: Key)
    | Test(reader: nat)
    | Flush(reader: nat, jitter: Time)

  const INIT := State(0.0, [], None, Marks(None, map[]), {}, {}, true, map[], map[])

  /** findInCache: whether a look-up returns the cached iterator. */
  predicate Served(cfg: Config, s: State, key: Key) {
    && key in s.entries && s.now < s.entries[key].expires
    && !Invalid(s.marks, cfg.markTTL, s.now, cfg.watch(key), s.entries[key].from)
  }

  /** A look-up that does not return the cached iterator deletes it. */
  function LookedUp(cfg: Config, s: State, key: Key): State {
    if Served(cfg, s, key) then s else s.(entries := s.entries - {key})
  }

  function Clamp(x: Time, max: Time): Time {
    if x < 0.0 then 0.0 else if x > max then max else x
  }

  /** Reading the changelog fails, as it does when it is empty: everything is invalidated. */
  function Failed(s: State): State {
    var all := set c | c in s.log;
    s.(marks := s.marks.(store := Some(s.now)), covered := s.covered + all, published := s.published + all)
  }

  predicate News(s: State) {
    s.log != [] && (s.lastModified.Some? ==> s.log[0].at > s.lastModified.value)
  }

  /** A refresh that has read the `n` newest changes, at least one; it writes entries only if there is news. */
  function Refreshed(cfg: Config, s: State, n: nat): State {
    if s.log == [] then Failed(s)
    else
      var read := if n == 0 then 1 else if n > |s.log| then |s.log| else n;
      s.(lastModified := Some(s.log[0].at),
         marks := if News(s) then Invalidated(s.marks, s.log[..read], s.now - cfg.markTTL, s.now) else s.marks,
         covered := s.covered + (set c | c in s.log && c.at > s.now - cfg.markTTL),
         published := s.published + (set c | c in s.log))
  }

  /** Without a hit in the cache the query is read. */
  function Opened(cfg: Config, s: State, reader: nat, key: Key): State {
    if Served(cfg, s, key) then s
    else LookedUp(cfg, s, key).(readers := s.readers[reader := Reader(key, s.now, None)])
  }

  /** A stopped read is given up if its key is served already or was invalidated since. */
  function Tested(cfg: Config, s: State, reader: nat): State {
    if reader !in s.readers || s.readers[reader].tested.Some? || s.now - s.readers[reader].from > cfg.maxRead then s
    else
      var r := s.readers[reader];
      var t := LookedUp(cfg, s, r.key);
      if Served(cfg, s, r.key) || Invalid(s.marks, cfg.markTTL, s.now, cfg.watch(r.key), r.from)
      then t.(readers := s.readers - {reader})
      else t.(readers := s.readers[reader := r.(tested := Some(s.now))])
  }

  /** A tested read that is drained is stored; nothing is tested again. */
  function Flushed(cfg: Config, s: State, reader: nat, jitter: Time): State {
    if reader !in s.readers || s.readers[reader].tested.None? then s
    else
      var r := s.readers[reader];
      if s.now - r.tested.value > cfg.maxFlush then s
      else
        var entry := Entry(r.from, s.now + cfg.iteratorTTL + Clamp(jitter, cfg.maxJitter));
        s.(entries := s.entries[r.key := entry], readers := s.readers - {reader})
  }

  function Step(cfg: Config, s: State, a: Action): State {
    match a
    case Wait(ticks) => if ticks > 0.0 then s.(now := s.now + ticks) else s
    case Write(obj, relation, user) =>
      s.(log := [Change(obj, relation, user, s.now)] + s.log,
         spaced := s.spaced && (s.lastModified.Some? ==> s.lastModified.value < s.now))
    case Refresh(read) => Refreshed(cfg, s, read)
    case RefreshFails => Failed(s)
    case Forget => s.(lastModified := None)
    case LookUp(key) => LookedUp(cfg, s, key)
    case Open(reader, key) => Opened(cfg, s, reader, key)
    case Test(reader) => Tested(cfg, s, reader)
    case Flush(reader, jitter) => Flushed(cfg, s, reader, jitter)
  }

  function After(cfg: Config, run: seq<Action>): State {
    if run == [] then INIT else Step(cfg, After(cfg, run[..|run| - 1]), run[|run| - 1])
  }

  /** An iterator is served that was read before one of the changes to what it reads. */
  ghost predicate ServedBehind(cfg: Config, s: State, key: Key, changes: set<Change>) {
    && Served(cfg, s, key)
    && exists c :: c in changes && cfg.watch(key) * EntitiesOf(c) != {} && s.entries[key].from < c.at
  }

  /** Behind a change some refresh had to take account of. */
  ghost predicate StaleAfter(cfg: Config, run: seq<Action>, key: Key) {
    ServedBehind(cfg, After(cfg, run), key, After(cfg, run).covered)
  }

  /** No change of the run was written at the time of one that was recorded before it. */
  predicate Spaced(cfg: Config, run: seq<Action>) {
    After(cfg, run).spaced
  }

  /** Behind any change that was in the changelog at some refresh. */
  ghost predicate OutdatedAfter(cfg: Config, run: seq<Action>, key: Key) {
    ServedBehind(cfg, After(cfg, run), key, After(cfg, run).published)
  }

  ghost function RunFrom(cfg: Config, s: State, run: seq<Action>): State
    decreases |run|
  {
    if run == [] then s else RunFrom(cfg, Step(cfg, s, run[0]), run[1..])
  }

  /** Once the recorded time is forgotten, the next refresh writes entries whatever the changelog holds. */
  lemma ForgottenIsNews(cfg: Config, s: State)
    ensures News(Step(cfg, s, Forget)) <==> s.log != []
  {}

  /** What a look-up finds invalid stays gone, also when the entry that made it so expires. */
  lemma {:induction false} GoneUntilFlushed(cfg: Config, s: State, key: Key, run: seq<Action>)
    requires !Served(cfg, s, key) && forall i :: 0 <= i < |run| ==> !run[i].Flush?
    ensures !Served(cfg, RunFrom(cfg, Step(cfg, s, LookUp(key)), run), key)
  {
    GoneStays(cfg, LookedUp(cfg, s, key), key, run);
  }

  lemma {:induction false} GoneStays(cfg: Config, s: State, key: Key, run: seq<Action>)
    requires key !in s.entries && forall i :: 0 <= i < |run| ==> !run[i].Flush?
    ensures key !in RunFrom(cfg, s, run).entries
    decreases |run|
  {
    hide Served;
    if run != [] {
      GoneStays(cfg, Step(cfg, s, run[0]), key, run[1..]);
    }
  }

  // ---- What every run keeps -----------------------------------------------

  ghost predicate Orderly(cfg: Config, s: State) {
    && Descending(s.log) && (forall c <- s.log :: c.at <= s.now)
    && (forall c <- s.covered :: Covered(s.marks, c))
    && (forall c <- s.published :: c in s.covered || c.at <= s.now - cfg.markTTL)
    && (forall c <- s.log :: Recorded(cfg, s, c) ==> c in s.covered)
    && (s.lastModified.Some? ==> s.lastModified.value <= s.now)
    && (s.marks.store.Some? ==> s.marks.store.value <= s.now)
    && (forall e <- s.marks.entities :: s.marks.entities[e] <= s.now)
  }

  /** A recent change no newer than the last one recorded. */
  ghost predicate Recorded(cfg: Config, s: State, c: Change) {
    s.lastModified.Some? && c.at <= s.lastModified.value && c.at > s.now - cfg.markTTL
  }

  ghost predicate Timely(cfg: Config, s: State) {
    && (forall i <- s.readers :: var r := s.readers[i];
          r.tested.Some? ==> r.tested.value <= s.now && r.tested.value <= r.from + cfg.maxRead)
    && (forall k <- s.entries :: var e := s.entries[k];
          e.expires <= s.now + cfg.iteratorTTL + cfg.maxJitter && e.expires <= e.from + cfg.maxRead + cfg.Tail())
  }

  /** The store is marked since the change, or an entity with an entry that outlives the iterator. */
  ghost predicate Guarded(m: Marks, ttl: Time, watch: set<Entity>, expires: Time, c: Change) {
    || StoreMarked(m, c.at)
    || forall e <- watch * EntitiesOf(c) :: EntityMarked(m, e, c.at) && expires <= m.entities[e] + ttl
  }

  /** Guarded against every covered change since `from`, up to `expires`. */
  ghost predicate Safe(cfg: Config, s: State, key: Key, from: Time, expires: Time) {
    forall c <- s.covered :: from < c.at ==> Guarded(s.marks, cfg.markTTL, cfg.watch(key), expires, c)
  }

  /** What is cached is safe while it is cached, what is to be flushed for as long as it can be cached. */
  ghost predicate AllSafe(cfg: Config, s: State) {
    && (forall k <- s.entries :: Safe(cfg, s, k, s.entries[k].from, s.entries[k].expires))
    && (forall i <- s.readers :: var r := s.readers[i];
          r.tested.Some? ==> Safe(cfg, s, r.key, r.from, r.tested.value + cfg.Tail()))
  }

  ghost predicate Inv(cfg: Config, s: State) {
    Timely(cfg, s) && (s.spaced ==> Orderly(cfg, s) && (Fresh(cfg) ==> AllSafe(cfg, s)))
  }

  /** Marks outlive whatever was tested before them, and a read's mark is still there when it is tested. */
  ghost predicate Fresh(cfg: Config) {
    cfg.Tail() <= cfg.markTTL && cfg.maxRead <= cfg.markTTL
  }

  /** Marks only move forward. */
  ghost predicate Later(m: Marks, m': Marks) {
    && (m.store.Some? ==> m'.store.Some? && m'.store.value >= m.store.value)
    && (forall e <- m.entities :: e in m'.entities && m'.entities[e] >= m.entities[e])
  }

  lemma LaterKeeps(m: Marks, m': Marks)
    requires Later(m, m')
    ensures forall c :: Covered(m, c) ==> Covered(m', c)
    ensures forall ttl, watch, expires, c ::
              Guarded(m, ttl, watch, expires, c) ==> Guarded(m', ttl, watch, expires, c)
  {}

  lemma InvalidatedLater(m: Marks, page: seq<Change>, limit: Time, at: Time)
    requires (m.store.Some? ==> m.store.value <= at) && forall e <- m.entities :: m.entities[e] <= at
    ensures var m' := Invalidated(m, page, limit, at);
            && Later(m, m')
            && (m'.store.Some? ==> m'.store.value <= at) && forall e <- m'.entities :: m'.entities[e] <= at
  {
    var idx := OldestRecent(page, |page|, limit);
    MarkedAllMeaning(m, page, idx + 1, at);
  }

  /** A change covered now guards every iterator that is gone a mark's lifetime from now. */
  lemma FreshlyGuarded(m: Marks, log: seq<Change>, read: nat, limit: Time, at: Time,
                       ttl: Time, watch: set<Entity>, expires: Time, c: Change)
    requires Descending(log) && 1 <= read <= |log| && c in log && limit < c.at <= at && expires <= at + ttl
    ensures Guarded(Invalidated(m, log[..read], limit, at), ttl, watch, expires, c)
  {
    var page := log[..read];
    var k :| 0 <= k < |log| && log[k] == c;
    OldestRecentMeaning(page, read, limit);
    var idx := OldestRecent(page, read, limit);
    if idx < read - 1 {
      MarkedAllMeaning(m, page, idx + 1, at);
      assert log[read - 1].at <= limit;
      assert k <= idx && page[k] == c;
    }
  }

  /** What was safe before a refresh and is gone a mark's lifetime after it is safe after it. */
  lemma RefreshSafe(cfg: Config, s: State, n: nat, key: Key, from: Time, expires: Time)
    requires Orderly(cfg, s) && Safe(cfg, s, key, from, expires) && expires <= s.now + cfg.markTTL
    ensures Safe(cfg, Refreshed(cfg, s, n), key, from, expires)
  {
    hide Guarded, Covered, Invalidated;
    var t := Refreshed(cfg, s, n);
    if s.log == [] {
      LaterKeeps(s.marks, t.marks);
    } else if !News(s) {
      assert t.covered == s.covered;
    } else {
      var read := if n == 0 then 1 else if n > |s.log| then |s.log| else n;
      var limit := s.now - cfg.markTTL;
      InvalidatedLater(s.marks, s.log[..read], limit, s.now);
      LaterKeeps(s.marks, t.marks);
      forall c | c in t.covered && from < c.at ensures Guarded(t.marks, cfg.markTTL, cfg.watch(key), expires, c) {
        if c !in s.covered {
          FreshlyGuarded(s.marks, s.log, read, limit, s.now, cfg.markTTL, cfg.watch(key), expires, c);
        }
      }
    }
  }

  lemma RefreshOrderly(cfg: Config, s: State, n: nat)
    requires Orderly(cfg, s)
    ensures Orderly(cfg, Refreshed(cfg, s, n))
  {
    hide Covered, Invalidated;
    var t := Refreshed(cfg, s, n);
    if s.log == [] {
      LaterKeeps(s.marks, t.marks);
    } else if !News(s) {
      assert t.covered == s.covered;
    } else {
      var read := if n == 0 then 1 else if n > |s.log| then |s.log| else n;
      var limit := s.now - cfg.markTTL;
      InvalidatedLater(s.marks, s.log[..read], limit, s.now);
      LaterKeeps(s.marks, t.marks);
      AllCovered(s.marks, s.log, read, limit, s.now);
    }
  }

  lemma RefreshKeeps(cfg: Config, s: State, n: nat)
    requires cfg.Valid() && Inv(cfg, s)
    ensures Inv(cfg, Refreshed(cfg, s, n))
  {
    hide Orderly, Safe;
    var t := Refreshed(cfg, s, n);
    if s.spaced {
      RefreshOrderly(cfg, s, n);
    }
    if s.spaced && Fresh(cfg) {
      forall k | k in s.entries ensures Safe(cfg, t, k, s.entries[k].from, s.entries[k].expires) {
        RefreshSafe(cfg, s, n, k, s.entries[k].from, s.entries[k].expires);
      }
      forall i | i in s.readers && s.readers[i].tested.Some?
        ensures Safe(cfg, t, s.readers[i].key, s.readers[i].from, s.readers[i].tested.value + cfg.Tail())
      {
        var r := s.readers[i];
        RefreshSafe(cfg, s, n, r.key, r.from, r.tested.value + cfg.Tail());
      }
    }
  }

  /** A read that passes its test in time has missed no covered change to what it reads. */
  lemma TestSafe(cfg: Config, s: State, key: Key, from: Time, expires: Time)
    requires Fresh(cfg) && Orderly(cfg, s) && s.now - from <= cfg.maxRead
    requires !Invalid(s.marks, cfg.markTTL, s.now, cfg.watch(key), from)
    ensures Safe(cfg, s, key, from, expires)
  {
    forall c | c in s.covered && from < c.at
      ensures Guarded(s.marks, cfg.markTTL, cfg.watch(key), expires, c)
    {
      if cfg.watch(key) * EntitiesOf(c) != {} {
        CoveredInvalidates(s.marks, c, cfg.markTTL, s.now, cfg.watch(key), from);
      }
    }
  }

  lemma GivenUp(cfg: Config, s: State, reader: nat)
    requires Inv(cfg, s)
    ensures Inv(cfg, s.(readers := s.readers - {reader}))
  {
    hide Covered, Descending, Guarded, Fresh;
  }

  /** A read that has passed its test is as good as cached. */
  lemma PassedTest(cfg: Config, s: State, reader: nat)
    requires cfg.Valid() && Inv(cfg, s) && reader in s.readers && s.now - s.readers[reader].from <= cfg.maxRead
    requires !Invalid(s.marks, cfg.markTTL, s.now, cfg.watch(s.readers[reader].key), s.readers[reader].from)
    ensures Inv(cfg, s.(readers := s.readers[reader := s.readers[reader].(tested := Some(s.now))]))
  {
    hide Covered, Descending, Invalid, Guarded;
    var r := s.readers[reader];
    if s.spaced && Fresh(cfg) {
      TestSafe(cfg, s, r.key, r.from, s.now + cfg.Tail());
    }
  }

  lemma TestKeeps(cfg: Config, s: State, reader: nat)
    requires cfg.Valid() && Inv(cfg, s)
    ensures Inv(cfg, Tested(cfg, s, reader))
  {
    hide Inv, Served, Invalid;
    if reader in s.readers {
      var t := LookedUp(cfg, s, s.readers[reader].key);
      LookUpKeeps(cfg, s, s.readers[reader].key);
      GivenUp(cfg, t, reader);
      var r := s.readers[reader];
      if s.now - r.from <= cfg.maxRead && !Invalid(s.marks, cfg.markTTL, s.now, cfg.watch(r.key), r.from) {
        PassedTest(cfg, t, reader);
      }
    }
  }

  /** An iterator flushed in time is gone when the read it came from has to be. */
  lemma FlushKeeps(cfg: Config, s: State, reader: nat, jitter: Time)
    requires cfg.Valid() && Inv(cfg, s)
    ensures Inv(cfg, Flushed(cfg, s, reader, jitter))
  {
    hide Covered, Descending;
    var t := Flushed(cfg, s, reader, jitter);
    if t != s {
      var r := s.readers[reader];
      var e := t.entries[r.key];
      assert e.expires <= r.tested.value + cfg.Tail();
      if s.spaced && Fresh(cfg) {
        assert Safe(cfg, s, r.key, r.from, r.tested.value + cfg.Tail());
        assert Safe(cfg, t, r.key, e.from, e.expires);
      }
    }
  }

  lemma FailureKeeps(cfg: Config, s: State)
    requires Inv(cfg, s)
    ensures Inv(cfg, Step(cfg, s, RefreshFails))
  {
    var t := Step(cfg, s, RefreshFails);
    if s.spaced {
      LaterKeeps(s.marks, t.marks);
      forall c | c in s.log ensures Covered(t.marks, c) && StoreMarked(t.marks, c.at) {}
    }
  }

  lemma ClockKeeps(cfg: Config, s: State, a: Action)
    requires Inv(cfg, s) && (a.Wait? || a.Write? || a.Forget?)
    ensures Inv(cfg, Step(cfg, s, a))
  {
    hide Guarded, Covered, Fresh;
  }

  lemma LookUpKeeps(cfg: Config, s: State, key: Key)
    requires Inv(cfg, s)
    ensures Inv(cfg, LookedUp(cfg, s, key))
  {
    hide Guarded, Covered, Descending, Served, Fresh;
  }

  lemma OpenKeeps(cfg: Config, s: State, reader: nat, key: Key)
    requires Inv(cfg, s)
    ensures Inv(cfg, Opened(cfg, s, reader, key))
  {
    hide Guarded, Covered, Descending, Served, Fresh;
  }

  lemma StepKeeps(cfg: Config, s: State, a: Action)
    requires cfg.Valid() && Inv(cfg, s)
    ensures Inv(cfg, Step(cfg, s, a))
  {
    hide Inv, Served, Refreshed, LookedUp, Opened, Tested, Flushed;
    match a
    case Wait(_) => ClockKeeps(cfg, s, a);
    case Write(_, _, _) => ClockKeeps(cfg, s, a);
    case Refresh(n) => RefreshKeeps(cfg, s, n);
    case RefreshFails => FailureKeeps(cfg, s);
    case Forget => ClockKeeps(cfg, s, a);
    case LookUp(key) => LookUpKeeps(cfg, s, key);
    case Open(reader, key) => OpenKeeps(cfg, s, reader, key);
    case Test(reader) => TestKeeps(cfg, s, reader);
    case Flush(reader, jitter) => FlushKeeps(cfg, s, reader, jitter);
  }

  lemma InitKeeps(cfg: Config)
    ensures Inv(cfg, INIT)
  {}

  lemma {:induction false} InvHolds(cfg: Config, run: seq<Action>)
    requires cfg.Valid()
    ensures Inv(cfg, After(cfg, run))
  {
    hide Inv, Step;
    if run == [] {
      InitKeeps(cfg);
    } else {
      InvHolds(cfg, run[..|run| - 1]);
      StepKeeps(cfg, After(cfg, run[..|run| - 1]), run[|run| - 1]);
    }
  }

  lemma NeverStale(cfg: Config, run: seq<Action>, key: Key)
    requires cfg.Valid() && Fresh(cfg) && Spaced(cfg, run)
    ensures !StaleAfter(cfg, run, key)
  {
    hide After;
    InvHolds(cfg, run);
  }

  /** If a read, its flush and its time in the cache fit into a mark's lifetime, no change is missed at all. */
  lemma NeverOutdated(cfg: Config, run: seq<Action>, key: Key)
    requires cfg.Valid() && cfg.maxRead + cfg.Tail() <= cfg.markTTL && Spaced(cfg, run)
    ensures !OutdatedAfter(cfg, run, key)
  {
    hide After;
    InvHolds(cfg, run);
    NeverStale(cfg, run, key);
  }

  // ---- Lifetimes that do not suffice --------------------------------------

  lemma AfterPush(cfg: Config, run: seq<Action>, a: Action)
    ensures After(cfg, run + [a]) == Step(cfg, After(cfg, run), a)
  {
    assert (run + [a])[..|run|] == run;
  }

  /** A tuple written to `e`. */
  function Changed(e: Entity): Action {
    match e
    case ObjectRelation(obj, relation) => Write(obj, relation, "")
    case UserObjectType(user, kind) => Write(Object(kind, ""), "", user)
  }

  function ChangeOf(e: Entity, at: Time): (c: Change)
    ensures e in EntitiesOf(c) && c.at == at
  {
    match e
    case ObjectRelation(obj, relation) => Change(obj, relation, "", at)
    case UserObjectType(user, kind) => Change(Object(kind, ""), "", user, at)
  }

  lemma RefreshMarks(cfg: Config, s: State, e: Entity, d: Time)
    requires cfg.Valid() && d > 0.0 && s.now == cfg.markTTL + d
    requires s.log == [ChangeOf(e, cfg.markTTL + d), ChangeOf(e, 0.0)] && s.lastModified == None
    requires s.marks == Marks(None, map[])
    ensures var t := Refreshed(cfg, s, 2);
            && ChangeOf(e, s.now) in t.covered && t.marks.store == None
            && (forall x <- t.marks.entities :: t.marks.entities[x] == s.now)
            && t == s.(lastModified := t.lastModified, marks := t.marks, covered := t.covered,
                       published := t.published)
  {
    var page := s.log[..2];
    assert page == s.log;
    assert OldestRecent(page, 1, d) == 0;
    assert OldestRecent(page, 2, d) == 0;
    assert s.now - cfg.markTTL == d;
    MarkedAllMeaning(s.marks, page, 1, s.now);
  }

  /** The beginning of the runs below: time has passed since a first change, and `key` is being read. */
  function Reading(cfg: Config, e: Entity, key: Key): State {
    var readers := map[0 := Reader(key, cfg.markTTL, None)];
    State(cfg.markTTL, [ChangeOf(e, 0.0)], None, Marks(None, map[]), {}, {}, true, readers, map[])
  }

  lemma Begin(cfg: Config, e: Entity, key: Key) returns (run: seq<Action>)
    requires cfg.Valid()
    ensures After(cfg, run) == Reading(cfg, e, key)
  {
    run := [];
    AfterPush(cfg, run, Changed(e));
    run := run + [Changed(e)];
    AfterPush(cfg, run, Wait(cfg.markTTL));
    run := run + [Wait(cfg.markTTL)];
    AfterPush(cfg, run, Open(0, key));
    run := run + [Open(0, key)];
  }

  /** From `s`: wait, change `e` and refresh, which writes entries for `e` alone. */
  lemma ChangeAndRefresh(cfg: Config, run: seq<Action>, s: State, e: Entity, d: Time)
    returns (run': seq<Action>, t: State)
    requires cfg.Valid() && d > 0.0 && After(cfg, run) == s && s.now == cfg.markTTL
    requires s.log == [ChangeOf(e, 0.0)] && s.lastModified == None && s.marks == Marks(None, map[])
    ensures After(cfg, run') == t && t.now == cfg.markTTL + d
    ensures t.readers == s.readers && t.entries == s.entries && ChangeOf(e, cfg.markTTL + d) in t.covered
    ensures t.spaced == s.spaced
    ensures forall now, watch, from ::
              now >= cfg.markTTL + d + cfg.markTTL ==> !Invalid(t.marks, cfg.markTTL, now, watch, from)
  {
    hide After, Refreshed;
    AfterPush(cfg, run, Wait(d));
    var r1 := run + [Wait(d)];
    AfterPush(cfg, r1, Changed(e));
    var r2 := r1 + [Changed(e)];
    var s2 := After(cfg, r2);
    assert s2.log == [ChangeOf(e, cfg.markTTL + d), ChangeOf(e, 0.0)];
    RefreshMarks(cfg, s2, e, d);
    AfterPush(cfg, r2, Refresh(2));
    run' := r2 + [Refresh(2)];
    t := After(cfg, run');
  }

  /** The test and the flush of reader 0, one after the other. */
  lemma TestAndFlush(cfg: Config, run: seq<Action>, s: State, jitter: Time) returns (run': seq<Action>, t: State)
    requires cfg.Valid() && After(cfg, run) == s && 0.0 <= jitter <= cfg.maxJitter
    requires s.readers.Keys == {0} && s.entries == map[] && s.readers[0].tested == None
    requires s.now - s.readers[0].from <= cfg.maxRead
    requires !Invalid(s.marks, cfg.markTTL, s.now, cfg.watch(s.readers[0].key), s.readers[0].from)
    ensures After(cfg, run') == t && t == s.(readers := t.readers, entries := t.entries)
    ensures t.entries == map[s.readers[0].key := Entry(s.readers[0].from, s.now + cfg.iteratorTTL + jitter)]
  {
    hide After, Invalid;
    AfterPush(cfg, run, Test(0));
    var r1 := run + [Test(0)];
    var s1 := After(cfg, r1);
    assert s1.readers[0] == s.readers[0].(tested := Some(s.now)) && s1.entries == map[];
    AfterPush(cfg, r1, Flush(0, jitter));
    run' := r1 + [Flush(0, jitter)];
    t := After(cfg, run');
  }

  /** An iterator that lives longer than the entry that invalidates it outlives it. */
  lemma StaleByLifetime(cfg: Config, e: Entity, key: Key) returns (run: seq<Action>)
    requires cfg.Valid() && cfg.iteratorTTL + cfg.maxJitter > cfg.markTTL && e in cfg.watch(key)
    ensures StaleAfter(cfg, run, key) && Spaced(cfg, run)
  {
    hide After, Invalid;
    var r0 := Begin(cfg, e, key);
    var s0 := Reading(cfg, e, key);
    NothingInvalid(cfg, s0);
    var r1, s1 := TestAndFlush(cfg, r0, s0, cfg.maxJitter);
    var d := (cfg.iteratorTTL + cfg.maxJitter - cfg.markTTL) / 2.0;
    var r2, s2 := ChangeAndRefresh(cfg, r1, s1, e, d);
    AfterPush(cfg, r2, Wait(cfg.markTTL));
    run := r2 + [Wait(cfg.markTTL)];
    assert After(cfg, run) == s2.(now := s2.now + cfg.markTTL);
    assert e in cfg.watch(key) * EntitiesOf(ChangeOf(e, cfg.markTTL + d));
  }

  lemma NothingInvalid(cfg: Config, s: State)
    requires s.marks == Marks(None, map[])
    ensures forall now, watch, from :: !Invalid(s.marks, cfg.markTTL, now, watch, from)
  {}

  /**
   A change and a refresh between a read's test and its flush: the iterator is stored after the
   entry that invalidates it was written, and outlives it.
   */
  lemma StaleByFlush(cfg: Config, e: Entity, key: Key) returns (run: seq<Action>)
    requires cfg.Valid() && cfg.maxFlush > 0.0 && cfg.Tail() > cfg.markTTL && e in cfg.watch(key)
    ensures StaleAfter(cfg, run, key) && Spaced(cfg, run)
  {
    hide After, Invalid;
    var r0 := Begin(cfg, e, key);
    var s0 := Reading(cfg, e, key);
    NothingInvalid(cfg, s0);
    AfterPush(cfg, r0, Test(0));
    var r1 := r0 + [Test(0)];
    var s1 := After(cfg, r1);
    assert s1 == s0.(readers := map[0 := Reader(key, cfg.markTTL, Some(cfg.markTTL))]);
    var slack := cfg.Tail() - cfg.markTTL;
    var d := (if slack < cfg.maxFlush then slack else cfg.maxFlush) / 2.0;
    var r2, s2 := ChangeAndRefresh(cfg, r1, s1, e, d);
    AfterPush(cfg, r2, Wait(cfg.maxFlush - d));
    var r3 := r2 + [Wait(cfg.maxFlush - d)];
    var s3 := After(cfg, r3);
    AfterPush(cfg, r3, Flush(0, cfg.maxJitter));
    var r4 := r3 + [Flush(0, cfg.maxJitter)];
    var s4 := After(cfg, r4);
    assert s4.entries == map[key := Entry(cfg.markTTL, cfg.markTTL + cfg.Tail())];
    AfterPush(cfg, r4, Wait(d + cfg.markTTL - cfg.maxFlush));
    run := r4 + [Wait(d + cfg.markTTL - cfg.maxFlush)];
    assert e in cfg.watch(key) * EntitiesOf(ChangeOf(e, cfg.markTTL + d));
  }

  /** A read that goes on for longer than an entity's entry lives is tested when nothing invalidates it any more. */
  lemma StaleByRead(cfg: Config, e: Entity, key: Key) returns (run: seq<Action>)
    requires cfg.Valid() && cfg.maxRead > cfg.markTTL && e in cfg.watch(key)
    ensures StaleAfter(cfg, run, key) && Spaced(cfg, run)
  {
    hide After, Invalid;
    var r0 := Begin(cfg, e, key);
    var s0 := Reading(cfg, e, key);
    var d := (cfg.maxRead - cfg.markTTL) / 2.0;
    var r1, s1 := ChangeAndRefresh(cfg, r0, s0, e, d);
    AfterPush(cfg, r1, Wait(cfg.markTTL));
    var r2 := r1 + [Wait(cfg.markTTL)];
    var s2 := After(cfg, r2);
    var t;
    run, t := TestAndFlush(cfg, r2, s2, 0.0);
    assert e in cfg.watch(key) * EntitiesOf(ChangeOf(e, cfg.markTTL + d));
  }

  /**
   No run serves an iterator read before a covered change iff an iterator's time from its test on is
   no longer than an entity's entry lives, and no read goes on for longer than that.
   */
  lemma FreshIff(cfg: Config, e: Entity, key: Key)
    requires cfg.Valid() && e in cfg.watch(key)
    ensures (forall run, k :: Spaced(cfg, run) ==> !StaleAfter(cfg, run, k))
            <==> cfg.maxFlush + cfg.iteratorTTL + cfg.maxJitter <= cfg.markTTL && cfg.maxRead <= cfg.markTTL
  {
    hide StaleAfter, Spaced;
    if Fresh(cfg) {
      forall run, k | Spaced(cfg, run) ensures !StaleAfter(cfg, run, k) {
        NeverStale(cfg, run, k);
      }
    } else if cfg.maxRead > cfg.markTTL {
      var run := StaleByRead(cfg, e, key);
    } else if cfg.maxFlush > 0.0 {
      var run := StaleByFlush(cfg, e, key);
    } else {
      var run := StaleByLifetime(cfg, e, key);
    }
  }

  /** Iterators of checks and entries of entities have one lifetime: then only instant flushes will do. */
  lemma CheckIteratorsFreshIff(cfg: Config, e: Entity, key: Key)
    requires cfg.Valid() && e in cfg.watch(key) && cfg.iteratorTTL == cfg.markTTL
    ensures (forall run, k :: Spaced(cfg, run) ==> !StaleAfter(cfg, run, k))
            <==> cfg.maxJitter == 0.0 && cfg.maxFlush == 0.0 && cfg.maxRead <= cfg.markTTL
  {
    FreshIff(cfg, e, key);
  }

  /**
   A change written at the very time of the newest one recorded is no news to the next refresh.  Whatever
   the lifetimes, an iterator that missed it is served.
   */
  lemma StaleBySameTime(cfg: Config, e: Entity, key: Key, other: Change) returns (run: seq<Action>)
    requires cfg.Valid() && e in cfg.watch(key) && EntitiesOf(other) !! cfg.watch(key)
    ensures StaleAfter(cfg, run, key)
  {
    hide After, Invalid;
    var r0 := Begin(cfg, e, key);
    var s0 := Reading(cfg, e, key);
    NothingInvalid(cfg, s0);
    var r1, s1 := TestAndFlush(cfg, r0, s0, 0.0);
    var d := cfg.iteratorTTL / 2.0;
    AfterPush(cfg, r1, Wait(d));
    var r2 := r1 + [Wait(d)];
    var first := Write(other.obj, other.relation, other.user);
    AfterPush(cfg, r2, first);
    var r3 := r2 + [first];
    var s3 := After(cfg, r3);
    var c := other.(at := cfg.markTTL + d);
    assert s3.log == [c, ChangeOf(e, 0.0)];
    AfterPush(cfg, r3, Refresh(2));
    var r4 := r3 + [Refresh(2)];
    var s4 := After(cfg, r4);
    MarksOnly(cfg, s3, c, e, key);
    AfterPush(cfg, r4, Changed(e));
    var r5 := r4 + [Changed(e)];
    var s5 := After(cfg, r5);
    assert s5.log[0] == ChangeOf(e, cfg.markTTL + d) && !News(s5);
    AfterPush(cfg, r5, Refresh(3));
    run := r5 + [Refresh(3)];
    var t := After(cfg, run);
    assert t.marks == s4.marks && t.entries == s1.entries && t.now == cfg.markTTL + d;
    assert ChangeOf(e, cfg.markTTL + d) in t.covered;
    assert e in cfg.watch(key) * EntitiesOf(ChangeOf(e, cfg.markTTL + d));
  }

  /** The refresh marks what the newest change concerns and nothing else. */
  lemma MarksOnly(cfg: Config, s: State, c: Change, e: Entity, key: Key)
    requires cfg.Valid() && s.log == [c, ChangeOf(e, 0.0)] && c.at == s.now > cfg.markTTL && s.lastModified == None
    requires s.marks == Marks(None, map[]) && EntitiesOf(c) !! cfg.watch(key)
    ensures var t := Refreshed(cfg, s, 2);
            && t.lastModified == Some(c.at) && t == s.(lastModified := t.lastModified, marks := t.marks,
                                                       covered := t.covered, published := t.published)
            && forall from :: !Invalid(t.marks, cfg.markTTL, s.now, cfg.watch(key), from)
  {
    var t := Refreshed(cfg, s, 2);
    var limit := s.now - cfg.markTTL;
    assert s.log[..2] == s.log && s.log[1].at <= limit;
    forall x | x in cfg.watch(key) ensures x !in t.marks.entities && t.marks.store == None {
      InvalidatedExactly(s.marks, s.log, limit, s.now, x);
    }
    InvalidatedExactly(s.marks, s.log, limit, s.now, e);
  }

  // ---- Changes a refresh writes no entry for ------------------------------

  /** Reader 0 opens `key` at the beginning, `e` changes at `d`, and the read is tested as late as it can be. */
  lemma LateRead(cfg: Config, e: Entity, key: Key, d: Time) returns (run: seq<Action>, s: State)
    requires cfg.Valid() && 0.0 < d < cfg.maxRead
    ensures After(cfg, run) == s && s.log == [ChangeOf(e, d)] && s.lastModified == None && s.spaced
    ensures s.now == cfg.maxRead && s.marks == Marks(None, map[]) && s.entries == map[]
    ensures s.readers == map[0 := Reader(key, 0.0, Some(cfg.maxRead))]
  {
    hide Invalid;
    AfterPush(cfg, [], Open(0, key));
    var r1 := [] + [Open(0, key)];
    var s1 := INIT.(readers := map[0 := Reader(key, 0.0, None)]);
    assert After(cfg, r1) == s1;
    AfterPush(cfg, r1, Wait(d));
    var r2 := r1 + [Wait(d)];
    AfterPush(cfg, r2, Changed(e));
    var r3 := r2 + [Changed(e)];
    var s3 := s1.(now := d, log := [ChangeOf(e, d)]);
    assert After(cfg, r3) == s3;
    AfterPush(cfg, r3, Wait(cfg.maxRead - d));
    var r4 := r3 + [Wait(cfg.maxRead - d)];
    var s4 := s3.(now := cfg.maxRead);
    assert After(cfg, r4) == s4;
    NothingInvalid(cfg, s4);
    AfterPush(cfg, r4, Test(0));
    run := r4 + [Test(0)];
    s := After(cfg, run);
  }

  /** A refresh writes no entry for a change a mark's lifetime old, and the iterator that missed it may still live. */
  lemma OutdatedByRead(cfg: Config, e: Entity, key: Key) returns (run: seq<Action>)
    requires cfg.Valid() && cfg.Tail() <= cfg.markTTL < cfg.maxRead + cfg.Tail() && e in cfg.watch(key)
    ensures OutdatedAfter(cfg, run, key) && Spaced(cfg, run)
  {
    hide After, Invalid;
    var d := (cfg.maxRead + cfg.Tail() - cfg.markTTL) / 2.0;
    var r0, s0 := LateRead(cfg, e, key, d);
    AfterPush(cfg, r0, Wait(cfg.maxFlush));
    var r1 := r0 + [Wait(cfg.maxFlush)];
    AfterPush(cfg, r1, Flush(0, cfg.maxJitter));
    var r2 := r1 + [Flush(0, cfg.maxJitter)];
    var s2 := After(cfg, r2);
    assert s2.entries == map[key := Entry(0.0, cfg.maxRead + cfg.Tail())];
    var rest := d + cfg.markTTL - s2.now;
    AfterPush(cfg, r2, Wait(rest));
    var r3 := r2 + [Wait(rest)];
    var s3 := After(cfg, r3);
    AfterPush(cfg, r3, Refresh(1));
    run := r3 + [Refresh(1)];
    var t := After(cfg, run);
    OldChangeUnmarked(cfg, s3, ChangeOf(e, d));
    NothingInvalid(cfg, t);
    assert e in cfg.watch(key) * EntitiesOf(ChangeOf(e, d));
  }

  lemma OldChangeUnmarked(cfg: Config, s: State, c: Change)
    requires s.log == [c] && s.lastModified == None && c.at <= s.now - cfg.markTTL
    ensures var t := Refreshed(cfg, s, 1);
            && t.marks == s.marks && c in t.published && t.now == s.now && t.entries == s.entries
            && t.spaced == s.spaced
  {
    assert s.log[..1] == s.log;
    assert OldestRecent(s.log, 0, s.now - cfg.markTTL) == -1;
  }

  /**
   No run serves an iterator read before any change in the changelog of a refresh with news iff the
   longest read, the longest flush and the longest time in the cache fit into an entity's entry together.
   */
  lemma UpToDateIff(cfg: Config, e: Entity, key: Key)
    requires cfg.Valid() && e in cfg.watch(key)
    ensures (forall run, k :: Spaced(cfg, run) ==> !OutdatedAfter(cfg, run, k))
            <==> cfg.maxRead + cfg.maxFlush + cfg.iteratorTTL + cfg.maxJitter <= cfg.markTTL
  {
    if cfg.maxRead + cfg.Tail() <= cfg.markTTL {
      forall run, k | Spaced(cfg, run) ensures !OutdatedAfter(cfg, run, k) {
        NeverOutdated(cfg, run, k);
      }
    } else if cfg.Tail() <= cfg.markTTL {
      var run := OutdatedByRead(cfg, e, key);
    } else {
      FreshIff(cfg, e, key);
      var run, k :| Spaced(cfg, run) && StaleAfter(cfg, run, k);
      StaleIsOutdated(cfg, run, k);
    }
  }

  lemma {:induction false} CoveredPublished(cfg: Config, run: seq<Action>)
    ensures After(cfg, run).covered <= After(cfg, run).published
  {
    if run != [] {
      CoveredPublished(cfg, run[..|run| - 1]);
    }
  }

  lemma StaleIsOutdated(cfg: Config, run: seq<Action>, key: Key)
    requires StaleAfter(cfg, run, key)
    ensures OutdatedAfter(cfg, run, key)
  {
    hide After;
    CoveredPublished(cfg, run);
  }
}
