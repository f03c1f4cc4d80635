/**
 The lock-free bag: a linked list behind one atomic head pointer.  `Add` builds a private chain and
 publishes it by compare-and-swap, `Seq` swaps the list out and walks it at leisure, `Clear` drops it.
 */
module Bags {

  type V(==, !new)

  // A node is the k-th value of one call of Add; that call's chain runs from its last value to its first.
  datatype Pointer = Nil | Node(call: nat, k: nat)

  datatype Progress = Ready | Loaded(seen: Pointer) | Returned

  // `tailNext` is the next pointer of the call's first node, rewritten on every attempt.
  datatype Call = Call(values: seq<V>, tailNext: Pointer, at: Progress)

  // `batch` names the calls whose chains the iterator was given, `taken` what its consumer accepted.
  datatype Reader = Reader(batch: seq<nat>, at: Pointer, taken: seq<V>)

  // `held` and `cleared` record which calls' chains are in the list, newest first, and which were dropped.
  datatype State = State(calls: seq<Call>, head: Pointer, readers: seq<Reader>, held: seq<nat>, cleared: seq<nat>)

  datatype Step =
    | StartAdd(values: seq<V>)
    | Load(call: nat)
    | CompareAndSwap(call: nat)
    | Seq
    | Yield(reader: nat, more: bool)
    | Clear

  // ---- The list in memory -------------------------------------------------

  predicate Published(calls: seq<Call>, p: Pointer) {
    p.Node? && p.call < |calls| && calls[p.call].at.Returned? && p.k < |calls[p.call].values|
  }

  function ValueAt(calls: seq<Call>, p: Pointer): V
    requires Published(calls, p)
  {
    calls[p.call].values[p.k]
  }

  function NextOf(calls: seq<Call>, p: Pointer): Pointer
    requires Published(calls, p)
  {
    if p.k == 0 then calls[p.call].tailNext else Node(p.call, p.k - 1)
  }

  /** Following next pointers from `p` meets exactly `vs` and ends. */
  predicate Spells(calls: seq<Call>, p: Pointer, vs: seq<V>)
    decreases |vs|
  {
    if vs == [] then p == Nil
    else Published(calls, p) && ValueAt(calls, p) == vs[0] && Spells(calls, NextOf(calls, p), vs[1..])
  }

  function Reversed(vs: seq<V>): (r: seq<V>)
    ensures |r| == |vs| && multiset(r) == multiset(vs)
  {
    if vs == [] then []
    else
      assert vs == vs[..|vs| - 1] + [vs[|vs| - 1]];
      [vs[|vs| - 1]] + Reversed(vs[..|vs| - 1])
  }

  predicate Known(calls: seq<Call>, ids: seq<nat>) {
    forall i :: 0 <= i < |ids| ==> ids[i] < |calls|
  }

  /** Each call's values together and in reverse, one call after the other. */
  function Contents(calls: seq<Call>, ids: seq<nat>): seq<V>
    requires Known(calls, ids)
  {
    if ids == [] then [] else Reversed(calls[ids[0]].values) + Contents(calls, ids[1..])
  }

  // ---- Steps --------------------------------------------------------------

  predicate NoEmptyChains(calls: seq<Call>) {
    forall call <- calls :: call.values != []
  }

  predicate Enabled(st: State, step: Step) {
    match step
    case StartAdd(_) => true
    case Load(c) => c < |st.calls| && st.calls[c].at.Ready?
    case CompareAndSwap(c) => c < |st.calls| && st.calls[c].at.Loaded?
    case Seq => true
    case Yield(i, _) => i < |st.readers| && Published(st.calls, st.readers[i].at)
    case Clear => true
  }

  /** One atomic action. */
  function Next(st: State, step: Step): State
    requires Enabled(st, step) && NoEmptyChains(st.calls)
  {
    match step
    case StartAdd(values) =>
      if values == [] then st else st.(calls := st.calls + [Call(values, Nil, Ready)])
    case Load(c) =>
      st.(calls := st.calls[c := st.calls[c].(tailNext := st.head, at := Loaded(st.head))])
    case CompareAndSwap(c) =>
      var call := st.calls[c];
      if st.head == call.at.seen then
        st.(calls := st.calls[c := call.(at := Returned)], head := Node(c, |call.values| - 1), held := [c] + st.held)
      else
        st.(calls := st.calls[c := call.(at := Ready)])
    case Seq =>
      st.(head := Nil, held := [], readers := st.readers + [Reader(st.held, st.head, [])])
    case Yield(i, more) =>
      var it := st.readers[i];
      if more then
        var taken := it.taken + [ValueAt(st.calls, it.at)];
        st.(readers := st.readers[i := it.(at := NextOf(st.calls, it.at), taken := taken)])
      else st
    case Clear =>
      st.(head := Nil, held := [], cleared := st.held + st.cleared)
  }

  // ---- Invariant ----------------------------------------------------------

  /** How often each call's chain is out with some iterator. */
  function Batches(readers: seq<Reader>): multiset<nat> {
    if readers == [] then multiset{}
    else Batches(readers[..|readers| - 1]) + multiset(readers[|readers| - 1].batch)
  }

  function Owned(st: State): multiset<nat> {
    multiset(st.held) + Batches(st.readers) + multiset(st.cleared)
  }

  /** Every returned Add is in exactly one place; an Add still running is nowhere. */
  ghost predicate Partitioned(st: State) {
    forall c: nat :: Owned(st)[c] == if c < |st.calls| && st.calls[c].at.Returned? then 1 else 0
  }

  ghost predicate Intact(calls: seq<Call>, it: Reader) {
    && Known(calls, it.batch)
    && it.taken <= Contents(calls, it.batch)
    && Spells(calls, it.at, Contents(calls, it.batch)[|it.taken|..])
  }

  ghost predicate Inv(st: State) {
    && NoEmptyChains(st.calls)
    && (forall call <- st.calls :: call.at.Loaded? ==> call.tailNext == call.at.seen)
    && Known(st.calls, st.held) && Known(st.calls, st.cleared)
    && Spells(st.calls, st.head, Contents(st.calls, st.held))
    && (forall it <- st.readers :: Intact(st.calls, it))
    && Partitioned(st)
  }

  // ---- Published nodes never change ---------------------------------------

  /** What running calls may do to memory: nothing that has been published. */
  ghost predicate Preserves(calls: seq<Call>, calls': seq<Call>) {
    && |calls| <= |calls'|
    && forall c :: 0 <= c < |calls| ==>
        calls'[c].values == calls[c].values && (calls[c].at.Returned? ==> calls'[c] == calls[c])
  }

  lemma {:induction false} SpellsPreserved(calls: seq<Call>, calls': seq<Call>, p: Pointer, vs: seq<V>)
    requires Preserves(calls, calls') && Spells(calls, p, vs)
    ensures Spells(calls', p, vs)
    decreases |vs|
  {
    if vs != [] {
      SpellsPreserved(calls, calls', NextOf(calls, p), vs[1..]);
    }
  }

  lemma {:induction false} ContentsPreserved(calls: seq<Call>, calls': seq<Call>, ids: seq<nat>)
    requires Preserves(calls, calls') && Known(calls, ids)
    ensures Known(calls', ids) && Contents(calls', ids) == Contents(calls, ids)
  {
    if ids != [] {
      ContentsPreserved(calls, calls', ids[1..]);
    }
  }

  lemma IntactPreserved(calls: seq<Call>, calls': seq<Call>, it: Reader)
    requires Preserves(calls, calls') && Intact(calls, it)
    ensures Intact(calls', it)
  {
    hide Spells, Contents, Preserves;
    ContentsPreserved(calls, calls', it.batch);
    SpellsPreserved(calls, calls', it.at, Contents(calls, it.batch)[|it.taken|..]);
  }

  /** Everything but the partition survives a step that only touches running calls. */
  lemma MemoryPreserved(st: State, calls': seq<Call>)
    requires Inv(st) && Preserves(st.calls, calls')
    ensures Known(calls', st.held) && Known(calls', st.cleared)
    ensures Contents(calls', st.held) == Contents(st.calls, st.held)
    ensures Spells(calls', st.head, Contents(calls', st.held))
    ensures forall it <- st.readers :: Intact(calls', it)
  {
    hide Spells, Contents, Preserves, Intact;
    ContentsPreserved(st.calls, calls', st.held);
    ContentsPreserved(st.calls, calls', st.cleared);
    SpellsPreserved(st.calls, calls', st.head, Contents(st.calls, st.held));
    forall it | it in st.readers ensures Intact(calls', it) {
      IntactPreserved(st.calls, calls', it);
    }
  }

  /** Walking a published call's chain from its k-th value. */
  lemma {:induction false} SpellsChain(calls: seq<Call>, c: nat, k: nat, vs: seq<V>)
    requires Published(calls, Node(c, k)) && Spells(calls, calls[c].tailNext, vs)
    ensures Spells(calls, Node(c, k), Reversed(calls[c].values[..k + 1]) + vs)
  {
    hide Reversed;
    var values := calls[c].values;
    ReversedUpTo(values, k);
    var all := Reversed(values[..k + 1]) + vs;
    assert all[0] == values[k] && all[1..] == Reversed(values[..k]) + vs;
    if k > 0 {
      SpellsChain(calls, c, k - 1, vs);
    } else {
      assert all[1..] == vs;
    }
  }

  lemma ReversedUpTo(vs: seq<V>, k: nat)
    requires k < |vs|
    ensures Reversed(vs[..k + 1]) == [vs[k]] + Reversed(vs[..k])
  {
    assert vs[..k + 1][..k] == vs[..k];
  }

  // ---- Every step keeps the invariant -------------------------------------

  lemma StartKeeps(st: State, values: seq<V>)
    requires Inv(st) && values != []
    ensures Inv(Next(st, StartAdd(values)))
  {
    hide Spells, Contents, Intact, Known;
    var st' := Next(st, StartAdd(values));
    assert Preserves(st.calls, st'.calls);
    MemoryPreserved(st, st'.calls);
    assert Owned(st') == Owned(st);
  }

  lemma LoadKeeps(st: State, c: nat)
    requires Inv(st) && Enabled(st, Load(c))
    ensures Inv(Next(st, Load(c)))
  {
    hide Spells, Contents, Intact, Known;
    var st' := Next(st, Load(c));
    MemoryPreserved(st, st'.calls);
    assert Owned(st') == Owned(st);
  }

  lemma RetryKeeps(st: State, c: nat)
    requires Inv(st) && Enabled(st, CompareAndSwap(c)) && st.head != st.calls[c].at.seen
    ensures Inv(Next(st, CompareAndSwap(c)))
  {
    hide Spells, Contents, Intact, Known;
    var st' := Next(st, CompareAndSwap(c));
    MemoryPreserved(st, st'.calls);
    assert Owned(st') == Owned(st);
  }

  lemma PublishSpells(st: State, c: nat)
    requires Inv(st) && Enabled(st, CompareAndSwap(c)) && st.head == st.calls[c].at.seen
    ensures var st' := Next(st, CompareAndSwap(c));
            Known(st'.calls, st'.held) && Spells(st'.calls, st'.head, Contents(st'.calls, st'.held))
  {
    hide Spells, Intact, Partitioned, Reversed;
    var st' := Next(st, CompareAndSwap(c));
    var values := st.calls[c].values;
    assert Preserves(st.calls, st'.calls);
    MemoryPreserved(st, st'.calls);
    assert values[..|values| - 1 + 1] == values;
    SpellsChain(st'.calls, c, |values| - 1, Contents(st'.calls, st.held));
    assert st'.held[0] == c && st'.held[1..] == st.held;
  }

  lemma PublishKeeps(st: State, c: nat)
    requires Inv(st) && Enabled(st, CompareAndSwap(c)) && st.head == st.calls[c].at.seen
    ensures Inv(Next(st, CompareAndSwap(c)))
  {
    hide Spells, Intact, Contents, Known, Batches;
    var st' := Next(st, CompareAndSwap(c));
    MemoryPreserved(st, st'.calls);
    PublishSpells(st, c);
    assert Owned(st') == Owned(st) + multiset{c};
  }

  lemma SeqKeeps(st: State)
    requires Inv(st)
    ensures Inv(Next(st, Seq))
  {}

  lemma ClearKeeps(st: State)
    requires Inv(st)
    ensures Inv(Next(st, Clear))
  {}

  lemma {:induction false} BatchesUnmoved(readers: seq<Reader>, i: nat, it: Reader)
    requires i < |readers| && it.batch == readers[i].batch
    ensures Batches(readers[i := it]) == Batches(readers)
  {
    var last := |readers| - 1;
    if i == last {
      assert readers[i := it][..last] == readers[..last];
    } else {
      assert readers[i := it][..last] == readers[..last][i := it];
      BatchesUnmoved(readers[..last], i, it);
    }
  }

  lemma YieldIntact(calls: seq<Call>, it: Reader)
    requires Intact(calls, it) && Published(calls, it.at)
    ensures Intact(calls, it.(at := NextOf(calls, it.at), taken := it.taken + [ValueAt(calls, it.at)]))
  {}

  lemma YieldKeeps(st: State, i: nat)
    requires Inv(st) && Enabled(st, Yield(i, true))
    ensures Inv(Next(st, Yield(i, true)))
  {
    hide Spells, Contents, Intact, Known, Batches;
    var st' := Next(st, Yield(i, true));
    YieldIntact(st.calls, st.readers[i]);
    BatchesUnmoved(st.readers, i, st'.readers[i]);
    assert Owned(st') == Owned(st);
  }

  lemma StepKeeps(st: State, step: Step)
    requires Inv(st) && Enabled(st, step)
    ensures Inv(Next(st, step))
  {
    hide Inv;
    match step
    case StartAdd(values) => if values != [] { StartKeeps(st, values); }
    case Load(c) => LoadKeeps(st, c);
    case CompareAndSwap(c) =>
      if st.head == st.calls[c].at.seen { PublishKeeps(st, c); } else { RetryKeeps(st, c); }
    case Seq => SeqKeeps(st);
    case Yield(i, more) => if more { YieldKeeps(st, i); }
    case Clear => ClearKeeps(st);
  }

  // ---- Whole runs ---------------------------------------------------------

  const EMPTY := State([], Nil, [], [], [])

  ghost predicate Reaches(from: State, steps: seq<Step>, to: State)
    decreases |steps|
  {
    if steps == [] then from == to
    else
      && Enabled(from, steps[0]) && NoEmptyChains(from.calls)
      && Reaches(Next(from, steps[0]), steps[1..], to)
  }

  lemma {:induction false} RunKeeps(st: State, steps: seq<Step>, end: State)
    requires Inv(st) && Reaches(st, steps, end)
    ensures Inv(end)
    decreases |steps|
  {
    hide Inv, Next, Enabled;
    if steps != [] {
      StepKeeps(st, steps[0]);
      RunKeeps(Next(st, steps[0]), steps[1..], end);
    }
  }

  lemma Initially()
    ensures Inv(EMPTY)
  {}

  // ---- Conservation of values ---------------------------------------------

  /** The values of every Add that has returned. */
  function Added(calls: seq<Call>): multiset<V> {
    if calls == [] then multiset{}
    else
      var call := calls[|calls| - 1];
      Added(calls[..|calls| - 1]) + if call.at.Returned? then multiset(call.values) else multiset{}
  }

  function InBatches(readers: seq<Reader>): (ids: seq<nat>)
    ensures multiset(ids) == Batches(readers)
  {
    if readers == [] then [] else InBatches(readers[..|readers| - 1]) + readers[|readers| - 1].batch
  }

  function Without(ids: seq<nat>, k: nat): seq<nat>
    requires k < |ids|
  {
    ids[..k] + ids[k + 1..]
  }

  lemma {:induction false} ContentsWithout(calls: seq<Call>, ids: seq<nat>, k: nat)
    requires Known(calls, ids) && k < |ids|
    ensures Known(calls, Without(ids, k))
    ensures multiset(Contents(calls, ids))
            == multiset(Contents(calls, Without(ids, k))) + multiset(calls[ids[k]].values)
  {
    hide Reversed;
    if k == 0 {
      assert Without(ids, k) == ids[1..];
    } else {
      var rest := Without(ids, k);
      assert rest[0] == ids[0] && rest[1..] == Without(ids[1..], k - 1);
      ContentsWithout(calls, ids[1..], k - 1);
    }
  }

  ghost predicate OncePerReturned(calls: seq<Call>, ids: seq<nat>) {
    forall c: nat :: multiset(ids)[c] == if c < |calls| && calls[c].at.Returned? then 1 else 0
  }

  lemma KnownWhenOnce(calls: seq<Call>, ids: seq<nat>)
    requires OncePerReturned(calls, ids)
    ensures Known(calls, ids)
  {
    forall i | 0 <= i < |ids| ensures ids[i] < |calls| {
      assert ids[i] in multiset(ids);
    }
  }

  /** Taking the last call out of the list, if it is there. */
  lemma WithoutLast(calls: seq<Call>, ids: seq<nat>) returns (ids': seq<nat>)
    requires calls != [] && OncePerReturned(calls, ids) && Known(calls, ids)
    ensures OncePerReturned(calls[..|calls| - 1], ids') && Known(calls, ids')
    ensures var last := calls[|calls| - 1];
            multiset(Contents(calls, ids))
            == multiset(Contents(calls, ids')) + if last.at.Returned? then multiset(last.values) else multiset{}
  {
    hide Contents, Known, OncePerReturned;
    if calls[|calls| - 1].at.Returned? {
      var k := Find(calls, ids);
      ids' := Without(ids, k);
      ContentsWithout(calls, ids, k);
      OnceWithout(calls, ids, k);
    } else {
      ids' := ids;
      OnceEarlier(calls, ids);
    }
  }

  lemma Find(calls: seq<Call>, ids: seq<nat>) returns (k: nat)
    requires calls != [] && OncePerReturned(calls, ids) && calls[|calls| - 1].at.Returned?
    ensures k < |ids| && ids[k] == |calls| - 1
  {
    var last: nat := |calls| - 1;
    assert multiset(ids)[last] == 1;
    assert last in ids;
    k :| 0 <= k < |ids| && ids[k] == last;
  }

  lemma OnceWithout(calls: seq<Call>, ids: seq<nat>, k: nat)
    requires calls != [] && OncePerReturned(calls, ids) && calls[|calls| - 1].at.Returned?
    requires k < |ids| && ids[k] == |calls| - 1
    ensures OncePerReturned(calls[..|calls| - 1], Without(ids, k))
  {
    assert ids == ids[..k] + [ids[k]] + ids[k + 1..];
    assert multiset(ids) == multiset(Without(ids, k)) + multiset{ids[k]};
  }

  lemma OnceEarlier(calls: seq<Call>, ids: seq<nat>)
    requires calls != [] && OncePerReturned(calls, ids) && !calls[|calls| - 1].at.Returned?
    ensures OncePerReturned(calls[..|calls| - 1], ids)
  {}

  lemma {:induction false} AddedOnce(calls: seq<Call>, ids: seq<nat>)
    requires OncePerReturned(calls, ids)
    ensures Known(calls, ids) && multiset(Contents(calls, ids)) == Added(calls)
    decreases |calls|
  {
    hide Contents, Known, OncePerReturned;
    KnownWhenOnce(calls, ids);
    if calls == [] {
      NoneKnown(ids);
    } else {
      var ids' := WithoutLast(calls, ids);
      AddedOnce(calls[..|calls| - 1], ids');
      ContentsEarlier(calls, ids');
    }
  }

  lemma NoneKnown(ids: seq<nat>)
    requires Known([], ids)
    ensures Contents([], ids) == []
  {}

  lemma {:induction false} ContentsEarlier(calls: seq<Call>, ids: seq<nat>)
    requires calls != [] && Known(calls[..|calls| - 1], ids)
    ensures Known(calls, ids) && Contents(calls, ids) == Contents(calls[..|calls| - 1], ids)
  {
    if ids != [] {
      ContentsEarlier(calls, ids[1..]);
    }
  }

  /** Where every published chain is: in the list, out with a reader, or cleared. */
  function Places(st: State): seq<nat> {
    st.held + InBatches(st.readers) + st.cleared
  }

  /**
   In every state of every interleaving each value of a returned Add is in the list, out with exactly
   one reader, or cleared; a call's values stay together and reversed; and each reader has taken a
   prefix of what it was given and will still meet exactly the rest.
   */
  lemma NothingLostOrDuplicated(steps: seq<Step>, st: State)
    requires Reaches(EMPTY, steps, st)
    ensures OncePerReturned(st.calls, Places(st))
    ensures Known(st.calls, Places(st)) && multiset(Contents(st.calls, Places(st))) == Added(st.calls)
    ensures Known(st.calls, st.held) && Spells(st.calls, st.head, Contents(st.calls, st.held))
    ensures forall r <- st.readers :: Intact(st.calls, r)
  {
    hide Contents, Spells, Intact, Reaches, Added, Known, Batches;
    Initially();
    RunKeeps(EMPTY, steps, st);
    assert multiset(Places(st)) == Owned(st);
    AddedOnce(st.calls, Places(st));
  }

  // ---- Progress -----------------------------------------------------------

  predicate IsOf(step: Step, c: nat) {
    step == Load(c) || step == CompareAndSwap(c)
  }

  lemma LoadAndSwap(st: State, c: nat) returns (steps: seq<Step>, end: State)
    requires NoEmptyChains(st.calls) && c < |st.calls| && st.calls[c].at.Ready?
    ensures steps == [Load(c), CompareAndSwap(c)] && Reaches(st, steps, end)
    ensures end.held == [c] + st.held && c < |end.calls| && end.calls[c].at.Returned?
  {
    var loaded := Next(st, Load(c));
    assert NoEmptyChains(loaded.calls);
    end := Next(loaded, CompareAndSwap(c));
    steps := [Load(c), CompareAndSwap(c)];
    assert steps[1..] == [CompareAndSwap(c)] && [CompareAndSwap(c)][1..] == [];
    assert Reaches(loaded, [CompareAndSwap(c)], end);
  }

  /**
   From any state, an Add still under way returns by its own steps, with its values at the front of the
   list: a swap that fails because the head has moved is followed by a fresh load.
   */
  lemma AddCanReturn(st: State, c: nat) returns (steps: seq<Step>, end: State)
    requires NoEmptyChains(st.calls) && c < |st.calls| && !st.calls[c].at.Returned?
    ensures |steps| <= 3 && forall s <- steps :: IsOf(s, c)
    ensures Reaches(st, steps, end)
    ensures end.held == [c] + st.held && c < |end.calls| && end.calls[c].at.Returned?
  {
    if st.calls[c].at.Ready? {
      steps, end := LoadAndSwap(st, c);
    } else if st.head == st.calls[c].at.seen {
      steps, end := [CompareAndSwap(c)], Next(st, CompareAndSwap(c));
      assert steps[1..] == [];
    } else {
      var failed := Next(st, CompareAndSwap(c));
      assert NoEmptyChains(failed.calls);
      steps, end := LoadAndSwap(failed, c);
      steps := [CompareAndSwap(c)] + steps;
      assert steps[1..] == [Load(c), CompareAndSwap(c)];
    }
  }

  /** A reader can always take everything it was given, in order. */
  lemma {:induction false} ReaderCanFinish(st: State, i: nat) returns (steps: seq<Step>, end: State)
    requires NoEmptyChains(st.calls) && i < |st.readers| && Intact(st.calls, st.readers[i])
    ensures Reaches(st, steps, end) && forall s <- steps :: s == Yield(i, true)
    ensures |end.readers| == |st.readers| && end == st.(readers := st.readers[i := end.readers[i]])
    ensures end.readers[i].batch == st.readers[i].batch
    ensures end.readers[i].taken == Contents(st.calls, st.readers[i].batch) && end.readers[i].at == Nil
    decreases |Contents(st.calls, st.readers[i].batch)| - |st.readers[i].taken|
  {
    var it := st.readers[i];
    var all := Contents(st.calls, it.batch);
    if |it.taken| == |all| {
      steps, end := [], st;
    } else {
      var rest := all[|it.taken|..];
      var next := Next(st, Yield(i, true));
      assert next.readers[i].taken == it.taken + [rest[0]];
      assert rest[1..] == all[|it.taken| + 1..];
      steps, end := ReaderCanFinish(next, i);
      assert end.readers == st.readers[i := end.readers[i]];
      assert ([Yield(i, true)] + steps)[1..] == steps;
      steps := [Yield(i, true)] + steps;
    }
  }

  /** Seq empties the bag and its iterator yields all that was in it, the latest call's values first. */
  lemma SeqDrains(st: State) returns (steps: seq<Step>, end: State)
    requires Inv(st)
    ensures Reaches(st, [Seq] + steps, end) && forall s <- steps :: s == Yield(|st.readers|, true)
    ensures end.held == [] && end.head == Nil && |end.readers| == |st.readers| + 1
    ensures end.readers[|st.readers|].taken == Contents(st.calls, st.held)
  {
    hide Spells, Contents;
    var swapped := Next(st, Seq);
    StepKeeps(st, Seq);
    assert swapped.readers[|st.readers|] in swapped.readers;
    steps, end := ReaderCanFinish(swapped, |st.readers|);
    assert ([Seq] + steps)[1..] == steps;
  }

  /** Clear empties the bag and takes nothing from iterators that are out. */
  lemma ClearEmpties(st: State)
    requires Inv(st)
    ensures var end := Next(st, Clear);
            Inv(end) && end.held == [] && end.head == Nil && end.readers == st.readers
            && forall c :: c in end.cleared <==> c in st.held || c in st.cleared
  {
    StepKeeps(st, Clear);
  }
}
