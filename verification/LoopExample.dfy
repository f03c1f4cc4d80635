/**
 The smallest loop below an exclusion: guests of a group are those listed who are no members, and
 group and team are members of each other.  Anne is a guest, and every answer denies it.
 */
module LoopExample {
  import opened Options
  import opened Reducers
  import opened AuthModel
  import opened LocalChecker
  import opened Endings
  import opened LocalCheckerCorrect
  import opened Stratified
  import opened SubtractedLoops

  const GROUP := Object("group", "g")
  const TEAM := Object("team", "t")
  const ANNE := User(Object("user", "anne"), "")

  const GUEST := Goal(GROUP, "guest", ANNE)
  const IN_GROUP := Goal(GROUP, "member", ANNE)
  const IN_TEAM := Goal(TEAM, "member", ANNE)

  const STORE := Env(
    [Tuple(GROUP, "guest", ANNE), Tuple(GROUP, "member", User(TEAM, "member")),
     Tuple(TEAM, "member", User(GROUP, "member"))],
    {"group", "team", "user"},
    map[Ref("group", "guest") := Difference(This, Computed("member")),
        Ref("group", "member") := This,
        Ref("team", "member") := This],
    map[Ref("group", "member") := [Ref("team", "member")], Ref("team", "member") := [Ref("group", "member")]],
    (target, ref) => ref == Ref("user", ""),
    (target, kind) => false,
    (user, target) => true,
    (target, kind) => false,
    (target, kind, ref) => false,
    {GROUP, TEAM, ANNE.obj},
    {"guest", "member"},
    25)

  function Level(g: Goal): nat {
    if g.relation == "guest" then 1 else 0
  }

  /** Every goal about members asks only about members. */
  ghost function Members(): iset<Goal> {
    iset g: Goal | g.relation == "member"
  }

  lemma Asked(g: Goal, h: Goal)
    requires Asks(STORE, g, h)
    ensures h.relation == "member"
  {
    var rw := STORE.rewrites[Target(g)];
    if rw != This {
      assert rw == Difference(This, Computed("member"));
      assert DependsOn(STORE, g, rw, h) <==> DependsOn(STORE, g, rw.base, h) || DependsOn(STORE, g, rw.subtract, h);
    }
  }

  lemma Subtracted(g: Goal, h: Goal)
    requires Subtracts(STORE, g, h)
    ensures g.relation == "guest" && h.relation == "member"
  {
    var rw := STORE.rewrites[Target(g)];
    if rw != This {
      assert rw == Difference(This, Computed("member"));
      assert SubtractedOn(STORE, g, rw, h) <==>
        SubtractedOn(STORE, g, rw.base, h) || DependsOn(STORE, g, rw.subtract, h);
    }
  }

  lemma StoreIsClosed()
    ensures Closed(STORE) && Known(STORE, GUEST)
  {}

  lemma StoreIsLayered()
    ensures Closed(STORE) && Layered(STORE, Level) && PlainBelow(STORE, Members())
  {
    hide Asks, Subtracts, Closed;
    StoreIsClosed();
    forall g, h | Asks(STORE, g, h) ensures h.relation == "member" { Asked(g, h); }
    forall g, h | Subtracts(STORE, g, h) ensures g.relation == "guest" && h.relation == "member" {
      Subtracted(g, h);
    }
  }

  /** Being a guest is being listed and no member. */
  lemma GuestRule(X: iset<Goal>, Y: iset<Goal>)
    ensures Fires(STORE, X, Y, GUEST) <==> IN_GROUP !in X
  {
    var rw := STORE.rewrites[Target(GUEST)];
    assert rw == Difference(This, Computed("member"));
    assert Derives(STORE, X, Y, GUEST, rw.base) by {
      assert STORE.tuples[0] == Tuple(GROUP, "guest", ANNE);
    }
    assert Derives(STORE, Y, X, GUEST, rw.subtract) <==> IN_GROUP in X;
  }

  /** Nothing makes Anne a member, so she is a guest. */
  lemma AnneIsGuest(X: iset<Goal>)
    requires IsMeaning(STORE, X)
    ensures GUEST in X
  {
    var Y := iset g | g in X && g != IN_GROUP && g != IN_TEAM;
    forall g | Fires(STORE, X, Y, g) ensures g in Y {
      FiresMonotone(STORE, X, Y, X, X, g);
      GrantedIsFixpoint(STORE, X, g);
    }
    GrantedIsLeast(STORE, X, Y);
    assert IN_GROUP !in X;
    GrantedIsFixpoint(STORE, X, GUEST);
    GuestRule(X, X);
  }

  lemma MembershipLoops()
    ensures IN_GROUP in Looping(STORE, Members())
  {
    assert Visits(STORE, IN_GROUP, IN_TEAM) && Visits(STORE, IN_TEAM, IN_GROUP);
    if Ends(STORE, IN_GROUP) {
      RankFalls(STORE, IN_GROUP, IN_TEAM);
      RankFalls(STORE, IN_TEAM, IN_GROUP);
    }
  }

  /** After every run and for every schedule, an answer is an error or a denial. */
  lemma GuestIsDenied(run: seq<Event>, sched: Schedule, depth: nat)
    requires Closed(STORE) && GoalsKnown(STORE, run)
    ensures GUEST in MeaningOf(STORE, Level)
    ensures Known(STORE, GUEST) && !Allows(Cached(STORE, HistoryOf(STORE, run), sched, [], Request(GUEST, {}, depth)))
  {
    hide Cached, HistoryOf, GoalsKnown;
    StoreIsLayered();
    var X := MeaningOf(STORE, Level);
    MeaningExists(STORE, Level);
    AnneIsGuest(X);
    var maybe := X + Looping(STORE, Members());
    MembershipLoops();
    GrantedIsFixpoint(STORE, maybe, GUEST);
    GuestRule(maybe, Granted(STORE, maybe));
    ComputesTheSure(STORE, Members(), X, run, sched, GUEST, depth);
  }

  // ---- One evaluation -----------------------------------------------------

  /** Outcomes arrive in launch order, no read fails, nothing is cached. */
  const QUIET: Schedule := path => Choice([], None, None)

  const FLAGGED := Resp(Response(false, true))

  lemma UnionFlagged(outs: seq<Outcome>)
    requires |outs| > 0 && outs[|outs| - 1] == FLAGGED
    requires forall i :: 0 <= i < |outs| - 1 ==> outs[i] == Resp(Response(false, false))
    ensures UnionOf(Arrange(outs, [])) == FLAGGED
  {
    UnionMeaning(outs);
    assert outs[|outs| - 1] in outs;
  }

  ghost predicate ComesBackFlagged(g: Goal, visited: set<Goal>, depth: nat)
    requires Closed(STORE) && Known(STORE, g)
  {
    forall path :: Cached(STORE, {}, QUIET, path, Request(g, visited, depth)) == FLAGGED
  }

  lemma ExpandedFlagged(g: Goal, other: Goal, visited: set<Goal>, depth: nat, path: seq<nat>)
    requires Closed(STORE) && (g, other) in {(IN_GROUP, IN_TEAM), (IN_TEAM, IN_GROUP)}
    requires ComesBackFlagged(other, visited, depth + 1)
    ensures Expanded(STORE, {}, QUIET, path, Request(g, visited, depth), [User(other.obj, "member")]) == FLAGGED
  {
    hide Cached, UnionOf, Arrange;
    var rows := [User(other.obj, "member")];
    assert UsersetMessages(rows, ANNE) == Messages([other], false) by {
      assert UsersetMessages(rows[1..], ANNE) == Messages([], false);
    }
    var req := Request(g, visited, depth);
    var outs := Dispatches(STORE, {}, QUIET, path, req, [other]);
    assert outs[0] == Cached(STORE, {}, QUIET, path + [0], Request(other, visited, depth + 1));
    assert outs + [] == outs;
    UnionFlagged(outs);
  }

  lemma RowsOf(g: Goal, other: Goal)
    requires (g, other) in {(IN_GROUP, IN_TEAM), (IN_TEAM, IN_GROUP)}
    ensures Rows(STORE.tuples, g.obj, "member") == [User(other.obj, "member")]
    ensures OfRefs([User(other.obj, "member")], [Ref(other.obj.kind, "member")]) == [User(other.obj, "member")]
  {
    var t0 := STORE.tuples;
    var t1 := t0[1..];
    var t2 := t1[1..];
    assert t2[1..] == [] && Rows(t2[1..], g.obj, "member") == [];
    assert t2[0] == Tuple(TEAM, "member", User(GROUP, "member"));
    assert t1[0] == Tuple(GROUP, "member", User(TEAM, "member"));
    assert Rows(t2, g.obj, "member") == if g == IN_TEAM then [User(GROUP, "member")] else [];
    assert Rows(t1, g.obj, "member") == [User(other.obj, "member")];
    assert OfRefs([User(other.obj, "member")][1..], [Ref(other.obj.kind, "member")]) == [];
  }

  lemma OneGroup(g: Goal, other: Goal)
    requires (g, other) in {(IN_GROUP, IN_TEAM), (IN_TEAM, IN_GROUP)}
    ensures Groups(STORE, Target(g), "user", UsersetRefs(STORE, Target(g))) == [[Ref(other.obj.kind, "member")]]
  {
    var refs := UsersetRefs(STORE, Target(g));
    assert refs == [Ref(other.obj.kind, "member")];
    assert refs[1..] == [];
    assert Own(STORE, Target(g), "user", refs) == [];
    assert Remaining(STORE, Target(g), "user", refs) == refs;
  }

  lemma DirectFlagged(g: Goal, other: Goal, visited: set<Goal>, depth: nat, path: seq<nat>)
    requires Closed(STORE) && (g, other) in {(IN_GROUP, IN_TEAM), (IN_TEAM, IN_GROUP)}
    requires ComesBackFlagged(other, visited, depth + 1)
    ensures Direct(STORE, {}, QUIET, path, Request(g, visited, depth)) == FLAGGED
  {
    hide ComesBackFlagged, Expanded, UnionOf, Arrange, Rows, OfRefs, Groups, Closed;
    var req := Request(g, visited, depth);
    RowsOf(g, other);
    OneGroup(g, other);
    ExpandedFlagged(g, other, visited, depth, path + [2] + [0]);
    var rows := Rows(STORE.tuples, g.obj, g.relation);
    var groups := Groups(STORE, Target(g), "user", UsersetRefs(STORE, Target(g)));
    var outs := ExpandedGroups(STORE, {}, QUIET, path + [2], req, rows, groups);
    assert outs == [FLAGGED];
    UnionFlagged(outs);
    assert Usersets(STORE, {}, QUIET, path + [2], req) == FLAGGED;
    var handlers := DirectHandlers(STORE, {}, QUIET, path, req);
    assert Tuple(g.obj, "member", ANNE) !in STORE.tuples;
    assert handlers == [Resp(Response(false, false)), FLAGGED];
    UnionFlagged(handlers);
  }

  lemma MemberFlagged(g: Goal, other: Goal, visited: set<Goal>, depth: nat, path: seq<nat>)
    requires Closed(STORE) && (g, other) in {(IN_GROUP, IN_TEAM), (IN_TEAM, IN_GROUP)} && depth < 24
    requires g !in visited && ComesBackFlagged(other, visited + {g}, depth + 1)
    ensures Local(STORE, {}, QUIET, path, Request(g, visited, depth)) == FLAGGED
  {
    hide ComesBackFlagged, Direct;
    DirectFlagged(g, other, visited + {g}, depth, path + [0]);
    assert STORE.rewrites[Target(g)] == This;
  }

  lemma CutFlagged(g: Goal, visited: set<Goal>, depth: nat)
    requires Closed(STORE) && Known(STORE, g) && g in visited && depth < 25
    ensures ComesBackFlagged(g, visited, depth)
  {
    forall path ensures Cached(STORE, {}, QUIET, path, Request(g, visited, depth)) == FLAGGED {
      assert Local(STORE, {}, QUIET, path, Request(g, visited, depth)) == FLAGGED;
    }
  }

  lemma BaseAllows(path: seq<nat>)
    requires Closed(STORE)
    ensures Direct(STORE, {}, QUIET, path, Request(GUEST, {GUEST}, 0)) == Resp(Response(true, false))
  {
    var allowed := Resp(Response(true, false));
    assert STORE.tuples[0] == Tuple(GROUP, "guest", ANNE);
    assert UsersetRefs(STORE, Target(GUEST)) == [];
    assert DirectHandlers(STORE, {}, QUIET, path, Request(GUEST, {GUEST}, 0)) == [allowed];
    assert UnionOf([allowed]) == allowed;
  }

  /** And one of these answers: the loop is cut, the flag rises, the exclusion denies. */
  lemma GuestAnswer()
    ensures Closed(STORE) && Known(STORE, GUEST)
    ensures Cached(STORE, {}, QUIET, [], Request(GUEST, {}, 0)) == FLAGGED
  {
    hide Layered, PlainBelow, Direct;
    StoreIsLayered();
    CutFlagged(IN_GROUP, {GUEST} + {IN_GROUP} + {IN_TEAM}, 2);
    forall path ensures Cached(STORE, {}, QUIET, path, Request(IN_TEAM, {GUEST} + {IN_GROUP}, 1)) == FLAGGED {
      MemberFlagged(IN_TEAM, IN_GROUP, {GUEST} + {IN_GROUP}, 1, path);
    }
    assert ComesBackFlagged(IN_TEAM, {GUEST} + {IN_GROUP}, 1);
    var inner := Request(GUEST, {} + {GUEST}, 0);
    assert inner == Request(GUEST, {GUEST}, 0);
    MemberFlagged(IN_GROUP, IN_TEAM, {GUEST}, 0, [0] + [1] + [0]);
    BaseAllows([0] + [0]);
    var rw := STORE.rewrites[Target(GUEST)];
    assert rw == Difference(This, Computed("member"));
    assert Rewritten(STORE, {}, QUIET, [0] + [0], inner, rw.base) == Resp(Response(true, false));
    assert Rewritten(STORE, {}, QUIET, [0] + [1], inner, rw.subtract) == FLAGGED;
    assert [] + [0] == [0];
    assert Rewritten(STORE, {}, QUIET, [] + [0], inner, rw) == FLAGGED;
  }
}
