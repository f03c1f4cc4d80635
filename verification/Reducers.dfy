/**
 The v1 check reducers: how the outcomes of concurrently evaluated operands
 are combined, in whatever order they arrive.
 */
module Reducers {
  import opened Options

  datatype Err =
    | DepthExceeded
    | RelationUndefined
    | BadArity
    | ReadFailed(code: nat)

  datatype Response = Response(allowed: bool, cycle: bool)

  datatype Outcome = Resp(response: Response) | Fail(err: Err)

  // ---- Arrival order ------------------------------------------------------

  /** `order` lists every index below `n` exactly as often as there are indices. */
  predicate IsPermutation(order: seq<nat>, n: nat) {
    && |order| == n
    && (forall j :: 0 <= j < n ==> order[j] < n)
    && (forall i :: 0 <= i < n ==> i in order)
  }

  /** The outcomes as they arrive. An `order` that is no permutation stands for launch order. */
  function Arrange(outs: seq<Outcome>, order: seq<nat>): (arrived: seq<Outcome>)
    ensures |arrived| == |outs|
    ensures forall o :: o in arrived <==> o in outs
  {
    if IsPermutation(order, |outs|) then
      var arrived := seq(|outs|, j requires 0 <= j < |outs| => outs[order[j]]);
      assert forall o | o in outs :: o in arrived by {
        forall o | o in outs ensures o in arrived {
          var i :| 0 <= i < |outs| && outs[i] == o;
          assert (i as nat) in order;
          var j :| 0 <= j < |order| && order[j] == i;
          assert arrived[j] == o;
        }
      }
      arrived
    else outs
  }

  // ---- union --------------------------------------------------------------

  predicate Allows(o: Outcome) {
    o.Resp? && o.response.allowed
  }

  predicate NoneAllows(outs: seq<Outcome>) {
    forall o :: o in outs ==> !Allows(o)
  }

  /** What `union` (and `consumeDispatches`) answers from the outcomes still to come. */
  function UnionFrom(outs: seq<Outcome>, err: Option<Err>, cycle: bool): Outcome {
    if outs == [] then
      if err.Some? then Fail(err.value) else Resp(Response(false, cycle))
    else
      match outs[0]
      case Fail(e) => UnionFrom(outs[1..], Some(e), cycle)
      case Resp(r) =>
        if r.allowed then outs[0] else UnionFrom(outs[1..], err, cycle || r.cycle)
  }

  function UnionOf(outs: seq<Outcome>): Outcome {
    UnionFrom(outs, None, false)
  }

  method Union(outs: seq<Outcome>) returns (out: Outcome)
    ensures out == UnionOf(outs)
  {
    var finalErr: Option<Err> := None;
    var finalCycle := false;
    for i := 0 to |outs|
      invariant UnionFrom(outs[i..], finalErr, finalCycle) == UnionOf(outs)
    {
      match outs[i] {
        case Fail(e) => finalErr := Some(e);
        case Resp(r) =>
          if r.cycle {
            finalCycle := true;
          }
          if r.allowed {
            return outs[i];
          }
      }
    }
    return if finalErr.Some? then Fail(finalErr.value) else Resp(Response(false, finalCycle));
  }

  /** The consumer loop of the default strategy: an Allowed outcome also clears an earlier error. */
  method ConsumeDispatches(outs: seq<Outcome>) returns (out: Outcome)
    ensures out == UnionOf(outs)
  {
    var finalErr: Option<Err> := None;
    var finalResult := Response(false, false);
    var i := 0;
    while i < |outs|
      invariant 0 <= i <= |outs|
      invariant !finalResult.allowed
      invariant UnionFrom(outs[i..], finalErr, finalResult.cycle) == UnionOf(outs)
    {
      match outs[i] {
        case Fail(e) => finalErr := Some(e);
        case Resp(r) =>
          if r.cycle {
            finalResult := finalResult.(cycle := true);
          }
          if r.allowed {
            finalErr := None;
            finalResult := r;
            break;
          }
      }
      i := i + 1;
    }
    return if finalErr.Some? then Fail(finalErr.value) else Resp(finalResult);
  }

  predicate NoneFails(outs: seq<Outcome>) {
    forall o :: o in outs ==> o.Resp?
  }

  /** `o` is the failure that arrives last. */
  predicate IsLastFailure(o: Outcome, outs: seq<Outcome>) {
    exists i :: 0 <= i < |outs| && outs[i] == o && o.Fail? && NoneFails(outs[i + 1..])
  }

  /** `o` is the failure that arrives first. */
  predicate IsFirstFailure(o: Outcome, outs: seq<Outcome>) {
    exists i :: 0 <= i < |outs| && outs[i] == o && o.Fail? && NoneFails(outs[..i])
  }

  lemma {:induction false} UnionFromMeaning(outs: seq<Outcome>, err: Option<Err>, cycle: bool)
    ensures var r := UnionFrom(outs, err, cycle);
            && ((r in outs && Allows(r)) || NoneAllows(outs))
            && (NoneAllows(outs) ==>
                  && (r.Fail? <==> err.Some? || exists o :: o in outs && o.Fail?)
                  && (r.Resp? ==>
                        && !r.response.allowed
                        && (r.response.cycle <==> cycle || exists o :: o in outs && o.Resp? && o.response.cycle)))
  {
    if outs != [] {
      assert outs[0] in outs && outs == [outs[0]] + outs[1..];
      match outs[0] {
        case Fail(e) => UnionFromMeaning(outs[1..], Some(e), cycle);
        case Resp(r) => UnionFromMeaning(outs[1..], err, cycle || r.cycle);
      }
    }
  }

  lemma {:induction false} UnionFromError(outs: seq<Outcome>, err: Option<Err>, cycle: bool)
    ensures var r := UnionFrom(outs, err, cycle);
            r.Fail? ==> IsLastFailure(r, outs) || (err == Some(r.err) && NoneFails(outs))
  {
    if outs != [] {
      assert outs == [outs[0]] + outs[1..];
      var err' := if outs[0].Fail? then Some(outs[0].err) else err;
      var cycle' := if outs[0].Resp? then cycle || outs[0].response.cycle else cycle;
      UnionFromError(outs[1..], err', cycle');
      var r := UnionFrom(outs[1..], err', cycle');
      if IsLastFailure(r, outs[1..]) {
        var i :| 0 <= i < |outs[1..]| && outs[1..][i] == r && r.Fail? && NoneFails(outs[1..][i + 1..]);
        assert outs[i + 1 + 1..] == outs[1..][i + 1..];
      } else if r.Fail? && outs[0].Fail? {
        assert outs[0 + 1..] == outs[1..];
      }
    }
  }

  /** An Allowed outcome wins over everything; without one, the last error does; cycle flags accumulate. */
  lemma UnionMeaning(outs: seq<Outcome>)
    ensures var r := UnionOf(outs);
            && ((r in outs && Allows(r)) || NoneAllows(outs))
            && (r.Fail? ==> IsLastFailure(r, outs))
            && (NoneAllows(outs) ==>
                  && (r.Fail? <==> exists o :: o in outs && o.Fail?)
                  && (r.Resp? ==>
                        && !r.response.allowed
                        && (r.response.cycle <==> exists o :: o in outs && o.Resp? && o.response.cycle)))
  {
    UnionFromMeaning(outs, None, false);
    UnionFromError(outs, None, false);
  }

  // ---- intersection -------------------------------------------------------

  predicate Refutes(o: Outcome) {
    o.Resp? && (o.response.cycle || !o.response.allowed)
  }

  /** What `intersection` answers from the outcomes still to come. */
  function IntersectionFrom(outs: seq<Outcome>, err: Option<Err>): Outcome {
    if outs == [] then
      if err.Some? then Fail(err.value) else Resp(Response(true, false))
    else if Refutes(outs[0]) then
      Resp(Response(false, outs[0].response.cycle))
    else
      IntersectionFrom(outs[1..], if outs[0].Fail? && err.None? then Some(outs[0].err) else err)
  }

  function IntersectionOf(outs: seq<Outcome>): Outcome {
    if |outs| < 2 then Fail(BadArity) else IntersectionFrom(outs, None)
  }

  method Intersection(outs: seq<Outcome>) returns (out: Outcome)
    ensures out == IntersectionOf(outs)
  {
    if |outs| < 2 {
      return Fail(BadArity);
    }
    var finalErr: Option<Err> := None;
    for i := 0 to |outs|
      invariant IntersectionFrom(outs[i..], finalErr) == IntersectionOf(outs)
    {
      match outs[i] {
        case Fail(e) =>
          if finalErr.None? {
            finalErr := Some(e);
          }
        case Resp(r) =>
          if r.cycle || !r.allowed {
            return Resp(Response(false, r.cycle));
          }
      }
    }
    return if finalErr.Some? then Fail(finalErr.value) else Resp(Response(true, false));
  }

  lemma {:induction false} IntersectionFromMeaning(outs: seq<Outcome>, err: Option<Err>)
    ensures var r := IntersectionFrom(outs, err);
            && (r.Resp? && r.response.allowed <==>
                  err.None? && forall o | o in outs :: o.Resp? && !Refutes(o))
            && (r.Resp? && !r.response.allowed <==> exists o :: o in outs && Refutes(o))
            && (r.Resp? ==> !(r.response.allowed && r.response.cycle))
            && (r.Resp? && !r.response.allowed ==>
                  exists o :: o in outs && Refutes(o) && o.response.cycle == r.response.cycle)
  {
    if outs != [] {
      assert outs == [outs[0]] + outs[1..];
      if !Refutes(outs[0]) {
        IntersectionFromMeaning(outs[1..], if outs[0].Fail? && err.None? then Some(outs[0].err) else err);
      }
    }
  }

  lemma {:induction false} IntersectionFromError(outs: seq<Outcome>, err: Option<Err>)
    ensures var r := IntersectionFrom(outs, err);
            r.Fail? ==> if err.Some? then r.err == err.value else IsFirstFailure(r, outs)
  {
    if outs != [] && !Refutes(outs[0]) {
      assert outs == [outs[0]] + outs[1..];
      var err' := if outs[0].Fail? && err.None? then Some(outs[0].err) else err;
      IntersectionFromError(outs[1..], err');
      var r := IntersectionFrom(outs[1..], err');
      if r.Fail? && err.None? {
        if outs[0].Fail? {
          assert outs[..0] == [];
        } else {
          var i :| 0 <= i < |outs[1..]| && outs[1..][i] == r && NoneFails(outs[1..][..i]);
          assert outs[..i + 1] == [outs[0]] + outs[1..][..i];
        }
      }
    }
  }

  /** One refuting outcome decides; otherwise the first error decides; otherwise all agreed. */
  lemma IntersectionMeaning(outs: seq<Outcome>)
    requires |outs| >= 2
    ensures var r := IntersectionOf(outs);
            && (r.Fail? ==> IsFirstFailure(r, outs))
            && (r.Resp? && r.response.allowed <==> forall o | o in outs :: o.Resp? && !Refutes(o))
            && (r.Resp? && !r.response.allowed <==> exists o :: o in outs && Refutes(o))
            && (r.Resp? ==> !(r.response.allowed && r.response.cycle))
            && (r.Resp? && !r.response.allowed ==>
                  exists o :: o in outs && Refutes(o) && o.response.cycle == r.response.cycle)
  {
    IntersectionFromMeaning(outs, None);
    IntersectionFromError(outs, None);
  }

  // ---- exclusion ----------------------------------------------------------

  predicate RefutesSubtract(o: Outcome) {
    o.Resp? && (o.response.cycle || o.response.allowed)
  }

  /** The two-channel loop of `exclusion`; `baseFirst` says which operand arrives first. */
  method Exclusion(base: Outcome, sub: Outcome, baseFirst: bool) returns (out: Outcome)
    ensures out == ExclusionOf(base, sub, baseFirst)
  {
    var baseErr: Option<Err>, subErr: Option<Err> := None, None;
    var received := 0;
    var baseDue, subDue := true, true;
    while received < 2
      invariant 0 <= received <= 2
      invariant received == (if baseDue then 0 else 1) + (if subDue then 0 else 1)
      invariant received == 1 ==> baseDue != baseFirst
      invariant !baseDue ==> !Refutes(base) && baseErr == ErrorOf(base)
      invariant !subDue ==> !RefutesSubtract(sub) && subErr == ErrorOf(sub)
      invariant baseDue ==> baseErr.None?
      invariant subDue ==> subErr.None?
    {
      if baseDue && (baseFirst || !subDue) {
        received, baseDue := received + 1, false;
        if base.Fail? {
          baseErr := Some(base.err);
          continue;
        }
        if base.response.cycle || !base.response.allowed {
          return Resp(Response(false, base.response.cycle));
        }
      } else {
        received, subDue := received + 1, false;
        if sub.Fail? {
          subErr := Some(sub.err);
          continue;
        }
        if sub.response.cycle || sub.response.allowed {
          return Resp(Response(false, sub.response.cycle));
        }
      }
    }
    if baseErr.Some? {
      return Fail(baseErr.value);
    }
    if subErr.Some? {
      return Fail(subErr.value);
    }
    return Resp(Response(true, false));
  }

  function ErrorOf(o: Outcome): Option<Err> {
    if o.Fail? then Some(o.err) else None
  }

  function ExclusionOf(base: Outcome, sub: Outcome, baseFirst: bool): Outcome {
    if Refutes(base) && (baseFirst || !RefutesSubtract(sub)) then Resp(Response(false, base.response.cycle))
    else if RefutesSubtract(sub) then Resp(Response(false, sub.response.cycle))
    else if base.Fail? then base
    else if sub.Fail? then sub
    else Resp(Response(true, false))
  }

  /**
   A refuting operand decides, with its flag; otherwise an error does, the base's before the other;
   otherwise the base allowed and the other operand denied.
   */
  lemma ExclusionMeaning(base: Outcome, sub: Outcome, baseFirst: bool)
    ensures var r := ExclusionOf(base, sub, baseFirst);
            && (r.Resp? && r.response.allowed <==> Allows(base) && !Refutes(base) && sub.Resp? && !RefutesSubtract(sub))
            && (r.Resp? && !r.response.allowed <==> Refutes(base) || RefutesSubtract(sub))
            && (r.Resp? && !r.response.allowed ==>
                  || (Refutes(base) && r.response.cycle == base.response.cycle)
                  || (RefutesSubtract(sub) && r.response.cycle == sub.response.cycle))
            && (r.Resp? && r.response.allowed ==> !r.response.cycle)
            && (r.Fail? ==> r == if base.Fail? then base else sub)
  {}
}
