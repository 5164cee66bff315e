/** Taking the memory regions of the heap and of stacks out of the regions whose contents
    count as roots of the leak check. */
module Regions {
  /** The addresses from `start` up to but not including `end`. */
  datatype Interval = Interval(start: int, end: int) {
    predicate Has(a: int) { start <= a < end }
  }

  /** A mapped region, the address it was allocated from (0 if unknown) and whether it
      holds a stack. */
  datatype Region = Region(extent: Interval, caller: nat, isStack: bool)

  ghost predicate Covers(pieces: seq<Interval>, a: int) { exists i :: 0 <= i < |pieces| && pieces[i].Has(a) }

  lemma CoversAppend(p: seq<Interval>, q: seq<Interval>, a: int)
    ensures Covers(p + q, a) <==> Covers(p, a) || Covers(q, a)
  {
    if i :| 0 <= i < |p| && p[i].Has(a) {
      assert (p + q)[i].Has(a);
    }
    if i :| 0 <= i < |q| && q[i].Has(a) {
      assert (p + q)[|p| + i].Has(a);
    }
  }

  /** What is left of an interval when a region is cut out of it. */
  function CutOut(i: Interval, r: Interval): (rest: seq<Interval>)
    requires i.start <= i.end && r.start < r.end
    ensures forall k | 0 <= k < |rest| :: rest[k].start < rest[k].end || rest[k] == i
    ensures forall a :: Covers(rest, a) <==> i.Has(a) && !r.Has(a)
  {
    var head, tail := Interval(i.start, r.start), Interval(r.end, i.end);
    if r.start <= i.start && i.end <= r.end then []
    else if i.start < r.start && r.end < i.end then
      assert forall a :: Covers([head, tail], a) <==> [head, tail][0].Has(a) || [head, tail][1].Has(a);
      [head, tail]
    else if r.end > i.start && r.start <= i.start then
      assert forall a :: Covers([tail], a) <==> [tail][0].Has(a);
      [tail]
    else if r.start > i.start && r.start < i.end then
      assert forall a :: Covers([head], a) <==> [head][0].Has(a);
      [head]
    else
      assert forall a :: Covers([i], a) <==> [i][0].Has(a);
      [i]
  }

  ghost predicate Proper(pieces: seq<Interval>) { forall k | 0 <= k < |pieces| :: pieces[k].start <= pieces[k].end }

  /** Cuts one region out of all pieces. */
  method Subtract(pieces: seq<Interval>, region: Interval) returns (rest: seq<Interval>)
    requires Proper(pieces) && region.start < region.end
    ensures Proper(rest)
    ensures forall a :: Covers(rest, a) <==> Covers(pieces, a) && !region.Has(a)
  {
    rest := [];
    for k := 0 to |pieces|
      invariant Proper(rest)
      invariant forall a :: Covers(rest, a) <==> Covers(pieces[..k], a) && !region.Has(a)
    {
      var more := CutOut(pieces[k], region);
      assert pieces[..k + 1] == pieces[..k] + [pieces[k]];
      forall a ensures Covers(rest + more, a) <==> Covers(pieces[..k + 1], a) && !region.Has(a) {
        CoversAppend(rest, more, a);
        CoversAppend(pieces[..k], [pieces[k]], a);
        assert Covers([pieces[k]], a) <==> [pieces[k]][0].Has(a);
      }
      rest := rest + more;
    }
    assert pieces[..|pieces|] == pieces;
  }

  // ---- Which regions are cut out ----

  /** The ranges of special callers, by end address, disjoint. */
  type Callers = map<nat, nat>

  ghost predicate Disjoint(callers: Callers) {
    && (forall e | e in callers :: callers[e] < e)
    && (forall e, f | e in callers && f in callers && e < f :: e <= callers[f])
  }

  /** The caller lies strictly within one of the special ranges. */
  ghost predicate Special(callers: Callers, caller: nat) {
    exists e :: e in callers && callers[e] < caller < e
  }

  /** The least end above the caller, if any. */
  method UpperBound(callers: Callers, caller: nat) returns (found: bool, end: nat)
    ensures found ==> end in callers && end > caller && forall e | e in callers && e > caller :: end <= e
    ensures !found ==> forall e | e in callers :: e <= caller
  {
    found, end := false, 0;
    var rest := callers.Keys;
    while rest != {}
      invariant rest <= callers.Keys
      invariant found ==> end in callers && end > caller && forall e | e in callers && e !in rest && e > caller :: end <= e
      invariant !found ==> forall e | e in callers && e !in rest :: e <= caller
      decreases rest
    {
      var e :| e in rest;
      rest := rest - {e};
      if e > caller && (!found || e < end) {
        found, end := true, e;
      }
    }
  }

  /** A region stays only if it is no stack, its caller is known, and that caller is special. */
  ghost predicate Stays(region: Region, callers: Callers, haveCallers: bool) {
    !region.isStack && haveCallers && region.caller != 0 && Special(callers, region.caller)
  }

  method MustSubtract(region: Region, callers: Callers, haveCallers: bool) returns (subtract: bool)
    requires Disjoint(callers)
    ensures subtract <==> !Stays(region, callers, haveCallers)
  {
    subtract := true;
    if !region.isStack && haveCallers {
      if region.caller != 0 {
        var found, end := UpperBound(callers, region.caller);
        if found && callers[end] < region.caller {
          subtract := false;
        }
      }
    }
  }

  /** Filters the root pieces by all mapped regions: exactly the addresses in regions that
      must go are gone. */
  method Filter(pieces: seq<Interval>, regions: seq<Region>, callers: Callers, haveCallers: bool) returns (rest: seq<Interval>)
    requires Proper(pieces) && Disjoint(callers)
    requires forall k | 0 <= k < |regions| :: regions[k].extent.start < regions[k].extent.end
    ensures Proper(rest)
    ensures forall a :: Covers(rest, a) <==>
      Covers(pieces, a) && forall k | 0 <= k < |regions| && regions[k].extent.Has(a) :: Stays(regions[k], callers, haveCallers)
  {
    hide Covers, Stays;
    rest := pieces;
    for k := 0 to |regions|
      invariant Proper(rest)
      invariant forall a :: Covers(rest, a) <==>
        Covers(pieces, a) && forall j | 0 <= j < k && regions[j].extent.Has(a) :: Stays(regions[j], callers, haveCallers)
    {
      var subtract := MustSubtract(regions[k], callers, haveCallers);
      if subtract {
        rest := Subtract(rest, regions[k].extent);
      }
    }
  }
}
