/** The event cleansers of HIVARTRegisterDataSetDefinitionEvaluator
    (cleanseObsList, cleanseDrugsList): they keep the events that belong
    after the ART anchor date and return an empty list when there is no
    anchor. */
module Cleansers {
  import opened Optional
  import opened Calendar
  import opened Seqs
  import opened Facts

  /** calculateMonthsDifference(o.getObsDatetime(), anchor). */
  function Distance(o: Obs, anchor: Date): int {
    MonthsDifference(o.obsDatetime, anchor)
  }

  function LaterThan(anchor: Date, k: int): Obs -> bool {
    o => Distance(o, anchor) > k
  }

  /** The observations whose month distance from the anchor exceeds k, in
      their original order. */
  function Above(obs: seq<Obs>, anchor: Date, k: int): (r: seq<Obs>)
    ensures forall o :: o in r <==> o in obs && Distance(o, anchor) > k
    ensures |r| <= |obs|
  {
    Filter(obs, LaterThan(anchor, k))
  }

  /** Dropping up to month j and then up to a later month k is dropping up
      to k; in particular once nothing is left beyond j, nothing is left
      beyond k. */
  lemma AboveAbove(obs: seq<Obs>, anchor: Date, j: int, k: int)
    requires j <= k
    ensures Above(Above(obs, anchor, j), anchor, k) == Above(obs, anchor, k)
    ensures Above(obs, anchor, j) == [] ==> Above(obs, anchor, k) == []
  {
    FilterFilter(obs, LaterThan(anchor, j), LaterThan(anchor, k), LaterThan(anchor, k));
  }

  /** The grace window: observations up to three months after the anchor
      month are dropped. */
  const GraceMonths: int := 3

  /** cleanseObsList: without an anchor nothing is kept; otherwise the
      observations more than three months after the anchor month. */
  function CleansedObs(obs: seq<Obs>, anchor: Option<Date>): (r: seq<Obs>)
    ensures anchor.None? ==> r == []
    ensures anchor.Some? ==> forall o :: o in r <==> o in obs && Distance(o, anchor.value) > 3
  {
    match anchor
    case None => []
    case Some(a) => Above(obs, a, GraceMonths)
  }

  /** The cleansed list keeps every occurrence of an observation beyond the
      grace window and none of the others. */
  lemma CleansedObsCount(obs: seq<Obs>, anchor: Date, o: Obs)
    ensures multiset(CleansedObs(obs, Some(anchor)))[o]
         == if Distance(o, anchor) > 3 then multiset(obs)[o] else 0
  {
    FilterCount(obs, LaterThan(anchor, GraceMonths), o);
  }

  /** Cleansing keeps the original order: it works piece by piece. */
  lemma CleansedObsOrder(obs1: seq<Obs>, obs2: seq<Obs>, anchor: Option<Date>)
    ensures CleansedObs(obs1 + obs2, anchor) == CleansedObs(obs1, anchor) + CleansedObs(obs2, anchor)
  {
    if anchor.Some? {
      FilterConcat(obs1, obs2, LaterThan(anchor.value, GraceMonths));
    }
  }

  /** The boundary of the grace window: distance 3 is dropped, 4 is kept. */
  lemma GraceWindowBoundary(o: Obs, anchor: Date)
    ensures Distance(o, anchor) == 3 ==> CleansedObs([o], Some(anchor)) == []
    ensures Distance(o, anchor) == 4 ==> CleansedObs([o], Some(anchor)) == [o]
  {
    assert [o][..0] == [];
  }

  /** The retention test of cleanseDrugsList: the order starts in the same
      YEAR with the same DAY_OF_YEAR as the anchor, or after the anchor. */
  predicate StartsFromAnchorDay(anchor: Date, o: DrugOrder) {
    || (o.effectiveStart.year == anchor.year && DayOfYear(o.effectiveStart) == DayOfYear(anchor))
    || After(o.effectiveStart, anchor)
  }

  function StartsFrom(anchor: Date): DrugOrder -> bool {
    o => StartsFromAnchorDay(anchor, o)
  }

  /** cleanseDrugsList: without an anchor nothing is kept; otherwise the
      orders that pass the retention test, in their original order. */
  function CleansedOrders(orders: seq<DrugOrder>, anchor: Option<Date>): (r: seq<DrugOrder>)
    ensures anchor.None? ==> r == []
    ensures anchor.Some? ==> forall o :: o in r <==> o in orders && StartsFromAnchorDay(anchor.value, o)
  {
    match anchor
    case None => []
    case Some(a) => Filter(orders, StartsFrom(a))
  }

  /** The start day is earlier than the anchor's day, whatever the times. */
  predicate EarlierDay(d: Date, anchor: Date) {
    || d.year < anchor.year
    || (d.year == anchor.year && d.month < anchor.month)
    || (d.year == anchor.year && d.month == anchor.month && d.day < anchor.day)
  }

  /** An order is kept exactly when it starts on the anchor's calendar day
      (even earlier that day) or later; equivalently, when it does not start
      on an earlier day. */
  lemma CleansedOrdersFromAnchorDay(orders: seq<DrugOrder>, anchor: Date, o: DrugOrder)
    ensures o in CleansedOrders(orders, Some(anchor))
        <==> o in orders && (SameDay(o.effectiveStart, anchor) || After(o.effectiveStart, anchor))
    ensures o in CleansedOrders(orders, Some(anchor))
        <==> o in orders && !EarlierDay(o.effectiveStart, anchor)
  {
    if o.effectiveStart.year == anchor.year {
      DayOfYearIdentifiesDay(o.effectiveStart, anchor);
    }
  }

  /** Cleansing orders keeps every occurrence of a retained order and keeps
      the original order of the list. */
  lemma CleansedOrdersExact(orders1: seq<DrugOrder>, orders2: seq<DrugOrder>, anchor: Date, o: DrugOrder)
    ensures multiset(CleansedOrders(orders1, Some(anchor)))[o]
         == if StartsFromAnchorDay(anchor, o) then multiset(orders1)[o] else 0
    ensures CleansedOrders(orders1 + orders2, Some(anchor))
         == CleansedOrders(orders1, Some(anchor)) + CleansedOrders(orders2, Some(anchor))
  {
    FilterCount(orders1, StartsFrom(anchor), o);
    FilterConcat(orders1, orders2, StartsFrom(anchor));
  }

  /** cleanseObsList as the source writes it: a loop that copies the
      observations beyond the grace window into a fresh list. */
  method CleanseObsList(obs: seq<Obs>, anchor: Option<Date>) returns (kept: seq<Obs>)
    ensures kept == CleansedObs(obs, anchor)
  {
    kept := [];
    if anchor.Some? {
      var a := anchor.value;
      for i := 0 to |obs|
        invariant kept == Filter(obs[..i], LaterThan(a, GraceMonths))
      {
        assert obs[..i + 1][..i] == obs[..i];
        if MonthsDifference(obs[i].obsDatetime, a) > 3 {
          kept := kept + [obs[i]];
        }
      }
      assert obs[..|obs|] == obs;
    }
  }

  /** cleanseDrugsList as the source writes it: a loop that copies the
      retained orders into a fresh list. */
  method CleanseDrugsList(orders: seq<DrugOrder>, anchor: Option<Date>) returns (kept: seq<DrugOrder>)
    ensures kept == CleansedOrders(orders, anchor)
  {
    kept := [];
    if anchor.Some? {
      var a := anchor.value;
      for i := 0 to |orders|
        invariant kept == Filter(orders[..i], StartsFrom(a))
      {
        assert orders[..i + 1][..i] == orders[..i];
        var start := orders[i].effectiveStart;
        if (start.year == a.year && DayOfYear(start) == DayOfYear(a)) || After(start, a) {
          kept := kept + [orders[i]];
        }
      }
      assert orders[..|orders|] == orders;
    }
  }
}
