/** The month bucketers and the discontinuation summary of
    HIVARTRegisterDataSetDefinitionEvaluator: retrieveCorrect6MonthsOb
    (observations within three months of a month offset), the removeAll that
    consumes them, retrieveCorrectMonthsOb (the drugs current at a month
    offset) and getDiscontinuedReasons. */
module Buckets {
  import opened Optional
  import opened Text
  import opened Calendar
  import opened Seqs
  import opened Facts
  import opened Cleansers

  // ---------------------------------------------------------------------
  // Observations near a month offset, and their consumption

  /** The observation lies within three months of month offset `month`. */
  predicate InWindow(o: Obs, anchor: Date, month: int) {
    month - 3 <= Distance(o, anchor) <= month + 3
  }

  function Near(anchor: Date, month: int): Obs -> bool {
    o => InWindow(o, anchor, month)
  }

  /** retrieveCorrect6MonthsOb: the observations whose month distance lies in
      [month - 3, month + 3], in their original order. */
  function ObsNearMonth(obs: seq<Obs>, anchor: Date, month: int): (r: seq<Obs>)
    ensures forall o :: o in r <==> o in obs && month - 3 <= Distance(o, anchor) <= month + 3
    ensures |r| <= |obs|
  {
    Filter(obs, Near(anchor, month))
  }

  /** The selection is exact (every occurrence of an observation in the
      window, none outside it) and keeps the original order. */
  lemma ObsNearMonthExact(obs1: seq<Obs>, obs2: seq<Obs>, anchor: Date, month: int, o: Obs)
    ensures multiset(ObsNearMonth(obs1, anchor, month))[o]
         == if InWindow(o, anchor, month) then multiset(obs1)[o] else 0
    ensures ObsNearMonth(obs1 + obs2, anchor, month)
         == ObsNearMonth(obs1, anchor, month) + ObsNearMonth(obs2, anchor, month)
  {
    FilterCount(obs1, Near(anchor, month), o);
    FilterConcat(obs1, obs2, Near(anchor, month));
  }

  function NotIn(xs: seq<Obs>): Obs -> bool {
    o => o !in xs
  }

  /** List.removeAll: every element equal to one of `xs` leaves the pool. */
  function RemoveAll(pool: seq<Obs>, xs: seq<Obs>): (r: seq<Obs>)
    ensures forall o :: o in r <==> o in pool && o !in xs
    ensures |r| <= |pool|
  {
    Filter(pool, NotIn(xs))
  }

  /** Consuming the matches of one month splits the pool: what is removed is
      exactly the matches, and the remaining pool and the matches
      together hold every observation of the old pool once. */
  lemma ConsumptionPartitions(pool: seq<Obs>, anchor: Date, month: int)
    ensures multiset(RemoveAll(pool, ObsNearMonth(pool, anchor, month)))
          + multiset(ObsNearMonth(pool, anchor, month)) == multiset(pool)
    ensures forall o :: o in RemoveAll(pool, ObsNearMonth(pool, anchor, month)) ==> !InWindow(o, anchor, month)
  {
    var ms := ObsNearMonth(pool, anchor, month);
    var rest := RemoveAll(pool, ms);
    forall o
      ensures multiset(rest)[o] + multiset(ms)[o] == multiset(pool)[o]
    {
      FilterCount(pool, NotIn(ms), o);
      FilterCount(pool, Near(anchor, month), o);
    }
    assert multiset(rest) + multiset(ms) == multiset(pool);
  }

  function InSpan(anchor: Date, low: int, high: int): Obs -> bool {
    o => low < Distance(o, anchor) <= high
  }

  /** The observations with month distance in (low, high], in order. */
  function Between(obs: seq<Obs>, anchor: Date, low: int, high: int): (r: seq<Obs>)
    ensures forall o :: o in r <==> o in obs && low < Distance(o, anchor) <= high
  {
    Filter(obs, InSpan(anchor, low, high))
  }

  /** One observation month on a pool from which every earlier window has
      already been consumed (only distances beyond month - 3 are left):
      the matches are the observations of the original list with distance in
      (month - 3, month + 3], and after removeAll only the distances beyond
      month + 3 remain. */
  lemma ConsumeWindow(p0: seq<Obs>, anchor: Date, month: int)
    ensures ObsNearMonth(Above(p0, anchor, month - 3), anchor, month) == Between(p0, anchor, month - 3, month + 3)
    ensures RemoveAll(Above(p0, anchor, month - 3), ObsNearMonth(Above(p0, anchor, month - 3), anchor, month))
         == Above(p0, anchor, month + 3)
  {
    var pool := Above(p0, anchor, month - 3);
    var ms := ObsNearMonth(pool, anchor, month);
    FilterFilter(p0, LaterThan(anchor, month - 3), Near(anchor, month), InSpan(anchor, month - 3, month + 3));
    FilterFilter(p0, LaterThan(anchor, month - 3), NotIn(ms), LaterThan(anchor, month + 3));
  }

  /** The window of the k-th observation month (month 6k), for a pool that
      started as `p0`: the observations that month consumes. It shows only
      the last of them; the others are removed without being shown. */
  function WindowAt(p0: seq<Obs>, anchor: Date, k: int): seq<Obs> {
    Between(p0, anchor, 6 * k - 3, 6 * k + 3)
  }

  /** At most once, and at least once: an observation kept by the cleanser
      (distance at least 4) falls in (is consumed by) the window of exactly
      one observation month, the one numbered (distance + 2) / 6. That month
      shows only the window's last observation; earlier observations in the
      same window are removed without being shown. */
  lemma InExactlyOneWindow(p0: seq<Obs>, anchor: Date, o: Obs)
    requires o in p0 && Distance(o, anchor) > GraceMonths
    ensures var k := (Distance(o, anchor) + 2) / 6; k >= 1 && o in WindowAt(p0, anchor, k)
    ensures forall j :: j != (Distance(o, anchor) + 2) / 6 ==> o !in WindowAt(p0, anchor, j)
  {
    var d := Distance(o, anchor);
    var k := (d + 2) / 6;
    assert 6 * k - 3 < d <= 6 * k + 3;
    forall j | j != k
      ensures o !in WindowAt(p0, anchor, j)
    {
      if j < k {
        assert 6 * j + 3 <= 6 * k - 3;
      } else {
        assert 6 * j - 3 >= 6 * k + 3;
      }
    }
  }

  /** retrieveCorrect6MonthsOb as the source writes it: a loop that collects
      the observations near the month into a fresh list. */
  method RetrieveCorrect6MonthsOb(month: int, obs: seq<Obs>, anchor: Date) returns (obList: seq<Obs>)
    ensures obList == ObsNearMonth(obs, anchor, month)
  {
    obList := [];
    for i := 0 to |obs|
      invariant obList == Filter(obs[..i], Near(anchor, month))
    {
      assert obs[..i + 1][..i] == obs[..i];
      var monthsFromStart := MonthsDifference(obs[i].obsDatetime, anchor);
      if monthsFromStart >= month - 3 && monthsFromStart <= month + 3 {
        obList := obList + [obs[i]];
      }
    }
    assert obs[..|obs|] == obs;
  }

  // ---------------------------------------------------------------------
  // Drugs current at a month offset

  function CurrentAt(env: Env, date: Date): DrugOrder -> bool {
    o => env.isCurrent(o, date)
  }

  /** The drug names of a list of orders. */
  function Names(orders: seq<DrugOrder>): (r: seq<string>)
    ensures |r| == |orders|
    ensures forall i :: 0 <= i < |orders| ==> r[i] == DrugName(orders[i])
  {
    if orders == [] then [] else Names(orders[..|orders| - 1]) + [DrugName(orders[|orders| - 1])]
  }

  /** The loop of retrieveCorrectMonthsOb: the names of the orders current
      at `date`, each added after a "," unless the text is still empty. */
  function CurrentDrugNames(orders: seq<DrugOrder>, date: Date, env: Env): string {
    if orders == [] then ""
    else
      var acc := CurrentDrugNames(orders[..|orders| - 1], date, env);
      var o := orders[|orders| - 1];
      if env.isCurrent(o, date) then AppendAfterSeparator(acc, ",", DrugName(o)) else acc
  }

  lemma CurrentDrugNamesSnoc(orders: seq<DrugOrder>, o: DrugOrder, date: Date, env: Env)
    ensures CurrentDrugNames(orders + [o], date, env)
         == if env.isCurrent(o, date)
            then AppendAfterSeparator(CurrentDrugNames(orders, date, env), ",", DrugName(o))
            else CurrentDrugNames(orders, date, env)
  {
    assert (orders + [o])[..|orders|] == orders;
  }

  lemma NamesSnoc(orders: seq<DrugOrder>, o: DrugOrder)
    ensures Names(orders + [o]) == Names(orders) + [DrugName(o)]
  {
    assert (orders + [o])[..|orders|] == orders;
  }

  /** The names text is the fold of the names of exactly the current
      orders: orders that are not current contribute nothing. */
  lemma {:induction false} CurrentDrugNamesFold(orders: seq<DrugOrder>, date: Date, env: Env)
    ensures CurrentDrugNames(orders, date, env) == FoldJoin(Names(Filter(orders, CurrentAt(env, date))), ",")
  {
    if orders != [] {
      var init := orders[..|orders| - 1];
      var o := orders[|orders| - 1];
      assert orders == init + [o];
      CurrentDrugNamesFold(init, date, env);
      CurrentDrugNamesSnoc(init, o, date, env);
      FilterSnoc(init, o, CurrentAt(env, date));
      var current := Filter(init, CurrentAt(env, date));
      if env.isCurrent(o, date) {
        NamesSnoc(current, o);
        FoldJoinSnoc(Names(current), ",", DrugName(o));
      }
    }
  }

  /** When no drug name is empty the names text is the current drug names
      joined by ",", and it is empty exactly when no order is current. */
  lemma CurrentDrugNamesJoin(orders: seq<DrugOrder>, date: Date, env: Env)
    requires forall o :: o in orders ==> DrugName(o) != ""
    ensures CurrentDrugNames(orders, date, env) == Join(Names(Filter(orders, CurrentAt(env, date))), ",")
    ensures CurrentDrugNames(orders, date, env) == "" <==> forall o :: o in orders ==> !env.isCurrent(o, date)
  {
    var current := Filter(orders, CurrentAt(env, date));
    CurrentDrugNamesFold(orders, date, env);
    FoldJoinIsJoin(Names(current), ",");
    if current != [] {
      assert current[0] in orders && env.isCurrent(current[0], date);
    }
  }

  /** retrieveCorrectMonthsOb: for month offset `month` the target date is
      anchor + month months. With no anchor, a target not before now, or no
      current order, the text is empty; otherwise it is the current drug
      names, a ";" and the target's "MMM yyyy" label. */
  function DrugsAtMonth(orders: seq<DrugOrder>, anchor: Option<Date>, month: nat, env: Env): (r: string)
    ensures anchor.None? ==> r == ""
    ensures anchor.Some? && !Before(AddMonths(anchor.value, month), env.now) ==> r == ""
    ensures r != "" ==> anchor.Some? && Before(AddMonths(anchor.value, month), env.now)
    ensures r != "" ==>
      var target := AddMonths(anchor.value, month);
      CurrentDrugNames(orders, target, env) != ""
      && r == CurrentDrugNames(orders, target, env) + ";" + MonthYear(target)
    ensures anchor.Some? && Before(AddMonths(anchor.value, month), env.now) ==>
      var target := AddMonths(anchor.value, month);
      CurrentDrugNames(orders, target, env) != "" ==> r == CurrentDrugNames(orders, target, env) + ";" + MonthYear(target)
  {
    match anchor
    case None => ""
    case Some(a) =>
      var target := AddMonths(a, month);
      var names := if Before(target, env.now) then CurrentDrugNames(orders, target, env) else "";
      if |names| > 0 then names + ";" + MonthYear(target) else ""
  }

  /** A non-empty drug cell splits on ";" into at least two parts: the first
      is the names text up to any ";" inside a drug name, and when no name
      holds a ";" the parts are exactly the names and the month label. An
      empty cell splits into one empty part. */
  lemma DrugsAtMonthSplit(orders: seq<DrugOrder>, anchor: Option<Date>, month: nat, env: Env)
    ensures var r := DrugsAtMonth(orders, anchor, month, env);
      r == "" ==> JavaSplit(r, ';') == [""]
    ensures var r := DrugsAtMonth(orders, anchor, month, env);
      r != "" ==>
        var target := AddMonths(anchor.value, month);
        var names := CurrentDrugNames(orders, target, env);
        |JavaSplit(r, ';')| >= 2
        && JavaSplit(r, ';')[0] == Segments(names, ';')[0]
        && (';' !in names ==> JavaSplit(r, ';') == [names, MonthYear(target)])
  {
    var r := DrugsAtMonth(orders, anchor, month, env);
    if r != "" {
      var target := AddMonths(anchor.value, month);
      var names := CurrentDrugNames(orders, target, env);
      assert r == names + [';'] + MonthYear(target);
      SplitLabelled(names, ';', MonthYear(target));
    }
  }

  /** The drug probe can only be non-empty while anchor + month months is
      before now, so only for month offsets up to the month distance of now
      from the anchor. */
  lemma DrugsAtMonthBoundedByNow(orders: seq<DrugOrder>, anchor: Date, month: nat, env: Env)
    requires DrugsAtMonth(orders, Some(anchor), month, env) != ""
    ensures month <= MonthsDifference(env.now, anchor)
  {
    BeforeMonthIndex(AddMonths(anchor, month), env.now);
  }

  /** retrieveCorrectMonthsOb as the source writes it: a loop over the
      orders building the names text, then the month label. */
  method RetrieveCorrectMonthsOb(month: nat, orders: seq<DrugOrder>, anchor: Option<Date>, env: Env)
    returns (drugOrders: string)
    ensures drugOrders == DrugsAtMonth(orders, anchor, month, env)
  {
    drugOrders := "";
    if anchor.Some? {
      var monthDate := AddMonths(anchor.value, month);
      if Before(monthDate, env.now) {
        for i := 0 to |orders|
          invariant drugOrders == CurrentDrugNames(orders[..i], monthDate, env)
        {
          assert orders[..i + 1][..i] == orders[..i];
          var current := orders[i];
          if env.isCurrent(current, monthDate) {
            var drugName := DrugName(current);
            if |drugOrders| > 0 {
              drugOrders := drugOrders + "," + drugName;
            } else {
              drugOrders := drugName;
            }
          }
        }
        assert orders[..|orders|] == orders;
      }
      if |drugOrders| > 0 {
        drugOrders := drugOrders + ";" + MonthYear(monthDate);
      }
    }
  }

  // ---------------------------------------------------------------------
  // Discontinuation summary

  /** The "name - reason" part of an entry: present when the order has both
      a reason and a drug. */
  function NamedPart(o: DrugOrder): string {
    if o.discontinueReason.Some? && o.drug.Some? then o.drug.value + " - " + o.discontinueReason.value else ""
  }

  /** The ":yyyy-MM-dd" part of an entry: present when the order has a stop
      date. */
  function StoppedPart(o: DrugOrder): string {
    if o.dateStopped.Some? then ":" + IsoDay(o.dateStopped.value) else ""
  }

  /** What one discontinued order adds to the summary. */
  function DiscontinuationEntry(o: DrugOrder): string {
    NamedPart(o) + StoppedPart(o)
  }

  function Entries(orders: seq<DrugOrder>): (r: seq<string>)
    ensures |r| == |orders|
    ensures forall i :: 0 <= i < |orders| ==> r[i] == DiscontinuationEntry(orders[i])
  {
    if orders == [] then [] else Entries(orders[..|orders| - 1]) + [DiscontinuationEntry(orders[|orders| - 1])]
  }

  function IsDiscontinued(): DrugOrder -> bool {
    (o: DrugOrder) => o.discontinued
  }

  /** getDiscontinuedReasons: over the discontinued orders only, " , " before
      each once the text is non-empty, then the order's entry. */
  function DiscontinuedReasons(orders: seq<DrugOrder>): string {
    if orders == [] then ""
    else
      var acc := DiscontinuedReasons(orders[..|orders| - 1]);
      var o := orders[|orders| - 1];
      if o.discontinued then AppendAfterSeparator(acc, " , ", DiscontinuationEntry(o)) else acc
  }

  lemma DiscontinuedReasonsSnoc(orders: seq<DrugOrder>, o: DrugOrder)
    ensures DiscontinuedReasons(orders + [o])
         == if o.discontinued
            then AppendAfterSeparator(DiscontinuedReasons(orders), " , ", DiscontinuationEntry(o))
            else DiscontinuedReasons(orders)
  {
    assert (orders + [o])[..|orders|] == orders;
  }

  lemma EntriesSnoc(orders: seq<DrugOrder>, o: DrugOrder)
    ensures Entries(orders + [o]) == Entries(orders) + [DiscontinuationEntry(o)]
  {
    assert (orders + [o])[..|orders|] == orders;
  }

  /** The summary is the fold of the entries of exactly the discontinued
      orders: orders that are not discontinued contribute nothing. */
  lemma {:induction false} DiscontinuedReasonsFold(orders: seq<DrugOrder>)
    ensures DiscontinuedReasons(orders) == FoldJoin(Entries(Filter(orders, IsDiscontinued())), " , ")
  {
    if orders != [] {
      var init := orders[..|orders| - 1];
      var o := orders[|orders| - 1];
      assert orders == init + [o];
      DiscontinuedReasonsFold(init);
      DiscontinuedReasonsSnoc(init, o);
      FilterSnoc(init, o, IsDiscontinued());
      var disc := Filter(init, IsDiscontinued());
      if o.discontinued {
        EntriesSnoc(disc, o);
        FoldJoinSnoc(Entries(disc), " , ", DiscontinuationEntry(o));
      }
    }
  }

  /** When every discontinued order has a non-empty entry, the summary is
      those entries joined by " , ", and it is empty exactly when no order
      is discontinued. */
  lemma DiscontinuedReasonsJoin(orders: seq<DrugOrder>)
    requires forall o :: o in orders && o.discontinued ==> DiscontinuationEntry(o) != ""
    ensures DiscontinuedReasons(orders) == Join(Entries(Filter(orders, IsDiscontinued())), " , ")
    ensures DiscontinuedReasons(orders) == "" <==> forall o :: o in orders ==> !o.discontinued
  {
    var disc := Filter(orders, IsDiscontinued());
    var entries := Entries(disc);
    DiscontinuedReasonsFold(orders);
    forall i | 0 <= i < |entries|
      ensures entries[i] != ""
    {
      assert disc[i] in disc;
    }
    FoldJoinIsJoin(entries, " , ");
    if disc != [] {
      assert disc[0] in disc;
    }
  }

  /** The entry of an order with a drug, a reason and a stop date. */
  lemma FullEntry(o: DrugOrder, name: string, reason: string)
    requires o.drug == Some(name) && o.discontinueReason == Some(reason) && o.dateStopped.Some?
    ensures DiscontinuationEntry(o) == name + " - " + reason + ":" + IsoDay(o.dateStopped.value)
  {
    ConcatAssociative(name + " - " + reason, ":", IsoDay(o.dateStopped.value));
  }

  /** Two discontinued orders, the first with a non-empty entry: the two
      entries separated by " , ". */
  lemma DiscontinuedReasonsPair(first: DrugOrder, second: DrugOrder)
    requires first.discontinued && second.discontinued && DiscontinuationEntry(first) != ""
    ensures DiscontinuedReasons([first, second])
         == DiscontinuationEntry(first) + " , " + DiscontinuationEntry(second)
  {
    DiscontinuedReasonsSnoc([], first);
    assert [] + [first] == [first];
    DiscontinuedReasonsSnoc([first], second);
    assert [first] + [second] == [first, second];
  }

  /** Two discontinued orders with drug, reason and stop date give
      "AZT - toxicity:<stop date> , 3TC - stock-out:<stop date>". */
  lemma DiscontinuedReasonsExample(azt: DrugOrder, lamivudine: DrugOrder)
    requires azt.drug == Some("AZT") && azt.discontinued && azt.discontinueReason == Some("toxicity")
    requires azt.dateStopped.Some?
    requires lamivudine.drug == Some("3TC") && lamivudine.discontinued
    requires lamivudine.discontinueReason == Some("stock-out") && lamivudine.dateStopped.Some?
    ensures DiscontinuedReasons([azt, lamivudine])
         == "AZT - toxicity:" + IsoDay(azt.dateStopped.value)
          + " , 3TC - stock-out:" + IsoDay(lamivudine.dateStopped.value)
  {
    assert "AZT" + " - " + "toxicity" + ":" == "AZT - toxicity:";
    assert "3TC" + " - " + "stock-out" + ":" == "3TC - stock-out:";
    assert " , " + "3TC - stock-out:" == " , 3TC - stock-out:";
    var stop1, stop2 := IsoDay(azt.dateStopped.value), IsoDay(lamivudine.dateStopped.value);
    FullEntry(azt, "AZT", "toxicity");
    FullEntry(lamivudine, "3TC", "stock-out");
    DiscontinuedReasonsPair(azt, lamivudine);
    var head := "AZT - toxicity:" + stop1;
    ConcatAssociative(head + " , ", "3TC - stock-out:", stop2);
    ConcatAssociative(head, " , ", "3TC - stock-out:");
  }

  /** The same with the orders stopped on 10 January and 15 February 2020,
      the text written out in full: each entry carries its own order's
      stop date. */
  lemma DiscontinuedReasonsLiteral(azt: DrugOrder, lamivudine: DrugOrder)
    requires azt.drug == Some("AZT") && azt.discontinued && azt.discontinueReason == Some("toxicity")
    requires azt.dateStopped.Some? && azt.dateStopped.value == DateFields(2020, 0, 10, 0)
    requires lamivudine.drug == Some("3TC") && lamivudine.discontinued
    requires lamivudine.discontinueReason == Some("stock-out")
    requires lamivudine.dateStopped.Some? && lamivudine.dateStopped.value == DateFields(2020, 1, 15, 0)
    ensures DiscontinuedReasons([azt, lamivudine]) == "AZT - toxicity:2020-01-10 , 3TC - stock-out:2020-02-15"
  {
    IsoDayExample();
    DiscontinuedReasonsExample(azt, lamivudine);
    LiteralSummary("AZT - toxicity:", " , 3TC - stock-out:", "2020-01-10", "2020-02-15");
  }

  /** The literal summary's text, concatenated apart from the orders. */
  lemma LiteralSummary(first: string, second: string, day1: string, day2: string)
    requires first == "AZT - toxicity:" && second == " , 3TC - stock-out:"
    requires day1 == "2020-01-10" && day2 == "2020-02-15"
    ensures first + day1 + second + day2 == "AZT - toxicity:2020-01-10 , 3TC - stock-out:2020-02-15"
  {
  }

  /** As written, a discontinued order that contributes no entry after a
      non-empty text still adds the separator, leaving " , " dangling. */
  lemma DiscontinuedReasonsDanglingSeparator(named: DrugOrder, bare: DrugOrder)
    requires named.discontinued && named.drug == Some("AZT") && named.discontinueReason == Some("toxicity")
    requires named.dateStopped.None?
    requires bare.discontinued && bare.discontinueReason.None? && bare.dateStopped.None?
    ensures DiscontinuedReasons([named, bare]) == "AZT - toxicity , "
  {
    assert "AZT" + " - " + "toxicity" == "AZT - toxicity";
    assert "AZT - toxicity" + " , " + "" == "AZT - toxicity , ";
    assert DiscontinuationEntry(named) == "AZT - toxicity" + "";
    assert DiscontinuationEntry(bare) == "";
    DiscontinuedReasonsPair(named, bare);
  }

  /** getDiscontinuedReasons as the source writes it: one pass over the
      orders. */
  method GetDiscontinuedReasons(orders: seq<DrugOrder>) returns (reasons: string)
    ensures reasons == DiscontinuedReasons(orders)
  {
    reasons := "";
    for i := 0 to |orders|
      invariant reasons == DiscontinuedReasons(orders[..i])
    {
      assert orders[..i + 1] == orders[..i] + [orders[i]];
      DiscontinuedReasonsSnoc(orders[..i], orders[i]);
      var o := orders[i];
      if o.discontinued {
        ghost var before := reasons;
        if |reasons| > 0 {
          reasons := reasons + " , ";
        }
        ghost var separated := reasons;
        var reason := o.discontinueReason;
        if reason.Some? && o.drug.Some? {
          reasons := reasons + o.drug.value + " - " + reason.value;
          ConcatAssociative(separated, o.drug.value, " - ");
          ConcatAssociative(separated, o.drug.value + " - ", reason.value);
        }
        assert reasons == separated + NamedPart(o);
        ghost var named := reasons;
        if o.dateStopped.Some? {
          reasons := reasons + ":" + IsoDay(o.dateStopped.value);
          ConcatAssociative(named, ":", IsoDay(o.dateStopped.value));
        }
        assert reasons == named + StoppedPart(o);
        ConcatAssociative(separated, NamedPart(o), StoppedPart(o));
      }
    }
    assert orders[..|orders|] == orders;
  }
}
